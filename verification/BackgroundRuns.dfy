/** Runs of the cooperative scheduler, for every program, every clock and every order of calls. */
module BackgroundRuns {
  import opened Common
  import opened Background

  function Iota(n: nat): seq<nat> {
    seq(n, i => i)
  }

  /** Steps in the order they were registered. */
  ghost predicate InOrder(live: seq<Poller>, registered: nat) {
    && (forall i, j :: 0 <= i < j < |live| ==> live[i].id < live[j].id)
    && (forall i :: 0 <= i < |live| ==> live[i].id < registered)
  }

  /** Every call of one step came a full interval after the one before, and none after it was done. */
  ghost predicate PairOk(a: Call, b: Call) {
    a.id == b.id ==> !a.done && a.every == b.every && b.at >= a.at + a.every
  }

  ghost predicate LogOk(calls: seq<Call>) {
    forall i, j {:trigger PairOk(calls[i], calls[j])} :: 0 <= i < j < |calls| ==> PairOk(calls[i], calls[j])
  }

  /** A step still registered has never answered done, and is due an interval after its last call. */
  ghost predicate Waits(p: Poller, c: Call) {
    c.id == p.id ==> !c.done && c.every == p.every && c.at + p.every <= p.due
  }

  ghost predicate AllWait(live: seq<Poller>, calls: seq<Call>) {
    forall i, k {:trigger Waits(live[i], calls[k])} :: 0 <= i < |live| && 0 <= k < |calls| ==> Waits(live[i], calls[k])
  }

  ghost predicate IsLive(live: seq<Poller>, id: nat) {
    exists i :: 0 <= i < |live| && live[i].id == id
  }

  ghost predicate IsDone(calls: seq<Call>, id: nat) {
    exists k :: 0 <= k < |calls| && calls[k].id == id && calls[k].done
  }

  /** Part-way through a run: `jobs` are taken but not run, `kept` and `steps` are taken from the polls,
      already tried and still to try. */
  ghost predicate Inv(s: State, jobs: seq<nat>, kept: seq<Poller>, steps: seq<Poller>) {
    var live := kept + steps + s.polling;
    && s.ran + jobs + s.queued == Iota(s.spawned)
    && InOrder(live, s.registered)
    && LogOk(s.calls) && AllWait(live, s.calls)
    && (forall k :: 0 <= k < |s.calls| ==> s.calls[k].id < s.registered)
    && (forall id: nat :: id < s.registered ==> IsLive(live, id) || IsDone(s.calls, id))
  }

  lemma SpawnedKeepsInv(s: State, jobs: seq<nat>, kept: seq<Poller>, steps: seq<Poller>)
    requires Inv(s, jobs, kept, steps)
    ensures Inv(Spawned(s), jobs, kept, steps)
  {
    assert s.ran + jobs + (s.queued + [s.spawned]) == s.ran + jobs + s.queued + [s.spawned];
    assert Iota(s.spawned + 1) == Iota(s.spawned) + [s.spawned];
  }

  lemma RegisteredKeepsInv(w: World, s: State, every: nat, jobs: seq<nat>, kept: seq<Poller>, steps: seq<Poller>)
    requires Inv(s, jobs, kept, steps)
    ensures Inv(Registered(w, s, every), jobs, kept, steps)
  {
    var t := Registered(w, s, every);
    var live, p := kept + steps + s.polling, t.polling[|s.polling|];
    assert kept + steps + t.polling == live + [p];
    LiveAppended(live, p, s.calls, s.registered);
  }

  lemma LiveAppended(live: seq<Poller>, p: Poller, calls: seq<Call>, registered: nat)
    requires InOrder(live, registered) && AllWait(live, calls) && p.id == registered
    requires forall k :: 0 <= k < |calls| ==> calls[k].id < registered
    requires forall id: nat :: id < registered ==> IsLive(live, id) || IsDone(calls, id)
    ensures InOrder(live + [p], registered + 1) && AllWait(live + [p], calls)
    ensures forall id: nat :: id < registered + 1 ==> IsLive(live + [p], id) || IsDone(calls, id)
  {
    var more := live + [p];
    forall i, k | 0 <= i < |more| && 0 <= k < |calls| ensures Waits(more[i], calls[k]) {
      if i < |live| {
        assert Waits(live[i], calls[k]);
      }
    }
    forall id: nat | id < registered + 1 ensures IsLive(more, id) || IsDone(calls, id) {
      if id == registered {
        assert more[|live|].id == id;
      } else if IsLive(live, id) {
        var i :| 0 <= i < |live| && live[i].id == id;
        assert more[i].id == id;
      }
    }
  }

  lemma {:induction false} PerformedKeepsInv(w: World, s: State, effects: seq<Effect>,
                                             jobs: seq<nat>, kept: seq<Poller>, steps: seq<Poller>)
    requires Inv(s, jobs, kept, steps)
    ensures Inv(Performed(w, s, effects), jobs, kept, steps)
  {
    if effects != [] {
      var n := |effects| - 1;
      PerformedKeepsInv(w, s, effects[..n], jobs, kept, steps);
      var t := Performed(w, s, effects[..n]);
      match effects[n]
      case Spawn => SpawnedKeepsInv(t, jobs, kept, steps);
      case Poll(every) => RegisteredKeepsInv(w, t, every, jobs, kept, steps);
    }
  }

  lemma JobRunKeepsInv(w: World, s: State, job: nat, later: seq<nat>)
    requires Inv(s, [job] + later, [], [])
    ensures Inv(JobRun(w, s, job), later, [], [])
  {
    var t := s.(ran := s.ran + [job]);
    assert s.ran + ([job] + later) + s.queued == t.ran + later + t.queued;
    PerformedKeepsInv(w, t, w.job(job), later, [], []);
  }

  lemma {:induction false} JobsRunKeepsInv(w: World, s: State, jobs: seq<nat>, later: seq<nat>)
    requires Inv(s, jobs + later, [], [])
    ensures Inv(JobsRun(w, s, jobs), later, [], [])
  {
    if jobs == [] {
      assert jobs + later == later;
    } else {
      var n := |jobs| - 1;
      assert jobs + later == jobs[..n] + ([jobs[n]] + later);
      JobsRunKeepsInv(w, s, jobs[..n], [jobs[n]] + later);
      JobRunKeepsInv(w, JobsRun(w, s, jobs[..n]), jobs[n], later);
    }
  }

  lemma StepTriedKeepsInv(w: World, s: State, p: Poller, kept: seq<Poller>, later: seq<Poller>)
    requires Inv(s, [], kept, [p] + later)
    ensures var (t, mine) := StepTried(w, s, p); Inv(t, [], kept + mine, later)
  {
    var now := w.clock(s.clockReads);
    var t := s.(clockReads := s.clockReads + 1, looks := s.looks + [Look(p.id, s.clockReads, now >= p.due)]);
    var live := kept + ([p] + later) + s.polling;
    if now < p.due {
      assert kept + [p] + later + t.polling == live;
    } else {
      var outcome := w.step(p.id, p.calls);
      var call := Call(p.id, p.every, now, outcome.done);
      var mine := if outcome.done then [] else [Poller(p.id, p.every, now + p.every, p.calls + 1)];
      var called := t.(calls := t.calls + [call]);
      CallKeepsLive(live, |kept|, s.calls, call, mine, s.registered);
      assert kept + mine + later + called.polling == live[..|kept|] + mine + live[|kept| + 1..];
      assert Inv(called, [], kept + mine, later);
      PerformedKeepsInv(w, called, outcome.effects, [], kept + mine, later);
    }
  }

  /** Calling the step at `at`: it leaves the list when it is done, and is put back an interval later if not. */
  lemma CallKeepsLive(live: seq<Poller>, at: nat, calls: seq<Call>, call: Call, mine: seq<Poller>, registered: nat)
    requires InOrder(live, registered) && at < |live| && AllWait(live, calls) && LogOk(calls)
    requires call.id == live[at].id && call.every == live[at].every && call.at >= live[at].due
    requires if call.done then mine == []
             else |mine| == 1 && mine[0].id == call.id && mine[0].every == call.every && mine[0].due == call.at + call.every
    requires forall id: nat :: id < registered ==> IsLive(live, id) || IsDone(calls, id)
    ensures var next := live[..at] + mine + live[at + 1..];
            && InOrder(next, registered) && AllWait(next, calls + [call]) && LogOk(calls + [call])
            && forall id: nat :: id < registered ==> IsLive(next, id) || IsDone(calls + [call], id)
  {
    var next, log := live[..at] + mine + live[at + 1..], calls + [call];
    forall i, j | 0 <= i < j < |log| ensures PairOk(log[i], log[j]) {
      if j < |calls| {
        assert PairOk(calls[i], calls[j]);
      } else {
        assert Waits(live[at], calls[i]);
      }
    }
    forall i, k | 0 <= i < |next| && 0 <= k < |log| ensures Waits(next[i], log[k]) {
      if i < at || i >= at + |mine| {
        var old_ := if i < at then i else i - |mine| + 1;
        assert next[i] == live[old_];
        assert k < |calls| ==> Waits(live[old_], calls[k]);
      } else {
        assert k < |calls| ==> Waits(live[at], calls[k]);
      }
    }
    forall id: nat | id < registered ensures IsLive(next, id) || IsDone(log, id) {
      StaysAccounted(live, at, calls, call, mine, id);
    }
  }

  lemma StaysAccounted(live: seq<Poller>, at: nat, calls: seq<Call>, call: Call, mine: seq<Poller>, id: nat)
    requires at < |live| && call.id == live[at].id
    requires if call.done then mine == [] else |mine| == 1 && mine[0].id == call.id
    requires IsLive(live, id) || IsDone(calls, id)
    ensures IsLive(live[..at] + mine + live[at + 1..], id) || IsDone(calls + [call], id)
  {
    var next, log := live[..at] + mine + live[at + 1..], calls + [call];
    if IsDone(calls, id) {
      var k :| 0 <= k < |calls| && calls[k].id == id && calls[k].done;
      assert log[k].id == id && log[k].done;
    } else {
      var i :| 0 <= i < |live| && live[i].id == id;
      if i == at && call.done {
        assert log[|calls|].id == id && log[|calls|].done;
      } else {
        var new_ := if i < at then i else if i == at then at else i - 1 + |mine|;
        assert next[new_].id == id;
      }
    }
  }

  lemma {:induction false} StepsTriedKeepsInv(w: World, s: State, steps: seq<Poller>, later: seq<Poller>)
    requires Inv(s, [], [], steps + later)
    ensures var (t, pending) := StepsTried(w, s, steps); Inv(t, [], pending, later)
  {
    if steps == [] {
      assert steps + later == later;
    } else {
      var n := |steps| - 1;
      assert steps + later == steps[..n] + ([steps[n]] + later);
      StepsTriedKeepsInv(w, s, steps[..n], [steps[n]] + later);
      var (t, pending) := StepsTried(w, s, steps[..n]);
      StepTriedKeepsInv(w, t, steps[n], pending, later);
    }
  }

  lemma QueuedRunKeepsInv(w: World, s: State)
    requires Inv(s, [], [], [])
    ensures Inv(QueuedRun(w, s), [], [], [])
  {
    var taken := s.(queued := []);
    assert s.ran + [] + s.queued == taken.ran + (s.queued + []) + taken.queued;
    assert Inv(taken, s.queued + [], [], []);
    JobsRunKeepsInv(w, taken, s.queued, []);
    var t := JobsRun(w, taken, s.queued);
    var emptied := t.(polling := []);
    assert [] + [] + t.polling == [] + (t.polling + []) + emptied.polling;
    assert Inv(emptied, [], [], t.polling + []);
    StepsTriedKeepsInv(w, emptied, t.polling, []);
    var (u, pending) := StepsTried(w, emptied, t.polling);
    assert pending + [] + u.polling == [] + [] + (pending + u.polling);
  }

  // ---- whole runs ----

  datatype Op = SpawnOne | PollOne(every: nat) | RunQueued

  function Run(w: World, ops: seq<Op>): State {
    if ops == [] then START
    else
      var t := Run(w, ops[..|ops| - 1]);
      match ops[|ops| - 1]
      case SpawnOne => Spawned(t)
      case PollOne(every) => Registered(w, t, every)
      case RunQueued => QueuedRun(w, t)
  }

  lemma {:induction false} RunKeepsInv(w: World, ops: seq<Op>)
    ensures Inv(Run(w, ops), [], [], [])
  {
    if ops != [] {
      var t := Run(w, ops[..|ops| - 1]);
      RunKeepsInv(w, ops[..|ops| - 1]);
      match ops[|ops| - 1]
      case SpawnOne => SpawnedKeepsInv(t, [], [], []);
      case PollOne(every) => RegisteredKeepsInv(w, t, every, [], [], []);
      case RunQueued => QueuedRunKeepsInv(w, t);
    }
  }

  /** Every job runs exactly once, in spawn order: what has run and what is queued are together all the
      jobs ever spawned, in order. */
  lemma JobsRunOnceInOrder(w: World, ops: seq<Op>)
    ensures Run(w, ops).ran + Run(w, ops).queued == Iota(Run(w, ops).spawned)
  {
    var s := Run(w, ops);
    RunKeepsInv(w, ops);
    assert s.ran + [] + s.queued == s.ran + s.queued;
  }

  /** One pass runs every job that was waiting when it began, and none that was spawned during it. */
  lemma PassRunsWhatWasQueued(w: World, ops: seq<Op>)
    ensures var s, t := Run(w, ops), QueuedRun(w, Run(w, ops));
            t.ran == s.ran + s.queued && t.ran + t.queued == Iota(t.spawned)
  {
    var s := Run(w, ops);
    RunKeepsInv(w, ops);
    QueuedRunKeepsInv(w, s);
    PassRan(w, s);
    NoneTaken(QueuedRun(w, s));
  }

  lemma NoneTaken(s: State)
    requires Inv(s, [], [], [])
    ensures s.ran + s.queued == Iota(s.spawned)
  {
    assert s.ran + [] + s.queued == s.ran + s.queued;
  }

  lemma PassRan(w: World, s: State)
    ensures QueuedRun(w, s).ran == s.ran + s.queued
  {
    JobsRanAre(w, s.(queued := []), s.queued);
    var mid := JobsRun(w, s.(queued := []), s.queued);
    StepsRunNoJobs(w, mid.(polling := []), mid.polling);
  }

  lemma {:induction false} EffectsRunNoJobs(w: World, s: State, effects: seq<Effect>)
    ensures Performed(w, s, effects).ran == s.ran
  {
    if effects != [] {
      EffectsRunNoJobs(w, s, effects[..|effects| - 1]);
    }
  }

  lemma {:induction false} JobsRanAre(w: World, s: State, jobs: seq<nat>)
    ensures JobsRun(w, s, jobs).ran == s.ran + jobs
  {
    if jobs != [] {
      var n := |jobs| - 1;
      JobsRanAre(w, s, jobs[..n]);
      var t := JobsRun(w, s, jobs[..n]);
      EffectsRunNoJobs(w, t.(ran := t.ran + [jobs[n]]), w.job(jobs[n]));
      assert jobs == jobs[..n] + [jobs[n]];
    }
  }

  lemma {:induction false} StepsRunNoJobs(w: World, s: State, steps: seq<Poller>)
    ensures StepsTried(w, s, steps).0.ran == s.ran
  {
    if steps != [] {
      var n := |steps| - 1;
      StepsRunNoJobs(w, s, steps[..n]);
      var t := StepsTried(w, s, steps[..n]).0;
      var p, now := steps[n], w.clock(t.clockReads);
      var outcome := w.step(p.id, p.calls);
      var called := t.(clockReads := t.clockReads + 1, looks := t.looks + [Look(p.id, t.clockReads, true)],
                       calls := t.calls + [Call(p.id, p.every, now, outcome.done)]);
      EffectsRunNoJobs(w, called, outcome.effects);
    }
  }

  /** No poll is lost or duplicated: every registered step is still polled, exactly once and in the order
      of registration, or it has answered done. */
  lemma PollsAreKept(w: World, ops: seq<Op>, id: nat)
    requires id < Run(w, ops).registered
    ensures IsLive(Run(w, ops).polling, id) <==> !IsDone(Run(w, ops).calls, id)
    ensures forall i, j :: 0 <= i < j < |Run(w, ops).polling| ==> Run(w, ops).polling[i].id < Run(w, ops).polling[j].id
  {
    var s := Run(w, ops);
    RunKeepsInv(w, ops);
    assert [] + [] + s.polling == s.polling;
    LiveIsNotDone(s.polling, s.calls, id);
  }

  lemma LiveIsNotDone(live: seq<Poller>, calls: seq<Call>, id: nat)
    requires AllWait(live, calls)
    ensures !(IsLive(live, id) && IsDone(calls, id))
  {
    forall i, k | 0 <= i < |live| && 0 <= k < |calls| ensures !(live[i].id == id && calls[k].id == id && calls[k].done) {
      assert Waits(live[i], calls[k]);
    }
  }

  /** A step is never called again after it answered done, and its calls are an interval apart. */
  lemma CallsAreSpaced(w: World, ops: seq<Op>, i: nat, j: nat)
    requires i < j < |Run(w, ops).calls| && Run(w, ops).calls[i].id == Run(w, ops).calls[j].id
    ensures !Run(w, ops).calls[i].done
    ensures Run(w, ops).calls[j].at >= Run(w, ops).calls[i].at + Run(w, ops).calls[i].every
  {
    RunKeepsInv(w, ops);
    assert PairOk(Run(w, ops).calls[i], Run(w, ops).calls[j]);
  }
}
