/** When steps are called and what comes of it, read off the registrations, the looks and the clock. */
module BackgroundCalls {
  import opened Common
  import opened Background
  import opened BackgroundRuns

  // ---- the record ----

  /** The reading a step's interval runs from: that of its last call, or of its registration. */
  function Since(begun: seq<Begin>, looks: seq<Look>, id: nat): nat
    requires id < |begun|
  {
    if looks == [] then begun[id].read
    else
      var last := looks[|looks| - 1];
      if last.id == id && last.called then last.read else Since(begun, looks[..|looks| - 1], id)
  }

  function CallCount(looks: seq<Look>, id: nat): nat {
    if looks == [] then 0
    else
      var last := looks[|looks| - 1];
      CallCount(looks[..|looks| - 1], id) + if last.id == id && last.called then 1 else 0
  }

  ghost predicate Known(looks: seq<Look>, registered: nat) {
    forall k :: 0 <= k < |looks| ==> looks[k].id < registered
  }

  /** Called if and only if its interval is over. */
  ghost predicate LookRight(w: World, begun: seq<Begin>, looks: seq<Look>, k: nat)
    requires k < |looks| && looks[k].id < |begun|
  {
    var l := looks[k];
    l.called <==> w.clock(l.read) >= w.clock(Since(begun, looks[..k], l.id)) + begun[l.id].every
  }

  ghost predicate LooksRight(w: World, begun: seq<Begin>, looks: seq<Look>)
    requires Known(looks, |begun|)
  {
    forall k :: 0 <= k < |looks| ==> LookRight(w, begun, looks, k)
  }

  /** The looks that called, each as the next call of its step. */
  function CallsOf(w: World, begun: seq<Begin>, looks: seq<Look>): seq<Call>
    requires Known(looks, |begun|)
  {
    if looks == [] then []
    else
      var init, last := looks[..|looks| - 1], looks[|looks| - 1];
      CallsOf(w, begun, init) +
      if last.called then
        [Call(last.id, begun[last.id].every, w.clock(last.read), w.step(last.id, CallCount(init, last.id)).done)]
      else []
  }

  /** Every reading of the clock is one registration's or one look's. */
  ghost predicate ReadsApart(begun: seq<Begin>, looks: seq<Look>, readings: nat) {
    && |begun| + |looks| == readings
    && (forall i, j :: 0 <= i < j < |begun| ==> begun[i].read < begun[j].read)
    && (forall i, j :: 0 <= i < j < |looks| ==> looks[i].read < looks[j].read)
    && (forall i :: 0 <= i < |begun| ==> begun[i].read < readings)
    && (forall i :: 0 <= i < |looks| ==> looks[i].read < readings)
    && forall i, j :: 0 <= i < |begun| && 0 <= j < |looks| ==> begun[i].read != looks[j].read
  }

  /** A live step is due an interval after its last call or its registration, and knows how often it was called. */
  ghost predicate Dated(w: World, begun: seq<Begin>, looks: seq<Look>, p: Poller) {
    && p.id < |begun| && p.every == begun[p.id].every && p.calls == CallCount(looks, p.id)
    && p.due == w.clock(Since(begun, looks, p.id)) + p.every
  }

  /** What happened so far happened in time. */
  ghost predicate InTime(w: World, s: State) {
    && |s.begun| == s.registered && Known(s.looks, s.registered)
    && LooksRight(w, s.begun, s.looks) && s.calls == CallsOf(w, s.begun, s.looks)
    && ReadsApart(s.begun, s.looks, s.clockReads)
  }

  ghost predicate AllDated(w: World, begun: seq<Begin>, looks: seq<Look>, live: seq<Poller>) {
    && (forall i :: 0 <= i < |live| ==> Dated(w, begun, looks, live[i]))
    && forall i, j :: 0 <= i < j < |live| ==> live[i].id < live[j].id
  }

  ghost predicate Timed(w: World, s: State, live: seq<Poller>) {
    InTime(w, s) && AllDated(w, s.begun, s.looks, live)
  }

  // ---- one more registration ----

  lemma {:induction false} SinceOlder(begun: seq<Begin>, b: Begin, looks: seq<Look>, id: nat)
    requires id < |begun|
    ensures Since(begun + [b], looks, id) == Since(begun, looks, id)
  {
    if looks != [] {
      SinceOlder(begun, b, looks[..|looks| - 1], id);
    }
  }

  lemma {:induction false} NewcomerIsUncalled(begun: seq<Begin>, looks: seq<Look>, id: nat)
    requires id < |begun| && Known(looks, id)
    ensures Since(begun, looks, id) == begun[id].read && CallCount(looks, id) == 0
  {
    if looks != [] {
      NewcomerIsUncalled(begun, looks[..|looks| - 1], id);
    }
  }

  lemma {:induction false} CallsOlder(w: World, begun: seq<Begin>, b: Begin, looks: seq<Look>)
    requires Known(looks, |begun|)
    ensures Known(looks, |begun + [b]|) && CallsOf(w, begun + [b], looks) == CallsOf(w, begun, looks)
  {
    if looks != [] {
      CallsOlder(w, begun, b, looks[..|looks| - 1]);
    }
  }

  lemma RegisteredKeepsTimed(w: World, s: State, every: nat, live: seq<Poller>)
    requires Timed(w, s, live)
    ensures var t := Registered(w, s, every); Timed(w, t, live + [t.polling[|s.polling|]])
  {
    var t, b := Registered(w, s, every), Begin(s.clockReads, every);
    var more := live + [t.polling[|s.polling|]];
    CallsOlder(w, s.begun, b, s.looks);
    NewcomerIsUncalled(t.begun, s.looks, s.registered);
    forall k | 0 <= k < |s.looks| ensures LookRight(w, t.begun, t.looks, k) {
      assert LookRight(w, s.begun, s.looks, k);
      SinceOlder(s.begun, b, s.looks[..k], s.looks[k].id);
    }
    forall i | 0 <= i < |more| ensures Dated(w, t.begun, t.looks, more[i]) {
      if i < |live| {
        assert Dated(w, s.begun, s.looks, live[i]);
        SinceOlder(s.begun, b, s.looks, live[i].id);
      }
    }
    forall i, j | 0 <= i < j < |more| ensures more[i].id < more[j].id {
      assert Dated(w, s.begun, s.looks, live[i]);
    }
  }

  /** `before` are the live steps that are not in the queue of polls just now. */
  lemma {:induction false} PerformedKeepsTimed(w: World, s: State, effects: seq<Effect>, before: seq<Poller>)
    requires Timed(w, s, before + s.polling)
    ensures var t := Performed(w, s, effects); Timed(w, t, before + t.polling)
  {
    if effects != [] {
      var n := |effects| - 1;
      PerformedKeepsTimed(w, s, effects[..n], before);
      var t := Performed(w, s, effects[..n]);
      match effects[n]
      case Spawn => SpawnedKeepsTimed(w, t, before + t.polling);
      case Poll(every) =>
        RegisteredKeepsTimed(w, t, every, before + t.polling);
        var u := Registered(w, t, every);
        assert before + t.polling + [u.polling[|t.polling|]] == before + u.polling;
    }
  }

  lemma SpawnedKeepsTimed(w: World, s: State, live: seq<Poller>)
    requires Timed(w, s, live)
    ensures Timed(w, Spawned(s), live)
  {
  }

  // ---- one more look ----

  lemma LookedOn(begun: seq<Begin>, looks: seq<Look>, l: Look, id: nat)
    requires id < |begun|
    ensures Since(begun, looks + [l], id) == if l.id == id && l.called then l.read else Since(begun, looks, id)
    ensures CallCount(looks + [l], id) == CallCount(looks, id) + if l.id == id && l.called then 1 else 0
  {
    assert (looks + [l])[..|looks|] == looks;
  }

  lemma CallsLookedOn(w: World, begun: seq<Begin>, looks: seq<Look>, l: Look)
    requires Known(looks, |begun|) && l.id < |begun|
    ensures Known(looks + [l], |begun|)
    ensures CallsOf(w, begun, looks + [l]) ==
            CallsOf(w, begun, looks) +
            if l.called then [Call(l.id, begun[l.id].every, w.clock(l.read), w.step(l.id, CallCount(looks, l.id)).done)]
            else []
  {
    assert (looks + [l])[..|looks|] == looks;
  }

  lemma LooksStayRight(w: World, begun: seq<Begin>, looks: seq<Look>, l: Look)
    requires Known(looks, |begun|) && LooksRight(w, begun, looks) && l.id < |begun|
    requires l.called <==> w.clock(l.read) >= w.clock(Since(begun, looks, l.id)) + begun[l.id].every
    ensures Known(looks + [l], |begun|) && LooksRight(w, begun, looks + [l])
  {
    var more := looks + [l];
    forall k | 0 <= k < |more| ensures LookRight(w, begun, more, k) {
      assert more[..k] == looks[..k];
      if k < |looks| {
        assert LookRight(w, begun, looks, k);
      } else {
        assert looks[..k] == looks;
      }
    }
  }

  lemma LookKeepsInTime(w: World, s: State, p: Poller, t: State)
    requires InTime(w, s) && Dated(w, s.begun, s.looks, p)
    requires t.begun == s.begun && t.registered == s.registered && t.clockReads == s.clockReads + 1
    requires var called := w.clock(s.clockReads) >= p.due;
             && t.looks == s.looks + [Look(p.id, s.clockReads, called)]
             && t.calls == s.calls
                           + if !called then []
                             else [Call(p.id, p.every, w.clock(s.clockReads), w.step(p.id, p.calls).done)]
    ensures InTime(w, t)
  {
    var l := Look(p.id, s.clockReads, w.clock(s.clockReads) >= p.due);
    LooksStayRight(w, s.begun, s.looks, l);
    CallsLookedOn(w, s.begun, s.looks, l);
    ReadsLookedOn(s.begun, s.looks, s.clockReads, l);
  }

  /** The live steps after a look at the one at `at`: unchanged if it was not due, else with `mine` in its place. */
  lemma LookKeepsDates(w: World, begun: seq<Begin>, looks: seq<Look>, live: seq<Poller>, at: nat, l: Look, mine: seq<Poller>)
    requires AllDated(w, begun, looks, live) && at < |live|
    requires var p := live[at];
             && l.id == p.id
             && if !l.called then mine == [p]
                else mine == [] || mine == [Poller(p.id, p.every, w.clock(l.read) + p.every, p.calls + 1)]
    ensures AllDated(w, begun, looks + [l], live[..at] + mine + live[at + 1..])
  {
    var next := live[..at] + mine + live[at + 1..];
    NextInOrder(live, at, next, mine);
    assert Dated(w, begun, looks, live[at]);
    LookedOn(begun, looks, l, l.id);
    assert mine != [] ==> Dated(w, begun, looks + [l], mine[0]);
    forall i | 0 <= i < |next| ensures Dated(w, begun, looks + [l], next[i]) {
      if i < at || i >= at + |mine| {
        var old_ := if i < at then i else i - |mine| + 1;
        assert next[i] == live[old_] && Dated(w, begun, looks, live[old_]);
        OtherStaysDated(w, begun, looks, l, live[old_]);
      } else {
        assert next[i] == mine[0];
      }
    }
  }

  lemma OtherStaysDated(w: World, begun: seq<Begin>, looks: seq<Look>, l: Look, p: Poller)
    requires Dated(w, begun, looks, p) && p.id != l.id
    ensures Dated(w, begun, looks + [l], p)
  {
    LookedOn(begun, looks, l, p.id);
  }

  lemma ReadsLookedOn(begun: seq<Begin>, looks: seq<Look>, readings: nat, l: Look)
    requires ReadsApart(begun, looks, readings) && l.read == readings
    ensures ReadsApart(begun, looks + [l], readings + 1)
  {
  }

  lemma NextInOrder(live: seq<Poller>, at: nat, next: seq<Poller>, mine: seq<Poller>)
    requires at < |live| && forall i, j :: 0 <= i < j < |live| ==> live[i].id < live[j].id
    requires |mine| <= 1 && (mine != [] ==> mine[0].id == live[at].id) && next == live[..at] + mine + live[at + 1..]
    ensures forall i, j :: 0 <= i < j < |next| ==> next[i].id < next[j].id
  {
  }

  function Looked(w: World, s: State, p: Poller): State {
    s.(clockReads := s.clockReads + 1, looks := s.looks + [Look(p.id, s.clockReads, w.clock(s.clockReads) >= p.due)])
  }

  lemma Around(kept: seq<Poller>, p: Poller, mine: seq<Poller>, later: seq<Poller>, polling: seq<Poller>)
    ensures var live := kept + ([p] + later) + polling;
            && live[|kept|] == p
            && kept + mine + later + polling == live[..|kept|] + mine + live[|kept| + 1..]
  {
  }

  lemma NotDueKeepsTimed(w: World, s: State, p: Poller, kept: seq<Poller>, later: seq<Poller>)
    requires Timed(w, s, kept + ([p] + later) + s.polling) && w.clock(s.clockReads) < p.due
    ensures Timed(w, Looked(w, s, p), kept + [p] + later + s.polling)
  {
    var live := kept + ([p] + later) + s.polling;
    Around(kept, p, [p], later, s.polling);
    LookKeepsInTime(w, s, p, Looked(w, s, p));
    LookKeepsDates(w, s.begun, s.looks, live, |kept|, Look(p.id, s.clockReads, false), [p]);
  }

  lemma CallKeepsTimed(w: World, s: State, p: Poller, kept: seq<Poller>, later: seq<Poller>, mine: seq<Poller>)
    requires Timed(w, s, kept + ([p] + later) + s.polling) && w.clock(s.clockReads) >= p.due
    requires var now := w.clock(s.clockReads);
             mine == if w.step(p.id, p.calls).done then [] else [Poller(p.id, p.every, now + p.every, p.calls + 1)]
    ensures var call := Call(p.id, p.every, w.clock(s.clockReads), w.step(p.id, p.calls).done);
            Timed(w, Looked(w, s, p).(calls := s.calls + [call]), kept + mine + later + s.polling)
  {
    var live := kept + ([p] + later) + s.polling;
    var call := Call(p.id, p.every, w.clock(s.clockReads), w.step(p.id, p.calls).done);
    Around(kept, p, mine, later, s.polling);
    LookKeepsInTime(w, s, p, Looked(w, s, p).(calls := s.calls + [call]));
    LookKeepsDates(w, s.begun, s.looks, live, |kept|, Look(p.id, s.clockReads, true), mine);
  }

  lemma StepTriedKeepsTimed(w: World, s: State, p: Poller, kept: seq<Poller>, later: seq<Poller>)
    requires Timed(w, s, kept + ([p] + later) + s.polling)
    ensures var (t, mine) := StepTried(w, s, p); Timed(w, t, kept + mine + later + t.polling)
  {
    var now := w.clock(s.clockReads);
    if now < p.due {
      NotDueKeepsTimed(w, s, p, kept, later);
    } else {
      var outcome := w.step(p.id, p.calls);
      var mine := if outcome.done then [] else [Poller(p.id, p.every, now + p.every, p.calls + 1)];
      CallKeepsTimed(w, s, p, kept, later, mine);
      var called := Looked(w, s, p).(calls := s.calls + [Call(p.id, p.every, now, outcome.done)]);
      PerformedKeepsTimed(w, called, outcome.effects, kept + mine + later);
    }
  }

  lemma {:induction false} StepsTriedKeepTimed(w: World, s: State, steps: seq<Poller>, later: seq<Poller>)
    requires Timed(w, s, [] + (steps + later) + s.polling)
    ensures var (t, pending) := StepsTried(w, s, steps); Timed(w, t, pending + later + t.polling)
  {
    if steps == [] {
      assert [] + (steps + later) + s.polling == [] + later + s.polling;
    } else {
      var n := |steps| - 1;
      assert steps + later == steps[..n] + ([steps[n]] + later);
      StepsTriedKeepTimed(w, s, steps[..n], [steps[n]] + later);
      var (t, pending) := StepsTried(w, s, steps[..n]);
      StepTriedKeepsTimed(w, t, steps[n], pending, later);
    }
  }

  lemma {:induction false} JobsRunKeepTimed(w: World, s: State, jobs: seq<nat>)
    requires Timed(w, s, [] + s.polling)
    ensures var t := JobsRun(w, s, jobs); Timed(w, t, [] + t.polling)
  {
    if jobs != [] {
      var n := |jobs| - 1;
      JobsRunKeepTimed(w, s, jobs[..n]);
      var t := JobsRun(w, s, jobs[..n]);
      PerformedKeepsTimed(w, t.(ran := t.ran + [jobs[n]]), w.job(jobs[n]), []);
    }
  }

  /** Which of the live steps stand in the queue does not matter. */
  lemma AnyQueueIsTimed(w: World, s: State, live: seq<Poller>, queued: seq<nat>, polling: seq<Poller>)
    requires Timed(w, s, live)
    ensures Timed(w, s.(queued := queued, polling := polling), live)
  {
  }

  lemma QueuedRunKeepsTimed(w: World, s: State)
    requires Timed(w, s, s.polling)
    ensures Timed(w, QueuedRun(w, s), QueuedRun(w, s).polling)
  {
    assert [] + s.polling == s.polling;
    AnyQueueIsTimed(w, s, s.polling, [], s.polling);
    JobsRunKeepTimed(w, s.(queued := []), s.queued);
    var t := JobsRun(w, s.(queued := []), s.queued);
    StepsTakenKeepTimed(w, t);
  }

  lemma StepsTakenKeepTimed(w: World, t: State)
    requires Timed(w, t, [] + t.polling)
    ensures var (u, pending) := StepsTried(w, t.(polling := []), t.polling);
            Timed(w, u.(polling := pending + u.polling), pending + u.polling)
  {
    var emptied := t.(polling := []);
    AnyQueueIsTimed(w, t, [] + t.polling, t.queued, []);
    assert [] + (t.polling + []) + emptied.polling == [] + t.polling;
    StepsTriedKeepTimed(w, emptied, t.polling, []);
    var (u, pending) := StepsTried(w, emptied, t.polling);
    assert pending + [] + u.polling == pending + u.polling;
    AnyQueueIsTimed(w, u, pending + u.polling, u.queued, pending + u.polling);
  }

  lemma {:induction false} RunIsTimed(w: World, ops: seq<Op>)
    ensures Timed(w, Run(w, ops), Run(w, ops).polling)
  {
    if ops != [] {
      var t := Run(w, ops[..|ops| - 1]);
      RunIsTimed(w, ops[..|ops| - 1]);
      match ops[|ops| - 1]
      case SpawnOne => SpawnedKeepsTimed(w, t, t.polling);
      case PollOne(every) =>
        RegisteredKeepsTimed(w, t, every, t.polling);
      case RunQueued => QueuedRunKeepsTimed(w, t);
    }
  }

  // ---- what the record says ----

  /** A step that is looked at is called if and only if its interval is over since its last call, or since its
      registration if it was never called; the log of calls has exactly these, each the next call of its step. */
  lemma CalledExactlyWhenDue(w: World, ops: seq<Op>, k: nat)
    requires k < |Run(w, ops).looks|
    ensures var s := Run(w, ops);
            var l := s.looks[k];
            && l.id < |s.begun| == s.registered && Known(s.looks, |s.begun|) && s.calls == CallsOf(w, s.begun, s.looks)
            && (l.called <==>
                w.clock(l.read) >= w.clock(Since(s.begun, s.looks[..k], l.id)) + s.begun[l.id].every)
  {
    RunIsTimed(w, ops);
    assert LookRight(w, Run(w, ops).begun, Run(w, ops).looks, k);
  }

  /** No step is called before an interval has passed since its registration. */
  lemma NeverCalledEarly(w: World, ops: seq<Op>, k: nat)
    requires k < |Run(w, ops).looks| && Run(w, ops).looks[k].called
    ensures var s := Run(w, ops);
            var l := s.looks[k];
            l.id < |s.begun| && w.clock(l.read) >= w.clock(s.begun[l.id].read) + s.begun[l.id].every
  {
    RunIsTimed(w, ops);
    CalledLate(w, Run(w, ops).begun, Run(w, ops).looks, k);
  }

  lemma {:induction false} CalledLate(w: World, begun: seq<Begin>, looks: seq<Look>, k: nat)
    requires Known(looks, |begun|) && LooksRight(w, begun, looks) && k < |looks| && looks[k].called
    ensures w.clock(looks[k].read) >= w.clock(begun[looks[k].id].read) + begun[looks[k].id].every
    decreases k
  {
    var l := looks[k];
    assert LookRight(w, begun, looks, k);
    var at := LastCalled(begun, looks[..k], l.id);
    if at.Some? {
      CalledLate(w, begun, looks, at.value);
    }
  }

  /** Which look the interval runs from, if any. */
  lemma {:induction false} LastCalled(begun: seq<Begin>, looks: seq<Look>, id: nat) returns (at: Option<nat>)
    requires id < |begun|
    ensures at.None? ==> Since(begun, looks, id) == begun[id].read
    ensures at.Some? ==>
              && at.value < |looks| && looks[at.value].id == id && looks[at.value].called
              && Since(begun, looks, id) == looks[at.value].read
  {
    at := None;
    if looks != [] {
      var n := |looks| - 1;
      if looks[n].id == id && looks[n].called {
        at := Some(n);
      } else {
        at := LastCalled(begun, looks[..n], id);
      }
    }
  }

  /** Each registration and each look read the clock once, and nothing else did, in the order of the readings. */
  lemma ReadingsAreTheirs(w: World, ops: seq<Op>)
    ensures ReadsApart(Run(w, ops).begun, Run(w, ops).looks, Run(w, ops).clockReads)
  {
    RunIsTimed(w, ops);
  }

  // ---- one pass ----

  function SpawnsIn(effects: seq<Effect>): nat {
    if effects == [] then 0
    else SpawnsIn(effects[..|effects| - 1]) + if effects[|effects| - 1].Spawn? then 1 else 0
  }

  function PollsIn(effects: seq<Effect>): nat {
    if effects == [] then 0
    else PollsIn(effects[..|effects| - 1]) + if effects[|effects| - 1].Poll? then 1 else 0
  }

  function PollsOf(w: World, jobs: seq<nat>): nat {
    if jobs == [] then 0 else PollsOf(w, jobs[..|jobs| - 1]) + PollsIn(w.job(jobs[|jobs| - 1]))
  }

  /** `n` more polls, numbered on from those registered before. */
  ghost predicate Joined(before: seq<Poller>, after: seq<Poller>, registered: nat, n: nat) {
    && |after| == |before| + n && before <= after
    && forall i :: |before| <= i < |after| ==> after[i].id == registered + (i - |before|)
  }

  lemma {:induction false} PerformedAdds(w: World, s: State, effects: seq<Effect>)
    ensures var t := Performed(w, s, effects);
            && t.looks == s.looks && t.calls == s.calls && t.ran == s.ran
            && t.registered == s.registered + PollsIn(effects) && t.spawned == s.spawned + SpawnsIn(effects)
            && Joined(s.polling, t.polling, s.registered, PollsIn(effects))
  {
    if effects != [] {
      PerformedAdds(w, s, effects[..|effects| - 1]);
    }
  }

  lemma {:induction false} JobsAdd(w: World, s: State, jobs: seq<nat>)
    ensures var t := JobsRun(w, s, jobs);
            && t.looks == s.looks && t.calls == s.calls && t.registered == s.registered + PollsOf(w, jobs)
            && Joined(s.polling, t.polling, s.registered, PollsOf(w, jobs))
  {
    if jobs != [] {
      var n := |jobs| - 1;
      JobsAdd(w, s, jobs[..n]);
      var t := JobsRun(w, s, jobs[..n]);
      PerformedAdds(w, t.(ran := t.ran + [jobs[n]]), w.job(jobs[n]));
    }
  }

  lemma StepLooks(w: World, s: State, p: Poller)
    ensures var t := StepTried(w, s, p).0;
            |t.looks| == |s.looks| + 1 && s.looks <= t.looks && t.looks[|s.looks|].id == p.id
  {
    var now, outcome := w.clock(s.clockReads), w.step(p.id, p.calls);
    if now >= p.due {
      PerformedAdds(w, Looked(w, s, p).(calls := s.calls + [Call(p.id, p.every, now, outcome.done)]), outcome.effects);
    }
  }

  lemma {:induction false} StepsLook(w: World, s: State, steps: seq<Poller>)
    ensures var t := StepsTried(w, s, steps).0;
            && |t.looks| == |s.looks| + |steps| && s.looks <= t.looks
            && forall i :: |s.looks| <= i < |t.looks| ==> t.looks[i].id == steps[i - |s.looks|].id
  {
    if steps != [] {
      var n := |steps| - 1;
      StepsLook(w, s, steps[..n]);
      StepLooks(w, StepsTried(w, s, steps[..n]).0, steps[n]);
    }
  }

  ghost predicate LookedAt(looks: seq<Look>, from: nat, id: nat) {
    exists k :: from <= k < |looks| && looks[k].id == id
  }

  /** A pass looks exactly once, in the order of registration, at each step that is live when it begins and at
      each that its jobs register, and at no other. */
  lemma PassLooksOnceAtEach(w: World, ops: seq<Op>)
    ensures var s, t := Run(w, ops), QueuedRun(w, Run(w, ops));
            var n := |s.looks|;
            && s.looks <= t.looks
            && (forall i, j :: n <= i < j < |t.looks| ==> t.looks[i].id < t.looks[j].id)
            && forall id: nat :: LookedAt(t.looks, n, id) <==>
                 IsLive(s.polling, id) || s.registered <= id < s.registered + PollsOf(w, s.queued)
  {
    var s := Run(w, ops);
    LiveInOrder(w, ops);
    var taken := PassLooks(w, s);
    PassLooksAt(s.polling, taken, s.looks, QueuedRun(w, s).looks, s.registered, PollsOf(w, s.queued));
  }

  lemma LiveInOrder(w: World, ops: seq<Op>)
    ensures InOrder(Run(w, ops).polling, Run(w, ops).registered)
  {
    RunIsTimed(w, ops);
    var s := Run(w, ops);
    forall i | 0 <= i < |s.polling| ensures s.polling[i].id < s.registered {
      assert Dated(w, s.begun, s.looks, s.polling[i]);
    }
  }

  /** The steps a pass takes, and its looks at them. */
  lemma PassLooks(w: World, s: State) returns (taken: seq<Poller>)
    ensures Joined(s.polling, taken, s.registered, PollsOf(w, s.queued))
    ensures var after := QueuedRun(w, s).looks;
            && |after| == |s.looks| + |taken| && s.looks <= after
            && forall i :: |s.looks| <= i < |after| ==> after[i].id == taken[i - |s.looks|].id
  {
    var mid := JobsRun(w, s.(queued := []), s.queued);
    JobsAdd(w, s.(queued := []), s.queued);
    StepsLook(w, mid.(polling := []), mid.polling);
    taken := mid.polling;
  }

  lemma PassLooksAt(before: seq<Poller>, taken: seq<Poller>, looks: seq<Look>, after: seq<Look>, registered: nat, n: nat)
    requires Joined(before, taken, registered, n)
    requires InOrder(before, registered)
    requires |after| == |looks| + |taken| && looks <= after
    requires forall i :: |looks| <= i < |after| ==> after[i].id == taken[i - |looks|].id
    ensures forall i, j :: |looks| <= i < j < |after| ==> after[i].id < after[j].id
    ensures forall id: nat :: LookedAt(after, |looks|, id) <==> IsLive(before, id) || registered <= id < registered + n
  {
    forall i, j | |looks| <= i < j < |after| ensures after[i].id < after[j].id {
      assert after[i].id == taken[i - |looks|].id && after[j].id == taken[j - |looks|].id;
      OneMoreTaken(before, taken, registered, n, i - |looks|);
      OneMoreTaken(before, taken, registered, n, j - |looks|);
    }
    forall id: nat ensures LookedAt(after, |looks|, id) <==> IsLive(before, id) || registered <= id < registered + n {
      if LookedAt(after, |looks|, id) {
        var k :| |looks| <= k < |after| && after[k].id == id;
        OneMoreTaken(before, taken, registered, n, k - |looks|);
        assert after[k].id == taken[k - |looks|].id;
      }
      if IsLive(before, id) {
        var i :| 0 <= i < |before| && before[i].id == id;
        assert taken[i] == before[i] && after[|looks| + i].id == taken[i].id;
      }
      if registered <= id < registered + n {
        var i := id - registered;
        assert taken[|before| + i].id == id;
        assert after[|looks| + (|before| + i)].id == taken[|before| + i].id;
      }
    }
  }

  lemma OneMoreTaken(before: seq<Poller>, taken: seq<Poller>, registered: nat, n: nat, i: nat)
    requires Joined(before, taken, registered, n) && i < |taken|
    ensures i < |before| ==> taken[i] == before[i]
    ensures i >= |before| ==> taken[i].id == registered + (i - |before|)
  {
  }

  // ---- what jobs and calls do is done ----

  function SpawnsOfJobs(w: World, jobs: seq<nat>): nat {
    if jobs == [] then 0 else SpawnsOfJobs(w, jobs[..|jobs| - 1]) + SpawnsIn(w.job(jobs[|jobs| - 1]))
  }

  function SpawnsOfCalls(w: World, looks: seq<Look>): nat {
    if looks == [] then 0
    else
      var init, last := looks[..|looks| - 1], looks[|looks| - 1];
      SpawnsOfCalls(w, init) + if last.called then SpawnsIn(w.step(last.id, CallCount(init, last.id)).effects) else 0
  }

  function PollsOfCalls(w: World, looks: seq<Look>): nat {
    if looks == [] then 0
    else
      var init, last := looks[..|looks| - 1], looks[|looks| - 1];
      PollsOfCalls(w, init) + if last.called then PollsIn(w.step(last.id, CallCount(init, last.id)).effects) else 0
  }

  /** Jobs and polls beyond those asked for from outside. */
  ghost predicate Balanced(w: World, s: State, jobs: nat, polls: nat) {
    && s.spawned == jobs + SpawnsOfJobs(w, s.ran) + SpawnsOfCalls(w, s.looks)
    && s.registered == polls + PollsOf(w, s.ran) + PollsOfCalls(w, s.looks)
  }

  lemma JobKeepsBalance(w: World, s: State, job: nat, jobs: nat, polls: nat)
    requires Balanced(w, s, jobs, polls)
    ensures Balanced(w, JobRun(w, s, job), jobs, polls)
  {
    var t := s.(ran := s.ran + [job]);
    PerformedAdds(w, t, w.job(job));
    assert t.ran[..|s.ran|] == s.ran;
  }

  lemma {:induction false} JobsKeepBalance(w: World, s: State, queue: seq<nat>, jobs: nat, polls: nat)
    requires Balanced(w, s, jobs, polls)
    ensures Balanced(w, JobsRun(w, s, queue), jobs, polls)
  {
    if queue != [] {
      var n := |queue| - 1;
      JobsKeepBalance(w, s, queue[..n], jobs, polls);
      JobKeepsBalance(w, JobsRun(w, s, queue[..n]), queue[n], jobs, polls);
    }
  }

  lemma LookAdds(w: World, looks: seq<Look>, look: Look)
    ensures var effects := if look.called then w.step(look.id, CallCount(looks, look.id)).effects else [];
            && SpawnsOfCalls(w, looks + [look]) == SpawnsOfCalls(w, looks) + SpawnsIn(effects)
            && PollsOfCalls(w, looks + [look]) == PollsOfCalls(w, looks) + PollsIn(effects)
  {
    assert (looks + [look])[..|looks|] == looks;
  }

  lemma StepKeepsBalance(w: World, s: State, p: Poller, jobs: nat, polls: nat)
    requires Balanced(w, s, jobs, polls) && p.calls == CallCount(s.looks, p.id)
    ensures Balanced(w, StepTried(w, s, p).0, jobs, polls)
  {
    var t, now, outcome := Looked(w, s, p), w.clock(s.clockReads), w.step(p.id, p.calls);
    LookAdds(w, s.looks, Look(p.id, s.clockReads, now >= p.due));
    if now >= p.due {
      PerformedAdds(w, t.(calls := s.calls + [Call(p.id, p.every, now, outcome.done)]), outcome.effects);
    }
  }

  lemma {:induction false} StepsKeepBalance(w: World, s: State, steps: seq<Poller>, later: seq<Poller>, jobs: nat, polls: nat)
    requires Balanced(w, s, jobs, polls) && Timed(w, s, [] + (steps + later) + s.polling)
    ensures Balanced(w, StepsTried(w, s, steps).0, jobs, polls)
  {
    if steps != [] {
      var n := |steps| - 1;
      assert steps + later == steps[..n] + ([steps[n]] + later);
      StepsKeepBalance(w, s, steps[..n], [steps[n]] + later, jobs, polls);
      StepsTriedKeepTimed(w, s, steps[..n], [steps[n]] + later);
      var (t, pending) := StepsTried(w, s, steps[..n]);
      NextIsCounted(w, t, pending, steps[n], later);
      StepKeepsBalance(w, t, steps[n], jobs, polls);
    }
  }

  lemma NextIsCounted(w: World, s: State, pending: seq<Poller>, p: Poller, later: seq<Poller>)
    requires Timed(w, s, pending + ([p] + later) + s.polling)
    ensures p.calls == CallCount(s.looks, p.id)
  {
    var live := pending + ([p] + later) + s.polling;
    assert live[|pending|] == p;
    assert Dated(w, s.begun, s.looks, live[|pending|]);
  }

  lemma PassKeepsBalance(w: World, s: State, jobs: nat, polls: nat)
    requires Balanced(w, s, jobs, polls) && Timed(w, s, s.polling)
    ensures Balanced(w, QueuedRun(w, s), jobs, polls)
  {
    var taken := s.(queued := []);
    assert [] + taken.polling == s.polling;
    AnyQueueIsTimed(w, s, s.polling, [], s.polling);
    JobsKeepBalance(w, taken, s.queued, jobs, polls);
    JobsRunKeepTimed(w, taken, s.queued);
    var t := JobsRun(w, taken, s.queued);
    AnyQueueIsTimed(w, t, [] + t.polling, t.queued, []);
    assert [] + (t.polling + []) + [] == [] + t.polling;
    StepsKeepBalance(w, t.(polling := []), t.polling, [], jobs, polls);
  }

  function JobsAsked(ops: seq<Op>): nat {
    if ops == [] then 0 else JobsAsked(ops[..|ops| - 1]) + if ops[|ops| - 1].SpawnOne? then 1 else 0
  }

  function PollsAsked(ops: seq<Op>): nat {
    if ops == [] then 0 else PollsAsked(ops[..|ops| - 1]) + if ops[|ops| - 1].PollOne? then 1 else 0
  }

  /** What jobs and called steps ask for is done: the jobs ever spawned are those asked for from outside, by
      the jobs that ran and by the calls that were made, and likewise the polls ever registered. */
  lemma {:induction false} EffectsAreDone(w: World, ops: seq<Op>)
    ensures Balanced(w, Run(w, ops), JobsAsked(ops), PollsAsked(ops))
  {
    if ops != [] {
      var init := ops[..|ops| - 1];
      EffectsAreDone(w, init);
      RunIsTimed(w, init);
      if ops[|ops| - 1].RunQueued? {
        PassKeepsBalance(w, Run(w, init), JobsAsked(init), PollsAsked(init));
      }
    }
  }
}
