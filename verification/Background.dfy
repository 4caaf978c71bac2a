/**
 The cooperative scheduler of the single-threaded build: queued jobs and polled steps, any of which
 may spawn more jobs and register more polls while the queues are being run.
 */
module Background {
  import opened Common

  /** What a job or a step does to the scheduler while it runs. */
  datatype Effect = Spawn | Poll(every: nat)

  datatype Outcome = Outcome(effects: seq<Effect>, done: bool)

  /** Any program: the effects of the n-th spawned job, of the n-th call of the n-th registered step,
      and what the clock shows when it is read for the n-th time. */
  datatype World = World(job: nat -> seq<Effect>, step: (nat, nat) -> Outcome, clock: nat -> nat)

  /** A registered step: which one it is, its interval, when it is next due, how often it was called. */
  datatype Poller = Poller(id: nat, every: nat, due: nat, calls: nat)

  datatype Call = Call(id: nat, every: nat, at: nat, done: bool)

  /** A registration and a look at a step, each with the number of its reading of the clock. */
  datatype Begin = Begin(read: nat, every: nat)

  datatype Look = Look(id: nat, read: nat, called: bool)

  /** The two thread-local queues, and a record of what happened: jobs run, registrations, looks at steps and
      calls of steps, each in order. */
  datatype State = State(
    queued: seq<nat>,
    polling: seq<Poller>,
    spawned: nat,
    registered: nat,
    clockReads: nat,
    ran: seq<nat>,
    begun: seq<Begin>,
    looks: seq<Look>,
    calls: seq<Call>)

  const START := State([], [], 0, 0, 0, [], [], [], [])

  function Spawned(s: State): State {
    s.(queued := s.queued + [s.spawned], spawned := s.spawned + 1)
  }

  function Registered(w: World, s: State, every: nat): State {
    s.(polling := s.polling + [Poller(s.registered, every, w.clock(s.clockReads) + every, 0)],
       registered := s.registered + 1,
       begun := s.begun + [Begin(s.clockReads, every)],
       clockReads := s.clockReads + 1)
  }

  function Performed(w: World, s: State, effects: seq<Effect>): State {
    if effects == [] then s
    else
      var t := Performed(w, s, effects[..|effects| - 1]);
      match effects[|effects| - 1]
      case Spawn => Spawned(t)
      case Poll(every) => Registered(w, t, every)
  }

  function JobRun(w: World, s: State, job: nat): State {
    Performed(w, s.(ran := s.ran + [job]), w.job(job))
  }

  function JobsRun(w: World, s: State, jobs: seq<nat>): State {
    if jobs == [] then s else JobRun(w, JobsRun(w, s, jobs[..|jobs| - 1]), jobs[|jobs| - 1])
  }

  /** One look at a step: the clock is read, and the step called only when it is due. */
  function StepTried(w: World, s: State, p: Poller): (State, seq<Poller>) {
    var now := w.clock(s.clockReads);
    var t := s.(clockReads := s.clockReads + 1, looks := s.looks + [Look(p.id, s.clockReads, now >= p.due)]);
    if now < p.due then (t, [p])
    else
      var outcome := w.step(p.id, p.calls);
      (Performed(w, t.(calls := t.calls + [Call(p.id, p.every, now, outcome.done)]), outcome.effects),
       if outcome.done then [] else [Poller(p.id, p.every, now + p.every, p.calls + 1)])
  }

  /** Every taken step looked at in turn; those not finished are pending again. */
  function StepsTried(w: World, s: State, steps: seq<Poller>): (State, seq<Poller>) {
    if steps == [] then (s, [])
    else
      var (t, pending) := StepsTried(w, s, steps[..|steps| - 1]);
      var (u, kept) := StepTried(w, t, steps[|steps| - 1]);
      (u, pending + kept)
  }

  function QueuedRun(w: World, s: State): State {
    var t := JobsRun(w, s.(queued := []), s.queued);
    var (u, pending) := StepsTried(w, t.(polling := []), t.polling);
    u.(polling := pending + u.polling)
  }

  class Scheduler {
    const world: World
    var queued: seq<nat>
    var polling: seq<Poller>
    var spawned: nat
    var registered: nat
    var clockReads: nat
    var ran: seq<nat>
    var begun: seq<Begin>
    var looks: seq<Look>
    var calls: seq<Call>

    function Snapshot(): State
      reads this
    {
      State(queued, polling, spawned, registered, clockReads, ran, begun, looks, calls)
    }

    constructor (world: World)
      ensures Snapshot() == START && this.world == world
    {
      this.world := world;
      queued, polling, ran, begun, looks, calls := [], [], [], [], [], [];
      spawned, registered, clockReads := 0, 0, 0;
    }

    method Spawn()
      modifies this
      ensures Snapshot() == Spawned(old(Snapshot()))
    {
      queued := queued + [spawned];
      spawned := spawned + 1;
    }

    method Now() returns (now: nat)
      modifies this`clockReads
      ensures now == world.clock(old(clockReads)) && clockReads == old(clockReads) + 1
    {
      now := world.clock(clockReads);
      clockReads := clockReads + 1;
    }

    method Poll(every: nat)
      modifies this
      ensures Snapshot() == Registered(world, old(Snapshot()), every)
    {
      var now := Now();
      var due := now + every;
      begun := begun + [Begin(clockReads - 1, every)];
      polling := polling + [Poller(registered, every, due, 0)];
      registered := registered + 1;
    }

    /** A job or step body: its calls back into the scheduler, in order. */
    method Perform(effects: seq<Effect>)
      modifies this
      ensures Snapshot() == Performed(world, old(Snapshot()), effects) && calls == old(calls)
    {
      for i := 0 to |effects|
        invariant calls == old(calls)
        invariant Snapshot() == Performed(world, old(Snapshot()), effects[..i])
      {
        assert effects[..i + 1][..i] == effects[..i];
        match effects[i]
        case Spawn => Spawn();
        case Poll(every) => Poll(every);
      }
      assert effects[..|effects|] == effects;
    }

    method TryStep(p: Poller) returns (kept: seq<Poller>)
      modifies this
      ensures (Snapshot(), kept) == StepTried(world, old(Snapshot()), p)
      ensures var now := world.clock(old(clockReads));
              calls == if now < p.due then old(calls)
                       else old(calls) + [Call(p.id, p.every, now, world.step(p.id, p.calls).done)]
    {
      var now := Now();
      if now < p.due {
        looks := looks + [Look(p.id, clockReads - 1, false)];
        return [p];
      }
      looks := looks + [Look(p.id, clockReads - 1, true)];
      var due := now + p.every;
      var outcome := world.step(p.id, p.calls);
      calls := calls + [Call(p.id, p.every, now, outcome.done)];
      Perform(outcome.effects);
      kept := if outcome.done then [] else [Poller(p.id, p.every, due, p.calls + 1)];
    }

    method RunJobs(jobs: seq<nat>)
      modifies this
      ensures Snapshot() == JobsRun(world, old(Snapshot()), jobs)
    {
      for i := 0 to |jobs|
        invariant Snapshot() == JobsRun(world, old(Snapshot()), jobs[..i])
      {
        assert jobs[..i + 1][..i] == jobs[..i];
        ran := ran + [jobs[i]];
        Perform(world.job(jobs[i]));
      }
      assert jobs[..|jobs|] == jobs;
    }

    method TrySteps(steps: seq<Poller>) returns (pending: seq<Poller>)
      modifies this
      ensures (Snapshot(), pending) == StepsTried(world, old(Snapshot()), steps)
    {
      pending := [];
      for i := 0 to |steps|
        invariant (Snapshot(), pending) == StepsTried(world, old(Snapshot()), steps[..i])
      {
        assert steps[..i + 1][..i] == steps[..i];
        var kept := TryStep(steps[i]);
        pending := pending + kept;
      }
      assert steps[..|steps|] == steps;
    }

    /** Take the jobs and run them; take the steps and try them; put back the unfinished ones ahead of
        those registered meanwhile. */
    method RunQueued()
      modifies this
      ensures Snapshot() == QueuedRun(world, old(Snapshot()))
    {
      var jobs := queued;
      queued := [];
      RunJobs(jobs);
      var steps := polling;
      polling := [];
      var pending := TrySteps(steps);
      var added := polling;
      polling := pending + added;
    }
  }
}
