/** What a run of the scheduler owes to its past: fresh values and stops that were really sent. */
module ActuatorHistory {
  import opened Common
  import opened ActuatorProtocol
  import opened ActuatorRuns

  ghost predicate Monotone(es: seq<Event>) {
    forall i, j :: 0 <= i <= j < |es| ==> es[i].at <= es[j].at
  }

  /** When the watchdog last ran. */
  function LastTick(es: seq<Event>): Option<nat> {
    if es == [] then None
    else if es[|es| - 1].Tick? then Some(es[|es| - 1].at)
    else LastTick(es[..|es| - 1])
  }

  /** No event is later than `period` after the tick that precedes it. */
  ghost predicate TickedEvery(es: seq<Event>, period: nat) {
    forall i :: 0 <= i < |es| && LastTick(es[..i]).Some? ==> es[i].at <= LastTick(es[..i]).value + period
  }

  /** The value asked for last on `f`, and when. */
  function LastSet(es: seq<Event>, f: Key): Option<(Value, nat)> {
    if es == [] then None
    else
      var e := es[|es| - 1];
      if e.Set? && e.channel == f then Some((e.value, e.at)) else LastSet(es[..|es| - 1], f)
  }

  /** A live channel holds the value last asked of it, and the watchdog has seen it fresh. */
  ghost predicate Fresh(s: Scheduler, es: seq<Event>, f: Key)
    requires f in s.channels
  {
    s.channels[f].state.Active? ==>
      && LastSet(es, f) == Some((s.channels[f].value, s.channels[f].updatedMs))
      && (LastTick(es).Some? ==> LastTick(es).value <= s.channels[f].updatedMs + WATCHDOG_MS)
  }

  ghost predicate NoneLive(s: Scheduler) {
    forall f :: f in s.channels ==> !s.channels[f].state.Active?
  }

  ghost predicate LiveIsFresh(s: Scheduler, es: seq<Event>) {
    && (!s.active ==> NoneLive(s))
    && forall f {:trigger Fresh(s, es, f)} :: f in s.channels ==> Fresh(s, es, f)
  }

  lemma {:induction false} TickIsPast(es: seq<Event>)
    requires Monotone(es) && LastTick(es).Some?
    ensures forall i :: 0 <= i < |es| && i == |es| - 1 ==> LastTick(es).value <= es[i].at
  {
    if !es[|es| - 1].Tick? {
      TickIsPast(es[..|es| - 1]);
    }
  }

  lemma OneMore(es: seq<Event>, e: Event, f: Key)
    ensures LastTick(es + [e]) == if e.Tick? then Some(e.at) else LastTick(es)
    ensures LastSet(es + [e], f) == if e.Set? && e.channel == f then Some((e.value, e.at)) else LastSet(es, f)
  {
    assert (es + [e])[..|es|] == es;
  }

  lemma TickBefore(es: seq<Event>, e: Event)
    requires Monotone(es + [e]) && LastTick(es).Some?
    ensures LastTick(es).value <= e.at
  {
    var all := es + [e];
    assert Monotone(es) by { assert forall i :: 0 <= i < |es| ==> all[i] == es[i]; }
    TickIsPast(es);
    assert all[|es| - 1] == es[|es| - 1] && all[|es|] == e;
  }

  lemma PrepareKeepsFresh(s: Scheduler, es: seq<Event>, e: Event)
    requires LiveIsFresh(s, es)
    requires Monotone(es + [e])
    ensures LiveIsFresh(Prepare(s, e), es + [e])
  {
    match e
    case Set(_, _, _) => SetKeepsFresh(s, es, e);
    case Tick(_) => TickKeepsFresh(s, es, e);
    case _ => OthersKeepFresh(s, es, e);
  }

  lemma SetKeepsFresh(s: Scheduler, es: seq<Event>, e: Event)
    requires LiveIsFresh(s, es) && Monotone(es + [e]) && e.Set?
    ensures LiveIsFresh(Prepare(s, e), es + [e])
  {
    var t := Prepare(s, e);
    forall f | f in t.channels ensures Fresh(t, es + [e], f) {
      OneMore(es, e, f);
      assert f in s.channels ==> Fresh(s, es, f);
      if LastTick(es).Some? {
        TickBefore(es, e);
      }
    }
  }

  lemma TickKeepsFresh(s: Scheduler, es: seq<Event>, e: Event)
    requires LiveIsFresh(s, es) && e.Tick?
    ensures LiveIsFresh(Prepare(s, e), es + [e])
  {
    var t := Prepare(s, e);
    forall f | f in t.channels ensures Fresh(t, es + [e], f) {
      OneMore(es, e, f);
      assert Fresh(s, es, f);
    }
  }

  /** Switching, stopping and answering set no value; a channel they touch is live no longer. */
  lemma OthersKeepFresh(s: Scheduler, es: seq<Event>, e: Event)
    requires LiveIsFresh(s, es) && !e.Set? && !e.Tick?
    ensures LiveIsFresh(Prepare(s, e), es + [e])
  {
    var t := Prepare(s, e);
    forall f | f in t.channels
      ensures Fresh(t, es + [e], f) && (t.channels[f].state.Active? ==> t.channels[f] == s.channels[f]) {
      OneMore(es, e, f);
      assert Fresh(s, es, f);
    }
  }

  lemma SendKeepsFresh(s: Scheduler, es: seq<Event>, now: nat)
    requires LiveIsFresh(s, es)
    ensures LiveIsFresh(SendNext(s, now).0, es)
  {
    var t := SendNext(s, now).0;
    forall f | f in t.channels ensures Fresh(t, es, f) {
      assert Fresh(s, es, f);
    }
  }

  lemma {:induction false} RunIsFresh(es: seq<Event>)
    requires Monotone(es)
    ensures LiveIsFresh(Run(IDLE, es), es)
  {
    if es != [] {
      var n := |es| - 1;
      RunIsFresh(es[..n]);
      assert es[..n] + [es[n]] == es;
      PrepareKeepsFresh(Run(IDLE, es[..n]), es[..n], es[n]);
      LastStep(IDLE, es);
      SendKeepsFresh(Prepare(Run(IDLE, es[..n]), es[n]), es, es[n].at);
    }
  }

  /**
   Staleness bound: with a monotone clock and a watchdog that runs at least every `period` ms, a
   live value on the wire is the one last asked of its channel and was asked for at most
   `100 + period` ms before, whatever event triggered the send.
   */
  lemma StalenessBound(es: seq<Event>, i: nat, period: nat)
    requires Monotone(es) && TickedEvery(es, period)
    requires i < |es| && LastTick(es[..i + 1]).Some?
    requires Output(IDLE, es, i).Some? && Output(IDLE, es, i).value.timeout != 0.0
    ensures var r := Output(IDLE, es, i).value;
            var asked := LastSet(es[..i + 1], r.channel);
            && asked.Some? && asked.value.0 == r.value
            && asked.value.1 <= es[i].at <= asked.value.1 + WATCHDOG_MS + period
  {
    var before, e := es[..i], es[i];
    var all := es[..i + 1];
    assert before + [e] == all && all[..i] == before;
    RunIsFresh(before);
    PrepareKeepsFresh(Run(IDLE, before), before, e);
    var r := Output(IDLE, es, i).value;
    assert Prepare(Run(IDLE, before), e).channels[r.channel].state.Active?;
    assert Fresh(Prepare(Run(IDLE, before), e), all, r.channel);
    SetIsPast(all, r.channel);
    assert all[i] == e;
  }

  lemma {:induction false} SetIsPast(es: seq<Event>, f: Key)
    requires Monotone(es) && LastSet(es, f).Some?
    ensures es != [] && LastSet(es, f).value.1 <= es[|es| - 1].at
  {
    var e := es[|es| - 1];
    if !(e.Set? && e.channel == f) {
      SetIsPast(es[..|es| - 1], f);
    }
  }

  // ---- no stop is faked ----

  ghost predicate SendsStop(s: Scheduler, es: seq<Event>, i: nat, f: Key)
    requires i < |es|
  {
    Output(s, es, i) == Some(Request(f, NaN, 0.0))
  }

  /** A `set` that took effect: one made while the sliders were on. */
  ghost predicate Restarts(s: Scheduler, es: seq<Event>, i: nat, f: Key)
    requires i < |es|
  {
    es[i].Set? && es[i].channel == f && Run(s, es[..i]).active
  }

  /** Walking back from the end of the run, a stop for `f` is met before any `set` of `f`. */
  ghost predicate StopSentSinceSet(s: Scheduler, es: seq<Event>, f: Key) {
    && es != []
    && !Restarts(s, es, |es| - 1, f)
    && (SendsStop(s, es, |es| - 1, f) || StopSentSinceSet(s, es[..|es| - 1], f))
  }

  /** A channel is waiting for its stop to be confirmed only if that stop really went out. */
  lemma {:induction false} StoppingWasSent(es: seq<Event>, f: Key)
    requires Run(IDLE, es).Is(f, Stopping)
    ensures StopSentSinceSet(IDLE, es, f)
  {
    if es != [] {
      var n := |es| - 1;
      LastStep(IDLE, es);
      BecomesStopping(Run(IDLE, es[..n]), es[n], f);
      if !SendsStop(IDLE, es, n, f) {
        StoppingWasSent(es[..n], f);
      }
    }
  }

  lemma BecomesStopping(s: Scheduler, e: Event, f: Key)
    requires Step(s, e).0.Is(f, Stopping)
    ensures s.Is(f, Stopping) || Step(s, e).1 == Some(Request(f, NaN, 0.0))
    ensures !(e.Set? && e.channel == f && s.active)
  {
  }

  /**
   No stop is faked: when an ACCEPTED answer makes a channel not active, a stop for that channel
   went out after it was last set.
   */
  lemma AcceptedOnlyConfirmsStops(es: seq<Event>, at: nat, f: Key)
    requires !Run(IDLE, es).Is(f, NotActive) && f in Run(IDLE, es).channels
    requires Run(IDLE, es + [Ack(RESULT_ACCEPTED, at)]).Is(f, NotActive)
    ensures StopSentSinceSet(IDLE, es, f)
  {
    var all := es + [Ack(RESULT_ACCEPTED, at)];
    assert all[..|all| - 1] == es;
    LastStep(IDLE, all);
    var s := Run(IDLE, es);
    assert Prepare(s, Ack(RESULT_ACCEPTED, at)).Is(f, NotActive);
    assert s.Is(f, Stopping);
    StoppingWasSent(es, f);
  }
}
