/** The state of the scheduler read off the history alone: which values are live, which stops are owed, whether a
    command is in flight, and that a live value is sent. */
module ActuatorLives {
  import opened Common
  import opened ActuatorDrain
  import opened ActuatorProtocol
  import opened ActuatorRuns

  // ---- what the history says ----

  function SwitchedOn(es: seq<Event>): bool {
    if es == [] then false
    else if es[|es| - 1].SetActive? then es[|es| - 1].on
    else SwitchedOn(es[..|es| - 1])
  }

  /** The channel of the last command that went out. */
  ghost function LastSent(es: seq<Event>): Option<Key> {
    if es == [] then None
    else
      match Output(IDLE, es, |es| - 1)
      case Some(r) => Some(r.channel)
      case None => LastSent(es[..|es| - 1])
  }

  /** A value set at `at` is asked to stop: by a stop that wants its channel, by the switch, or by a watchdog
      that finds it more than 100 ms old. */
  predicate StopsLife(e: Event, f: Key, at: nat) {
    match e
    case Stop(wanted, _) => wanted.None? || wanted.value == f
    case SetActive(on, _) => !on
    case Tick(now) => now > at + 100
    case _ => false
  }

  predicate SetsAnew(es: seq<Event>, e: Event, f: Key) {
    e.Set? && e.channel == f && SwitchedOn(es)
  }

  /** A failure answers a command for the channel. */
  ghost predicate Fails(es: seq<Event>, e: Event, f: Key) {
    FailureAck(e) && LastSent(es) == Some(f)
  }

  ghost predicate EndsLife(es: seq<Event>, e: Event, f: Key, at: nat) {
    StopsLife(e, f, at) || SetsAnew(es, e, f) || Fails(es, e, f)
  }

  ghost predicate NotEndedAt(es: seq<Event>, i: nat, f: Key, j: nat)
    requires i < |es| && j < |es|
  {
    !EndsLife(es[..j], es[j], f, es[i].at)
  }

  /** The `i`-th event set the channel while the switch was on, and nothing has ended that since. */
  ghost predicate LiveSince(es: seq<Event>, i: nat, f: Key) {
    && i < |es| && SetsAnew(es[..i], es[i], f)
    && forall j :: i < j < |es| ==> NotEndedAt(es, i, f, j)
  }

  ghost predicate Lives(s: Scheduler, f: Key, value: Value, at: nat) {
    f in s.channels && s.channels[f] == Channel(Active, value, at)
  }

  // ---- one event ----

  lemma StepLives(s: Scheduler, e: Event, f: Key, value: Value, at: nat)
    ensures Lives(Step(s, e).0, f, value, at) <==>
            || (s.active && e == Event.Set(f, value, at))
            || (Lives(s, f, value, at) && !StopsLife(e, f, at) && !(e.Set? && e.channel == f && s.active)
                && !(FailureAck(e) && s.current == Some(f)))
  {
    PreparedLives(s, e, f, value, at);
    SendKeepsLives(Prepare(s, e), e.at, f, value, at);
  }

  lemma PreparedLives(s: Scheduler, e: Event, f: Key, value: Value, at: nat)
    ensures Lives(Prepare(s, e), f, value, at) <==>
            || (s.active && e == Event.Set(f, value, at))
            || (Lives(s, f, value, at) && !StopsLife(e, f, at) && !(e.Set? && e.channel == f && s.active)
                && !(FailureAck(e) && s.current == Some(f)))
  {
  }

  lemma SendKeepsLives(s: Scheduler, now: nat, f: Key, value: Value, at: nat)
    ensures Lives(SendNext(s, now).0, f, value, at) <==> Lives(s, f, value, at)
  {
  }

  lemma StepSwitch(s: Scheduler, e: Event)
    ensures Step(s, e).0.active == if e.SetActive? then e.on else s.active
    ensures Step(s, e).0.current == if Step(s, e).1.Some? then Some(Step(s, e).1.value.channel) else s.current
  {
  }

  lemma {:induction false} RunSwitch(es: seq<Event>)
    ensures Run(IDLE, es).active == SwitchedOn(es) && Run(IDLE, es).current == LastSent(es)
  {
    if es != [] {
      RunSwitch(es[..|es| - 1]);
      StepSwitch(Run(IDLE, es[..|es| - 1]), es[|es| - 1]);
    }
  }

  lemma LiveOneMore(es: seq<Event>, e: Event, i: nat, f: Key)
    ensures LiveSince(es + [e], i, f) <==>
            || (i == |es| && SetsAnew(es, e, f))
            || (LiveSince(es, i, f) && !EndsLife(es, e, f, es[i].at))
  {
    var all := es + [e];
    assert all[..|es|] == es;
    if i < |es| {
      assert all[..i] == es[..i];
      forall j | i < j < |es| ensures NotEndedAt(all, i, f, j) <==> NotEndedAt(es, i, f, j) {
        assert all[..j] == es[..j];
      }
      assert NotEndedAt(all, i, f, |es|) <==> !EndsLife(es, e, f, es[i].at);
    }
  }

  /** A channel is live with a value if and only if an event set it so while the switch was on, and since then
      there was no later such set, no stop that wants it, no switch-off, no tick that found it more than 100 ms
      old, and no failure answering a command for it. */
  lemma {:induction false} LiveExactly(es: seq<Event>, f: Key, value: Value, at: nat)
    ensures Lives(Run(IDLE, es), f, value, at) <==>
            exists i: nat :: LiveSince(es, i, f) && es[i] == Event.Set(f, value, at)
  {
    if es != [] {
      var n := |es| - 1;
      var init, e := es[..n], es[n];
      assert init + [e] == es;
      LiveExactly(init, f, value, at);
      RunSwitch(init);
      StepLives(Run(IDLE, init), e, f, value, at);
      if Lives(Run(IDLE, es), f, value, at) {
        if SetsAnew(init, e, f) {
          LiveOneMore(init, e, n, f);
          assert LiveSince(es, n, f);
        } else {
          var i: nat :| LiveSince(init, i, f) && init[i] == Event.Set(f, value, at);
          LiveOneMore(init, e, i, f);
          assert LiveSince(es, i, f);
        }
      }
      if i: nat :| LiveSince(es, i, f) && es[i] == Event.Set(f, value, at) {
        LiveOneMore(init, e, i, f);
        assert i < n ==> LiveSince(init, i, f) && init[i] == Event.Set(f, value, at);
      }
    }
  }

  // ---- a live value is sent ----

  lemma LiveBefore(es: seq<Event>, i: nat, f: Key, k: nat)
    requires LiveSince(es, i, f) && i < k <= |es|
    ensures LiveSince(es[..k], i, f) && es[..k][i] == es[i]
  {
    var some := es[..k];
    assert some[..i] == es[..i];
    forall j | i < j < k ensures NotEndedAt(some, i, f, j) {
      assert some[..j] == es[..j];
      assert NotEndedAt(es, i, f, j);
    }
  }

  /** What goes out for a channel that is live afterwards is its value. */
  lemma LiveCommand(s: Scheduler, e: Event, f: Key, value: Value, at: nat)
    requires Lives(Step(s, e).0, f, value, at) && Step(s, e).1.Some? && Step(s, e).1.value.channel == f
    ensures Step(s, e).1 == Some(Request(f, value, 1.0))
  {
    SendKeepsLives(Prepare(s, e), e.at, f, value, at);
  }

  ghost predicate AlwaysLives(s: Scheduler, more: seq<Event>, f: Key, value: Value, at: nat) {
    forall k :: 0 <= k <= |more| ==> Lives(Run(s, more[..k]), f, value, at)
  }

  lemma {:induction false} OnlyItsValue(s: Scheduler, more: seq<Event>, f: Key, value: Value, at: nat, k: nat)
    requires AlwaysLives(s, more, f, value, at) && k < |Wire(s, more)| && Wire(s, more)[k].channel == f
    ensures Wire(s, more)[k] == Request(f, value, 1.0)
  {
    var n := |more| - 1;
    var init := more[..n];
    forall j | 0 <= j <= n ensures Lives(Run(s, init[..j]), f, value, at) {
      assert init[..j] == more[..j];
    }
    if k < |Wire(s, init)| {
      OnlyItsValue(s, init, f, value, at, k);
    } else {
      assert more[..|more|] == more;
      LiveCommand(Run(s, init), more[n], f, value, at);
    }
  }

  lemma LivesThroughout(es: seq<Event>, i: nat, f: Key, value: Value, at: nat, more: seq<Event>, k: nat)
    requires i < |es| && es[i] == Event.Set(f, value, at) && LiveSince(es + more, i, f) && k <= |more|
    ensures Lives(Run(Run(IDLE, es), more[..k]), f, value, at)
  {
    var part := es + more[..k];
    RunSplits(IDLE, es, more[..k]);
    LiveInPart(es, more, k, i, f);
    LiveExactly(part, f, value, at);
  }

  lemma LiveInPart(es: seq<Event>, more: seq<Event>, k: nat, i: nat, f: Key)
    requires i < |es| && k <= |more| && LiveSince(es + more, i, f)
    ensures var part := es + more[..k]; LiveSince(part, i, f) && part[i] == es[i]
  {
    LiveBefore(es + more, i, f, |es| + k);
    assert (es + more)[..|es| + k] == es + more[..k];
  }

  /** While the value stays live, as many commands as there are channels include it. */
  lemma LiveIsServed(es: seq<Event>, i: nat, f: Key, value: Value, at: nat, more: seq<Event>)
    requires i < |es| && es[i] == Event.Set(f, value, at) && LiveSince(es + more, i, f)
    requires |Wire(Run(IDLE, es), more)| >= |Run(IDLE, es + more).channels|
    ensures Request(f, value, 1.0) in Wire(Run(IDLE, es), more)
  {
    var s := Run(IDLE, es);
    forall k | 0 <= k <= |more| ensures Lives(Run(s, more[..k]), f, value, at) {
      LivesThroughout(es, i, f, value, at, more, k);
    }
    RunSplits(IDLE, es, more);
    RunKeepsValid(IDLE, es);
    LiveIsSent(s, more, f, value, at);
  }

  lemma LiveIsSent(s: Scheduler, more: seq<Event>, f: Key, value: Value, at: nat)
    requires s.Valid() && AlwaysLives(s, more, f, value, at) && |Wire(s, more)| >= |Run(s, more).channels|
    ensures Request(f, value, 1.0) in Wire(s, more)
  {
    forall k | 0 <= k <= |more| ensures Run(s, more[..k]).Sendable(f) {
      assert Lives(Run(s, more[..k]), f, value, at);
    }
    ServedWithinOneRound(s, more, f);
    var k :| 0 <= k < |Wire(s, more)| && Wire(s, more)[k].channel == f;
    OnlyItsValue(s, more, f, value, at, k);
  }

  // ---- stops that are owed ----

  ghost predicate StopSentAt(es: seq<Event>, j: nat, f: Key)
    requires j < |es|
  {
    Output(IDLE, es, j) == Some(Request(f, NaN, 0.0))
  }

  ghost predicate StopsLiveAt(es: seq<Event>, j: nat, f: Key)
    requires j < |es|
  {
    exists i: nat :: LiveSince(es[..j], i, f) && StopsLife(es[j], f, es[i].at)
  }

  ghost predicate NotSettledAt(es: seq<Event>, j: nat, f: Key)
    requires j < |es|
  {
    !StopSentAt(es, j, f) && !SetsAnew(es[..j], es[j], f) && !Fails(es[..j], es[j], f)
  }

  /** The `j`-th event asked a live channel to stop; the stop has not gone out, and the channel was not set anew,
      nor a command for it answered by a failure. */
  ghost predicate OwedSince(es: seq<Event>, j: nat, f: Key) {
    && j < |es| && StopsLiveAt(es, j, f)
    && forall k :: j <= k < |es| ==> NotSettledAt(es, k, f)
  }

  lemma PreparedOwes(s: Scheduler, e: Event, f: Key)
    ensures Prepare(s, e).Is(f, StopRequest) <==>
            && ((s.Is(f, Active) && StopsLife(e, f, s.channels[f].updatedMs)) || s.Is(f, StopRequest))
            && !(e.Set? && e.channel == f && s.active) && !(FailureAck(e) && s.current == Some(f))
  {
  }

  lemma SendSettles(s: Scheduler, now: nat, f: Key)
    ensures SendNext(s, now).0.Is(f, StopRequest) <==>
            s.Is(f, StopRequest) && SendNext(s, now).1 != Some(Request(f, NaN, 0.0))
  {
  }

  lemma StepOwes(s: Scheduler, e: Event, f: Key)
    ensures Step(s, e).0.Is(f, StopRequest) <==>
            && ((s.Is(f, Active) && StopsLife(e, f, s.channels[f].updatedMs)) || s.Is(f, StopRequest))
            && Step(s, e).1 != Some(Request(f, NaN, 0.0)) && !(e.Set? && e.channel == f && s.active)
            && !(FailureAck(e) && s.current == Some(f))
  {
    PreparedOwes(s, e, f);
    SendSettles(Prepare(s, e), e.at, f);
  }

  lemma OwedOneMore(es: seq<Event>, e: Event, j: nat, f: Key)
    ensures OwedSince(es + [e], j, f) <==>
            && NotSettledAt(es + [e], |es|, f)
            && ((j == |es| && StopsLiveAt(es + [e], |es|, f)) || OwedSince(es, j, f))
  {
    var all := es + [e];
    if j < |es| {
      assert all[..j] == es[..j];
      assert StopsLiveAt(all, j, f) <==> StopsLiveAt(es, j, f);
      forall k | j <= k < |es| ensures NotSettledAt(all, k, f) <==> NotSettledAt(es, k, f) {
        assert all[..k] == es[..k];
      }
    }
  }

  lemma StopsLiveIs(es: seq<Event>, e: Event, f: Key)
    ensures StopsLiveAt(es + [e], |es|, f) <==>
            Run(IDLE, es).Is(f, Active) && StopsLife(e, f, Run(IDLE, es).channels[f].updatedMs)
  {
    var all, s := es + [e], Run(IDLE, es);
    assert all[..|es|] == es;
    if s.Is(f, Active) {
      LiveExactly(es, f, s.channels[f].value, s.channels[f].updatedMs);
    }
    if i: nat :| LiveSince(es, i, f) && StopsLife(e, f, es[i].at) {
      LiveExactly(es, f, es[i].value, es[i].at);
    }
  }

  /** A stop is owed if and only if an event asked a live channel to stop and since then its stop has not gone
      out, it was not set anew, and no failure answered a command for it. */
  lemma {:induction false} OwedExactly(es: seq<Event>, f: Key)
    ensures Run(IDLE, es).Is(f, StopRequest) <==> exists j: nat :: OwedSince(es, j, f)
  {
    if es != [] {
      var n := |es| - 1;
      var init, e := es[..n], es[n];
      assert init + [e] == es;
      OwedExactly(init, f);
      RunSwitch(init);
      StepOwes(Run(IDLE, init), e, f);
      StopsLiveIs(init, e, f);
      if Run(IDLE, es).Is(f, StopRequest) {
        if StopsLiveAt(es, n, f) {
          OwedOneMore(init, e, n, f);
          assert OwedSince(es, n, f);
        } else {
          var j: nat :| OwedSince(init, j, f);
          OwedOneMore(init, e, j, f);
          assert OwedSince(es, j, f);
        }
      }
      if j: nat :| OwedSince(es, j, f) {
        OwedOneMore(init, e, j, f);
      }
    }
  }

  // ---- what is in flight ----

  predicate InProgress(e: Event) {
    e.Ack? && e.result == RESULT_IN_PROGRESS
  }

  /** A command goes out, or one is said to be in progress. */
  ghost predicate Opens(es: seq<Event>, m: nat)
    requires m < |es|
  {
    Output(IDLE, es, m).Some? || InProgress(es[m])
  }

  /** A final answer, a tick a second or more later, or a new opening. */
  ghost predicate KeepsOpen(es: seq<Event>, m: nat, j: nat)
    requires m < |es| && j < |es|
  {
    !FinalAck(es[j]) && !(es[j].Tick? && es[j].at >= es[m].at + 1000) && !Opens(es, j)
  }

  ghost predicate InFlightSince(es: seq<Event>, m: nat) {
    m < |es| && Opens(es, m) && forall j :: m < j < |es| ==> KeepsOpen(es, m, j)
  }

  lemma StepFlies(s: Scheduler, e: Event, until: nat)
    ensures Step(s, e).0.inProgressUntil == Some(until) <==>
            || ((Step(s, e).1.Some? || InProgress(e)) && until == e.at + 1000)
            || (s.inProgressUntil == Some(until) && !FinalAck(e) && !(e.Tick? && e.at >= until)
                && !Step(s, e).1.Some? && !InProgress(e))
  {
  }

  lemma FlightOneMore(es: seq<Event>, e: Event, m: nat)
    ensures InFlightSince(es + [e], m) <==>
            || (m == |es| && Opens(es + [e], |es|))
            || (InFlightSince(es, m) && KeepsOpen(es + [e], m, |es|))
  {
    var all := es + [e];
    if m < |es| {
      assert all[..m] == es[..m];
      forall j | m < j < |es| ensures KeepsOpen(all, m, j) <==> KeepsOpen(es, m, j) {
        assert all[..j] == es[..j];
      }
    }
  }

  /** The line is taken until a second after a command went out or was said to be in progress, unless a final
      answer, or a tick that late, has come since, or the next command. */
  lemma {:induction false} InFlightExactly(es: seq<Event>, until: nat)
    ensures Run(IDLE, es).inProgressUntil == Some(until) <==>
            exists m: nat :: InFlightSince(es, m) && until == es[m].at + 1000
  {
    if es != [] {
      var n := |es| - 1;
      var init, e := es[..n], es[n];
      assert init + [e] == es && es[..n] == init;
      InFlightExactly(init, until);
      StepFlies(Run(IDLE, init), e, until);
      if Run(IDLE, es).inProgressUntil == Some(until) {
        if Opens(es, n) {
          FlightOneMore(init, e, n);
          assert InFlightSince(es, n);
        } else {
          var m: nat :| InFlightSince(init, m) && until == init[m].at + 1000;
          FlightOneMore(init, e, m);
          assert InFlightSince(es, m) && es[m] == init[m];
        }
      }
      if m: nat :| InFlightSince(es, m) && until == es[m].at + 1000 {
        FlightOneMore(init, e, m);
        assert m < n ==> init[m] == es[m];
      }
    }
  }

  // ---- what is sent, and what is announced ----

  ghost predicate IsLive(es: seq<Event>, f: Key) {
    exists i: nat :: LiveSince(es, i, f)
  }

  ghost predicate IsOwed(es: seq<Event>, f: Key) {
    exists j: nat :: OwedSince(es, j, f)
  }

  /** A command is a live value, as it was set last, or the stop of a channel that is not live. */
  lemma WhatIsSent(es: seq<Event>, e: Event)
    requires Step(Run(IDLE, es), e).1.Some?
    ensures var r, all := Step(Run(IDLE, es), e).1.value, es + [e];
            if IsLive(all, r.channel)
            then exists k: nat :: LiveSince(all, k, r.channel) && r == Request(r.channel, all[k].value, 1.0)
            else r == Request(r.channel, NaN, 0.0)
  {
    var all, s := es + [e], Run(IDLE, es);
    var f, c := Step(s, e).1.value.channel, Prepare(s, e).channels[Step(s, e).1.value.channel];
    RunExtends(es, e);
    if IsLive(all, f) {
      var k: nat :| LiveSince(all, k, f);
      LiveExactly(all, f, all[k].value, all[k].at);
      LiveCommand(s, e, f, all[k].value, all[k].at);
    } else if c.state.Active? {
      SendKeepsLives(Prepare(s, e), e.at, f, c.value, c.updatedMs);
      LiveExactly(all, f, c.value, c.updatedMs);
    }
  }

  lemma RunExtends(es: seq<Event>, e: Event)
    ensures Run(IDLE, es + [e]) == Step(Run(IDLE, es), e).0
  {
    assert (es + [e])[..|es|] == es;
  }

  /** The event gets as far as sending: not a switch-on, not a set while the switch is off, not an answer that
      the command is in progress. */
  ghost predicate Reaches(es: seq<Event>, e: Event) {
    match e
    case SetActive(on, _) => !on
    case Set(_, _, _) => SwitchedOn(es)
    case Ack(_, _) => !InProgress(e)
    case _ => true
  }

  /** Nothing is in flight that the event does not end. */
  ghost predicate Frees(es: seq<Event>, e: Event) {
    forall m: nat :: InFlightSince(es, m) ==> FinalAck(e) || (e.Tick? && e.at >= es[m].at + 1000)
  }

  /** Live after the event, or owing a stop when it comes to sending. */
  ghost predicate Wants(es: seq<Event>, e: Event, f: Key) {
    || IsLive(es + [e], f)
    || ((IsOwed(es, f) || StopsLiveAt(es + [e], |es|, f)) && !SetsAnew(es, e, f) && !Fails(es, e, f))
  }

  lemma LiveIsActive(es: seq<Event>, f: Key)
    ensures IsLive(es, f) <==> Run(IDLE, es).Is(f, Active)
  {
    var s := Run(IDLE, es);
    if s.Is(f, Active) {
      LiveExactly(es, f, s.channels[f].value, s.channels[f].updatedMs);
    }
    if i: nat :| LiveSince(es, i, f) {
      LiveExactly(es, f, es[i].value, es[i].at);
    }
  }

  lemma SendKeepsActive(s: Scheduler, now: nat, f: Key)
    ensures SendNext(s, now).0.Is(f, Active) <==> s.Is(f, Active)
  {
  }

  lemma WantsIsSendable(es: seq<Event>, e: Event, f: Key)
    ensures Wants(es, e, f) <==> Prepare(Run(IDLE, es), e).Sendable(f)
  {
    var s := Run(IDLE, es);
    RunSwitch(es);
    RunExtends(es, e);
    LiveIsActive(es + [e], f);
    SendKeepsActive(Prepare(s, e), e.at, f);
    OwedExactly(es, f);
    StopsLiveIs(es, e, f);
    PreparedOwes(s, e, f);
  }

  lemma FreesIsFree(es: seq<Event>, e: Event)
    requires !InProgress(e)
    ensures Frees(es, e) <==> Prepare(Run(IDLE, es), e).inProgressUntil.None?
  {
    var s := Run(IDLE, es);
    if s.inProgressUntil.Some? {
      InFlightExactly(es, s.inProgressUntil.value);
    }
    forall m: nat | InFlightSince(es, m) ensures s.inProgressUntil == Some(es[m].at + 1000) {
      InFlightExactly(es, es[m].at + 1000);
    }
  }

  /** A command goes out if and only if the event gets as far as sending, nothing stays in flight, and some
      channel is live or owes a stop. */
  lemma SendsExactly(es: seq<Event>, e: Event)
    ensures Step(Run(IDLE, es), e).1.Some? <==> Reaches(es, e) && Frees(es, e) && exists f :: Wants(es, e, f)
  {
    var ready := Prepare(Run(IDLE, es), e);
    RunSwitch(es);
    if !InProgress(e) {
      FreesIsFree(es, e);
    }
    SendsWhenFree(ready, e.at);
    if f :| ready.Sendable(f) {
      WantsIsSendable(es, e, f);
    }
    if f :| Wants(es, e, f) {
      WantsIsSendable(es, e, f);
    }
  }

  /** A set made while the switch is on, with nothing in flight and no other channel live or owing a stop, sends
      its value at once. */
  lemma SetSendsAtOnce(es: seq<Event>, f: Key, value: Value, at: nat)
    requires SwitchedOn(es) && forall m: nat :: !InFlightSince(es, m)
    requires forall g :: g != f ==> !IsLive(es, g) && !IsOwed(es, g)
    ensures Step(Run(IDLE, es), Event.Set(f, value, at)).1 == Some(Request(f, value, 1.0))
  {
    var e, s := Event.Set(f, value, at), Run(IDLE, es);
    RunSwitch(es);
    FreesIsFree(es, e);
    var ready := Prepare(s, e);
    assert ready.Sendable(f);
    forall g | ready.Sendable(g) ensures g == f {
      LiveIsActive(es, g);
      OwedExactly(es, g);
    }
  }

  ghost predicate Above(s: Scheduler, j: Key) {
    s.Sendable(j) && s.current.Some? && j > s.current.value
  }

  /** The next channel is the lowest one above the last that was sent to, or, with none above, the lowest of all. */
  lemma NextGoesUp(s: Scheduler, k: Key)
    ensures Next(s) == Some(k) <==>
            && s.Sendable(k)
            && if exists j: Key :: Above(s, j) then Above(s, k) && forall j: Key :: Above(s, j) ==> k <= j
               else forall j: Key :: s.Sendable(j) ==> k <= j
  {
    if s.Sendable(k) {
      var next := Next(s).value;
      assert s.IsNext(next);
      if j: Key :| Above(s, j) {
        assert !PassedOver(s.current, j, next);
        assert Above(s, next);
        forall i: Key | Above(s, i) ensures next <= i {
          assert !PassedOver(s.current, i, next);
        }
      } else {
        forall i: Key | s.Sendable(i) ensures next <= i {
          assert !PassedOver(s.current, i, next) && !Above(s, i) && !Above(s, next);
        }
      }
    }
  }

  /** A failure has been announced exactly if one has been answered. */
  lemma {:induction false} FailedExactly(es: seq<Event>)
    ensures Run(IDLE, es).hadFailure <==> exists i :: 0 <= i < |es| && FailureAck(es[i])
  {
    if es != [] {
      var n := |es| - 1;
      FailedExactly(es[..n]);
      assert Step(Run(IDLE, es[..n]), es[n]).0.hadFailure <==> Run(IDLE, es[..n]).hadFailure || FailureAck(es[n]);
      if i :| 0 <= i < |es| && FailureAck(es[i]) {
        assert i < n ==> es[..n][i] == es[i];
      }
    }
  }
}
