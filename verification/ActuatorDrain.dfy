/** Switching the sliders off: every live output is stopped exactly once, and nothing else moves. */
module ActuatorDrain {
  import opened Common
  import opened ActuatorProtocol
  import opened ActuatorRuns

  ghost predicate NothingLive(s: Scheduler) {
    !s.active && forall f :: f in s.channels ==> !s.channels[f].state.Active?
  }

  /** A run that opens by switching off and never switches on again. */
  ghost predicate StaysOff(es: seq<Event>) {
    es != [] && es[0].SetActive? && forall i :: 0 <= i < |es| ==> es[i].SetActive? ==> !es[i].on
  }

  predicate IsStop(r: Request) {
    r.value == NaN && r.timeout == 0.0
  }

  /** Nothing is live once the switch-off call has marked its stops, so a send can only be a stop. */
  lemma OffStep(s: Scheduler, e: Event)
    requires NothingLive(s) || (e.SetActive? && !e.on)
    requires e.SetActive? ==> !e.on
    ensures NothingLive(Prepare(s, e)) && NothingLive(Step(s, e).0)
    ensures Step(s, e).0.StopRequests() <= Prepare(s, e).StopRequests()
    ensures match Step(s, e).1
            case None => Step(s, e).0.StopRequests() == Prepare(s, e).StopRequests()
            case Some(r) => IsStop(r) && r.channel in Prepare(s, e).StopRequests() && r.channel !in Step(s, e).0.StopRequests()
  {
  }

  lemma {:induction false} OffRun(s: Scheduler, es: seq<Event>)
    requires StaysOff(es)
    ensures NothingLive(Run(s, es))
  {
    var n := |es| - 1;
    if n > 0 {
      OffRun(s, es[..n]);
    }
    OffStep(Run(s, es[..n]), es[n]);
  }

  /** Once off, the set of channels still owed a stop never grows, and shrinks by each one sent. */
  lemma OffShrinks(s: Scheduler, es: seq<Event>, i: nat)
    requires StaysOff(es) && 0 < i < |es|
    ensures Run(s, es[..i + 1]).StopRequests() <= Run(s, es[..i]).StopRequests()
    ensures match Output(s, es, i)
            case None => true
            case Some(r) =>
              && IsStop(r)
              && r.channel in Run(s, es[..i]).StopRequests()
              && r.channel !in Run(s, es[..i + 1]).StopRequests()
              && |Run(s, es[..i + 1]).StopRequests()| < |Run(s, es[..i]).StopRequests()|
  {
    OffRun(s, es[..i]);
    OffStep(Run(s, es[..i]), es[i]);
    RunPrefix(s, es, i);
    SubsetCount(Run(s, es[..i + 1]).StopRequests(), Run(s, es[..i]).StopRequests());
  }

  /** The channels sent so far are owed nothing any more. */
  lemma {:induction false} OnlyStopsEachOnce(s: Scheduler, es: seq<Event>)
    requires StaysOff(es)
    ensures forall i :: 0 <= i < |Wire(s, es)| ==> IsStop(Wire(s, es)[i])
    ensures Distinct(Channels(Wire(s, es)))
    ensures forall i :: 0 <= i < |Wire(s, es)| ==> Wire(s, es)[i].channel !in Run(s, es).StopRequests()
  {
    var n := |es| - 1;
    WirePrefix(s, es);
    if n > 0 {
      OnlyStopsEachOnce(s, es[..n]);
      OffRun(s, es[..n]);
      OffStepKeepsOwed(Run(s, es[..n]), es[n]);
    } else {
      assert Wire(s, es[..n]) == [];
    }
    OffStep(Run(s, es[..n]), es[n]);
    var old_, new_ := Wire(s, es[..n]), Wire(s, es);
    assert forall i :: 0 <= i < |old_| ==> new_[i] == old_[i];
    assert forall i :: 0 <= i < |old_| ==> Channels(new_)[i] == Channels(old_)[i];
  }

  lemma OffStepKeepsOwed(s: Scheduler, e: Event)
    requires NothingLive(s) && (e.SetActive? ==> !e.on)
    ensures Prepare(s, e).StopRequests() <= s.StopRequests()
  {
  }

  // ---- every live channel gets its stop, with one exception ----

  ghost predicate StopSent(s: Scheduler, es: seq<Event>, x: Key) {
    exists i :: 0 <= i < |Wire(s, es)| && Wire(s, es)[i].channel == x && IsStop(Wire(s, es)[i])
  }

  /** The exception: the live command for `x` was in flight at the switch-off and a failure answered it. */
  ghost predicate AnsweredByFailure(s: Scheduler, es: seq<Event>, x: Key) {
    && s.current == Some(x) && s.inProgressUntil.Some?
    && exists j :: 0 < j < |es| && FailureAck(es[j]) && Wire(s, es[..j]) == []
  }

  /** Every channel that was live when the switch went off is still owed its stop, or was sent one,
      or is the one whose command in flight was answered by a failure first. */
  lemma {:induction false} EveryLiveChannelIsStopped(s: Scheduler, es: seq<Event>, x: Key)
    requires s.Valid() && s.Sendable(x)
    requires StaysOff(es)
    ensures x in Run(s, es).StopRequests() || StopSent(s, es, x) || AnsweredByFailure(s, es, x)
    ensures Wire(s, es) == [] ==> Run(s, es).current == s.current
    ensures Wire(s, es) == [] && x in Run(s, es).StopRequests() ==> s.inProgressUntil.Some? && Run(s, es).inProgressUntil.Some?
    ensures Wire(s, es) != [] && Run(s, es).current == Some(x) ==> x !in Run(s, es).StopRequests()
  {
    var n := |es| - 1;
    var before, e := es[..n], es[n];
    OnlyStopsEachOnce(s, es);
    WirePrefix(s, es);
    LastStep(s, es);
    if n == 0 {
      assert Run(s, before) == s && Wire(s, before) == [];
      FirstOff(s, e, x);
      assert x !in Run(s, es).StopRequests() ==> Wire(s, es)[0].channel == x && IsStop(Wire(s, es)[0]);
    } else {
      EveryLiveChannelIsStopped(s, before, x);
      OffRun(s, before);
      var t := Run(s, before);
      RunKeepsValid(s, before);
      LaterOff(t, e, x);
      if StopSent(s, before, x) {
        StopStaysSent(s, es, x);
      } else if AnsweredByFailure(s, before, x) {
        FailureStays(s, es, x);
      } else if x !in Run(s, es).StopRequests() {
        if Step(t, e).1.Some? && Step(t, e).1.value.channel == x {
          assert Wire(s, es)[|Wire(s, es)| - 1] == Step(t, e).1.value;
        } else {
          assert FailureAck(es[n]) && Wire(s, es[..n]) == [];
        }
      }
    }
  }

  lemma StopStaysSent(s: Scheduler, es: seq<Event>, x: Key)
    requires es != [] && StopSent(s, es[..|es| - 1], x)
    ensures StopSent(s, es, x)
  {
    var sent := Wire(s, es[..|es| - 1]);
    var i :| 0 <= i < |sent| && sent[i].channel == x && IsStop(sent[i]);
    WirePrefix(s, es);
    assert Wire(s, es)[i] == sent[i];
  }

  lemma FailureStays(s: Scheduler, es: seq<Event>, x: Key)
    requires es != [] && AnsweredByFailure(s, es[..|es| - 1], x)
    ensures AnsweredByFailure(s, es, x)
  {
    var before := es[..|es| - 1];
    var j :| 0 < j < |before| && FailureAck(before[j]) && Wire(s, before[..j]) == [];
    assert es[..j] == before[..j] && es[j] == before[j];
  }

  lemma FirstOff(s: Scheduler, e: Event, x: Key)
    requires s.Valid() && s.Sendable(x) && e.SetActive? && !e.on
    ensures var (t, r) := Step(s, e);
            match r
            case Some(r) => t.current == Some(r.channel) && r.channel !in t.StopRequests() && IsStop(r)
                            && (r.channel == x || x in t.StopRequests())
            case None => t.current == s.current && x in t.StopRequests() && s.inProgressUntil.Some? && t.inProgressUntil.Some?
  {
    OffStep(s, e);
    var ready := Prepare(s, e);
    assert ready.Sendable(x);
  }

  lemma LaterOff(s: Scheduler, e: Event, x: Key)
    requires s.Valid() && NothingLive(s) && (e.SetActive? ==> !e.on)
    ensures var (t, r) := Step(s, e);
            match r
            case Some(r) => t.current == Some(r.channel) && r.channel !in t.StopRequests() && IsStop(r)
            case None => t.current == s.current && (t.StopRequests() != {} ==> t.inProgressUntil.Some? || !Dispatches(s, e))
    ensures x in s.StopRequests() ==>
              || x in Step(s, e).0.StopRequests()
              || (Step(s, e).1.Some? && Step(s, e).1.value.channel == x)
              || (FailureAck(e) && s.current == Some(x))
    ensures !Dispatches(s, e) && s.inProgressUntil.Some? ==> Step(s, e).0.inProgressUntil.Some?
    ensures Step(s, e).0.StopRequests() <= s.StopRequests()
  {
    OffStep(s, e);
    OffStepKeepsOwed(s, e);
    var ready := Prepare(s, e);
    if Step(s, e).1.None? && Step(s, e).0.StopRequests() != {} && Dispatches(s, e) {
      var f :| f in ready.StopRequests();
      assert ready.Sendable(f);
    }
  }

  // ---- the drain finishes ----

  function FinalAcks(es: seq<Event>): nat {
    if es == [] then 0 else FinalAcks(es[..|es| - 1]) + if FinalAck(es[|es| - 1]) then 1 else 0
  }

  lemma FinalAckDrains(s: Scheduler, e: Event)
    requires s.Valid() && NothingLive(s) && FinalAck(e)
    ensures Step(s, e).0.StopRequests() <= s.StopRequests()
    ensures s.StopRequests() != {} ==> |Step(s, e).0.StopRequests()| < |s.StopRequests()|
  {
    OffStep(s, e);
    OffStepKeepsOwed(s, e);
    var ready := Prepare(s, e);
    var left := Step(s, e).0.StopRequests();
    if left == s.StopRequests() && left != {} {
      var f :| f in left;
      assert ready.Sendable(f);
      assert false;
    }
    SubsetCount(left, s.StopRequests());
  }

  /** Each final answer retires at least one owed stop, so as many answers as stops drain them all. */
  lemma {:induction false} AnswersDrainEverything(s: Scheduler, es: seq<Event>)
    requires s.Valid() && NothingLive(s)
    requires forall i :: 0 <= i < |es| ==> es[i].SetActive? ==> !es[i].on
    ensures NothingLive(Run(s, es)) && Run(s, es).StopRequests() <= s.StopRequests()
    ensures |Run(s, es).StopRequests()| + FinalAcks(es) <= |s.StopRequests()| || Run(s, es).StopRequests() == {}
    ensures FinalAcks(es) >= |s.StopRequests()| ==> Run(s, es).StopRequests() == {}
  {
    if es != [] {
      var n := |es| - 1;
      AnswersDrainEverything(s, es[..n]);
      var t, e := Run(s, es[..n]), es[n];
      RunKeepsValid(s, es[..n]);
      LastStep(s, es);
      OffStep(t, e);
      OffStepKeepsOwed(t, e);
      SubsetCount(Run(s, es).StopRequests(), t.StopRequests());
      if FinalAck(e) {
        FinalAckDrains(t, e);
      }
    }
  }

  lemma {:induction false} RunSplits(s: Scheduler, first: seq<Event>, more: seq<Event>)
    ensures Run(s, first + more) == Run(Run(s, first), more)
  {
    var all := first + more;
    if more == [] {
      assert all == first;
    } else {
      var n := |more| - 1;
      RunSplits(s, first, more[..n]);
      assert all[..|all| - 1] == first + more[..n];
    }
  }

  lemma RunAfterFirst(s: Scheduler, off: Event, more: seq<Event>)
    ensures Run(s, [off] + more) == Run(Step(s, off).0, more)
  {
    RunSplits(s, [off], more);
    assert [off][..0] == [];
  }

  /** Once as many final answers have come as stops were owed after the switch-off, every channel that
      was live has been sent its stop, but for one whose command in flight was answered by a failure. */
  lemma AnsweredStopsWereSent(s: Scheduler, off: Event, more: seq<Event>, x: Key)
    requires s.Valid() && s.Sendable(x) && StaysOff([off] + more)
    requires FinalAcks(more) >= |Step(s, off).0.StopRequests()|
    ensures StopSent(s, [off] + more, x) || AnsweredByFailure(s, [off] + more, x)
  {
    var es := [off] + more;
    assert es[0] == off;
    forall i | 0 <= i < |more| ensures more[i].SetActive? ==> !more[i].on {
      assert es[i + 1] == more[i];
    }
    OffStep(s, off);
    RunAfterFirst(s, off, []);
    assert Run(Step(s, off).0, []) == Step(s, off).0;
    RunKeepsValid(s, [off]);
    RunAfterFirst(s, off, more);
    AnswersDrainEverything(Step(s, off).0, more);
    EveryLiveChannelIsStopped(s, es, x);
  }
}
