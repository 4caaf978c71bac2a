/** Properties of whole runs of the actuator-test scheduler. */
module ActuatorRuns {
  import opened Common
  import opened ActuatorProtocol

  // ---- round robin ----

  ghost predicate StaysSendable(s: Scheduler, es: seq<Event>, x: Key) {
    forall i :: 0 <= i <= |es| ==> Run(s, es[..i]).Sendable(x)
  }

  ghost predicate NeverSent(wire: seq<Request>, x: Key) {
    forall i :: 0 <= i < |wire| ==> wire[i].channel != x
  }

  /** Each command lies further along the cycle that ends at `x` than the one before it. */
  ghost predicate Approaches(wire: seq<Request>, x: Key) {
    forall i, j :: 0 <= i < j < |wire| ==> PassedOver(Some(x), wire[i].channel, wire[j].channel)
  }

  function Channels(wire: seq<Request>): seq<Key> {
    seq(|wire|, i requires 0 <= i < |wire| => wire[i].channel)
  }

  lemma WirePrefix(s: Scheduler, es: seq<Event>)
    requires es != []
    ensures Wire(s, es) == Wire(s, es[..|es| - 1]) +
                           (match Output(s, es, |es| - 1) case None => [] case Some(r) => [r])
  {
  }

  /** While `x` waits, every send moves the cursor strictly towards it, never past it. */
  lemma {:induction false} CursorApproaches(s: Scheduler, es: seq<Event>, x: Key)
    requires s.Valid()
    requires StaysSendable(s, es, x)
    requires NeverSent(Wire(s, es), x)
    ensures Approaches(Wire(s, es), x)
    ensures Wire(s, es) != [] ==> Run(s, es).current == Some(Wire(s, es)[|Wire(s, es)| - 1].channel)
    ensures forall i :: 0 <= i < |Wire(s, es)| ==> Wire(s, es)[i].channel in Run(s, es).channels
  {
    if es != [] {
      var n := |es| - 1;
      var before := es[..n];
      assert forall i :: 0 <= i <= n ==> before[..i] == es[..i];
      assert Run(s, es).Sendable(x) by { assert es[..|es|] == es; }
      WirePrefix(s, es);
      var sent, r := Wire(s, before), Output(s, es, n);
      assert forall i :: 0 <= i < |sent| ==> sent[i] == Wire(s, es)[i];
      CursorApproaches(s, before, x);
      RunKeepsValid(s, before);
      assert r.Some? ==> Wire(s, es)[|sent|] == r.value;
      Onward(Run(s, before), es[n], x, sent);
    }
  }

  ghost predicate LeadsTo(s: Scheduler, wire: seq<Request>, x: Key) {
    && Approaches(wire, x) && (wire != [] ==> s.current == Some(wire[|wire| - 1].channel))
    && forall i :: 0 <= i < |wire| ==> wire[i].channel in s.channels
  }

  lemma Onward(s: Scheduler, e: Event, x: Key, sent: seq<Request>)
    requires s.Valid() && Step(s, e).0.Sendable(x) && NeverSent(sent, x) && LeadsTo(s, sent, x)
    requires Step(s, e).1.Some? ==> Step(s, e).1.value.channel != x
    ensures LeadsTo(Step(s, e).0, sent + (match Step(s, e).1 case None => [] case Some(r) => [r]), x)
  {
    var r := Step(s, e).1;
    StepKeepsValid(s, e);
    SendApproaches(s, e, x);
    if r.Some? {
      AppendApproaches(sent, r.value, x);
    } else {
      assert sent + [] == sent;
    }
  }

  lemma AppendApproaches(wire: seq<Request>, r: Request, x: Key)
    requires Approaches(wire, x)
    requires wire != [] ==> wire[|wire| - 1].channel != x && PassedOver(Some(x), wire[|wire| - 1].channel, r.channel)
    ensures Approaches(wire + [r], x)
  {
    if wire != [] {
      var last := |wire| - 1;
      assert forall i :: 0 <= i < last ==> PassedOver(Some(x), wire[i].channel, wire[last].channel);
    }
  }

  /** One step: a command for another channel goes to one strictly nearer to the waiting `x`. */
  lemma SendApproaches(s: Scheduler, e: Event, x: Key)
    requires s.Valid()
    requires Step(s, e).0.Sendable(x)
    requires Step(s, e).1.Some? ==> Step(s, e).1.value.channel != x
    ensures match Step(s, e).1
            case None => Step(s, e).0.current == s.current
            case Some(r) => Step(s, e).0.current == Some(r.channel) && r.channel in Step(s, e).0.channels
    ensures Step(s, e).1.Some? && s.current.Some? && s.current.value != x ==>
              PassedOver(Some(x), s.current.value, Step(s, e).1.value.channel)
  {
    if Step(s, e).1.Some? {
      var ready := Prepare(s, e);
      assert ready.Sendable(x);
      assert !PassedOver(ready.current, x, Next(ready).value);
    }
  }

  /**
   Fairness: for as long as `x` stays sendable and is not sent, no other channel is sent twice,
   even if channels are added meanwhile, and so fewer commands go out than there are channels.
   */
  lemma Fairness(s: Scheduler, es: seq<Event>, x: Key)
    requires s.Valid()
    requires StaysSendable(s, es, x)
    requires NeverSent(Wire(s, es), x)
    ensures Distinct(Channels(Wire(s, es)))
    ensures |Wire(s, es)| < |Run(s, es).channels|
  {
    CursorApproaches(s, es, x);
    var sent := Channels(Wire(s, es));
    forall i, j | 0 <= i < j < |sent| ensures sent[i] != sent[j] {
      assert PassedOver(Some(x), Wire(s, es)[i].channel, Wire(s, es)[j].channel);
    }
    DistinctCount(sent);
    var all := Run(s, es).channels.Keys;
    assert Run(s, es).Sendable(x) by { assert es[..|es|] == es; }
    SubsetCount(Elements(sent), all);
  }

  /** Service within one round: as many commands as there are channels include one for `x`. */
  lemma ServedWithinOneRound(s: Scheduler, es: seq<Event>, x: Key)
    requires s.Valid()
    requires StaysSendable(s, es, x)
    requires |Wire(s, es)| >= |Run(s, es).channels|
    ensures exists i :: 0 <= i < |Wire(s, es)| && Wire(s, es)[i].channel == x
  {
    if NeverSent(Wire(s, es), x) {
      Fairness(s, es, x);
    }
  }

  /** The line is never idle with work waiting: the send step is silent only when it must be. */
  lemma SendsWhenFree(s: Scheduler, now: nat)
    ensures SendNext(s, now).1.Some? <==> s.inProgressUntil.None? && exists k :: s.Sendable(k)
    ensures SendNext(s, now).1.Some? ==> s.Sendable(SendNext(s, now).1.value.channel)
  {
  }

  // ---- one command at a time ----

  predicate Releases(e: Event, since: nat) {
    FinalAck(e) || (e.Tick? && e.at >= since + ACK_TIMEOUT_MS)
  }

  ghost predicate Waiting(s: Scheduler, since: nat) {
    s.inProgressUntil.Some? && s.inProgressUntil.value >= since + ACK_TIMEOUT_MS
  }

  /** With a command out since `since`, an event that does not release the line sends nothing. */
  lemma KeepsWaiting(s: Scheduler, e: Event, since: nat)
    requires Waiting(s, since) && e.at >= since && !Releases(e, since)
    ensures Waiting(Step(s, e).0, since) && Step(s, e).1.None?
  {
  }

  /** Every command sent starts a window of its own. */
  lemma SendStartsWaiting(s: Scheduler, e: Event)
    requires Step(s, e).1.Some?
    ensures Waiting(Step(s, e).0, e.at)
  {
  }

  /** No clock reading after position `i` is earlier than that one's, and none of the events releases the line. */
  ghost predicate Held(es: seq<Event>, i: nat, k: nat)
    requires i < k < |es|
  {
    forall j :: i < j <= k ==> es[j].at >= es[i].at && !Releases(es[j], es[i].at)
  }

  lemma {:induction false} WaitsBetween(s: Scheduler, es: seq<Event>, i: nat, k: nat)
    requires i < k < |es| && Output(s, es, i).Some? && Held(es, i, k)
    ensures Waiting(Run(s, es[..k]), es[i].at)
  {
    var before, last := Run(s, es[..k - 1]), es[k - 1];
    RunPrefix(s, es, k - 1);
    if k == i + 1 {
      SendStartsWaiting(before, last);
    } else {
      assert Held(es, i, k - 1) && last.at >= es[i].at && !Releases(last, es[i].at);
      WaitsBetween(s, es, i, k - 1);
      KeepsWaiting(before, last, es[i].at);
    }
  }

  /**
   One command at a time: between any two sends of a run, with no clock reading earlier than the
   first, there is a final acknowledgement or a tick past the first one's acknowledgement window.
   */
  lemma OneCommandAtATime(s: Scheduler, es: seq<Event>, i: nat, k: nat)
    requires i < k < |es|
    requires Output(s, es, i).Some? && Output(s, es, k).Some?
    requires forall j :: i < j <= k ==> es[j].at >= es[i].at
    ensures exists j :: i < j <= k && Releases(es[j], es[i].at)
  {
    if Held(es, i, k) {
      WaitsBetween(s, es, i, k);
      KeepsWaiting(Run(s, es[..k]), es[k], es[i].at);
    }
  }

  // ---- the same whatever the clock does ----

  /** The event ends the window that is open: a final answer, or a tick that finds it expired. */
  predicate EndsWindow(s: Scheduler, e: Event) {
    FinalAck(e) || (e.Tick? && s.inProgressUntil.Some? && e.at >= s.inProgressUntil.value)
  }

  lemma WindowStaysOpen(s: Scheduler, e: Event)
    requires s.inProgressUntil.Some? && !EndsWindow(s, e)
    ensures Step(s, e).0.inProgressUntil.Some? && Step(s, e).1.None?
  {
  }

  ghost predicate NoneEnds(s: Scheduler, es: seq<Event>, i: nat, k: nat)
    requires k < |es|
  {
    forall j {:trigger EndsWindow(Run(s, es[..j]), es[j])} :: i < j <= k ==> !EndsWindow(Run(s, es[..j]), es[j])
  }

  lemma {:induction false} OpenBetween(s: Scheduler, es: seq<Event>, i: nat, k: nat)
    requires i < k < |es| && Output(s, es, i).Some? && NoneEnds(s, es, i, k)
    ensures Run(s, es[..k]).inProgressUntil.Some?
  {
    var before, last := Run(s, es[..k - 1]), es[k - 1];
    RunPrefix(s, es, k - 1);
    if k == i + 1 {
      SendStartsWaiting(before, last);
    } else {
      assert NoneEnds(s, es, i, k - 1) && !EndsWindow(before, last);
      OpenBetween(s, es, i, k - 1);
      WindowStaysOpen(before, last);
    }
  }

  /** Even on a clock that jumps: between two sends the window open at that moment was ended, by a final
      answer or by a tick that found it expired. */
  lemma WindowEndsBetweenSends(s: Scheduler, es: seq<Event>, i: nat, k: nat)
    requires i < k < |es| && Output(s, es, i).Some? && Output(s, es, k).Some?
    ensures exists j :: i < j <= k && EndsWindow(Run(s, es[..j]), es[j])
  {
    if NoneEnds(s, es, i, k) {
      OpenBetween(s, es, i, k);
      assert !EndsWindow(Run(s, es[..k]), es[k]);
      WindowStaysOpen(Run(s, es[..k]), es[k]);
    }
  }

  lemma LastStep(s: Scheduler, es: seq<Event>)
    requires es != []
    ensures Run(s, es) == Step(Run(s, es[..|es| - 1]), es[|es| - 1]).0
  {
  }
}
