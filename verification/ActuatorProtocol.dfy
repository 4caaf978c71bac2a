/**
 The actuator-test scheduler as a transition system: what each call does to the channels, the
 round-robin cursor and the single in-flight slot, and which command it puts on the wire.
 */
module ActuatorProtocol {
  import opened Common

  const WATCHDOG_MS: nat := 100
  const ACK_TIMEOUT_MS: nat := 1000
  const RESULT_ACCEPTED: nat := 0
  const RESULT_TEMPORARILY_REJECTED: nat := 1
  const RESULT_DENIED: nat := 2
  const RESULT_UNSUPPORTED: nat := 3
  const RESULT_IN_PROGRESS: nat := 5

  /** A 32-bit float as the scheduler sees one: it only copies values and writes NaN. */
  datatype Value = Finite(r: real) | Infinite(negative: bool) | NaN

  /** An actuator output function; the map of channels is keyed and ordered by it. */
  type Key = k: int | -0x8000_0000_0000_0000 <= k < 0x8000_0000_0000_0000

  datatype ChannelState = NotActive | Active | StopRequest | Stopping

  datatype Channel = Channel(state: ChannelState, value: Value, updatedMs: nat)

  datatype Request = Request(channel: Key, value: Value, timeout: real)

  datatype Scheduler = Scheduler(
    active: bool,
    channels: map<Key, Channel>,
    current: Option<Key>,
    inProgressUntil: Option<nat>,
    hadFailure: bool)
  {
    /** Channels are never removed, so the cursor always names one. */
    predicate Valid() {
      current.Some? ==> current.value in channels
    }

    predicate Sendable(f: Key) {
      f in channels && (channels[f].state.Active? || channels[f].state.StopRequest?)
    }

    predicate Is(f: Key, state: ChannelState) {
      f in channels && channels[f].state == state
    }

    function StopRequests(): set<Key> {
      set f | f in channels && channels[f].state.StopRequest?
    }

    /** The channel the cursor reaches first: no sendable channel lies between it and the cursor. */
    ghost predicate IsNext(k: Key) {
      Sendable(k) && forall j :: Sendable(j) ==> !PassedOver(current, j, k)
    }
  }

  const IDLE := Scheduler(false, map[], None, None, false)

  /** Walking upwards from just after `cursor` and wrapping round, `j` comes strictly before `k`. */
  predicate PassedOver(cursor: Option<Key>, j: Key, k: Key) {
    match cursor
    case None => j < k
    case Some(c) => if c < k then c < j < k else j > c || j < k
  }

  function Marked(channels: map<Key, Channel>, which: set<Key>, state: ChannelState): map<Key, Channel> {
    map f | f in channels :: if f in which then channels[f].(state := state) else channels[f]
  }

  function Live(s: Scheduler, wanted: Option<Key>): set<Key> {
    set f | f in s.channels && s.channels[f].state.Active? && (wanted.None? || wanted.value == f)
  }

  function Stale(s: Scheduler, now: nat): set<Key> {
    set f | f in s.channels && s.channels[f].state.Active? &&
            (if now < s.channels[f].updatedMs then 0 else now - s.channels[f].updatedMs) > WATCHDOG_MS
  }

  // ---- sending ----

  /** Of finitely many channels one is reached first. */
  lemma FirstReached(cursor: Option<Key>, from: set<Key>) returns (k: Key)
    requires from != {}
    ensures k in from && forall j :: j in from ==> !PassedOver(cursor, j, k)
    decreases |from|
  {
    var first :| first in from;
    k := first;
    var rest := from - {first};
    if rest != {} {
      var k' := FirstReached(cursor, rest);
      if !PassedOver(cursor, first, k') {
        k := k';
      }
    }
    assert forall j :: j in from ==> j == first || j in rest;
  }

  ghost function Next(s: Scheduler): (next: Option<Key>)
    ensures next.None? <==> forall k :: !s.Sendable(k)
    ensures next.Some? ==> s.IsNext(next.value)
  {
    if exists k :: s.Sendable(k) then
      assert exists k :: s.IsNext(k) by {
        var sendable := set k | k in s.channels && s.Sendable(k);
        var some :| s.Sendable(some);
        assert some in sendable;
        var k := FirstReached(s.current, sendable);
        assert s.IsNext(k);
      }
      var k :| s.IsNext(k);
      Some(k)
    else
      None
  }

  function Command(s: Scheduler, f: Key): Request
    requires f in s.channels
  {
    if s.channels[f].state.Active? then Request(f, s.channels[f].value, 1.0) else Request(f, NaN, 0.0)
  }

  /** The state after the command for `f` went out at `now`. */
  function Sent(s: Scheduler, f: Key, now: nat): Scheduler
    requires f in s.channels
  {
    s.(current := Some(f),
       channels := if s.channels[f].state.Active? then s.channels else s.channels[f := s.channels[f].(state := Stopping)],
       inProgressUntil := Some(now + ACK_TIMEOUT_MS))
  }

  ghost function SendNext(s: Scheduler, now: nat): (Scheduler, Option<Request>) {
    match Next(s)
    case Some(f) => if s.inProgressUntil.None? then (Sent(s, f, now), Some(Command(s, f))) else (s, None)
    case None => (s, None)
  }

  // ---- the five calls ----

  datatype Event =
    | SetActive(on: bool, at: nat)
    | Set(channel: Key, value: Value, at: nat)
    | Stop(wanted: Option<Key>, at: nat)
    | Tick(at: nat)
    | Ack(result: nat, at: nat)

  predicate FinalAck(e: Event) {
    e.Ack? && e.result != RESULT_IN_PROGRESS
  }

  predicate FailureAck(e: Event) {
    FinalAck(e) && e.result != RESULT_ACCEPTED
  }

  /** Does the call reach the send step at all? */
  predicate Dispatches(s: Scheduler, e: Event) {
    match e
    case SetActive(on, _) => !on
    case Set(_, _, _) => s.active
    case Ack(result, _) => result != RESULT_IN_PROGRESS
    case _ => true
  }

  /** What the call changes before the send step. */
  function Prepare(s: Scheduler, e: Event): Scheduler {
    match e
    case SetActive(on, _) =>
      if on then s.(active := true)
      else s.(active := false, channels := Marked(s.channels, Live(s, None), StopRequest))
    case Set(f, value, at) =>
      if s.active then s.(channels := s.channels[f := Channel(Active, value, at)]) else s
    case Stop(wanted, _) =>
      s.(channels := Marked(s.channels, Live(s, wanted), StopRequest))
    case Tick(at) =>
      s.(channels := Marked(s.channels, Stale(s, at), StopRequest),
         inProgressUntil := if s.inProgressUntil.Some? && at >= s.inProgressUntil.value then None else s.inProgressUntil)
    case Ack(result, at) =>
      if result == RESULT_IN_PROGRESS then s.(inProgressUntil := Some(at + ACK_TIMEOUT_MS))
      else s.(channels := Marked(s.channels, Answered(s, result), NotActive),
              inProgressUntil := None,
              hadFailure := s.hadFailure || result != RESULT_ACCEPTED)
  }

  /** The channel a final answer settles: the current one, if it fails or if it is stopping. */
  function Answered(s: Scheduler, result: nat): set<Key> {
    set f | f in s.channels && s.current == Some(f) && (result == RESULT_ACCEPTED ==> s.channels[f].state.Stopping?)
  }

  ghost function Step(s: Scheduler, e: Event): (Scheduler, Option<Request>) {
    if Dispatches(s, e) then SendNext(Prepare(s, e), e.at) else (Prepare(s, e), None)
  }

  // ---- runs ----

  ghost function Run(s: Scheduler, es: seq<Event>): Scheduler {
    if es == [] then s else Step(Run(s, es[..|es| - 1]), es[|es| - 1]).0
  }

  /** What the `i`-th event of a run puts on the wire. */
  ghost function Output(s: Scheduler, es: seq<Event>, i: nat): Option<Request>
    requires i < |es|
  {
    Step(Run(s, es[..i]), es[i]).1
  }

  /** Everything a run puts on the wire, in order. */
  ghost function Wire(s: Scheduler, es: seq<Event>): seq<Request> {
    if es == [] then []
    else
      Wire(s, es[..|es| - 1]) +
      (match Output(s, es, |es| - 1) case None => [] case Some(r) => [r])
  }

  lemma {:induction false} StepKeepsValid(s: Scheduler, e: Event)
    requires s.Valid()
    ensures Step(s, e).0.Valid()
    ensures s.channels.Keys <= Step(s, e).0.channels.Keys
  {
  }

  lemma {:induction false} RunKeepsValid(s: Scheduler, es: seq<Event>)
    requires s.Valid()
    ensures Run(s, es).Valid()
    ensures s.channels.Keys <= Run(s, es).channels.Keys
  {
    if es != [] {
      RunKeepsValid(s, es[..|es| - 1]);
      StepKeepsValid(Run(s, es[..|es| - 1]), es[|es| - 1]);
    }
  }

  /** A run over a longer sequence passes through the states of its prefixes. */
  lemma RunPrefix(s: Scheduler, es: seq<Event>, i: nat)
    requires i < |es|
    ensures Run(s, es[..i + 1]) == Step(Run(s, es[..i]), es[i]).0
  {
    assert es[..i + 1][..i] == es[..i];
  }
}
