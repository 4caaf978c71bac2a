/** The scheduler object itself: fields updated in place, a sorted map walked round-robin. */
module ActuatorTester {
  import opened Common
  import opened ActuatorProtocol

  ghost predicate Ascending(s: seq<Key>) {
    forall i, j :: 0 <= i < j < |s| ==> s[i] < s[j]
  }

  /** A sorted map iterates its keys in ascending order. */
  method SortedKeys(keys: set<Key>) returns (order: seq<Key>)
    ensures Ascending(order)
    ensures Elements(order) == keys
  {
    order := [];
    var rest := keys;
    while rest != {}
      invariant Ascending(order)
      invariant forall k :: k in keys <==> k in rest || k in order
      invariant forall i, k :: 0 <= i < |order| && k in rest ==> order[i] < k
      decreases |rest|
    {
      var least := Least(rest);
      order := order + [least];
      rest := rest - {least};
    }
  }

  method Least(keys: set<Key>) returns (least: Key)
    requires keys != {}
    ensures least in keys && forall k :: k in keys ==> least <= k
  {
    least :| least in keys;
    var rest := keys - {least};
    while rest != {}
      invariant rest <= keys && least in keys
      invariant forall k :: k in keys ==> k in rest || least <= k
      decreases |rest|
    {
      var k :| k in rest;
      if k < least {
        least := k;
      }
      rest := rest - {k};
    }
  }

  /** The message a failed answer is announced with. */
  function FailureMessage(result: nat): string {
    if result == RESULT_TEMPORARILY_REJECTED then "Actuator test command temporarily rejected"
    else if result == RESULT_DENIED then "Actuator test command denied"
    else if result == RESULT_UNSUPPORTED then "Actuator test command not supported"
    else "Actuator test command failed"
  }

  /** Two channels reached first by the same cursor are the same channel. */
  lemma NextIsUnique(s: Scheduler, k: Key)
    requires s.IsNext(k)
    ensures Next(s) == Some(k)
  {
    assert s.Sendable(k);
    var other := Next(s).value;
    assert s.Sendable(other);
    assert !PassedOver(s.current, k, other) && !PassedOver(s.current, other, k);
  }

  class ActuatorTest {
    var active: bool
    var channels: map<Key, Channel>
    var current: Option<Key>
    var inProgressUntil: Option<nat>
    var hadFailure: bool

    function State(): Scheduler
      reads this
    {
      Scheduler(active, channels, current, inProgressUntil, hadFailure)
    }

    ghost predicate Valid()
      reads this
    {
      State().Valid()
    }

    constructor ()
      ensures Valid() && State() == IDLE
    {
      active, channels, current, inProgressUntil, hadFailure := false, map[], None, None, false;
    }

    method SetActive(on: bool, now: nat) returns (next: Option<Request>)
      requires Valid()
      modifies this
      ensures Valid()
      ensures (State(), next) == Step(old(State()), Event.SetActive(on, now))
    {
      if on {
        next := None;
      } else {
        next := Stop(None, now);
      }
      active := on;
      NextIgnoresSwitch(old(State()).(channels := Marked(old(channels), Live(old(State()), None), StopRequest)));
    }

    method Set(f: Key, value: Value, now: nat) returns (next: Option<Request>)
      requires Valid()
      modifies this
      ensures Valid()
      ensures (State(), next) == Step(old(State()), Event.Set(f, value, now))
      ensures old(active) ==> f in channels && channels[f] == Channel(Active, value, now)
    {
      if !active {
        return None;
      }
      channels := channels[f := Channel(Active, value, now)];
      next := SendNext(now);
    }

    method Stop(wanted: Option<Key>, now: nat) returns (next: Option<Request>)
      requires Valid()
      modifies this
      ensures Valid()
      ensures (State(), next) == Step(old(State()), Event.Stop(wanted, now))
    {
      channels := map f | f in channels ::
        if channels[f].state == Active && (wanted.None? || f == wanted.value) then channels[f].(state := StopRequest)
        else channels[f];
      assert State() == Prepare(old(State()), Event.Stop(wanted, now));
      next := SendNext(now);
    }

    method Tick(now: nat) returns (next: Option<Request>)
      requires Valid()
      modifies this
      ensures Valid()
      ensures (State(), next) == Step(old(State()), Event.Tick(now))
    {
      channels := map f | f in channels ::
        if channels[f].state == Active && now > channels[f].updatedMs + WATCHDOG_MS then channels[f].(state := StopRequest)
        else channels[f];
      if inProgressUntil.Some? && now >= inProgressUntil.value {
        inProgressUntil := None;
      }
      assert State() == Prepare(old(State()), Event.Tick(now));
      next := SendNext(now);
    }

    /** The announcement is made for the first failure only. */
    method OnAck(result: nat, now: nat) returns (next: Option<Request>, message: Option<string>)
      requires Valid()
      modifies this
      ensures Valid()
      ensures (State(), next) == Step(old(State()), Ack(result, now))
      ensures message == if FailureAck(Ack(result, now)) && !old(hadFailure) then Some(FailureMessage(result)) else None
    {
      message := None;
      if result == RESULT_IN_PROGRESS {
        inProgressUntil := Some(now + ACK_TIMEOUT_MS);
        return None, None;
      }
      inProgressUntil := None;
      if result == RESULT_ACCEPTED {
        if current.Some? && channels[current.value].state == Stopping {
          channels := channels[current.value := channels[current.value].(state := NotActive)];
        }
      } else {
        if current.Some? {
          channels := channels[current.value := channels[current.value].(state := NotActive)];
        }
        message := if hadFailure then None else Some(FailureMessage(result));
        hadFailure := true;
      }
      assert channels == Prepare(old(State()), Ack(result, now)).channels;
      assert State() == Prepare(old(State()), Ack(result, now));
      next := SendNext(now);
    }

    /** The send step: start just after the cursor, walk the keys once round, take the first sendable. */
    method SendNext(now: nat) returns (next: Option<Request>)
      requires Valid()
      modifies this
      ensures Valid()
      ensures (State(), next) == ActuatorProtocol.SendNext(old(State()), now)
    {
      if inProgressUntil.Some? || channels == map[] {
        return None;
      }
      var order := SortedKeys(channels.Keys);
      var reached := FirstSendable(order);
      if reached.None? {
        return None;
      }
      var found := reached.value;
      current := Some(found);
      if channels[found].state == Active {
        next := Some(Request(found, channels[found].value, 1.0));
      } else {
        channels := channels[found := channels[found].(state := Stopping)];
        next := Some(Request(found, NaN, 0.0));
      }
      inProgressUntil := Some(now + ACK_TIMEOUT_MS);
    }

    /** Walk the sorted keys once round, starting just after the cursor. */
    method FirstSendable(order: seq<Key>) returns (found: Option<Key>)
      requires Valid()
      requires Ascending(order) && Elements(order) == channels.Keys
      ensures found == Next(State())
    {
      var start := 0;
      if current.Some? {
        start := PositionOf(order, current.value);
        start := start + 1;
      }
      var step := 0;
      while step < |order|
        invariant 0 <= step <= |order|
        invariant forall i :: 0 <= i < step ==> !State().Sendable(order[Ring(start, i, |order|)])
      {
        var f := order[Ring(start, step, |order|)];
        if channels[f].state == Active || channels[f].state == StopRequest {
          FirstInWalk(State(), order, start, step);
          NextIsUnique(State(), f);
          return Some(f);
        }
        step := step + 1;
      }
      NoneInWalk(State(), order, start);
      found := None;
    }
  }

  /** The position `i` places on from `start` on a ring of `n`. */
  function Ring(start: nat, i: nat, n: nat): (p: nat)
    requires start <= n && i < n
    ensures p == if start + i < n then start + i else start + i - n
  {
    OnceRound(start + i, n);
    (start + i) % n
  }

  lemma OnceRound(x: nat, n: nat)
    requires x < 2 * n
    ensures x % n == if x < n then x else x - n
  {
    if x >= n {
      assert x == (x - n) + n * 1;
      assert (x - n + n * 1) % n == (x - n) % n;
    }
  }

  method PositionOf(order: seq<Key>, k: Key) returns (p: nat)
    requires Ascending(order) && k in order
    ensures p < |order| && order[p] == k
  {
    p := 0;
    while order[p] != k
      invariant p < |order| && k in order[p..]
    {
      p := p + 1;
    }
  }

  lemma NextIgnoresSwitch(s: Scheduler)
    ensures Next(s.(active := false)) == Next(s)
  {
    var off := s.(active := false);
    assert forall k: Key :: off.Sendable(k) <==> s.Sendable(k);
    if Next(s).Some? {
      assert off.IsNext(Next(s).value);
      NextIsUnique(off, Next(s).value);
    }
  }

  /** How far from `start` the walk meets position `p`. */
  function Distance(start: nat, p: nat, n: nat): (i: nat)
    requires start <= n && p < n
    ensures i < n && Ring(start, i, n) == p
  {
    if p >= start then p - start else p + n - start
  }

  /** A walk once round that meets nothing sendable has looked at every channel. */
  lemma NoneInWalk(s: Scheduler, order: seq<Key>, start: nat)
    requires Elements(order) == s.channels.Keys && start <= |order|
    requires forall i :: 0 <= i < |order| ==> !s.Sendable(order[Ring(start, i, |order|)])
    ensures Next(s) == None
  {
    forall k | k in s.channels ensures !s.Sendable(k) {
      assert k in order;
      var p :| 0 <= p < |order| && order[p] == k;
      assert Ring(start, Distance(start, p, |order|), |order|) == p;
    }
  }

  /** The first sendable key met on the walk is the one the cursor reaches first. */
  lemma FirstInWalk(s: Scheduler, order: seq<Key>, start: nat, step: nat)
    requires Ascending(order) && Elements(order) == s.channels.Keys
    requires step < |order| && start <= |order|
    requires match s.current case None => start == 0 case Some(c) => start > 0 && order[start - 1] == c
    requires s.Sendable(order[Ring(start, step, |order|)])
    requires forall i :: 0 <= i < step ==> !s.Sendable(order[Ring(start, i, |order|)])
    ensures s.IsNext(order[Ring(start, step, |order|)])
  {
    var n := |order|;
    var k := order[Ring(start, step, n)];
    forall j | s.Sendable(j) ensures !PassedOver(s.current, j, k) {
      assert j in order;
      var p :| 0 <= p < n && order[p] == j;
      assert Ring(start, Distance(start, p, n), n) == p;
      assert Distance(start, p, n) >= step;
    }
  }
}
