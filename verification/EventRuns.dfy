/** Whole runs of posting, delivering and (un)registering: what compression may and may not drop. */
module EventRuns {
  import opened Common
  import opened EventCompression

  datatype Op =
    | Post(receiver: nat, event: Event)
    | Deliver(at: nat)          // the event of any entry is sent; its place is kept for the moment
    | Sweep(at: nat)            // an entry whose event was sent is dropped from the list
    | Register(id: SignalId)
    | Unregister(id: SignalId)

  /**
   The queue together with its past. `posted[n]` is the `n`-th event posted and carries the number `n`;
   `born[i]` is the oldest event the `i`-th entry stands for; `replaced` maps an event to the one that
   took its place; `ever` holds the signals registered at any time.
   */
  datatype History = History(
    signals: iset<SignalId>,
    ever: iset<SignalId>,
    queue: seq<PostEvent>,
    born: seq<nat>,
    posted: seq<(nat, Event)>,
    delivered: seq<nat>,
    replaced: map<nat, nat>)

  ghost const EMPTY := History(iset{}, iset{}, [], [], [], [], map[])

  predicate Carries(p: PostEvent, n: nat) {
    p.event.Some? && p.event.value.id == n
  }

  ghost predicate InQueue(queue: seq<PostEvent>, n: nat) {
    exists i :: 0 <= i < |queue| && Carries(queue[i], n)
  }

  predicate SameKey(a: (nat, Event), b: (nat, Event)) {
    && a.0 == b.0 && a.1.MetaCall? && b.1.MetaCall?
    && a.1.sender == b.1.sender && a.1.signal == b.1.signal && a.1.method_ == b.1.method_
  }

  /** Where the event goes: the first pending entry it may replace, or the end. */
  function FirstPending(queue: seq<PostEvent>, receiver: nat, e: Event): (at: nat)
    ensures at <= |queue|
    ensures at < |queue| ==> SameCall(queue[at], receiver, e)
    ensures forall i :: 0 <= i < at ==> !SameCall(queue[i], receiver, e)
  {
    if queue == [] || SameCall(queue[0], receiver, e) then 0 else FirstPending(queue[1..], receiver, e) + 1
  }

  ghost function PlaceOf(h: History, receiver: nat, e: Event): (at: nat)
    ensures at <= |h.queue|
  {
    if Compressible(h.signals, e) then FirstPending(h.queue, receiver, e) else |h.queue|
  }

  ghost function AfterPost(h: History, receiver: nat, template: Event): History {
    var n := |h.posted|;
    var e := template.(id := n);
    var at := PlaceOf(h, receiver, e);
    var entry := PostEvent(receiver, Some(e));
    if at < |h.queue| && h.queue[at].event.Some? then
      h.(queue := h.queue[at := entry],
         posted := h.posted + [(receiver, e)],
         replaced := h.replaced[h.queue[at].event.value.id := n])
    else
      h.(queue := h.queue + [entry], born := h.born + [n], posted := h.posted + [(receiver, e)])
  }

  ghost function Step(h: History, op: Op): History
    requires |h.born| == |h.queue|
  {
    match op
    case Post(receiver, e) => AfterPost(h, receiver, e)
    case Deliver(at) =>
      if at < |h.queue| && h.queue[at].event.Some? then
        h.(queue := h.queue[at := h.queue[at].(event := None)], delivered := h.delivered + [h.queue[at].event.value.id])
      else h
    case Sweep(at) =>
      if at < |h.queue| && h.queue[at].event.None? then
        h.(queue := h.queue[..at] + h.queue[at + 1..], born := h.born[..at] + h.born[at + 1..])
      else h
    case Register(id) =>
      h.(signals := h.signals + iset{id}, ever := h.ever + iset{id})
    case Unregister(id) =>
      h.(signals := h.signals - iset{id})
  }

  /** The in-place rule of the application is the posting step of the run. */
  lemma PostStepIsPosted(h: History, receiver: nat, template: Event)
    requires |h.born| == |h.queue|
    ensures var e := template.(id := |h.posted|);
            Posted(h.queue, AfterPost(h, receiver, template).queue, h.signals, receiver, e, PlaceOf(h, receiver, e))
  {
    var e := template.(id := |h.posted|);
    var at := PlaceOf(h, receiver, e);
    if Compressible(h.signals, e) {
      if i: nat :| Pending(h.queue, receiver, e, i) {
        assert at <= i;
        assert Pending(h.queue, receiver, e, at);
      } else {
        assert at < |h.queue| ==> Pending(h.queue, receiver, e, at);
      }
    }
  }

  // ---- the invariant ----

  /** `to` is what became of `from` after zero or more replacements. */
  ghost predicate Leads(replaced: map<nat, nat>, from: nat, to: nat)
    decreases if from <= to then to - from else 0
  {
    from == to || (from in replaced && from < replaced[from] <= to && Leads(replaced, replaced[from], to))
  }

  ghost predicate EntryOk(h: History, i: nat)
    requires i < |h.queue| == |h.born|
  {
    && h.born[i] < |h.posted|
    && (h.queue[i].event.Some? ==>
          var n := h.queue[i].event.value.id;
          && n < |h.posted| && h.posted[n] == (h.queue[i].receiver, h.queue[i].event.value)
          && h.born[i] <= n && Leads(h.replaced, h.born[i], n)
          && (!Compressible(h.ever, h.queue[i].event.value) ==> h.born[i] == n))
  }

  /** Entries are in the order of the oldest events they stand for, and no two carry one event. */
  ghost predicate PairOk(h: History, i: nat, j: nat)
    requires i < j < |h.queue| == |h.born|
  {
    && h.born[i] < h.born[j]
    && (h.queue[i].event.Some? && h.queue[j].event.Some? ==> h.queue[i].event.value.id != h.queue[j].event.value.id)
  }

  ghost predicate Entries(h: History) {
    && |h.queue| == |h.born|
    && (forall i {:trigger EntryOk(h, i)} :: 0 <= i < |h.queue| ==> EntryOk(h, i))
    && (forall i, j {:trigger PairOk(h, i, j)} :: 0 <= i < j < |h.queue| ==> PairOk(h, i, j))
  }

  ghost predicate Accounted(h: History, n: nat) {
    && (n in h.delivered || n in h.replaced || InQueue(h.queue, n))
    && !(n in h.delivered && n in h.replaced)
    && !(n in h.delivered && InQueue(h.queue, n))
    && !(n in h.replaced && InQueue(h.queue, n))
  }

  ghost predicate Fates(h: History) {
    && Distinct(h.delivered)
    && (forall n: nat :: n in h.delivered || n in h.replaced || InQueue(h.queue, n) ==> n < |h.posted|)
    && (forall n {:trigger Accounted(h, n)} :: 0 <= n < |h.posted| ==> Accounted(h, n))
  }

  ghost predicate Superseded(h: History, n: nat)
    requires n in h.replaced
  {
    && n < h.replaced[n] < |h.posted|
    && SameKey(h.posted[n], h.posted[h.replaced[n]])
    && Compressible(h.ever, h.posted[n].1)
  }

  ghost predicate Replacements(h: History) {
    && (forall n {:trigger Superseded(h, n)} :: n in h.replaced ==> Superseded(h, n))
    && h.signals <= h.ever
  }

  ghost predicate Inv(h: History) {
    Entries(h) && Fates(h) && Replacements(h)
  }

  ghost function Run(ops: seq<Op>): History
    ensures Inv(Run(ops))
  {
    if ops == [] then EMPTY
    else
      StepKeepsInv(Run(ops[..|ops| - 1]), ops[|ops| - 1]);
      Step(Run(ops[..|ops| - 1]), ops[|ops| - 1])
  }

  lemma StepKeepsInv(h: History, op: Op)
    requires Inv(h)
    ensures Inv(Step(h, op))
  {
    match op
    case Post(receiver, e) => PostKeepsInv(h, receiver, e);
    case Deliver(at) => DeliverKeepsInv(h, at);
    case Sweep(at) => SweepKeepsInv(h, at);
    case Register(id) => RegisterKeepsInv(h, id);
    case Unregister(id) => UnregisterKeepsInv(h, id);
  }

  lemma RegisterKeepsInv(h: History, id: SignalId)
    requires Inv(h)
    ensures Inv(Step(h, Register(id)))
  {
    var g := Step(h, Register(id));
    forall i | 0 <= i < |g.queue| ensures EntryOk(g, i) {
      assert EntryOk(h, i);
    }
    forall i, j | 0 <= i < j < |g.queue| ensures PairOk(g, i, j) {
      assert PairOk(h, i, j);
    }
    forall n | 0 <= n < |g.posted| ensures Accounted(g, n) {
      assert Accounted(h, n);
    }
    forall n | n in g.replaced ensures Superseded(g, n) {
      assert Superseded(h, n);
    }
  }

  lemma UnregisterKeepsInv(h: History, id: SignalId)
    requires Inv(h)
    ensures Inv(Step(h, Unregister(id)))
  {
    var g := Step(h, Unregister(id));
    forall i | 0 <= i < |g.queue| ensures EntryOk(g, i) {
      assert EntryOk(h, i);
    }
    forall i, j | 0 <= i < j < |g.queue| ensures PairOk(g, i, j) {
      assert PairOk(h, i, j);
    }
    forall n | 0 <= n < |g.posted| ensures Accounted(g, n) {
      assert Accounted(h, n);
    }
    forall n | n in g.replaced ensures Superseded(g, n) {
      assert Superseded(h, n);
    }
  }

  lemma OneCarrier(h: History, at: nat)
    requires Entries(h) && at < |h.queue| && h.queue[at].event.Some?
    ensures forall i :: 0 <= i < |h.queue| && i != at ==> !Carries(h.queue[i], h.queue[at].event.value.id)
  {
    forall i | 0 <= i < |h.queue| && i != at ensures !Carries(h.queue[i], h.queue[at].event.value.id) {
      assert if i < at then PairOk(h, i, at) else PairOk(h, at, i);
    }
  }

  lemma DeliverKeepsInv(h: History, at: nat)
    requires Inv(h)
    ensures Inv(Step(h, Deliver(at)))
  {
    if at < |h.queue| && h.queue[at].event.Some? {
      var g := Step(h, Deliver(at));
      var sent := h.queue[at].event.value.id;
      assert EntryOk(h, at) && Carries(h.queue[at], sent);
      assert Accounted(h, sent);
      forall i | 0 <= i < |g.queue| ensures EntryOk(g, i) {
        assert EntryOk(h, i);
      }
      forall i, j | 0 <= i < j < |g.queue| ensures PairOk(g, i, j) {
        assert PairOk(h, i, j);
      }
      OneCarrier(h, at);
      forall n: nat ensures InQueue(g.queue, n) <==> InQueue(h.queue, n) && n != sent {
        if InQueue(h.queue, n) && n != sent {
          var i :| 0 <= i < |h.queue| && Carries(h.queue[i], n);
          assert Carries(g.queue[i], n);
        }
        if InQueue(g.queue, n) {
          var i :| 0 <= i < |g.queue| && Carries(g.queue[i], n);
          assert Carries(h.queue[i], n);
        }
      }
      forall n | 0 <= n < |g.posted| ensures Accounted(g, n) {
        assert Accounted(h, n);
      }
      forall n | n in g.replaced ensures Superseded(g, n) {
        assert Superseded(h, n);
      }
    }
  }

  /** Where an entry stood before the one at `at` was swept out. */
  function Before(i: nat, at: nat): nat {
    if i < at then i else i + 1
  }

  lemma SweptCarriesAll(queue: seq<PostEvent>, swept: seq<PostEvent>, at: nat, n: nat)
    requires at < |queue| && queue[at].event.None? && swept == queue[..at] + queue[at + 1..]
    ensures InQueue(swept, n) <==> InQueue(queue, n)
  {
    if InQueue(queue, n) {
      var i :| 0 <= i < |queue| && Carries(queue[i], n);
      assert Carries(swept[if i < at then i else i - 1], n);
    }
    if InQueue(swept, n) {
      var i :| 0 <= i < |swept| && Carries(swept[i], n);
      assert Carries(queue[Before(i, at)], n);
    }
  }

  lemma SweepKeepsInv(h: History, at: nat)
    requires Inv(h)
    ensures Inv(Step(h, Sweep(at)))
  {
    if at < |h.queue| && h.queue[at].event.None? {
      var g := Step(h, Sweep(at));
      forall i | 0 <= i < |g.queue| ensures EntryOk(g, i) {
        assert EntryOk(h, Before(i, at));
      }
      forall i, j | 0 <= i < j < |g.queue| ensures PairOk(g, i, j) {
        assert PairOk(h, Before(i, at), Before(j, at));
      }
      forall n: nat ensures InQueue(g.queue, n) <==> InQueue(h.queue, n) {
        SweptCarriesAll(h.queue, g.queue, at, n);
      }
      forall n | 0 <= n < |g.posted| ensures Accounted(g, n) {
        assert Accounted(h, n);
      }
      forall n | n in g.replaced ensures Superseded(g, n) {
        assert Superseded(h, n);
      }
    }
  }

  lemma {:induction false} LeadsWithOneMore(replaced: map<nat, nat>, from: nat, to: nat, old_: nat, new_: nat)
    requires old_ !in replaced && old_ < new_
    requires from <= to && Leads(replaced, from, to)
    ensures Leads(replaced[old_ := new_], from, to)
    ensures to == old_ ==> Leads(replaced[old_ := new_], from, new_)
    decreases if from <= to then to - from else 0
  {
    var more := replaced[old_ := new_];
    if from != to {
      LeadsWithOneMore(replaced, replaced[from], to, old_, new_);
    } else if to == old_ {
      assert Leads(more, new_, new_);
    }
  }

  lemma PostKeepsInv(h: History, receiver: nat, template: Event)
    requires Inv(h)
    ensures Inv(AfterPost(h, receiver, template))
  {
    var g := AfterPost(h, receiver, template);
    var e := template.(id := |h.posted|);
    var at := PlaceOf(h, receiver, e);
    if at < |h.queue| {
      assert Compressible(h.signals, e) && SameCall(h.queue[at], receiver, e);
      ReplaceKeepsEntries(h, receiver, e, at, g);
      ReplaceKeepsFates(h, receiver, e, at, g);
    } else {
      AppendKeepsEntries(h, receiver, e, g);
    }
  }

  ghost predicate ReplacesAt(h: History, receiver: nat, e: Event, at: nat, g: History) {
    && at < |h.queue| && SameCall(h.queue[at], receiver, e) && Compressible(h.signals, e)
    && e.id == |h.posted|
    && g == h.(queue := h.queue[at := PostEvent(receiver, Some(e))],
               posted := h.posted + [(receiver, e)],
               replaced := h.replaced[h.queue[at].event.value.id := |h.posted|])
  }

  lemma ReplaceKeepsEntries(h: History, receiver: nat, e: Event, at: nat, g: History)
    requires Inv(h) && ReplacesAt(h, receiver, e, at, g)
    ensures Entries(g) && Replacements(g)
  {
    var old_ := h.queue[at].event.value.id;
    assert EntryOk(h, at) && Carries(h.queue[at], old_) && Accounted(h, old_);
    forall i | 0 <= i < |g.queue| ensures EntryOk(g, i) {
      assert EntryOk(h, i);
      if h.queue[i].event.Some? {
        LeadsWithOneMore(h.replaced, h.born[i], h.queue[i].event.value.id, old_, |h.posted|);
      }
    }
    forall i, j | 0 <= i < j < |g.queue| ensures PairOk(g, i, j) {
      assert PairOk(h, i, j) && EntryOk(h, i) && EntryOk(h, j);
    }
    forall n | n in g.replaced ensures Superseded(g, n) {
      if n != old_ {
        assert Superseded(h, n);
      }
    }
  }

  lemma ReplaceKeepsFates(h: History, receiver: nat, e: Event, at: nat, g: History)
    requires Inv(h) && ReplacesAt(h, receiver, e, at, g)
    ensures Fates(g)
  {
    var old_, new_ := h.queue[at].event.value.id, |h.posted|;
    assert EntryOk(h, at) && Carries(h.queue[at], old_) && Accounted(h, old_);
    OneCarrier(h, at);
    forall n: nat ensures InQueue(g.queue, n) <==> n == new_ || (InQueue(h.queue, n) && n != old_) {
      assert Carries(g.queue[at], new_);
      if InQueue(h.queue, n) && n != old_ {
        var i :| 0 <= i < |h.queue| && Carries(h.queue[i], n);
        assert Carries(g.queue[i], n);
      }
      if InQueue(g.queue, n) && n != new_ {
        var i :| 0 <= i < |g.queue| && Carries(g.queue[i], n);
        assert Carries(h.queue[i], n);
      }
    }
    forall n | 0 <= n < |g.posted| ensures Accounted(g, n) {
      if n < new_ {
        assert Accounted(h, n);
      }
    }
  }

  ghost predicate Appends(h: History, receiver: nat, e: Event, g: History) {
    && e.id == |h.posted|
    && (Compressible(h.signals, e) ==> forall i :: 0 <= i < |h.queue| ==> !SameCall(h.queue[i], receiver, e))
    && g == h.(queue := h.queue + [PostEvent(receiver, Some(e))],
               born := h.born + [|h.posted|],
               posted := h.posted + [(receiver, e)])
  }

  lemma AppendKeepsEntries(h: History, receiver: nat, e: Event, g: History)
    requires Inv(h) && Appends(h, receiver, e, g)
    ensures Entries(g) && Fates(g) && Replacements(g)
  {
    var new_ := |h.posted|;
    forall i | 0 <= i < |g.queue| ensures EntryOk(g, i) {
      if i < |h.queue| {
        assert EntryOk(h, i);
      }
    }
    forall i, j | 0 <= i < j < |g.queue| ensures PairOk(g, i, j) {
      assert EntryOk(h, i);
      assert j < |h.queue| ==> PairOk(h, i, j);
    }
    forall n: nat ensures InQueue(g.queue, n) <==> n == new_ || InQueue(h.queue, n) {
      assert Carries(g.queue[|h.queue|], new_);
      if InQueue(h.queue, n) {
        var i :| 0 <= i < |h.queue| && Carries(h.queue[i], n);
        assert Carries(g.queue[i], n);
      }
    }
    forall n | 0 <= n < |g.posted| ensures Accounted(g, n) {
      if n < new_ {
        assert Accounted(h, n);
      }
    }
    forall n | n in g.replaced ensures Superseded(g, n) {
      assert Superseded(h, n);
    }
  }

  // ---- one pending event for each key, and the newest ----

  /** No event with the same key was posted after the one this entry carries. */
  ghost predicate Newest(h: History, i: nat)
    requires i < |h.queue| && h.queue[i].event.Some?
  {
    forall n :: 0 <= n < |h.posted| && SameKey(h.posted[n], (h.queue[i].receiver, h.queue[i].event.value)) ==>
      n <= h.queue[i].event.value.id
  }

  /** Every pending event of the signal is the newest posted of its key. */
  ghost predicate Tidy(h: History, id: SignalId) {
    forall i {:trigger Newest(h, i)} ::
      0 <= i < |h.queue| && h.queue[i].event.Some? && FromSignal(h.queue[i].event.value, id) ==> Newest(h, i)
  }

  /** A tidy signal has at most one pending event for each receiver, sender, signal and method. */
  lemma TidyIsSingle(h: History, id: SignalId, i: nat, j: nat)
    requires Inv(h) && Tidy(h, id)
    requires i < |h.queue| && j < |h.queue| && h.queue[i].event.Some? && h.queue[j].event.Some?
    requires FromSignal(h.queue[i].event.value, id)
    ensures SameKey((h.queue[i].receiver, h.queue[i].event.value), (h.queue[j].receiver, h.queue[j].event.value)) ==> i == j
  {
    assert Newest(h, i) && EntryOk(h, i) && EntryOk(h, j);
    assert FromSignal(h.queue[j].event.value, id) ==> Newest(h, j);
    assert if i < j then PairOk(h, i, j) else i > j ==> PairOk(h, j, i);
  }

  /** While a signal is registered, no step makes its pending events untidy. */
  lemma StepKeepsTidy(h: History, id: SignalId, op: Op)
    requires Inv(h) && id in h.signals && Tidy(h, id) && op != Unregister(id)
    ensures id in Step(h, op).signals && Tidy(Step(h, op), id)
  {
    var g := Step(h, op);
    if op.Post? {
      PostKeepsTidy(h, id, op.receiver, op.event);
    } else {
      forall i | 0 <= i < |g.queue| && g.queue[i].event.Some? && FromSignal(g.queue[i].event.value, id)
        ensures Newest(g, i)
      {
        var was := if op.Sweep? && op.at < |h.queue| && h.queue[op.at].event.None? then Before(i, op.at) else i;
        assert g.queue[i] == h.queue[was];
        assert Newest(h, was);
      }
    }
  }

  lemma PostKeepsTidy(h: History, id: SignalId, receiver: nat, template: Event)
    requires Inv(h) && id in h.signals && Tidy(h, id)
    ensures Tidy(AfterPost(h, receiver, template), id)
  {
    var g := AfterPost(h, receiver, template);
    var e := template.(id := |h.posted|);
    var at := PlaceOf(h, receiver, e);
    forall i | 0 <= i < |g.queue| && g.queue[i].event.Some? && FromSignal(g.queue[i].event.value, id)
      ensures Newest(g, i)
    {
      if i < |h.queue| && i != at {
        assert EntryOk(h, i) && Newest(h, i);
        if at < |h.queue| {
          TidyIsSingle(h, id, i, at);
        }
      }
    }
  }

  /** From a registration over tidy pending events on, for as long as the signal stays registered:
      at most one pending event per receiver, sender, signal and method, and it is the newest posted. */
  lemma AtMostOneAndNewest(before: seq<Op>, id: SignalId, more: seq<Op>, i: nat, j: nat, n: nat)
    requires Tidy(Run(before), id) && Unregister(id) !in more
    requires var h := Run(before + [Register(id)] + more);
             && i < |h.queue| && j < |h.queue| && h.queue[i].event.Some? && h.queue[j].event.Some?
             && FromSignal(h.queue[i].event.value, id)
             && SameKey((h.queue[i].receiver, h.queue[i].event.value), (h.queue[j].receiver, h.queue[j].event.value))
             && n < |h.posted| && SameKey(h.posted[n], (h.queue[i].receiver, h.queue[i].event.value))
    ensures i == j && n <= Run(before + [Register(id)] + more).queue[i].event.value.id
  {
    var h := Run(before + [Register(id)] + more);
    TidyFrom(before, id, more);
    TidyIsSingle(h, id, i, j);
    assert Newest(h, i);
  }

  lemma {:induction false} TidyFrom(before: seq<Op>, id: SignalId, more: seq<Op>)
    requires Tidy(Run(before), id) && Unregister(id) !in more
    ensures var h := Run(before + [Register(id)] + more); id in h.signals && Tidy(h, id)
  {
    var start := before + [Register(id)];
    if more == [] {
      TidyAtOnce(before, id);
      assert start + more == start;
    } else {
      var init, last := more[..|more| - 1], more[|more| - 1];
      TidyFrom(before, id, init);
      TidyNext(start + init, id, last);
      assert start + init + [last] == start + more;
    }
  }

  lemma TidyAtOnce(before: seq<Op>, id: SignalId)
    requires Tidy(Run(before), id)
    ensures var h := Run(before + [Register(id)]); id in h.signals && Tidy(h, id)
  {
    RunOne(before, Register(id));
    RegisterIsQuiet(Run(before), id);
  }

  lemma TidyNext(ops: seq<Op>, id: SignalId, op: Op)
    requires id in Run(ops).signals && Tidy(Run(ops), id) && op != Unregister(id)
    ensures id in Run(ops + [op]).signals && Tidy(Run(ops + [op]), id)
  {
    RunOne(ops, op);
    StepKeepsTidy(Run(ops), id, op);
  }

  lemma RegisterIsQuiet(h: History, id: SignalId)
    requires Inv(h)
    ensures Tidy(Step(h, Register(id)), id) <==> Tidy(h, id)
  {
    var g := Step(h, Register(id));
    forall i | 0 <= i < |h.queue| && h.queue[i].event.Some? ensures Newest(g, i) <==> Newest(h, i) {
    }
  }

  /** The registration comes in time exactly when no event of the signal is pending behind a newer one
      of its key: then, and only then, the queue is tidy in every state up to the next removal. */
  lemma TidyExactly(before: seq<Op>, id: SignalId)
    ensures Tidy(Run(before), id) <==>
            forall more: seq<Op> :: Unregister(id) !in more ==> Tidy(Run(before + [Register(id)] + more), id)
  {
    if Tidy(Run(before), id) {
      forall more: seq<Op> | Unregister(id) !in more ensures Tidy(Run(before + [Register(id)] + more), id) {
        TidyFrom(before, id, more);
      }
    } else {
      RunOne(before, Register(id));
      RegisterIsQuiet(Run(before), id);
      assert before + [Register(id)] + [] == before + [Register(id)];
      assert Unregister(id) !in [];
    }
  }

  /** What goes wrong otherwise: with two events of one key pending, in whatever run, the next post of
      that key overtakes the second of them, which stays as it was. */
  lemma NewestOvertakes(h: History, receiver: nat, e: Event, i: nat, j: nat)
    requires Inv(h) && i < j < |h.queue| && Compressible(h.signals, e)
    requires SameCall(h.queue[i], receiver, e) && SameCall(h.queue[j], receiver, e)
    ensures var g := Step(h, Post(receiver, e));
            exists at :: 0 <= at <= i && Carries(g.queue[at], |h.posted|) && g.queue[j] == h.queue[j] && !Newest(g, j)
  {
    var g := Step(h, Post(receiver, e));
    var new_ := e.(id := |h.posted|);
    var at := PlaceOf(h, receiver, new_);
    assert SameCall(h.queue[i], receiver, new_);
    assert at <= i;
    assert EntryOk(h, j);
    assert SameKey(g.posted[|h.posted|], (g.queue[j].receiver, g.queue[j].event.value));
    assert !Newest(g, j);
    assert Carries(g.queue[at], |h.posted|);
  }

  // ---- what the invariant says ----

  /** Every posted event is delivered once, or pending, or superseded by a newer one of the same key:
      exactly one of the three. */
  lemma NothingIsLost(ops: seq<Op>, n: nat)
    requires n < |Run(ops).posted|
    ensures Accounted(Run(ops), n) && Distinct(Run(ops).delivered)
    ensures n in Run(ops).replaced ==>
              n < Run(ops).replaced[n] < |Run(ops).posted| && SameKey(Run(ops).posted[n], Run(ops).posted[Run(ops).replaced[n]])
  {
    var h := Run(ops);
    assert Accounted(h, n);
    assert n in h.replaced ==> Superseded(h, n);
  }

  /** An entry keeps the place of the oldest event it stands for: entries are in that order, and the
      event now carried came from it by replacements alone. */
  lemma PlaceIsKept(ops: seq<Op>, i: nat, j: nat)
    requires i < j < |Run(ops).queue|
    ensures Run(ops).born[i] < Run(ops).born[j]
    ensures Run(ops).queue[i].event.Some? ==> Leads(Run(ops).replaced, Run(ops).born[i], Run(ops).queue[i].event.value.id)
  {
    assert EntryOk(Run(ops), i) && PairOk(Run(ops), i, j);
  }

  /** Events whose signal was never registered are never superseded, and stay in posting order. */
  lemma UncompressedKeepNumberAndOrder(ops: seq<Op>, n: nat)
    requires n < |Run(ops).posted| && !Compressible(Run(ops).ever, Run(ops).posted[n].1)
    ensures n in Run(ops).delivered || InQueue(Run(ops).queue, n)
    ensures forall i, j, m: nat ::
      (0 <= i < j < |Run(ops).queue| && m < |Run(ops).posted| && !Compressible(Run(ops).ever, Run(ops).posted[m].1)
      && Carries(Run(ops).queue[i], n) && Carries(Run(ops).queue[j], m)) ==> n < m
  {
    var h := Run(ops);
    assert Accounted(h, n);
    assert n in h.replaced ==> Superseded(h, n);
    forall i, j, m: nat | 0 <= i < j < |h.queue| && m < |h.posted| && !Compressible(h.ever, h.posted[m].1)
      && Carries(h.queue[i], n) && Carries(h.queue[j], m) ensures n < m
    {
      assert EntryOk(h, i) && EntryOk(h, j) && PairOk(h, i, j);
    }
  }

  /** Why the registration has to come first: registered over two pending events, the signal keeps
      both, and the newest is now ahead of one posted before it. */
  lemma LateRegistrationKeepsStaleEvent(sender: Sender)
    ensures var e := MetaCall(0, Some(sender), 0, 0);
            var h := Run([Post(0, e), Post(0, e), Register((sender.meta, 0)), Post(0, e)]);
            |h.queue| == 2 && Carries(h.queue[0], 2) && Carries(h.queue[1], 1)
  {
    var e := MetaCall(0, Some(sender), 0, 0);
    var post, register := Post(0, e), Register((sender.meta, 0));
    RunOne([], post);
    RunOne([] + [post], post);
    RunOne([] + [post] + [post], register);
    RunOne([] + [post] + [post] + [register], post);
    var h3 := Run([] + [post] + [post] + [register]);
    assert h3.queue == [PostEvent(0, Some(e)), PostEvent(0, Some(e.(id := 1)))];
    assert FirstPending(h3.queue, 0, e.(id := 2)) == 0;
    assert [] + [post] + [post] + [register] + [post] == [post, post, register, post];
  }

  lemma RunOne(ops: seq<Op>, op: Op)
    ensures Run(ops + [op]) == Step(Run(ops), op)
  {
    assert (ops + [op])[..|ops|] == ops;
  }
}
