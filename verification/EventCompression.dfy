/** Posted-event compression: which signals are compressed, and the in-place rule on the queue. */
module EventCompression {
  import opened Common

  datatype MethodKind = Signal | Slot | Plain

  /** A class description; `name` is its identity. */
  datatype MetaObject = MetaObject(name: nat, methods: seq<MethodKind>)

  datatype Method = Method(enclosing: MetaObject, index: nat) {
    predicate Valid() {
      index < |enclosing.methods|
    }
  }

  datatype Sender = Sender(name: nat, meta: MetaObject)

  /** `id` tells two posted events apart even when everything else about them is the same. */
  datatype Event =
    | MetaCall(id: nat, sender: Option<Sender>, signal: nat, method_: nat)
    | Other(id: nat)

  /** An entry of the posted-event list; its event is gone once it has been sent. */
  datatype PostEvent = PostEvent(receiver: nat, event: Option<Event>)

  type SignalId = (MetaObject, nat)

  // ---- the list of compressed signals ----

  function SignalsBefore(methods: seq<MethodKind>, n: nat): nat
    requires n <= |methods|
  {
    if n == 0 then 0 else SignalsBefore(methods, n - 1) + if methods[n - 1].Signal? then 1 else 0
  }

  /** The index of a signal among its class's signals, or -1 for a method that is no signal. */
  method SignalIndex(m: Method) returns (index: int)
    requires m.Valid()
    ensures index == if m.enclosing.methods[m.index].Signal? then SignalsBefore(m.enclosing.methods, m.index) else -1
  {
    if !m.enclosing.methods[m.index].Signal? {
      return -1;
    }
    index := -1;
    var i := 0;
    while i <= m.index
      invariant 0 <= i <= m.index + 1
      invariant index == SignalsBefore(m.enclosing.methods, i) - 1
    {
      if m.enclosing.methods[i].Signal? {
        index := index + 1;
      }
      i := i + 1;
    }
  }

  lemma {:induction false} SignalsBeforeGrows(methods: seq<MethodKind>, i: nat, j: nat)
    requires i <= j <= |methods|
    ensures SignalsBefore(methods, i) <= SignalsBefore(methods, j)
    ensures i < j && methods[i].Signal? ==> SignalsBefore(methods, i) < SignalsBefore(methods, j)
    decreases j
  {
    if i < j {
      SignalsBeforeGrows(methods, i, j - 1);
    }
  }

  /** The index of a signal is the number of signals declared before it. */
  lemma {:induction false} SignalIndexCounts(methods: seq<MethodKind>, n: nat)
    requires n <= |methods|
    ensures SignalsBefore(methods, n) == |set i | 0 <= i < n && methods[i].Signal?|
  {
    if n > 0 {
      SignalIndexCounts(methods, n - 1);
      var before, upTo := set i | 0 <= i < n - 1 && methods[i].Signal?, set i | 0 <= i < n && methods[i].Signal?;
      assert upTo == before + if methods[n - 1].Signal? then {n - 1} else {};
    }
  }

  /** Two signals of one class never share an index, so compressing one leaves the other alone. */
  lemma SignalIndexIsInjective(methods: seq<MethodKind>, i: nat, j: nat)
    requires i < |methods| && j < |methods| && methods[i].Signal? && methods[j].Signal?
    requires SignalsBefore(methods, i) == SignalsBefore(methods, j)
    ensures i == j
  {
    if i < j {
      SignalsBeforeGrows(methods, i, j);
    } else {
      SignalsBeforeGrows(methods, j, i);
    }
  }

  /** The signal a method registers as, if it is a signal at all. */
  ghost function Registration(m: Method): iset<SignalId>
    requires m.Valid()
  {
    if m.enclosing.methods[m.index].Signal? then iset{(m.enclosing, SignalsBefore(m.enclosing.methods, m.index))} else iset{}
  }

  ghost function Listed(signalMap: map<MetaObject, set<nat>>): iset<SignalId> {
    iset id: SignalId | id.0 in signalMap && id.1 in signalMap[id.0]
  }

  /** A class with no signals left can be forgotten. */
  lemma DroppingEmpty(signalMap: map<MetaObject, set<nat>>, meta: MetaObject)
    requires meta in signalMap && signalMap[meta] == {}
    ensures Listed(signalMap - {meta}) == Listed(signalMap)
  {
  }

  class CompressedSignalList {
    var signalMap: map<MetaObject, set<nat>>

    /** No class is kept with an empty set of signals. */
    ghost predicate Valid()
      reads this
    {
      forall m :: m in signalMap ==> signalMap[m] != {}
    }

    constructor ()
      ensures Valid() && Listed(signalMap) == iset{}
    {
      signalMap := map[];
    }

    method Add(m: Method)
      requires m.Valid() && Valid()
      modifies this
      ensures Valid()
      ensures Listed(signalMap) == Listed(old(signalMap)) + Registration(m)
    {
      var index := SignalIndex(m);
      if index != -1 && !(m.enclosing in signalMap && index in signalMap[m.enclosing]) {
        var held := if m.enclosing in signalMap then signalMap[m.enclosing] else {};
        signalMap := signalMap[m.enclosing := held + {index}];
      }
    }

    method Remove(m: Method)
      requires m.Valid() && Valid()
      modifies this
      ensures Valid()
      ensures Listed(signalMap) == Listed(old(signalMap)) - Registration(m)
    {
      var index := SignalIndex(m);
      if index != -1 && m.enclosing in signalMap && index in signalMap[m.enclosing] {
        signalMap := signalMap[m.enclosing := signalMap[m.enclosing] - {index}];
        assert Listed(signalMap) == Listed(old(signalMap)) - Registration(m);
        if signalMap[m.enclosing] == {} {
          DroppingEmpty(signalMap, m.enclosing);
          signalMap := signalMap - {m.enclosing};
        }
      }
    }

    method Contains(meta: MetaObject, index: nat) returns (yes: bool)
      ensures yes <==> (meta, index) in Listed(signalMap)
    {
      yes := meta in signalMap && index in signalMap[meta];
    }
  }

  // ---- the queue ----

  /** Pending, for the same receiver, from the same sender and signal, to the same method. */
  predicate SameCall(entry: PostEvent, receiver: nat, e: Event) {
    && entry.receiver == receiver && entry.event.Some?
    && e.MetaCall? && entry.event.value.MetaCall?
    && entry.event.value.sender == e.sender && entry.event.value.signal == e.signal
    && entry.event.value.method_ == e.method_
  }

  predicate FromSignal(e: Event, id: SignalId) {
    e.MetaCall? && e.sender.Some? && (e.sender.value.meta, e.signal) == id
  }

  ghost predicate Compressible(signals: iset<SignalId>, e: Event) {
    e.MetaCall? && e.sender.Some? && (e.sender.value.meta, e.signal) in signals
  }

  ghost predicate Pending(queue: seq<PostEvent>, receiver: nat, e: Event, i: nat) {
    i < |queue| && SameCall(queue[i], receiver, e)
  }

  /** Posting: a compressible event takes the place of the first pending one like it; any other is appended. */
  ghost predicate Posted(queue: seq<PostEvent>, queue': seq<PostEvent>, signals: iset<SignalId>,
                         receiver: nat, e: Event, at: nat)
  {
    if Compressible(signals, e) && exists i: nat :: Pending(queue, receiver, e, i) then
      && Pending(queue, receiver, e, at) && (forall i: nat :: i < at ==> !Pending(queue, receiver, e, i))
      && queue' == queue[at := PostEvent(receiver, Some(e))]
    else
      at == |queue| && queue' == queue + [PostEvent(receiver, Some(e))]
  }

  class Application {
    const compressedSignals: CompressedSignalList
    var postedEvents: seq<PostEvent>

    constructor ()
      ensures fresh(compressedSignals) && compressedSignals.Valid()
      ensures Signals() == iset{} && postedEvents == []
    {
      compressedSignals := new CompressedSignalList();
      postedEvents := [];
    }

    ghost function Signals(): iset<SignalId>
      reads compressedSignals
    {
      Listed(compressedSignals.signalMap)
    }

    /** True when the event was put in the place of a pending one; the base rule only ever appends. */
    method CompressEvent(e: Event, receiver: nat) returns (compressed: bool)
      modifies this
      ensures compressed <==> Compressible(Signals(), e) && exists i: nat :: Pending(old(postedEvents), receiver, e, i)
      ensures compressed ==> exists at :: Posted(old(postedEvents), postedEvents, Signals(), receiver, e, at)
      ensures !compressed ==> postedEvents == old(postedEvents)
    {
      if !e.MetaCall? {
        return false;
      }
      if e.sender.None? {
        return false;
      }
      var listed := compressedSignals.Contains(e.sender.value.meta, e.signal);
      if !listed {
        return false;
      }
      for it := 0 to |postedEvents|
        invariant postedEvents == old(postedEvents)
        invariant forall i :: 0 <= i < it ==> !Pending(postedEvents, receiver, e, i)
      {
        var cur := postedEvents[it];
        if cur.receiver != receiver || cur.event.None? || !cur.event.value.MetaCall? {
          continue;
        }
        var call := cur.event.value;
        if call.sender != e.sender || call.signal != e.signal || call.method_ != e.method_ {
          continue;
        }
        assert Pending(postedEvents, receiver, e, it);
        postedEvents := postedEvents[it := cur.(event := Some(e))];
        assert Posted(old(postedEvents), postedEvents, Signals(), receiver, e, it);
        return true;
      }
      return false;
    }

    method Post(receiver: nat, e: Event)
      modifies this
      ensures exists at :: Posted(old(postedEvents), postedEvents, Signals(), receiver, e, at)
    {
      var compressed := CompressEvent(e, receiver);
      if !compressed {
        postedEvents := postedEvents + [PostEvent(receiver, Some(e))];
        assert Posted(old(postedEvents), postedEvents, Signals(), receiver, e, |old(postedEvents)|);
      }
    }
  }
}
