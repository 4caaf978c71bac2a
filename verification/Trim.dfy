/** Least-recently-used eviction of cache entries, some of which may refuse to be deleted. */
module Trim {
  import opened Common
  import Sorting

  /** An entry directory; `path` stands for its name, and names are compared by their order. */
  datatype Entry = Entry(mtime: int, size: nat, path: nat)

  /** What is left of an entry whose deletion failed: its files may be gone in part, and taking files out
      of a directory changes its time. */
  datatype Remains = Remains(mtime: int, size: nat)

  /** The entries that cannot be deleted. */
  type Stuck = map<nat, Remains>

  function Size(entries: seq<Entry>): nat {
    if entries == [] then 0 else entries[0].size + Size(entries[1..])
  }

  /** The low-water mark: four fifths of the limit, rounded down. */
  function Target(maxBytes: nat): nat {
    maxBytes * 4 / 5
  }

  // ---- recency order ----

  /** Entries are compared as the tuples they are: oldest first, then smallest, then by name. */
  predicate NotAfter(a: Entry, b: Entry) {
    || a.mtime < b.mtime
    || (a.mtime == b.mtime && (a.size < b.size || (a.size == b.size && a.path <= b.path)))
  }

  ghost predicate OldestFirst(s: seq<Entry>) {
    forall i, j :: 0 <= i < j < |s| ==> NotAfter(s[i], s[j])
  }

  function Sorted(s: seq<Entry>): seq<Entry> {
    Sorting.Sorted(NotAfter, s)
  }

  lemma SortedIsSorted(s: seq<Entry>)
    ensures OldestFirst(Sorted(s)) && multiset(Sorted(s)) == multiset(s) && Size(Sorted(s)) == Size(s)
  {
    Sorting.SortedIsOrdered(NotAfter, s);
    var sorted := Sorted(s);
    assert forall i, j :: 0 <= i < j < |sorted| ==> NotAfter(sorted[i], sorted[j]);
    SizeForgetsOrder(sorted, s);
  }

  // ---- eviction ----

  /** Oldest first until the running total is down to the target; an entry that cannot be deleted is
      passed over and stays counted. */
  function Evicted(order: seq<Entry>, stuck: Stuck, total: int, target: nat): seq<Entry> {
    if order == [] || total <= target then []
    else if order[0].path in stuck then Evicted(order[1..], stuck, total, target)
    else [order[0]] + Evicted(order[1..], stuck, total - order[0].size, target)
  }

  function EvictedBy(entries: seq<Entry>, stuck: Stuck, maxBytes: nat): seq<Entry> {
    if Size(entries) <= maxBytes then [] else Evicted(Sorted(entries), stuck, Size(entries), Target(maxBytes))
  }

  /** The entries a deletion is tried on. */
  function Visited(order: seq<Entry>, stuck: Stuck, total: int, target: nat): seq<Entry> {
    if order == [] || total <= target then []
    else [order[0]] + Visited(order[1..], stuck, if order[0].path in stuck then total else total - order[0].size, target)
  }

  function VisitedBy(entries: seq<Entry>, stuck: Stuck, maxBytes: nat): seq<Entry> {
    if Size(entries) <= maxBytes then [] else Visited(Sorted(entries), stuck, Size(entries), Target(maxBytes))
  }

  function Remnant(e: Entry, stuck: Stuck): Entry
    requires e.path in stuck
  {
    var r := stuck[e.path];
    e.(mtime := r.mtime, size := if r.size < e.size then r.size else e.size)
  }

  /** The directory after a deletion is tried on `e`. */
  function DeletedOne(entries: seq<Entry>, e: Entry, stuck: Stuck): seq<Entry> {
    if entries == [] then []
    else if entries[0] == e then (if e.path in stuck then [Remnant(e, stuck)] else []) + entries[1..]
    else [entries[0]] + DeletedOne(entries[1..], e, stuck)
  }

  lemma {:induction false} DeletedAt(entries: seq<Entry>, e: Entry, stuck: Stuck, i: nat)
    requires i <= |entries| && e !in entries[..i] && (i < |entries| ==> entries[i] == e)
    ensures DeletedOne(entries, e, stuck) ==
            if i == |entries| then entries
            else entries[..i] + (if e.path in stuck then [Remnant(e, stuck)] else []) + entries[i + 1..]
  {
    if i > 0 {
      assert entries[0] == entries[..i][0];
      assert entries[1..][..i - 1] == entries[..i][1..] && entries[1..][i - 1..] == entries[i..];
      DeletedAt(entries[1..], e, stuck, i - 1);
      assert i < |entries| ==> entries[1..][i..] == entries[i + 1..];
    }
  }

  function DeletedAll(entries: seq<Entry>, visited: seq<Entry>, stuck: Stuck): seq<Entry> {
    if visited == [] then entries
    else DeletedOne(DeletedAll(entries, visited[..|visited| - 1], stuck), visited[|visited| - 1], stuck)
  }

  class Cache {
    const stuck: Stuck
    var entries: seq<Entry>

    constructor (entries: seq<Entry>, stuck: Stuck)
      ensures this.entries == entries && this.stuck == stuck
    {
      this.entries, this.stuck := entries, stuck;
    }

    /** `rmtree` with its errors ignored; the entry, or a part of it, may still be there afterwards. */
    method RemoveTree(e: Entry) returns (remains: bool)
      modifies this
      ensures remains <==> e.path in stuck
      ensures entries == DeletedOne(old(entries), e, stuck)
    {
      remains := e.path in stuck;
      var i := 0;
      while i < |entries| && entries[i] != e
        invariant 0 <= i <= |entries| && entries == old(entries)
        invariant e !in entries[..i]
      {
        i := i + 1;
      }
      DeletedAt(entries, e, stuck, i);
      if i < |entries| {
        entries := entries[..i] + (if remains then [Remnant(e, stuck)] else []) + entries[i + 1..];
      }
    }

    method Trim(maxBytes: nat) returns (removed: nat)
      modifies this
      ensures entries == DeletedAll(old(entries), VisitedBy(old(entries), stuck, maxBytes), stuck)
      ensures removed == |EvictedBy(old(entries), stuck, maxBytes)|
      ensures forall d, e {:trigger Earlier(d, e)} ::
                d in old(entries) && e in VisitedBy(old(entries), stuck, maxBytes) && Earlier(d, e) ==>
                d in EvictedBy(old(entries), stuck, maxBytes) || d.path in stuck
    {
      forall d, e | d in entries && e in VisitedBy(entries, stuck, maxBytes) && Earlier(d, e)
        ensures d in EvictedBy(entries, stuck, maxBytes) || d.path in stuck
      {
        LeastRecentGoFirst(entries, stuck, maxBytes, d, e);
      }
      var total := TotalSize(entries);
      removed := 0;
      if total > maxBytes {
        removed := EvictOldest(Sorted(entries), total, Target(maxBytes));
      }
    }

    method EvictOldest(order: seq<Entry>, size: nat, target: nat) returns (removed: nat)
      modifies this
      ensures entries == DeletedAll(old(entries), Visited(order, stuck, size, target), stuck)
      ensures removed == |Evicted(order, stuck, size, target)|
    {
      var total: int := size;
      var i := 0;
      removed := 0;
      ReachedFirst(order, stuck, size, target);
      while i < |order| && total > target
        invariant 0 <= i <= |order|
        invariant Reached(order, stuck, size, target, i, total, removed)
        invariant entries == DeletedAll(old(entries), order[..i], stuck)
      {
        ReachedNext(order, stuck, size, target, i, total, removed);
        var remains := RemoveTree(order[i]);
        assert order[..i + 1][..i] == order[..i];
        if !remains {
          total := total - order[i].size;
          removed := removed + 1;
        }
        i := i + 1;
      }
      ReachedLast(order, stuck, size, target, i, total, removed);
    }
  }

  /** `i` entries of the walk are behind it, `removed` of them gone, and `total` is still counted. */
  ghost predicate Reached(order: seq<Entry>, stuck: Stuck, size: nat, target: nat, i: nat, total: int, removed: nat)
    requires i <= |order|
  {
    && removed + |Evicted(order[i..], stuck, total, target)| == |Evicted(order, stuck, size, target)|
    && order[..i] + Visited(order[i..], stuck, total, target) == Visited(order, stuck, size, target)
  }

  lemma ReachedFirst(order: seq<Entry>, stuck: Stuck, size: nat, target: nat)
    ensures Reached(order, stuck, size, target, 0, size, 0)
  {
    assert order[0..] == order;
  }

  lemma ReachedNext(order: seq<Entry>, stuck: Stuck, size: nat, target: nat, i: nat, total: int, removed: nat)
    requires i < |order| && total > target && Reached(order, stuck, size, target, i, total, removed)
    ensures if order[i].path in stuck then Reached(order, stuck, size, target, i + 1, total, removed)
            else Reached(order, stuck, size, target, i + 1, total - order[i].size, removed + 1)
  {
    assert order[i..][1..] == order[i + 1..] && order[..i + 1] == order[..i] + [order[i]];
  }

  lemma ReachedLast(order: seq<Entry>, stuck: Stuck, size: nat, target: nat, i: nat, total: int, removed: nat)
    requires i <= |order| && Reached(order, stuck, size, target, i, total, removed)
    requires i == |order| || total <= target
    ensures removed == |Evicted(order, stuck, size, target)|
    ensures order[..i] == Visited(order, stuck, size, target)
  {
  }

  method TotalSize(listing: seq<Entry>) returns (total: nat)
    ensures total == Size(listing)
  {
    total := 0;
    for i := 0 to |listing|
      invariant total + Size(listing[i..]) == Size(listing)
    {
      assert listing[i..][1..] == listing[i + 1..];
      total := total + listing[i].size;
    }
    assert listing[|listing|..] == [];
  }

  // ---- what the eviction does ----

  function Deletable(order: seq<Entry>, stuck: Stuck): seq<Entry> {
    if order == [] then []
    else (if order[0].path in stuck then [] else [order[0]]) + Deletable(order[1..], stuck)
  }

  /** The walk stops at some entry: of those before it exactly the deletable ones are removed, each while
      the running total was still above the target; nothing from there on is touched. */
  lemma {:induction false} EvictionIsAWalk(order: seq<Entry>, stuck: Stuck, total: int, target: nat) returns (k: nat)
    ensures k <= |order|
    ensures Visited(order, stuck, total, target) == order[..k]
    ensures Evicted(order, stuck, total, target) == Deletable(order[..k], stuck)
    ensures k < |order| ==> total - Size(Deletable(order[..k], stuck)) <= target
    ensures forall j :: 0 <= j < k ==> total - Size(Deletable(order[..j], stuck)) > target
  {
    if order == [] || total <= target {
      k := 0;
    } else {
      var first, rest := order[0], order[1..];
      var left := if first.path in stuck then total else total - first.size;
      var k' := EvictionIsAWalk(rest, stuck, left, target);
      k := k' + 1;
      DeletablePrefix(order, stuck, k);
      forall j | 0 <= j < k ensures total - Size(Deletable(order[..j], stuck)) > target {
        if j > 0 {
          DeletablePrefix(order, stuck, j);
          assert left - Size(Deletable(rest[..j - 1], stuck)) > target;
        }
      }
    }
  }

  lemma DeletablePrefix(order: seq<Entry>, stuck: Stuck, j: nat)
    requires 0 < j <= |order|
    ensures Deletable(order[..j], stuck) ==
            (if order[0].path in stuck then [] else [order[0]]) + Deletable(order[1..][..j - 1], stuck)
    ensures Size(Deletable(order[..j], stuck)) ==
            (if order[0].path in stuck then 0 else order[0].size) + Size(Deletable(order[1..][..j - 1], stuck))
  {
    var first := if order[0].path in stuck then [] else [order[0]];
    var rest := Deletable(order[1..][..j - 1], stuck);
    assert order[..j][1..] == order[1..][..j - 1];
    assert Deletable(order[..j], stuck) == first + rest;
    if order[0].path in stuck {
      assert first + rest == rest;
    } else {
      assert (first + rest)[1..] == rest;
    }
  }

  /** An entry that survived although one no older than it was removed is one whose deletion failed. */
  lemma OlderSurvivorsWereStuck(order: seq<Entry>, stuck: Stuck, total: int, target: nat, i: nat, j: nat)
    requires i < j < |order| && order[j] in Evicted(order, stuck, total, target)
    requires forall a, b :: 0 <= a < b < |order| ==> order[a] != order[b]
    ensures order[i] in Evicted(order, stuck, total, target) || order[i].path in stuck
  {
    var k := EvictionIsAWalk(order, stuck, total, target);
    DeletableAre(order[..k], stuck);
    if j < k {
      assert order[..k][i] == order[i];
    }
  }

  lemma {:induction false} DeletableAre(order: seq<Entry>, stuck: Stuck)
    ensures forall e :: e in Deletable(order, stuck) <==> e in order && e.path !in stuck
  {
    if order != [] {
      DeletableAre(order[1..], stuck);
      assert forall e :: e in order <==> e == order[0] || e in order[1..];
    }
  }

  /** Used less recently; of one time, the smaller first, then by name. */
  predicate Earlier(d: Entry, e: Entry) {
    d.mtime < e.mtime || (d.mtime == e.mtime && (d.size < e.size || (d.size == e.size && d.path < e.path)))
  }

  /** No position holds a later entry than a later position. */
  ghost predicate InTime(order: seq<Entry>) {
    forall i, j :: 0 <= i < j < |order| ==> order[i].mtime <= order[j].mtime && !Earlier(order[j], order[i])
  }

  lemma SortedInTime(entries: seq<Entry>)
    ensures InTime(Sorted(entries)) && multiset(Sorted(entries)) == multiset(entries)
  {
    SortedIsSorted(entries);
    var order := Sorted(entries);
    forall i, j | 0 <= i < j < |order| ensures order[i].mtime <= order[j].mtime && !Earlier(order[j], order[i]) {
      assert NotAfter(order[i], order[j]);
    }
  }

  /** The eviction of any listing: nothing if it fits; else, in the order of last use, all that can be deleted
      of the entries up to one, each while more than four fifths of the limit was left. */
  lemma LeastRecentlyUsed(entries: seq<Entry>, stuck: Stuck, maxBytes: nat) returns (order: seq<Entry>, k: nat)
    ensures InTime(order) && multiset(order) == multiset(entries) && k <= |order|
    ensures VisitedBy(entries, stuck, maxBytes) == order[..k]
    ensures EvictedBy(entries, stuck, maxBytes) == Deletable(order[..k], stuck)
    ensures Size(entries) <= maxBytes ==> k == 0
    ensures Size(entries) > maxBytes ==>
              && (forall j :: 0 <= j < k ==> 5 * (Size(entries) - Size(Deletable(order[..j], stuck))) > 4 * maxBytes)
              && (k < |order| ==> 5 * (Size(entries) - Size(Deletable(order[..k], stuck))) <= 4 * maxBytes)
  {
    order, k := Sorted(entries), 0;
    SortedInTime(entries);
    if Size(entries) > maxBytes {
      k := EvictionIsAWalk(order, stuck, Size(entries), Target(maxBytes));
    }
  }

  /** An entry used less recently than one that a deletion is tried on is removed, or its deletion failed. */
  lemma LeastRecentGoFirst(entries: seq<Entry>, stuck: Stuck, maxBytes: nat, d: Entry, e: Entry)
    requires d in entries && e in VisitedBy(entries, stuck, maxBytes) && Earlier(d, e)
    ensures d in EvictedBy(entries, stuck, maxBytes) || d.path in stuck
  {
    var order, k := LeastRecentlyUsed(entries, stuck, maxBytes);
    var j :| 0 <= j < k && order[j] == e;
    assert d in multiset(order);
    var i :| 0 <= i < |order| && order[i] == d;
    assert i < k && order[..k][i] == d;
    DeletableAre(order[..k], stuck);
  }

  /** When every deletion succeeds, what is removed are the least recently used entries, as few of them as
      leave four fifths of the limit at most. */
  lemma ShortestPrefix(entries: seq<Entry>, stuck: Stuck, maxBytes: nat) returns (order: seq<Entry>, k: nat)
    requires forall e :: e in entries ==> e.path !in stuck
    requires Size(entries) > maxBytes
    ensures InTime(order) && multiset(order) == multiset(entries)
    ensures k <= |order| && EvictedBy(entries, stuck, maxBytes) == order[..k]
    ensures 5 * Size(order[k..]) <= 4 * maxBytes
    ensures forall j :: 0 <= j < k ==> 5 * Size(order[j..]) > 4 * maxBytes
  {
    order := Sorted(entries);
    var target := Target(maxBytes);
    SortedIsSorted(entries);
    SortedInTime(entries);
    k := EvictionIsAWalk(order, stuck, Size(entries), target);
    forall j | 0 <= j <= |order|
      ensures Deletable(order[..j], stuck) == order[..j] && Size(order) - Size(order[..j]) == Size(order[j..])
    {
      forall e | e in order[..j] ensures e.path !in stuck {
        assert e in multiset(order);
      }
      AllDeletable(order[..j], stuck);
      SizeSplit(order, j);
    }
    assert k < |order| ==> Size(order[k..]) <= target;
    assert order[|order|..] == [];
  }

  lemma {:induction false} AllDeletable(order: seq<Entry>, stuck: Stuck)
    requires forall e :: e in order ==> e.path !in stuck
    ensures Deletable(order, stuck) == order
  {
    if order != [] {
      AllDeletable(order[1..], stuck);
    }
  }

  lemma {:induction false} SizeSplit(s: seq<Entry>, k: nat)
    requires k <= |s|
    ensures Size(s) == Size(s[..k]) + Size(s[k..])
  {
    if k > 0 {
      SizeSplit(s[1..], k - 1);
      assert s[..k][1..] == s[1..][..k - 1] && s[1..][k - 1..] == s[k..];
    }
  }

  // ---- conservation ----

  /** The entries the eviction does not remove, as they were, in recency order. */
  function Kept(order: seq<Entry>, stuck: Stuck, total: int, target: nat): seq<Entry> {
    if order == [] || total <= target then order
    else if order[0].path in stuck then [order[0]] + Kept(order[1..], stuck, total, target)
    else Kept(order[1..], stuck, total - order[0].size, target)
  }

  function KeptBy(entries: seq<Entry>, stuck: Stuck, maxBytes: nat): seq<Entry> {
    if Size(entries) <= maxBytes then entries else Kept(Sorted(entries), stuck, Size(entries), Target(maxBytes))
  }

  /** The same entries as they are afterwards. */
  function Left(order: seq<Entry>, stuck: Stuck, total: int, target: nat): seq<Entry> {
    if order == [] || total <= target then order
    else if order[0].path in stuck then [Remnant(order[0], stuck)] + Left(order[1..], stuck, total, target)
    else Left(order[1..], stuck, total - order[0].size, target)
  }

  /** `order` is `kept` and `gone` together, up to order. */
  ghost predicate Together(kept: seq<Entry>, gone: seq<Entry>, order: seq<Entry>) {
    multiset(kept + gone) == multiset(order)
  }

  /** Entry by entry, `left` is what is left of `kept`. */
  ghost predicate Shrunken(kept: seq<Entry>, left: seq<Entry>, stuck: Stuck) {
    && |left| == |kept|
    && forall i :: 0 <= i < |kept| ==> left[i] == kept[i] || (kept[i].path in stuck && left[i] == Remnant(kept[i], stuck))
  }

  /** No file of the entry goes in a deletion that fails. */
  predicate StaysWhole(e: Entry, stuck: Stuck) {
    e.path in stuck ==> e.size <= stuck[e.path].size
  }

  ghost predicate AllWhole(entries: seq<Entry>, stuck: Stuck) {
    forall e :: e in entries ==> StaysWhole(e, stuck)
  }

  lemma AllWholeWith(x: Entry, entries: seq<Entry>, stuck: Stuck)
    ensures AllWhole([x] + entries, stuck) <==> StaysWhole(x, stuck) && AllWhole(entries, stuck)
  {
    assert x in [x] + entries;
    assert forall e :: e in entries ==> e in [x] + entries;
  }

  lemma TogetherWith(x: Entry, kept: seq<Entry>, gone: seq<Entry>, order: seq<Entry>)
    requires order != [] && x == order[0] && Together(kept, gone, order[1..])
    ensures Together([x] + kept, gone, order) && Together(kept, [x] + gone, order)
  {
    assert order == [x] + order[1..];
    assert ([x] + kept) + gone == [x] + (kept + gone);
    assert multiset(kept + ([x] + gone)) == multiset{x} + multiset(kept + gone);
  }

  lemma {:induction false} KeptAndEvicted(order: seq<Entry>, stuck: Stuck, total: int, target: nat)
    ensures Together(Kept(order, stuck, total, target), Evicted(order, stuck, total, target), order)
  {
    if order == [] || total <= target {
      assert order + [] == order;
    } else {
      var counted := if order[0].path in stuck then total else total - order[0].size;
      KeptAndEvicted(order[1..], stuck, counted, target);
      TogetherWith(order[0], Kept(order[1..], stuck, counted, target), Evicted(order[1..], stuck, counted, target), order);
    }
  }

  lemma {:induction false} KeptShrinks(order: seq<Entry>, stuck: Stuck, total: int, target: nat)
    ensures Shrunken(Kept(order, stuck, total, target), Left(order, stuck, total, target), stuck)
  {
    if order != [] && total > target {
      KeptShrinks(order[1..], stuck, if order[0].path in stuck then total else total - order[0].size, target);
    }
  }

  /** What is still counted bounds what is still there, and is it exactly when nothing went in part. */
  lemma {:induction false} CountedSizes(order: seq<Entry>, stuck: Stuck, total: int, target: nat)
    ensures var left, gone := Size(Left(order, stuck, total, target)), Size(Evicted(order, stuck, total, target));
            && left + gone <= Size(order)
            && (left + gone == Size(order) <==> AllWhole(Visited(order, stuck, total, target), stuck))
  {
    if order != [] && total > target {
      var x, rest := order[0], order[1..];
      var counted := if x.path in stuck then total else total - x.size;
      CountedSizes(rest, stuck, counted, target);
      AllWholeWith(x, Visited(rest, stuck, counted, target), stuck);
      if x.path in stuck {
        SizeOfCons(Remnant(x, stuck), Left(rest, stuck, counted, target));
      } else {
        SizeOfCons(x, Evicted(rest, stuck, counted, target));
      }
    }
  }

  lemma SizeOfCons(x: Entry, rest: seq<Entry>)
    ensures Size([x] + rest) == x.size + Size(rest)
  {
    assert ([x] + rest)[1..] == rest;
  }

  ghost predicate AllStuck(entries: seq<Entry>, stuck: Stuck) {
    forall e :: e in entries ==> e.path in stuck
  }

  lemma {:induction false} TargetOrStuck(order: seq<Entry>, stuck: Stuck, total: int, target: nat)
    ensures || total - Size(Evicted(order, stuck, total, target)) <= target
            || AllStuck(Left(order, stuck, total, target), stuck)
  {
    if order != [] && total > target {
      var x, rest := order[0], order[1..];
      var counted := if x.path in stuck then total else total - x.size;
      TargetOrStuck(rest, stuck, counted, target);
      var gone := Evicted(rest, stuck, counted, target);
      assert ([x] + gone)[1..] == gone;
    }
  }

  function RemnantOf(e: Entry, stuck: Stuck): multiset<Entry> {
    if e.path in stuck then multiset{Remnant(e, stuck)} else multiset{}
  }

  lemma {:induction false} DeletedOneIs(entries: seq<Entry>, e: Entry, stuck: Stuck)
    requires e in entries
    ensures multiset(DeletedOne(entries, e, stuck)) + multiset{e} == multiset(entries) + RemnantOf(e, stuck)
  {
    var x, rest := entries[0], entries[1..];
    Cons(x, rest);
    assert entries == [x] + rest;
    if x != e {
      var less := DeletedOne(rest, e, stuck);
      DeletedOneIs(rest, e, stuck);
      Cons(x, less);
      With(multiset{x}, multiset(less), multiset{e}, multiset(rest), RemnantOf(e, stuck));
    } else if e.path in stuck {
      Cons(Remnant(e, stuck), rest);
      With(multiset(rest), RemnantOf(e, stuck), multiset{e}, multiset{e}, RemnantOf(e, stuck));
    } else {
      assert DeletedOne(entries, e, stuck) == rest;
    }
  }

  lemma With(x: multiset<Entry>, a: multiset<Entry>, b: multiset<Entry>, c: multiset<Entry>, d: multiset<Entry>)
    requires a + b == c + d
    ensures (x + a) + b == (x + c) + d
  {
    forall y ensures ((x + a) + b)[y] == ((x + c) + d)[y] {
      assert (a + b)[y] == (c + d)[y];
    }
  }

  lemma Cons(x: Entry, rest: seq<Entry>)
    ensures multiset([x] + rest) == multiset{x} + multiset(rest)
  {
  }

  /** The remnants of the visited entries, as they are found afterwards. */
  function Remnants(visited: seq<Entry>, stuck: Stuck): multiset<Entry> {
    if visited == [] then multiset{}
    else Remnants(visited[..|visited| - 1], stuck) + RemnantOf(visited[|visited| - 1], stuck)
  }

  ghost predicate Parts(left: seq<Entry>, rest: seq<Entry>, remnants: multiset<Entry>) {
    multiset(left) == multiset(rest) + remnants
  }

  /** Deleting the first entries of the walk leaves the others, and the remnants. */
  lemma {:induction false} DeletedAllAre(entries: seq<Entry>, order: seq<Entry>, stuck: Stuck, k: nat)
    requires multiset(entries) == multiset(order) && k <= |order|
    ensures Parts(DeletedAll(entries, order[..k], stuck), order[k..], Remnants(order[..k], stuck))
  {
    if k == 0 {
      assert order[0..] == order;
    } else {
      DeletedAllAre(entries, order, stuck, k - 1);
      assert order[k - 1..] == [order[k - 1]] + order[k..];
      DeletedNext(DeletedAll(entries, order[..k - 1], stuck), order[k - 1], order[k..],
                  Remnants(order[..k - 1], stuck), stuck);
      AllButLast(entries, order, stuck, k);
    }
  }

  lemma AllButLast(entries: seq<Entry>, order: seq<Entry>, stuck: Stuck, k: nat)
    requires 0 < k <= |order|
    ensures DeletedAll(entries, order[..k], stuck) ==
            DeletedOne(DeletedAll(entries, order[..k - 1], stuck), order[k - 1], stuck)
    ensures Remnants(order[..k], stuck) == Remnants(order[..k - 1], stuck) + RemnantOf(order[k - 1], stuck)
  {
    assert order[..k][..k - 1] == order[..k - 1];
  }

  lemma DeletedNext(now: seq<Entry>, e: Entry, rest: seq<Entry>, remnants: multiset<Entry>, stuck: Stuck)
    requires Parts(now, [e] + rest, remnants)
    ensures Parts(DeletedOne(now, e, stuck), rest, remnants + RemnantOf(e, stuck))
  {
    Cons(e, rest);
    assert e in multiset(now);
    DeletedOneIs(now, e, stuck);
    Cancel(multiset(DeletedOne(now, e, stuck)), multiset{e}, multiset(rest), remnants, RemnantOf(e, stuck));
  }

  lemma Cancel(a: multiset<Entry>, e: multiset<Entry>, rest: multiset<Entry>, r: multiset<Entry>, more: multiset<Entry>)
    requires a + e == e + rest + r + more
    ensures a == rest + (r + more)
  {
    forall x ensures a[x] == (rest + (r + more))[x] {
      assert (a + e)[x] == (e + rest + r + more)[x];
    }
  }

  lemma {:induction false} RemnantsOfRest(first: Entry, rest: seq<Entry>, stuck: Stuck)
    ensures Remnants([first] + rest, stuck) == RemnantOf(first, stuck) + Remnants(rest, stuck)
  {
    var all := [first] + rest;
    if rest == [] {
      assert all[..0] == [];
    } else {
      var init, last := rest[..|rest| - 1], rest[|rest| - 1];
      RemnantsOfRest(first, init, stuck);
      assert all[..|all| - 1] == [first] + init;
      Associate(RemnantOf(first, stuck), Remnants(init, stuck), RemnantOf(last, stuck));
    }
  }

  lemma Associate(a: multiset<Entry>, b: multiset<Entry>, c: multiset<Entry>)
    ensures a + b + c == a + (b + c)
  {
  }

  /** The others, and the remnants, are what the recursion leaves. */
  lemma {:induction false} LeftAre(order: seq<Entry>, stuck: Stuck, total: int, target: nat, k: nat)
    requires k <= |order| && Visited(order, stuck, total, target) == order[..k]
    ensures Parts(Left(order, stuck, total, target), order[k..], Remnants(order[..k], stuck))
  {
    if order != [] && total > target {
      var x, rest := order[0], order[1..];
      var counted := if x.path in stuck then total else total - x.size;
      FirstVisited(order, stuck, total, target, k);
      LeftAre(rest, stuck, counted, target, k - 1);
      LeftWith(x, Left(rest, stuck, counted, target), Left(order, stuck, total, target), order[k..],
               Remnants(rest[..k - 1], stuck), Remnants(order[..k], stuck), stuck);
    } else {
      assert |order[..k]| == k;
      Whole(order, stuck);
    }
  }

  lemma Whole(order: seq<Entry>, stuck: Stuck)
    ensures Parts(order, order[0..], Remnants(order[..0], stuck))
  {
    assert order[0..] == order;
  }

  lemma FirstVisited(order: seq<Entry>, stuck: Stuck, total: int, target: nat, k: nat)
    requires order != [] && total > target
    requires k <= |order| && Visited(order, stuck, total, target) == order[..k]
    ensures var x, rest := order[0], order[1..];
            && k > 0 && order[k..] == rest[k - 1..]
            && Visited(rest, stuck, if x.path in stuck then total else total - x.size, target) == rest[..k - 1]
            && Remnants(order[..k], stuck) == RemnantOf(x, stuck) + Remnants(rest[..k - 1], stuck)
  {
    var x, rest := order[0], order[1..];
    assert rest[..k - 1] == order[..k][1..] && order[..k] == [x] + rest[..k - 1];
    RemnantsOfRest(x, rest[..k - 1], stuck);
  }

  lemma LeftWith(x: Entry, less: seq<Entry>, left: seq<Entry>, rest: seq<Entry>,
                 remnants: multiset<Entry>, all: multiset<Entry>, stuck: Stuck)
    requires Parts(less, rest, remnants) && all == RemnantOf(x, stuck) + remnants
    requires left == if x.path in stuck then [Remnant(x, stuck)] + less else less
    ensures Parts(left, rest, all)
  {
    if x.path in stuck {
      Cons(Remnant(x, stuck), less);
    }
  }

  lemma {:induction false} TakenOut(entries: seq<Entry>, e: Entry) returns (rest: seq<Entry>)
    requires e in entries
    ensures multiset(rest) == multiset(entries) - multiset{e} && Size(rest) == Size(entries) - e.size
  {
    var x := entries[0];
    assert entries == [x] + entries[1..];
    if x == e {
      rest := entries[1..];
    } else {
      var others := TakenOut(entries[1..], e);
      rest := [x] + others;
      assert rest[1..] == others;
    }
  }

  lemma {:induction false} SizeForgetsOrder(a: seq<Entry>, b: seq<Entry>)
    requires multiset(a) == multiset(b)
    ensures Size(a) == Size(b)
  {
    if a == [] {
      assert |b| == |multiset(b)| == |multiset(a)| == 0;
    } else {
      var x := a[0];
      assert a == [x] + a[1..];
      assert x in multiset(b);
      var rest := TakenOut(b, x);
      assert multiset(a) == multiset{x} + multiset(a[1..]);
      SizeForgetsOrder(a[1..], rest);
    }
  }

  /** The trim leaves the entries it does not remove, those it failed on shrunken perhaps: `kept` are
      these entries as they were and `left` as they are. */
  lemma LeftBehind(entries: seq<Entry>, stuck: Stuck, maxBytes: nat) returns (left: seq<Entry>)
    ensures var visited, kept := VisitedBy(entries, stuck, maxBytes), KeptBy(entries, stuck, maxBytes);
            && multiset(left) == multiset(DeletedAll(entries, visited, stuck))
            && Size(left) == Size(DeletedAll(entries, visited, stuck))
            && Together(kept, EvictedBy(entries, stuck, maxBytes), entries)
            && Shrunken(kept, left, stuck)
    ensures left == if Size(entries) <= maxBytes then entries
                    else Left(Sorted(entries), stuck, Size(entries), Target(maxBytes))
  {
    if Size(entries) <= maxBytes {
      left := entries;
      assert entries + [] == entries;
    } else {
      var order, total, target := Sorted(entries), Size(entries), Target(maxBytes);
      left := Left(order, stuck, total, target);
      SortedIsSorted(entries);
      var k := EvictionIsAWalk(order, stuck, total, target);
      KeptAndEvicted(order, stuck, total, target);
      KeptShrinks(order, stuck, total, target);
      DeletedAllAre(entries, order, stuck, k);
      LeftAre(order, stuck, total, target, k);
      SizeForgetsOrder(left, DeletedAll(entries, order[..k], stuck));
    }
  }

  /** The running total at the end bounds the size of what is left; it is that size exactly when no entry
      whose deletion failed lost a file. It ends within the target, unless everything left is something
      that could not be deleted. */
  lemma SurvivorsAddUp(entries: seq<Entry>, stuck: Stuck, maxBytes: nat)
    ensures var gone, visited := EvictedBy(entries, stuck, maxBytes), VisitedBy(entries, stuck, maxBytes);
            var left, counted := DeletedAll(entries, visited, stuck), Size(entries) - Size(gone);
            && Size(left) <= counted
            && (Size(left) == counted <==> AllWhole(visited, stuck))
            && (counted <= (if visited == [] then maxBytes else Target(maxBytes)) || AllStuck(left, stuck))
  {
    var visited := VisitedBy(entries, stuck, maxBytes);
    var left := LeftBehind(entries, stuck, maxBytes);
    if Size(entries) > maxBytes {
      var order, total, target := Sorted(entries), Size(entries), Target(maxBytes);
      SortedIsSorted(entries);
      CountedSizes(order, stuck, total, target);
      TargetOrStuck(order, stuck, total, target);
      forall e | e in DeletedAll(entries, visited, stuck) ensures e in left {
        assert e in multiset(left);
      }
      SomeVisited(order, stuck, total, maxBytes);
    }
  }

  lemma SomeVisited(order: seq<Entry>, stuck: Stuck, total: int, maxBytes: nat)
    requires total > maxBytes && total == Size(order)
    ensures Visited(order, stuck, total, Target(maxBytes)) != []
  {
  }
}
