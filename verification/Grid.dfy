/** Occupied grid cells, chains of neighbouring cells, and the dictionaries of points kept per cell. */
module Grid {
  import opened Common

  datatype Point = Point(x: int, y: int)
  datatype Cell = Cell(x: int, y: int)

  /** Division rounding towards minus infinity, for a divisor of either sign. */
  function FloorDiv(a: int, b: int): int
    requires b != 0
  {
    if b > 0 then a / b else (-a) / (-b)
  }

  /** The grid of `bridge`-wide squares, as the map from a point to its square. */
  function CellOf(bridge: int): Point -> Cell
    requires bridge != 0
  {
    (p: Point) => Cell(FloorDiv(p.x, bridge), FloorDiv(p.y, bridge))
  }

  function Occupied(points: seq<Point>, cellOf: Point -> Cell): set<Cell> {
    set p | p in points :: cellOf(p)
  }

  predicate Near(a: Cell, b: Cell) {
    -1 <= a.x - b.x <= 1 && -1 <= a.y - b.y <= 1
  }

  /** `path` walks from `a` to `b` over occupied cells, one step at most in each axis at a time. */
  ghost predicate Chain(occupied: set<Cell>, path: seq<Cell>, a: Cell, b: Cell) {
    && path != [] && path[0] == a && path[|path| - 1] == b
    && (forall i :: 0 <= i < |path| ==> path[i] in occupied)
    && forall i :: 0 <= i < |path| - 1 ==> Near(path[i], path[i + 1])
  }

  ghost predicate Connected(occupied: set<Cell>, a: Cell, b: Cell) {
    exists path :: Chain(occupied, path, a, b)
  }

  lemma ConnectedStep(occupied: set<Cell>, a: Cell, b: Cell)
    requires a in occupied && b in occupied && Near(a, b)
    ensures Connected(occupied, a, b)
  {
    assert Chain(occupied, [a, b], a, b);
  }

  lemma ConnectedSelf(occupied: set<Cell>, a: Cell)
    requires a in occupied
    ensures Connected(occupied, a, a)
  {
    assert Chain(occupied, [a], a, a);
  }

  lemma ConnectedTransitive(occupied: set<Cell>, a: Cell, b: Cell, c: Cell)
    requires Connected(occupied, a, b) && Connected(occupied, b, c)
    ensures Connected(occupied, a, c)
  {
    var p :| Chain(occupied, p, a, b);
    var q :| Chain(occupied, q, b, c);
    var r := p + q[1..];
    forall i | 0 <= i < |r| - 1 ensures Near(r[i], r[i + 1]) {
      if i >= |p| - 1 {
        assert r[i] == q[i - (|p| - 1)] && r[i + 1] == q[i - (|p| - 1) + 1];
      }
    }
    assert Chain(occupied, r, a, c);
  }

  lemma {:induction false} ConnectedSymmetric(occupied: set<Cell>, a: Cell, b: Cell)
    requires Connected(occupied, a, b)
    ensures Connected(occupied, b, a)
  {
    var p :| Chain(occupied, p, a, b);
    var r := seq(|p|, i requires 0 <= i < |p| => p[|p| - 1 - i]);
    forall i | 0 <= i < |r| - 1 ensures Near(r[i], r[i + 1]) {
      assert Near(p[|p| - 2 - i], p[|p| - 2 - i + 1]);
    }
    assert Chain(occupied, r, b, a);
  }

  /** A map that agrees on neighbouring occupied cells is constant along every chain. */
  lemma {:induction false} ConstantAlongChains(occupied: set<Cell>, root: map<Cell, Cell>, path: seq<Cell>, a: Cell, b: Cell)
    requires occupied <= root.Keys
    requires forall c, d :: c in occupied && d in occupied && Near(c, d) ==> root[c] == root[d]
    requires Chain(occupied, path, a, b)
    ensures a in occupied && b in occupied && root[a] == root[b]
  {
    assert path[0] in occupied;
    if |path| > 1 {
      assert Near(path[0], path[1]) && path[1] in occupied;
      var rest := path[1..];
      forall i | 0 <= i < |rest| - 1 ensures Near(rest[i], rest[i + 1]) {
        assert Near(path[i + 1], path[i + 1 + 1]);
      }
      ConstantAlongChains(occupied, root, rest, path[1], b);
    }
  }

  /** An insertion-ordered dictionary from cells to lists of points. */
  datatype Buckets = Buckets(keys: seq<Cell>, items: map<Cell, seq<Point>>) {
    ghost predicate Valid() {
      && Distinct(keys)
      && (forall c :: c in keys <==> c in items)
      && forall c :: c in items ==> items[c] != []
    }

    /** `setdefault(c, [])` followed by `extend(points)`. */
    function Extended(c: Cell, points: seq<Point>): Buckets {
      if c in items then Buckets(keys, items[c := items[c] + points])
      else Buckets(keys + [c], items[c := points])
    }

    function Values(): seq<seq<Point>>
      requires forall c :: c in keys ==> c in items
    {
      seq(|keys|, i requires 0 <= i < |keys| => items[keys[i]])
    }
  }

  /** All the points held under the given keys, with multiplicity. */
  ghost function Held(keys: seq<Cell>, items: map<Cell, seq<Point>>): multiset<Point>
    requires forall c :: c in keys ==> c in items
  {
    if keys == [] then multiset{}
    else Held(keys[..|keys| - 1], items) + multiset(items[keys[|keys| - 1]])
  }

  lemma {:induction false} HeldUnchanged(keys: seq<Cell>, items: map<Cell, seq<Point>>, c: Cell, value: seq<Point>)
    requires forall k :: k in keys ==> k in items
    requires c !in keys
    ensures Held(keys, items[c := value]) == Held(keys, items)
  {
    if keys != [] {
      HeldUnchanged(keys[..|keys| - 1], items, c, value);
    }
  }

  lemma {:induction false} HeldGrows(keys: seq<Cell>, items: map<Cell, seq<Point>>, c: Cell, points: seq<Point>)
    requires Distinct(keys)
    requires forall k :: k in keys ==> k in items
    requires c in keys
    ensures Held(keys, items[c := items[c] + points]) == Held(keys, items) + multiset(points)
  {
    var n := |keys| - 1;
    var rest := keys[..n];
    if keys[n] == c {
      assert c !in rest;
      HeldUnchanged(rest, items, c, items[c] + points);
      assert multiset(items[c] + points) == multiset(items[c]) + multiset(points);
    } else {
      assert c in rest;
      HeldGrows(rest, items, c, points);
    }
  }

  lemma ExtendedKeys(d: Buckets, c: Cell, points: seq<Point>)
    ensures d.Extended(c, points).items.Keys == d.items.Keys + {c}
  {
  }

  /** Extending one list keeps the dictionary well formed and loses and invents no point. */
  lemma ExtendedHolds(d: Buckets, c: Cell, points: seq<Point>)
    requires d.Valid() && points != []
    ensures d.Extended(c, points).Valid()
    ensures Held(d.Extended(c, points).keys, d.Extended(c, points).items) == Held(d.keys, d.items) + multiset(points)
  {
    if c in d.items {
      HeldGrows(d.keys, d.items, c, points);
    } else {
      var e := d.Extended(c, points);
      assert e.keys[..|e.keys| - 1] == d.keys;
      HeldUnchanged(d.keys, d.items, c, points);
    }
  }
}
