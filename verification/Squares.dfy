/** Which square a point lies in, and what the grid's chains of cells mean for the points' distances. */
module Squares {
  import opened Grid

  // ---- squares and distances ----

  /** The `k`-th strip, `bridge` wide; a negative width counts the strips the other way. */
  predicate InStrip(x: int, k: int, bridge: int) {
    if bridge > 0 then bridge * k <= x < bridge * (k + 1) else bridge * (k + 1) < x <= bridge * k
  }

  lemma DividedIsInStrip(x: int, bridge: int)
    requires bridge != 0
    ensures InStrip(x, FloorDiv(x, bridge), bridge)
  {
    var d, a := if bridge > 0 then bridge else -bridge, if bridge > 0 then x else -x;
    var q := a / d;
    assert d * q <= a < d * q + d;
    assert d * (q + 1) == d * q + d;
    Negated(d, q);
  }

  lemma Negated(d: int, q: int)
    ensures (-d) * q == -(d * q) && (-d) * (q + 1) == -(d * q) - d
  {
  }

  /** A point lies in its square. */
  lemma CellHolds(p: Point, bridge: int)
    requires bridge != 0
    ensures InStrip(p.x, CellOf(bridge)(p).x, bridge) && InStrip(p.y, CellOf(bridge)(p).y, bridge)
  {
    DividedIsInStrip(p.x, bridge);
    DividedIsInStrip(p.y, bridge);
  }

  lemma Ordered(d: int, a: int, b: int)
    requires d > 0
    ensures a <= b ==> d * a <= d * b
    ensures a < b ==> d * a + d <= d * b
  {
    if a <= b {
      Multiply(d, b - a);
      assert d * b == d * a + d * (b - a);
      if a < b {
        Multiply(d, b - a - 1);
        assert d * (b - a) == d * (b - a - 1) + d;
      }
    }
  }

  lemma Multiply(d: int, n: int)
    requires d >= 0 && n >= 0
    ensures d * n >= 0
  {
  }

  function Width(bridge: int): nat {
    if bridge < 0 then -bridge else bridge
  }

  predicate Closer(x: int, y: int, d: int) {
    -d < x - y < d
  }

  /** What lies closer than a bridge is in one strip or in two next to each other, and what is in such strips
      lies closer than two bridges. */
  lemma StripsAndDistances(x: int, y: int, k: int, l: int, bridge: int)
    requires bridge != 0 && InStrip(x, k, bridge) && InStrip(y, l, bridge)
    ensures Closer(x, y, Width(bridge)) ==> -1 <= k - l <= 1
    ensures -1 <= k - l <= 1 ==> Closer(x, y, 2 * Width(bridge))
  {
    var d := Width(bridge);
    StripBounds(x, k, bridge);
    StripBounds(y, l, bridge);
    Ordered(d, k + 1, l);
    Ordered(d, l + 1, k);
    Ordered(d, k, l + 1);
    Ordered(d, l, k + 1);
    assert d * (k + 1) == d * k + d && d * (l + 1) == d * l + d;
  }

  lemma StripBounds(x: int, k: int, bridge: int)
    requires bridge != 0 && InStrip(x, k, bridge)
    ensures var d, a := Width(bridge), if bridge > 0 then x else -x; d * k <= a < d * k + d
  {
    Negated(Width(bridge), k);
    assert Width(bridge) * (k + 1) == Width(bridge) * k + Width(bridge);
  }

  // ---- chains of points ----

  /** In one strip or in two next to each other. */
  ghost predicate Adjoining(x: int, y: int, bridge: int) {
    exists k, l :: InStrip(x, k, bridge) && InStrip(y, l, bridge) && -1 <= k - l <= 1
  }

  /** In one square or in two that touch. */
  ghost predicate Beside(p: Point, q: Point, bridge: int) {
    Adjoining(p.x, q.x, bridge) && Adjoining(p.y, q.y, bridge)
  }

  ghost predicate Walk(points: seq<Point>, path: seq<Point>, p: Point, q: Point, bridge: int) {
    && path != [] && path[0] == p && path[|path| - 1] == q
    && (forall i :: 0 <= i < |path| ==> path[i] in points)
    && forall i :: 0 <= i < |path| - 1 ==> Beside(path[i], path[i + 1], bridge)
  }

  /** A chain of the given points leads from one to the other. */
  ghost predicate Linked(points: seq<Point>, p: Point, q: Point, bridge: int) {
    exists path :: Walk(points, path, p, q, bridge)
  }

  lemma BesideIsNear(p: Point, q: Point, bridge: int)
    requires bridge != 0
    ensures Beside(p, q, bridge) <==> Near(CellOf(bridge)(p), CellOf(bridge)(q))
  {
    CellHolds(p, bridge);
    CellHolds(q, bridge);
    AdjoiningIs(p.x, q.x, FloorDiv(p.x, bridge), FloorDiv(q.x, bridge), bridge);
    AdjoiningIs(p.y, q.y, FloorDiv(p.y, bridge), FloorDiv(q.y, bridge), bridge);
  }

  lemma AdjoiningIs(x: int, y: int, k: int, l: int, bridge: int)
    requires bridge != 0 && InStrip(x, k, bridge) && InStrip(y, l, bridge)
    ensures Adjoining(x, y, bridge) <==> -1 <= k - l <= 1
  {
    if Adjoining(x, y, bridge) {
      var k', l' :| InStrip(x, k', bridge) && InStrip(y, l', bridge) && -1 <= k' - l' <= 1;
      OneStrip(x, k, k', bridge);
      OneStrip(y, l, l', bridge);
    }
  }

  lemma OneStrip(x: int, k: int, l: int, bridge: int)
    requires bridge != 0 && InStrip(x, k, bridge) && InStrip(x, l, bridge)
    ensures k == l
  {
    var d := Width(bridge);
    StripBounds(x, k, bridge);
    StripBounds(x, l, bridge);
    Ordered(d, k + 1, l);
    Ordered(d, l + 1, k);
    assert d * (k + 1) == d * k + d && d * (l + 1) == d * l + d;
  }

  /** Points closer than a bridge are beside each other, and those beside each other closer than two. */
  lemma BesideAndDistances(p: Point, q: Point, bridge: int)
    requires bridge != 0
    ensures Closer(p.x, q.x, Width(bridge)) && Closer(p.y, q.y, Width(bridge)) ==> Beside(p, q, bridge)
    ensures Beside(p, q, bridge) ==> Closer(p.x, q.x, 2 * Width(bridge)) && Closer(p.y, q.y, 2 * Width(bridge))
  {
    DividedIsInStrip(p.x, bridge);
    DividedIsInStrip(q.x, bridge);
    DividedIsInStrip(p.y, bridge);
    DividedIsInStrip(q.y, bridge);
    AdjoiningIs(p.x, q.x, FloorDiv(p.x, bridge), FloorDiv(q.x, bridge), bridge);
    AdjoiningIs(p.y, q.y, FloorDiv(p.y, bridge), FloorDiv(q.y, bridge), bridge);
    StripsAndDistances(p.x, q.x, FloorDiv(p.x, bridge), FloorDiv(q.x, bridge), bridge);
    StripsAndDistances(p.y, q.y, FloorDiv(p.y, bridge), FloorDiv(q.y, bridge), bridge);
  }

  /** Two points are linked exactly if their squares are joined by a chain of occupied ones. */
  lemma LinkedIsConnected(points: seq<Point>, p: Point, q: Point, bridge: int)
    requires bridge != 0 && p in points && q in points
    ensures Linked(points, p, q, bridge) <==>
            Connected(Occupied(points, CellOf(bridge)), CellOf(bridge)(p), CellOf(bridge)(q))
  {
    if Linked(points, p, q, bridge) {
      var path :| Walk(points, path, p, q, bridge);
      WalkIsChain(points, path, p, q, bridge);
    }
    if Connected(Occupied(points, CellOf(bridge)), CellOf(bridge)(p), CellOf(bridge)(q)) {
      var path :| Chain(Occupied(points, CellOf(bridge)), path, CellOf(bridge)(p), CellOf(bridge)(q));
      ChainIsWalk(points, path, p, q, bridge);
    }
  }

  lemma WalkIsChain(points: seq<Point>, path: seq<Point>, p: Point, q: Point, bridge: int)
    requires bridge != 0 && Walk(points, path, p, q, bridge)
    ensures Connected(Occupied(points, CellOf(bridge)), CellOf(bridge)(p), CellOf(bridge)(q))
  {
    var cellOf := CellOf(bridge);
    var cells := seq(|path|, i requires 0 <= i < |path| => cellOf(path[i]));
    forall i | 0 <= i < |cells| - 1 ensures Near(cells[i], cells[i + 1]) {
      assert Beside(path[i], path[i + 1], bridge);
      BesideIsNear(path[i], path[i + 1], bridge);
    }
    assert Chain(Occupied(points, cellOf), cells, cellOf(p), cellOf(q));
  }

  lemma {:induction false} ChainIsWalk(points: seq<Point>, path: seq<Cell>, p: Point, q: Point, bridge: int)
    requires bridge != 0 && p in points && q in points
    requires Chain(Occupied(points, CellOf(bridge)), path, CellOf(bridge)(p), CellOf(bridge)(q))
    ensures Linked(points, p, q, bridge)
    decreases |path|
  {
    var cellOf := CellOf(bridge);
    if |path| == 1 {
      BesideIsNear(p, q, bridge);
      assert Walk(points, [p, q], p, q, bridge);
    } else {
      assert path[1] in Occupied(points, cellOf) && Near(path[0], path[1]);
      var next :| next in points && cellOf(next) == path[1];
      BesideIsNear(p, next, bridge);
      ChainTail(Occupied(points, cellOf), path, cellOf(q));
      ChainIsWalk(points, path[1..], next, q, bridge);
      var rest :| Walk(points, rest, next, q, bridge);
      WalkExtends(points, rest, p, next, q, bridge);
    }
  }

  lemma ChainTail(occupied: set<Cell>, path: seq<Cell>, b: Cell)
    requires |path| > 1 && Chain(occupied, path, path[0], b)
    ensures Chain(occupied, path[1..], path[1], b)
  {
    forall i | 0 <= i < |path[1..]| - 1 ensures Near(path[1..][i], path[1..][i + 1]) {
      assert Near(path[i + 1], path[i + 1 + 1]);
    }
  }

  lemma WalkExtends(points: seq<Point>, rest: seq<Point>, p: Point, next: Point, q: Point, bridge: int)
    requires p in points && Walk(points, rest, next, q, bridge) && Beside(p, next, bridge)
    ensures Linked(points, p, q, bridge)
  {
    var path := [p] + rest;
    forall i | 0 <= i < |path| - 1 ensures Beside(path[i], path[i + 1], bridge) {
      assert i > 0 ==> Beside(rest[i - 1], rest[i - 1 + 1], bridge);
    }
    assert Walk(points, path, p, q, bridge);
  }
}
