/** Grouping coloured pixels into shapes: a union-find forest over grid cells, with path halving. */
module Clustering {
  import opened Common
  import opened Grid
  import opened Sorting
  import opened Squares

  datatype Outcome = Groups(groups: seq<seq<Point>>) | DivisionByZero

  type Links = map<Cell, Cell>

  /** What holds of one cell: `rep` is its root, shared with its parent, and `depth` falls on the way there. */
  ghost predicate Rooted(parent: Links, rep: Links, depth: map<Cell, nat>, c: Cell)
    requires c in parent && parent.Keys == rep.Keys == depth.Keys
  {
    && parent[c] in parent && rep[c] in parent
    && rep[parent[c]] == rep[c] && rep[rep[c]] == rep[c]
    && (parent[c] == c <==> rep[c] == c)
    && (parent[c] != c ==> depth[parent[c]] < depth[c])
  }

  ghost predicate Acyclic(parent: Links, rep: Links, depth: map<Cell, nat>) {
    && parent.Keys == rep.Keys == depth.Keys
    && forall c {:trigger Rooted(parent, rep, depth, c)} :: c in parent ==> Rooted(parent, rep, depth, c)
  }

  /** Pointing a cell at its grandparent changes no root. */
  lemma HalvingKeepsRoots(parent: Links, rep: Links, depth: map<Cell, nat>, cell: Cell)
    requires Acyclic(parent, rep, depth) && cell in parent && parent[cell] != cell
    ensures parent[cell] in parent && parent[parent[cell]] in parent
    ensures Acyclic(parent[cell := parent[parent[cell]]], rep, depth)
    ensures rep[parent[parent[cell]]] == rep[cell] && depth[parent[parent[cell]]] < depth[cell]
  {
    assert Rooted(parent, rep, depth, cell);
    var up := parent[cell];
    assert Rooted(parent, rep, depth, up);
    var halved := parent[cell := parent[up]];
    assert Rooted(parent, rep, depth, parent[up]);
    forall c | c in halved ensures Rooted(halved, rep, depth, c) {
      assert Rooted(parent, rep, depth, c);
    }
  }

  /** Hanging root `a` under root `b` moves exactly the cells of `a`, and makes no cycle. */
  lemma LinkMergesRoots(parent: Links, rep: Links, depth: map<Cell, nat>, a: Cell, b: Cell)
    requires Acyclic(parent, rep, depth) && a in parent && b in parent
    requires rep[a] == a && rep[b] == b && a != b
    ensures Acyclic(parent[a := b], Merged(rep, a, b), Deepened(depth, rep, a, depth[b] + 1))
  {
    var linked, merged, deepened := parent[a := b], Merged(rep, a, b), Deepened(depth, rep, a, depth[b] + 1);
    assert Rooted(parent, rep, depth, a) && Rooted(parent, rep, depth, b);
    forall c | c in linked ensures Rooted(linked, merged, deepened, c) {
      assert Rooted(parent, rep, depth, c);
      assert Rooted(parent, rep, depth, parent[c]) && Rooted(parent, rep, depth, rep[c]);
    }
  }

  function Merged(rep: Links, a: Cell, b: Cell): Links {
    map c | c in rep :: if rep[c] == a then b else rep[c]
  }

  ghost function Deepened(depth: map<Cell, nat>, rep: Links, a: Cell, extra: nat): map<Cell, nat>
    requires depth.Keys == rep.Keys
  {
    map c | c in depth :: if rep[c] == a then depth[c] + extra else depth[c]
  }

  /** The `parent` dictionary. `rep` names each cell's root; `depth` falls along every parent link. */
  class Forest {
    var parent: Links
    ghost var rep: Links
    ghost var depth: map<Cell, nat>

    ghost predicate Valid()
      reads this
    {
      Acyclic(parent, rep, depth)
    }

    constructor (cells: seq<Cell>)
      ensures Valid()
      ensures rep == map c | c in cells :: c
    {
      parent := map c | c in cells :: c;
      rep := map c | c in cells :: c;
      depth := map c | c in cells :: 0;
    }

    /** Find the root, halving the path on the way. It stops, and no cell changes its root. */
    method Root(start: Cell) returns (cell: Cell)
      requires Valid() && start in parent
      modifies this
      ensures Valid() && rep == old(rep)
      ensures parent.Keys == old(parent.Keys)
      ensures cell == rep[start] && cell in rep && rep[cell] == cell
    {
      cell := start;
      assert Rooted(parent, rep, depth, cell);
      while parent[cell] != cell
        invariant Valid() && rep == old(rep) && depth == old(depth)
        invariant parent.Keys == old(parent.Keys)
        invariant cell in parent && rep[cell] == rep[start] && Rooted(parent, rep, depth, cell)
        decreases depth[cell]
      {
        HalvingKeepsRoots(parent, rep, depth, cell);
        parent := parent[cell := parent[parent[cell]]];
        assert Rooted(parent, rep, depth, cell);
        cell := parent[cell];
        assert Rooted(parent, rep, depth, cell);
      }
    }

    /** Hang root `a` under root `b`: exactly the cells rooted at `a` are now rooted at `b`. */
    method Link(a: Cell, b: Cell)
      requires Valid() && a in parent && b in parent
      requires rep[a] == a && rep[b] == b && a != b
      modifies this
      ensures Valid()
      ensures rep == Merged(old(rep), a, b)
    {
      LinkMergesRoots(parent, rep, depth, a, b);
      parent := parent[a := b];
      depth := Deepened(depth, rep, a, depth[b] + 1);
      rep := Merged(rep, a, b);
    }

    /** Join a cell with one neighbour, if that neighbour is occupied at all. */
    method Join(cell: Cell, other: Cell)
      requires Valid() && cell in parent
      modifies this
      ensures Valid()
      ensures rep == if other in old(rep) then Merged(old(rep), old(rep)[cell], old(rep)[other]) else old(rep)
    {
      if other in parent {
        var a := Root(cell);
        var b := Root(other);
        if a != b {
          Link(a, b);
        }
      }
    }

    /** Join a cell with the one at an offset; what shared a root still does, and only chains are joined. */
    method JoinAt(cell: Cell, other: Cell)
      requires Valid() && cell in parent && Near(cell, other)
      requires OnlyChained(rep)
      modifies this
      ensures Valid() && OnlyChained(rep) && Coarser(old(rep), rep)
      ensures SameRoot(rep, cell, other)
    {
      if other in rep {
        MergeIsChained(rep, cell, other);
        MergeIsCoarser(rep, rep[cell], rep[other]);
      }
      Join(cell, other);
    }

    /** Join a cell with the three cells at one horizontal offset. */
    method JoinColumn(cell: Cell, dx: int)
      requires Valid() && cell in parent && -1 <= dx <= 1
      requires OnlyChained(rep)
      modifies this
      ensures Valid() && OnlyChained(rep) && Coarser(old(rep), rep)
      ensures forall ey :: -1 <= ey <= 1 ==> SameRoot(rep, cell, Shifted(cell, dx, ey))
    {
      for dy := -1 to 2
        invariant Valid() && OnlyChained(rep) && Coarser(old(rep), rep)
        invariant forall ey :: -1 <= ey < dy ==> SameRoot(rep, cell, Shifted(cell, dx, ey))
      {
        JoinAt(cell, Shifted(cell, dx, dy));
      }
    }

    /** Join a cell with its eight neighbours (and itself). */
    method JoinNeighbours(cell: Cell)
      requires Valid() && cell in parent
      requires OnlyChained(rep)
      modifies this
      ensures Valid() && OnlyChained(rep) && Coarser(old(rep), rep)
      ensures forall d :: Near(cell, d) ==> SameRoot(rep, cell, d)
    {
      for dx := -1 to 2
        invariant Valid() && OnlyChained(rep) && Coarser(old(rep), rep)
        invariant forall ex, ey :: -1 <= ex < dx && -1 <= ey <= 1 ==> SameRoot(rep, cell, Shifted(cell, ex, ey))
      {
        JoinColumn(cell, dx);
      }
      forall d | Near(cell, d) ensures SameRoot(rep, cell, d) {
        assert Shifted(cell, d.x - cell.x, d.y - cell.y) == d;
      }
    }
  }

  function Shifted(cell: Cell, dx: int, dy: int): Cell {
    Cell(cell.x + dx, cell.y + dy)
  }

  /** If both cells are occupied they have one root. */
  predicate SameRoot(rep: Links, c: Cell, d: Cell) {
    c in rep && d in rep ==> rep[c] == rep[d]
  }

  /** Cells with one root are joined by a chain of occupied cells. */
  ghost predicate OnlyChained(rep: Links) {
    forall c, d {:trigger Chained(rep, c, d)} :: c in rep && d in rep && SameRoot(rep, c, d) ==> Chained(rep, c, d)
  }

  ghost predicate Chained(rep: Links, c: Cell, d: Cell) {
    Connected(rep.Keys, c, d)
  }

  /** Cells that shared a root still do. */
  ghost predicate Coarser(fine: Links, rep: Links) {
    fine.Keys == rep.Keys && forall c, d {:trigger SameRoot(rep, c, d)} :: SameRoot(fine, c, d) ==> SameRoot(rep, c, d)
  }

  lemma MergeIsCoarser(rep: Links, a: Cell, b: Cell)
    ensures Coarser(rep, Merged(rep, a, b))
  {
  }

  lemma MergeIsChained(rep: Links, cell: Cell, other: Cell)
    requires OnlyChained(rep) && cell in rep && other in rep && Near(cell, other)
    ensures OnlyChained(Merged(rep, rep[cell], rep[other]))
  {
    var merged := Merged(rep, rep[cell], rep[other]);
    ConnectedStep(rep.Keys, cell, other);
    assert merged.Keys == rep.Keys;
    forall c, d | c in rep && d in rep && merged[c] == merged[d] ensures Chained(rep, c, d) && Chained(merged, c, d) {
      assert SameRoot(rep, c, d) ==> Chained(rep, c, d);
      if rep[c] != rep[d] {
        if rep[c] == rep[cell] {
          Bridged(rep, c, cell, other, d);
        } else {
          Bridged(rep, d, cell, other, c);
          ConnectedSymmetric(rep.Keys, d, c);
        }
      }
    }
  }

  lemma Bridged(rep: Links, c: Cell, cell: Cell, other: Cell, d: Cell)
    requires OnlyChained(rep) && {c, d, cell, other} <= rep.Keys
    requires rep[c] == rep[cell] && rep[d] == rep[other] && Connected(rep.Keys, cell, other)
    ensures Connected(rep.Keys, c, d)
  {
    assert Chained(rep, c, cell) && Chained(rep, other, d);
    ConnectedTransitive(rep.Keys, c, cell, other);
    ConnectedTransitive(rep.Keys, c, other, d);
  }

  // ---- the order the groups come in ----

  /** Where a point is first given. */
  function First(points: seq<Point>, p: Point): (k: nat)
    ensures k <= |points| && forall j :: 0 <= j < k ==> points[j] != p
    ensures p in points ==> k < |points| && points[k] == p
  {
    if points == [] || points[0] == p then 0 else First(points[1..], p) + 1
  }

  ghost predicate OpensWithFirst(g: seq<Point>, points: seq<Point>) {
    g != [] && forall p :: p in g ==> First(points, g[0]) <= First(points, p)
  }

  ghost predicate Ahead(g: seq<Point>, h: seq<Point>, points: seq<Point>) {
    g != [] && h != [] && First(points, g[0]) < First(points, h[0])
  }

  ghost predicate Follows(d: Buckets, i: nat, j: nat, points: seq<Point>)
    requires d.Valid() && i < |d.keys| && j < |d.keys|
  {
    Ahead(d.items[d.keys[i]], d.items[d.keys[j]], points)
  }

  /** Every list opens with the earliest of its points, and the lists come in the order of these. */
  ghost predicate InOrder(d: Buckets, points: seq<Point>)
    requires d.Valid()
  {
    && (forall c {:trigger OpensWithFirst(d.items[c], points)} :: c in d.items ==> OpensWithFirst(d.items[c], points))
    && forall i, j {:trigger Follows(d, i, j, points)} :: 0 <= i < j < |d.keys| ==> Follows(d, i, j, points)
  }

  /** What is added behind a list does not change where it begins. */
  lemma AddedBehind(g: seq<Point>, more: seq<Point>, points: seq<Point>)
    requires OpensWithFirst(g, points) && OpensWithFirst(more, points)
    requires First(points, g[0]) <= First(points, more[0])
    ensures OpensWithFirst(g + more, points) && (g + more)[0] == g[0]
  {
    forall p | p in g + more ensures First(points, g[0]) <= First(points, p) {
      assert p in g || p in more;
    }
  }

  lemma ExtendedInOrder(d: Buckets, c: Cell, more: seq<Point>, points: seq<Point>)
    requires d.Valid() && InOrder(d, points) && OpensWithFirst(more, points)
    requires c in d.items ==> First(points, d.items[c][0]) <= First(points, more[0])
    requires c !in d.items ==> forall k :: k in d.items ==> Ahead(d.items[k], more, points)
    ensures d.Extended(c, more).Valid() && InOrder(d.Extended(c, more), points)
  {
    ExtendedHolds(d, c, more);
    if c in d.items {
      LongerInOrder(d, c, more, points);
    } else {
      NewInOrder(d, c, more, points);
    }
  }

  lemma LongerInOrder(d: Buckets, c: Cell, more: seq<Point>, points: seq<Point>)
    requires d.Valid() && InOrder(d, points) && OpensWithFirst(more, points)
    requires c in d.items && First(points, d.items[c][0]) <= First(points, more[0])
    requires d.Extended(c, more).Valid()
    ensures InOrder(d.Extended(c, more), points)
  {
    var e := d.Extended(c, more);
    AddedBehind(d.items[c], more, points);
    forall k | k in e.items ensures OpensWithFirst(e.items[k], points) && e.items[k][0] == d.items[k][0] {
      assert OpensWithFirst(d.items[k], points);
    }
    forall i, j | 0 <= i < j < |e.keys| ensures Follows(e, i, j, points) {
      assert Follows(d, i, j, points) && d.keys[i] in d.items && d.keys[j] in d.items;
    }
  }

  lemma NewInOrder(d: Buckets, c: Cell, more: seq<Point>, points: seq<Point>)
    requires d.Valid() && InOrder(d, points) && OpensWithFirst(more, points)
    requires c !in d.items && forall k :: k in d.items ==> Ahead(d.items[k], more, points)
    requires d.Extended(c, more).Valid()
    ensures InOrder(d.Extended(c, more), points)
  {
    var e := d.Extended(c, more);
    forall k | k in e.items ensures OpensWithFirst(e.items[k], points) {
      assert k in d.items ==> OpensWithFirst(d.items[k], points);
    }
    forall i, j | 0 <= i < j < |e.keys| ensures Follows(e, i, j, points) {
      assert e.keys[i] == d.keys[i] && d.keys[i] in d.items;
      if j < |d.keys| {
        assert Follows(d, i, j, points) && d.keys[j] in d.items;
      } else {
        assert Ahead(d.items[d.keys[i]], more, points);
      }
    }
  }

  ghost predicate Placed(d: Buckets, p: Point, cellOf: Point -> Cell) {
    cellOf(p) in d.items && p in d.items[cellOf(p)]
  }

  ghost predicate Seen(d: Buckets, c: Cell, points: seq<Point>, n: nat)
    requires c in d.items
  {
    forall p :: p in d.items[c] ==> First(points, p) < n
  }

  /** The first `n` points are in their lists, and nothing else is. */
  ghost predicate Entered(d: Buckets, points: seq<Point>, n: nat, cellOf: Point -> Cell)
    requires n <= |points|
  {
    && (forall k {:trigger Placed(d, points[k], cellOf)} :: 0 <= k < n ==> Placed(d, points[k], cellOf))
    && forall c {:trigger Seen(d, c, points, n)} :: c in d.items ==> Seen(d, c, points, n)
  }

  ghost predicate Filled(d: Buckets, points: seq<Point>, n: nat, cellOf: Point -> Cell)
    requires n <= |points|
  {
    d.Valid() && Entered(d, points, n, cellOf) && InOrder(d, points)
  }

  lemma FilledStep(d: Buckets, points: seq<Point>, n: nat, cellOf: Point -> Cell)
    requires n < |points| && Filled(d, points, n, cellOf)
    ensures Filled(d.Extended(cellOf(points[n]), [points[n]]), points, n + 1, cellOf)
  {
    var p, c := points[n], cellOf(points[n]);
    var first := First(points, p);
    assert first < n ==> Placed(d, points[first], cellOf);
    if c in d.items {
      assert OpensWithFirst(d.items[c], points) && Seen(d, c, points, n);
      assert d.items[c][0] in d.items[c];
    } else {
      forall r | r in d.items ensures Ahead(d.items[r], [p], points) {
        assert Seen(d, r, points, n) && d.items[r][0] in d.items[r];
      }
    }
    ExtendedInOrder(d, c, [p], points);
    EnteredStep(d, points, n, cellOf);
  }

  lemma EnteredStep(d: Buckets, points: seq<Point>, n: nat, cellOf: Point -> Cell)
    requires n < |points| && Entered(d, points, n, cellOf)
    ensures Entered(d.Extended(cellOf(points[n]), [points[n]]), points, n + 1, cellOf)
  {
    var p, c := points[n], cellOf(points[n]);
    var e := d.Extended(c, [p]);
    forall k | 0 <= k < n + 1 ensures Placed(e, points[k], cellOf) {
      if k < n {
        assert Placed(d, points[k], cellOf);
      } else {
        assert e.items[c][|e.items[c]| - 1] == p;
      }
    }
    forall r | r in e.items ensures Seen(e, r, points, n + 1) {
      assert r in d.items ==> Seen(d, r, points, n);
    }
  }

  /** Every list of `groups` begins before the lists of the cells still to come. */
  ghost predicate Earlier(groups: Buckets, d: Buckets, n: nat, points: seq<Point>)
    requires d.Valid()
  {
    forall r, k {:trigger Before(groups, d, r, k, points)} ::
      r in groups.items && n <= k < |d.keys| ==> Before(groups, d, r, k, points)
  }

  ghost predicate Before(groups: Buckets, d: Buckets, r: Cell, k: nat, points: seq<Point>)
    requires d.Valid() && r in groups.items && k < |d.keys|
  {
    Ahead(groups.items[r], d.items[d.keys[k]], points)
  }

  lemma CollectedInOrder(groups: Buckets, d: Buckets, n: nat, r: Cell, points: seq<Point>)
    requires d.Valid() && groups.Valid() && n < |d.keys|
    requires InOrder(d, points) && InOrder(groups, points) && Earlier(groups, d, n, points)
    ensures var e := groups.Extended(r, d.items[d.keys[n]]);
            e.Valid() && InOrder(e, points) && Earlier(e, d, n + 1, points)
  {
    var more := d.items[d.keys[n]];
    var e := groups.Extended(r, more);
    assert OpensWithFirst(more, points);
    forall q | q in groups.items ensures Ahead(groups.items[q], more, points) {
      assert Before(groups, d, q, n, points);
    }
    ExtendedInOrder(groups, r, more, points);
    forall q, k | q in e.items && n + 1 <= k < |d.keys| ensures Before(e, d, q, k, points) {
      assert q in groups.items ==> Before(groups, d, q, k, points);
      assert Follows(d, n, k, points);
    }
  }

  /** Whenever the cells are in order, so are the groups, and they begin before the cells still to come. */
  ghost predicate KeepsOrder(groups: Buckets, d: Buckets, n: nat)
    requires groups.Valid() && d.Valid()
  {
    forall points {:trigger KeepsOrderOf(groups, d, n, points)} :: KeepsOrderOf(groups, d, n, points)
  }

  ghost predicate KeepsOrderOf(groups: Buckets, d: Buckets, n: nat, points: seq<Point>)
    requires groups.Valid() && d.Valid()
  {
    InOrder(d, points) ==> InOrder(groups, points) && Earlier(groups, d, n, points)
  }

  lemma ExtendedValid(d: Buckets, c: Cell, more: seq<Point>)
    requires d.Valid() && more != []
    ensures d.Extended(c, more).Valid()
  {
    ExtendedHolds(d, c, more);
  }

  lemma CollectKeepsOrder(groups: Buckets, d: Buckets, n: nat, r: Cell, grown: Buckets)
    requires d.Valid() && groups.Valid() && grown.Valid() && n < |d.keys| && KeepsOrder(groups, d, n)
    requires grown == groups.Extended(r, d.items[d.keys[n]])
    ensures KeepsOrder(grown, d, n + 1)
  {
    var next := n + 1;
    forall points ensures KeepsOrderOf(grown, d, next, points) {
      assert KeepsOrderOf(groups, d, n, points);
      CollectKeepsOrderOf(groups, d, n, r, grown, points);
    }
  }

  lemma CollectKeepsOrderOf(groups: Buckets, d: Buckets, n: nat, r: Cell, grown: Buckets, points: seq<Point>)
    requires d.Valid() && groups.Valid() && grown.Valid() && n < |d.keys| && KeepsOrderOf(groups, d, n, points)
    requires grown == groups.Extended(r, d.items[d.keys[n]])
    ensures KeepsOrderOf(grown, d, n + 1, points)
  {
    if InOrder(d, points) {
      CollectedInOrder(groups, d, n, r, points);
    }
  }

  /** Groups of one length stand in the order of their earliest points. */
  ghost predicate TiesInOrder(gs: seq<seq<Point>>, points: seq<Point>) {
    forall i, j :: 0 <= i < j < |gs| && |gs[i]| == |gs[j]| ==> Ahead(gs[i], gs[j], points)
  }

  ghost predicate AllInOrder(gs: seq<seq<Point>>, points: seq<Point>) {
    forall i, j :: 0 <= i < j < |gs| ==> Ahead(gs[i], gs[j], points)
  }

  lemma {:induction false} SortKeepsTies(gs: seq<seq<Point>>, points: seq<Point>)
    requires AllInOrder(gs, points)
    ensures TiesInOrder(SortedByLength(gs), points)
  {
    if gs != [] {
      var rest := gs[1..];
      SortKeepsTies(rest, points);
      SortPermutes(rest);
      var sorted := SortedByLength(rest);
      forall k | 0 <= k < |sorted| ensures Ahead(gs[0], sorted[k], points) {
        assert sorted[k] in multiset(rest);
        var j :| 0 <= j < |rest| && rest[j] == sorted[k];
        assert Ahead(gs[0], gs[j + 1], points);
      }
      InsertedKeepsTies(gs[0], sorted, points);
    }
  }

  lemma {:induction false} InsertedKeepsTies(g: seq<Point>, sorted: seq<seq<Point>>, points: seq<Point>)
    requires LongestFirst(sorted) && TiesInOrder(sorted, points)
    requires forall k :: 0 <= k < |sorted| ==> Ahead(g, sorted[k], points)
    ensures TiesInOrder(Inserted(NotShorter, g, sorted), points)
  {
    if sorted != [] && |g| < |sorted[0]| {
      var rest := sorted[1..];
      InsertedKeepsTies(g, rest, points);
      InsertedPermutes(NotShorter, g, rest);
      var more := Inserted(NotShorter, g, rest);
      assert Inserted(NotShorter, g, sorted) == [sorted[0]] + more;
      forall k | 0 <= k < |more| && |more[k]| == |sorted[0]| ensures Ahead(sorted[0], more[k], points) {
        assert more[k] in multiset(more);
        assert more[k] in rest;
        var j :| 0 <= j < |rest| && rest[j] == more[k];
        assert Ahead(sorted[0], sorted[j + 1], points);
      }
    }
  }

  // ---- the three passes ----

  ghost predicate ByCell(d: Buckets, cellOf: Point -> Cell)
  {
    forall c, p {:trigger p in d.items[c]} :: c in d.items && p in d.items[c] ==> cellOf(p) == c
  }

  /** The dictionary holds exactly the given points, each under its own cell. */
  ghost predicate Bucketed(d: Buckets, points: seq<Point>, cellOf: Point -> Cell) {
    && d.Valid() && ByCell(d, cellOf)
    && d.items.Keys == Occupied(points, cellOf)
    && Held(d.keys, d.items) == multiset(points)
  }

  method Bucket(points: seq<Point>, cellOf: Point -> Cell) returns (d: Buckets)
    ensures Bucketed(d, points, cellOf) && InOrder(d, points)
  {
    d := Buckets([], map[]);
    for i := 0 to |points|
      invariant BucketedTo(d, points, i, cellOf)
    {
      BucketToNext(d, points, i, cellOf);
      d := d.Extended(cellOf(points[i]), [points[i]]);
    }
    assert points[..|points|] == points;
  }

  ghost predicate BucketedTo(d: Buckets, points: seq<Point>, n: nat, cellOf: Point -> Cell)
    requires n <= |points|
  {
    Bucketed(d, points[..n], cellOf) && Filled(d, points, n, cellOf)
  }

  lemma BucketToNext(d: Buckets, points: seq<Point>, n: nat, cellOf: Point -> Cell)
    requires n < |points| && BucketedTo(d, points, n, cellOf)
    ensures BucketedTo(d.Extended(cellOf(points[n]), [points[n]]), points, n + 1, cellOf)
  {
    BucketNext(d, points, n, cellOf);
    FilledStep(d, points, n, cellOf);
  }

  lemma BucketNext(d: Buckets, points: seq<Point>, n: nat, cellOf: Point -> Cell)
    requires n < |points| && Bucketed(d, points[..n], cellOf)
    ensures Bucketed(d.Extended(cellOf(points[n]), [points[n]]), points[..n + 1], cellOf)
  {
    assert points[..n + 1] == points[..n] + [points[n]];
    BucketStep(d, points[..n], points[n], cellOf);
  }

  lemma BucketStep(d: Buckets, points: seq<Point>, p: Point, cellOf: Point -> Cell)
    requires Bucketed(d, points, cellOf)
    ensures Bucketed(d.Extended(cellOf(p), [p]), points + [p], cellOf)
  {
    ExtendedHolds(d, cellOf(p), [p]);
    OccupiedGrows(points, p, cellOf);
    ExtendedByCell(d, p, cellOf);
    ExtendedKeys(d, cellOf(p), [p]);
    assert multiset(points + [p]) == multiset(points) + multiset([p]);
  }

  lemma ExtendedByCell(d: Buckets, p: Point, cellOf: Point -> Cell)
    requires ByCell(d, cellOf)
    ensures ByCell(d.Extended(cellOf(p), [p]), cellOf)
  {
    var e := d.Extended(cellOf(p), [p]);
    forall c, q | c in e.items && q in e.items[c] ensures cellOf(q) == c {
      if c in d.items && (c != cellOf(p) || q != p) {
        assert q in d.items[c];
      }
    }
  }

  lemma OccupiedGrows(points: seq<Point>, p: Point, cellOf: Point -> Cell)
    ensures Occupied(points + [p], cellOf) == Occupied(points, cellOf) + {cellOf(p)}
  {
    assert forall q :: q in points + [p] <==> q in points || q == p;
  }

  /** After every cell has been joined with its neighbours, one root means exactly one chain. */
  method JoinAll(cells: seq<Cell>) returns (forest: Forest)
    ensures fresh(forest) && forest.Valid() && forest.rep.Keys == Elements(cells)
    ensures OnlyChained(forest.rep)
    ensures forall c, d :: c in forest.rep && Near(c, d) ==> SameRoot(forest.rep, c, d)
  {
    forest := new Forest(cells);
    StartChained(forest.rep);
    for i := 0 to |cells|
      invariant fresh(forest) && forest.Valid() && forest.rep.Keys == Elements(cells)
      invariant OnlyChained(forest.rep)
      invariant forall k, d :: 0 <= k < i && Near(cells[k], d) ==> SameRoot(forest.rep, cells[k], d)
    {
      assert cells[i] in forest.rep;
      forest.JoinNeighbours(cells[i]);
    }
    forall c, d | c in forest.rep && Near(c, d) ensures SameRoot(forest.rep, c, d) {
      assert c in cells;
    }
  }

  lemma StartChained(rep: Links)
    requires forall c :: c in rep ==> rep[c] == c
    ensures OnlyChained(rep)
  {
    forall c, d | c in rep && d in rep && SameRoot(rep, c, d) ensures Chained(rep, c, d) {
      ConnectedSelf(rep.Keys, c);
    }
  }

  ghost predicate ByRoot(groups: Buckets, rep: Links, cellOf: Point -> Cell)
  {
    forall r, p {:trigger p in groups.items[r]} :: r in groups.items && p in groups.items[r] ==>
      cellOf(p) in rep && rep[cellOf(p)] == r
  }

  /** The groups hold exactly the points of the first cells, each under the root of its own cell. */
  ghost predicate Collected(groups: Buckets, cells: seq<Cell>, d: Buckets, rep: Links, cellOf: Point -> Cell)
    requires forall c :: c in cells ==> c in d.items
  {
    groups.Valid() && ByRoot(groups, rep, cellOf) && Held(groups.keys, groups.items) == Held(cells, d.items)
  }

  lemma GatherStep(groups: Buckets, before: seq<Cell>, cells: seq<Cell>, d: Buckets, rep: Links, n: nat,
                   cellOf: Point -> Cell)
    requires d.Valid() && ByCell(d, cellOf) && rep.Keys == d.items.Keys && n < |d.keys|
    requires cells == before + [d.keys[n]] && forall c :: c in before ==> c in d.items
    requires Collected(groups, before, d, rep, cellOf) && KeepsOrder(groups, d, n)
    ensures d.keys[n] in rep
    ensures var grown := groups.Extended(rep[d.keys[n]], d.items[d.keys[n]]);
            Collected(grown, cells, d, rep, cellOf) && KeepsOrder(grown, d, n + 1)
  {
    assert d.keys[n] in d.items;
    CollectStep(groups, before, d, rep, d.keys[n], cellOf);
    var root, more := rep[d.keys[n]], d.items[d.keys[n]];
    ExtendedValid(groups, root, more);
    CollectKeepsOrder(groups, d, n, root, groups.Extended(root, more));
  }

  ghost predicate Gathered(groups: Buckets, d: Buckets, n: nat, rep: Links, cellOf: Point -> Cell)
    requires d.Valid() && n <= |d.keys|
  {
    Collected(groups, d.keys[..n], d, rep, cellOf) && KeepsOrder(groups, d, n)
  }

  lemma GatherNext(groups: Buckets, d: Buckets, n: nat, rep: Links, cellOf: Point -> Cell)
    requires d.Valid() && ByCell(d, cellOf) && rep.Keys == d.items.Keys
    requires n < |d.keys| && Gathered(groups, d, n, rep, cellOf)
    ensures d.keys[n] in rep && Gathered(groups.Extended(rep[d.keys[n]], d.items[d.keys[n]]), d, n + 1, rep, cellOf)
  {
    assert d.keys[..n + 1] == d.keys[..n] + [d.keys[n]];
    GatherStep(groups, d.keys[..n], d.keys[..n + 1], d, rep, n, cellOf);
  }

  method Collect(d: Buckets, forest: Forest, cellOf: Point -> Cell) returns (groups: Buckets)
    requires d.Valid() && ByCell(d, cellOf)
    requires forest.Valid() && forest.rep.Keys == d.items.Keys
    modifies forest
    ensures forest.Valid() && forest.rep == old(forest.rep)
    ensures Collected(groups, d.keys, d, forest.rep, cellOf) && KeepsOrder(groups, d, |d.keys|)
  {
    groups := Buckets([], map[]);
    ghost var rep := forest.rep;
    for i := 0 to |d.keys|
      invariant forest.Valid() && forest.rep == rep
      invariant Gathered(groups, d, i, rep, cellOf)
    {
      var cell := d.keys[i];
      var root := forest.Root(cell);
      GatherNext(groups, d, i, rep, cellOf);
      groups := groups.Extended(root, d.items[cell]);
    }
    assert d.keys[..|d.keys|] == d.keys;
  }

  lemma CollectStep(groups: Buckets, cells: seq<Cell>, d: Buckets, rep: Links, cell: Cell, cellOf: Point -> Cell)
    requires forall c :: c in cells ==> c in d.items
    requires ByCell(d, cellOf) && cell in d.items && d.items[cell] != [] && cell in rep
    requires Collected(groups, cells, d, rep, cellOf)
    ensures Collected(groups.Extended(rep[cell], d.items[cell]), cells + [cell], d, rep, cellOf)
  {
    ExtendedHolds(groups, rep[cell], d.items[cell]);
    ExtendedByRoot(groups, d, rep, cell, cellOf);
    assert (cells + [cell])[..|cells + [cell]| - 1] == cells;
  }

  lemma ExtendedByRoot(groups: Buckets, d: Buckets, rep: Links, cell: Cell, cellOf: Point -> Cell)
    requires ByCell(d, cellOf) && cell in d.items && cell in rep
    requires ByRoot(groups, rep, cellOf)
    ensures ByRoot(groups.Extended(rep[cell], d.items[cell]), rep, cellOf)
  {
    var e := groups.Extended(rep[cell], d.items[cell]);
    forall r, p | r in e.items && p in e.items[r] ensures cellOf(p) in rep && rep[cellOf(p)] == r {
      if r in groups.items && p in groups.items[r] {
      } else {
        assert p in d.items[cell];
      }
    }
  }

  // ---- the final order ----

  predicate NotShorter(g: seq<Point>, h: seq<Point>) {
    |g| >= |h|
  }

  /** Sorting by length, longest first; groups of one length keep their order. */
  function SortedByLength(gs: seq<seq<Point>>): seq<seq<Point>> {
    Sorted(NotShorter, gs)
  }

  ghost predicate LongestFirst(gs: seq<seq<Point>>) {
    forall i, j :: 0 <= i < j < |gs| ==> |gs[i]| >= |gs[j]|
  }

  function OfLength(gs: seq<seq<Point>>, n: nat): seq<seq<Point>> {
    if gs == [] then [] else (if |gs[0]| == n then [gs[0]] else []) + OfLength(gs[1..], n)
  }

  lemma {:induction false} InsertedIsStable(g: seq<Point>, gs: seq<seq<Point>>, n: nat)
    requires LongestFirst(gs)
    ensures OfLength(Inserted(NotShorter, g, gs), n) == (if |g| == n then [g] else []) + OfLength(gs, n)
  {
    if gs == [] || |g| >= |gs[0]| {
      assert ([g] + gs)[1..] == gs;
    } else {
      var all, rest := Inserted(NotShorter, g, gs), gs[1..];
      assert all[0] == gs[0] && all[1..] == Inserted(NotShorter, g, rest);
      InsertedIsStable(g, rest, n);
      if |g| == n {
        assert OfLength(gs, n) == OfLength(rest, n);
      } else {
        assert OfLength(all[1..], n) == OfLength(rest, n);
      }
    }
  }

  /** The sort is a permutation, longest first. */
  lemma SortPermutes(gs: seq<seq<Point>>)
    ensures LongestFirst(SortedByLength(gs))
    ensures multiset(SortedByLength(gs)) == multiset(gs)
  {
    SortedIsOrdered(NotShorter, gs);
    var sorted := SortedByLength(gs);
    assert forall i, j :: 0 <= i < j < |sorted| ==> NotShorter(sorted[i], sorted[j]);
  }

  /** The sort is stable: groups of one length keep their old order. */
  lemma {:induction false} SortIsStable(gs: seq<seq<Point>>, n: nat)
    ensures OfLength(SortedByLength(gs), n) == OfLength(gs, n)
  {
    if gs != [] {
      SortIsStable(gs[1..], n);
      SortPermutes(gs[1..]);
      InsertedIsStable(gs[0], SortedByLength(gs[1..]), n);
    }
  }

  // ---- what the clustering promises ----

  ghost function Flattened(gs: seq<seq<Point>>): multiset<Point> {
    if gs == [] then multiset{} else multiset(gs[0]) + Flattened(gs[1..])
  }

  /** Every point, exactly as often as it was given, and two points together iff a chain joins their cells. */
  ghost predicate Components(gs: seq<seq<Point>>, points: seq<Point>, cellOf: Point -> Cell)
  {
    && Flattened(gs) == multiset(points)
    && (forall i :: 0 <= i < |gs| ==> gs[i] != [])
    && forall i, j, p, q :: 0 <= i < |gs| && 0 <= j < |gs| && p in gs[i] && q in gs[j] ==>
         (i == j <==> Connected(Occupied(points, cellOf), cellOf(p), cellOf(q)))
  }

  /** The same of the points themselves: two are together iff a chain of points leads from one to the other
      over squares that touch. */
  ghost predicate Grouped(gs: seq<seq<Point>>, points: seq<Point>, bridge: int)
  {
    && Flattened(gs) == multiset(points)
    && (forall i :: 0 <= i < |gs| ==> gs[i] != [])
    && forall i, j, p, q :: 0 <= i < |gs| && 0 <= j < |gs| && p in gs[i] && q in gs[j] ==>
         (i == j <==> Linked(points, p, q, bridge))
  }

  ghost predicate InOneGroup(gs: seq<seq<Point>>, p: Point, q: Point) {
    forall i :: 0 <= i < |gs| ==> (p in gs[i] <==> q in gs[i])
  }

  /** Points less than a bridge apart in both axes share a group. */
  ghost predicate NeighboursTogether(gs: seq<seq<Point>>, points: seq<Point>, bridge: int) {
    forall p, q {:trigger InOneGroup(gs, p, q)} ::
      p in points && q in points && Closer(p.x, q.x, Width(bridge)) && Closer(p.y, q.y, Width(bridge)) ==>
      InOneGroup(gs, p, q)
  }

  /** From `p` to `q` in steps of less than two bridges in each axis, within the group. */
  ghost predicate Strides(g: seq<Point>, path: seq<Point>, p: Point, q: Point, bridge: int) {
    && path != [] && path[0] == p && path[|path| - 1] == q
    && (forall i :: 0 <= i < |path| ==> path[i] in g)
    && forall i :: 0 <= i < |path| - 1 ==>
         Closer(path[i].x, path[i + 1].x, 2 * Width(bridge)) && Closer(path[i].y, path[i + 1].y, 2 * Width(bridge))
  }

  ghost predicate StepsAreShort(gs: seq<seq<Point>>, bridge: int) {
    forall i, p, q :: 0 <= i < |gs| && p in gs[i] && q in gs[i] ==> exists path :: Strides(gs[i], path, p, q, bridge)
  }

  lemma {:induction false} FlattenedHolds(gs: seq<seq<Point>>, p: Point)
    ensures p in Flattened(gs) <==> exists i :: 0 <= i < |gs| && p in gs[i]
  {
    if gs != [] {
      FlattenedHolds(gs[1..], p);
      if i :| 0 <= i < |gs| && p in gs[i] {
        assert i > 0 ==> p in gs[1..][i - 1];
      }
      if i :| 0 <= i < |gs[1..]| && p in gs[1..][i] {
        assert p in gs[i + 1];
      }
    }
  }

  lemma GroupedPoints(gs: seq<seq<Point>>, points: seq<Point>, i: nat, p: Point)
    requires Flattened(gs) == multiset(points) && i < |gs| && p in gs[i]
    ensures p in points
  {
    FlattenedHolds(gs, p);
    assert p in multiset(points);
  }

  lemma ComponentsAreGrouped(gs: seq<seq<Point>>, points: seq<Point>, bridge: int)
    requires bridge != 0 && Components(gs, points, CellOf(bridge))
    ensures Grouped(gs, points, bridge)
  {
    forall i, j, p, q | 0 <= i < |gs| && 0 <= j < |gs| && p in gs[i] && q in gs[j]
      ensures i == j <==> Linked(points, p, q, bridge)
    {
      GroupedPoints(gs, points, i, p);
      GroupedPoints(gs, points, j, q);
      LinkedIsConnected(points, p, q, bridge);
    }
  }

  lemma BesideIsLinked(points: seq<Point>, p: Point, q: Point, bridge: int)
    requires p in points && q in points && Beside(p, q, bridge)
    ensures Linked(points, p, q, bridge)
  {
    assert Walk(points, [p, q], p, q, bridge);
  }

  lemma WalkFrom(points: seq<Point>, path: seq<Point>, p: Point, q: Point, k: nat, bridge: int)
    requires Walk(points, path, p, q, bridge) && k < |path|
    ensures Linked(points, p, path[k], bridge)
  {
    assert Walk(points, path[..k + 1], p, path[k], bridge);
  }

  lemma PointIsGrouped(gs: seq<seq<Point>>, points: seq<Point>, p: Point) returns (i: nat)
    requires Flattened(gs) == multiset(points) && p in points
    ensures i < |gs| && p in gs[i]
  {
    assert p in multiset(points);
    FlattenedHolds(gs, p);
    i :| 0 <= i < |gs| && p in gs[i];
  }

  /** What the groups mean in distances. */
  lemma GroupsByDistance(gs: seq<seq<Point>>, points: seq<Point>, bridge: int)
    requires bridge != 0 && Grouped(gs, points, bridge)
    ensures NeighboursTogether(gs, points, bridge) && StepsAreShort(gs, bridge)
  {
    forall p, q | p in points && q in points && Closer(p.x, q.x, Width(bridge)) && Closer(p.y, q.y, Width(bridge))
      ensures InOneGroup(gs, p, q)
    {
      BesideAndDistances(p, q, bridge);
      BesideIsLinked(points, p, q, bridge);
      OneGroup(gs, points, p, q, bridge);
    }
    forall i, p, q | 0 <= i < |gs| && p in gs[i] && q in gs[i] ensures exists path :: Strides(gs[i], path, p, q, bridge) {
      StridesWithin(gs, points, i, p, q, bridge);
    }
  }

  lemma OneGroup(gs: seq<seq<Point>>, points: seq<Point>, p: Point, q: Point, bridge: int)
    requires Grouped(gs, points, bridge) && p in points && q in points && Linked(points, p, q, bridge)
    ensures InOneGroup(gs, p, q)
  {
    var m := PointIsGrouped(gs, points, p);
    var n := PointIsGrouped(gs, points, q);
    forall i | 0 <= i < |gs| ensures p in gs[i] <==> q in gs[i] {
      assert p in gs[i] ==> i == n;
      assert q in gs[i] ==> m == i;
    }
  }

  lemma StridesWithin(gs: seq<seq<Point>>, points: seq<Point>, i: nat, p: Point, q: Point, bridge: int)
    requires bridge != 0 && Grouped(gs, points, bridge) && i < |gs| && p in gs[i] && q in gs[i]
    ensures exists path :: Strides(gs[i], path, p, q, bridge)
  {
    assert Linked(points, p, q, bridge);
    var path: seq<Point> :| Walk(points, path, p, q, bridge);
    forall k | 0 <= k < |path| ensures path[k] in gs[i] {
      WalkFrom(points, path, p, q, k, bridge);
      var n := PointIsGrouped(gs, points, path[k]);
    }
    forall k | 0 <= k < |path| - 1
      ensures Closer(path[k].x, path[k + 1].x, 2 * Width(bridge)) && Closer(path[k].y, path[k + 1].y, 2 * Width(bridge))
    {
      assert Beside(path[k], path[k + 1], bridge);
      BesideAndDistances(path[k], path[k + 1], bridge);
    }
    assert Strides(gs[i], path, p, q, bridge);
  }

  /** Group `points` by shape. The grid divides by `bridge`, so a zero gap fails once there is a point. */
  method Cluster(points: seq<Point>, bridge: int) returns (r: Outcome)
    ensures r.DivisionByZero? <==> bridge == 0 && points != []
    ensures r.Groups? && bridge != 0 ==> Grouped(r.groups, points, bridge) && LongestFirst(r.groups)
    ensures r.Groups? && bridge != 0 ==> NeighboursTogether(r.groups, points, bridge) && StepsAreShort(r.groups, bridge)
    ensures r.Groups? && bridge != 0 ==> TiesInOrder(r.groups, points) && AllOpenWithFirst(r.groups, points)
    ensures r.Groups? && bridge == 0 ==> r.groups == []
  {
    if bridge == 0 {
      if points == [] {
        return Groups([]);
      }
      return DivisionByZero;
    }
    var cellOf := CellOf(bridge);
    var cells := Bucket(points, cellOf);
    var forest := JoinAll(cells.keys);
    assert Elements(cells.keys) == cells.items.Keys;
    var groups := Collect(cells, forest, cellOf);
    assert KeepsOrderOf(groups, cells, |cells.keys|, points);
    ghost var rep := forest.rep;
    ValuesAreComponents(groups, rep, points, cellOf);
    SortKeepsComponents(groups.Values(), points, cellOf);
    SortKeepsOrder(groups, points);
    ComponentsAreGrouped(SortedByLength(groups.Values()), points, bridge);
    GroupsByDistance(SortedByLength(groups.Values()), points, bridge);
    r := Groups(SortedByLength(groups.Values()));
  }

  ghost predicate AllOpenWithFirst(gs: seq<seq<Point>>, points: seq<Point>) {
    forall i :: 0 <= i < |gs| ==> OpensWithFirst(gs[i], points)
  }

  /** Whichever roots the forest has chosen: of two groups of one length the one with the earlier first
      point comes first, and every group opens with its earliest point. */
  lemma SortKeepsOrder(groups: Buckets, points: seq<Point>)
    requires groups.Valid() && InOrder(groups, points)
    ensures TiesInOrder(SortedByLength(groups.Values()), points)
    ensures AllOpenWithFirst(SortedByLength(groups.Values()), points)
  {
    var gs := groups.Values();
    forall i, j | 0 <= i < j < |gs| ensures Ahead(gs[i], gs[j], points) {
      assert Follows(groups, i, j, points);
    }
    SortKeepsTies(gs, points);
    SortPermutes(gs);
    var sorted := SortedByLength(gs);
    forall i | 0 <= i < |sorted| ensures OpensWithFirst(sorted[i], points) {
      assert sorted[i] in multiset(gs);
      var k :| 0 <= k < |gs| && gs[k] == sorted[i];
      assert OpensWithFirst(groups.items[groups.keys[k]], points);
    }
  }

  lemma ValuesAreComponents(groups: Buckets, rep: Links, points: seq<Point>, cellOf: Point -> Cell)
    requires rep.Keys == Occupied(points, cellOf)
    requires groups.Valid() && ByRoot(groups, rep, cellOf)
    requires Held(groups.keys, groups.items) == multiset(points)
    requires OnlyChained(rep)
    requires forall c, d :: c in rep && Near(c, d) ==> SameRoot(rep, c, d)
    ensures Components(groups.Values(), points, cellOf)
  {
    var gs := groups.Values();
    FlattenedIsHeld(groups.keys, groups.items, gs);
    forall i, j, p, q | 0 <= i < |gs| && 0 <= j < |gs| && p in gs[i] && q in gs[j]
      ensures i == j <==> Connected(rep.Keys, cellOf(p), cellOf(q))
    {
      var c, d := cellOf(p), cellOf(q);
      assert rep[c] == groups.keys[i] && rep[d] == groups.keys[j];
      if i == j {
        assert Chained(rep, c, d);
      } else if Connected(rep.Keys, c, d) {
        var path :| Chain(rep.Keys, path, c, d);
        assert forall c, d :: c in rep && d in rep && Near(c, d) ==> SameRoot(rep, c, d);
        ConstantAlongChains(rep.Keys, rep, path, c, d);
      }
    }
  }

  lemma {:induction false} FlattenedIsHeld(keys: seq<Cell>, items: map<Cell, seq<Point>>, gs: seq<seq<Point>>)
    requires forall c :: c in keys ==> c in items
    requires |gs| == |keys| && forall i :: 0 <= i < |gs| ==> gs[i] == items[keys[i]]
    ensures Flattened(gs) == Held(keys, items)
  {
    if keys != [] {
      var n := |keys| - 1;
      FlattenedIsHeld(keys[..n], items, gs[..n]);
      assert gs == gs[..n] + [gs[n]];
      FlattenedAppend(gs[..n], gs[n]);
    }
  }

  lemma {:induction false} FlattenedAppend(gs: seq<seq<Point>>, g: seq<Point>)
    ensures Flattened(gs + [g]) == Flattened(gs) + multiset(g)
  {
    if gs == [] {
      assert ([] + [g])[1..] == [];
    } else {
      FlattenedAppend(gs[1..], g);
      assert (gs + [g])[1..] == gs[1..] + [g];
    }
  }

  // ---- the components survive the sort ----

  ghost predicate Together(g: seq<Point>, h: seq<Point>, occupied: set<Cell>, cellOf: Point -> Cell)
  {
    forall p, q :: p in g && q in h ==> Connected(occupied, cellOf(p), cellOf(q))
  }

  ghost predicate Apart(g: seq<Point>, h: seq<Point>, occupied: set<Cell>, cellOf: Point -> Cell)
  {
    forall p, q :: p in g && q in h ==> !Connected(occupied, cellOf(p), cellOf(q))
  }

  ghost predicate Separated(gs: seq<seq<Point>>, occupied: set<Cell>, cellOf: Point -> Cell)
  {
    && (forall i :: 0 <= i < |gs| ==> gs[i] != [] && Together(gs[i], gs[i], occupied, cellOf))
    && forall i, j :: 0 <= i < j < |gs| ==> Apart(gs[i], gs[j], occupied, cellOf)
  }

  lemma ApartSymmetric(g: seq<Point>, h: seq<Point>, occupied: set<Cell>, cellOf: Point -> Cell)
    requires Apart(g, h, occupied, cellOf)
    ensures Apart(h, g, occupied, cellOf)
  {
    forall p, q | p in h && q in g && Connected(occupied, cellOf(p), cellOf(q)) ensures false {
      ConnectedSymmetric(occupied, cellOf(p), cellOf(q));
    }
  }

  lemma {:induction false} InsertedSeparated(g: seq<Point>, gs: seq<seq<Point>>, occupied: set<Cell>, cellOf: Point -> Cell)
    requires g != [] && Together(g, g, occupied, cellOf)
    requires Separated(gs, occupied, cellOf)
    requires forall i :: 0 <= i < |gs| ==> Apart(g, gs[i], occupied, cellOf)
    ensures Separated(Inserted(NotShorter, g, gs), occupied, cellOf)
    ensures Flattened(Inserted(NotShorter, g, gs)) == multiset(g) + Flattened(gs)
    ensures forall h :: h in Inserted(NotShorter, g, gs) ==> h == g || h in gs
  {
    if gs == [] || |g| >= |gs[0]| {
      assert ([g] + gs)[1..] == gs;
    } else {
      InsertedSeparated(g, gs[1..], occupied, cellOf);
      var all := Inserted(NotShorter, g, gs);
      assert all[1..] == Inserted(NotShorter, g, gs[1..]);
      ApartSymmetric(g, gs[0], occupied, cellOf);
      forall k | 0 <= k < |all[1..]| ensures Apart(gs[0], all[1..][k], occupied, cellOf) {
        assert all[1..][k] == g || all[1..][k] in gs[1..];
      }
    }
  }

  lemma {:induction false} SortSeparated(gs: seq<seq<Point>>, occupied: set<Cell>, cellOf: Point -> Cell)
    requires Separated(gs, occupied, cellOf)
    ensures Separated(SortedByLength(gs), occupied, cellOf)
    ensures Flattened(SortedByLength(gs)) == Flattened(gs)
    ensures forall h :: h in SortedByLength(gs) ==> h in gs
  {
    if gs != [] {
      var rest := gs[1..];
      assert Separated(rest, occupied, cellOf);
      SortSeparated(rest, occupied, cellOf);
      forall h | h in SortedByLength(rest) ensures Apart(gs[0], h, occupied, cellOf) {
        assert h in rest;
      }
      InsertedSeparated(gs[0], SortedByLength(rest), occupied, cellOf);
    }
  }

  lemma SortKeepsComponents(gs: seq<seq<Point>>, points: seq<Point>, cellOf: Point -> Cell)
    requires Components(gs, points, cellOf)
    ensures Components(SortedByLength(gs), points, cellOf)
    ensures LongestFirst(SortedByLength(gs))
  {
    var occupied := Occupied(points, cellOf);
    SortSeparated(gs, occupied, cellOf);
    SortPermutes(gs);
    var sorted := SortedByLength(gs);
    forall i, j, p, q | 0 <= i < |sorted| && 0 <= j < |sorted| && p in sorted[i] && q in sorted[j]
      ensures i == j <==> Connected(occupied, cellOf(p), cellOf(q))
    {
      if i > j {
        assert Apart(sorted[j], sorted[i], occupied, cellOf);
        ApartSymmetric(sorted[j], sorted[i], occupied, cellOf);
      } else if i < j {
        assert Apart(sorted[i], sorted[j], occupied, cellOf);
      } else {
        assert Together(sorted[i], sorted[i], occupied, cellOf);
      }
    }
  }
}
