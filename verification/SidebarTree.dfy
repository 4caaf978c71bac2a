/** The arena of sidebar entries that the parser edits in place, and what it prints as. */
module SidebarTree {
  import opened Common

  datatype Entry = Entry(text: string, link: string)

  /** One object of the sidebar. References to other entries are positions in the arena, so that two
      names for one object stay two names for one object. */
  datatype Node = Node(entry: Entry, collapsed: bool, items: Option<seq<nat>>) {
    function Kids(): seq<nat> {
      if items.Some? then items.value else []
    }
  }

  type Arena = seq<Node>

  /** The finished sidebar, as plain data. */
  datatype Item = Item(entry: Entry, collapsed: bool, items: Option<seq<Item>>)

  /** A forest of entries, as an author of the summary means it. */
  datatype Tree = Tree(entry: Entry, children: seq<Tree>)

  /** Entries are allocated before their children. */
  predicate Ascending(nodes: Arena) {
    forall id {:trigger Above(nodes, nodes[id].Kids(), id)} :: 0 <= id < |nodes| ==> Above(nodes, nodes[id].Kids(), id)
  }

  predicate Above(nodes: Arena, ids: seq<nat>, id: nat) {
    forall i :: 0 <= i < |ids| ==> id < ids[i] < |nodes|
  }

  // ---- reading the arena back ----

  function Build(nodes: Arena, id: nat): Item
    requires Ascending(nodes) && id < |nodes|
    decreases |nodes| - id, 1, 0
  {
    var n := nodes[id];
    Item(n.entry, n.collapsed, if n.items.Some? then Some(BuildAll(nodes, n.Kids(), id)) else None)
  }

  function BuildAll(nodes: Arena, ids: seq<nat>, above: nat): seq<Item>
    requires Ascending(nodes) && Above(nodes, ids, above)
    decreases |nodes| - above, 0, |ids|
  {
    if ids == [] then [] else [Build(nodes, ids[0])] + BuildAll(nodes, ids[1..], above)
  }

  /** The entries below and including `id`, each with its level, in document order. */
  function Preorder(nodes: Arena, id: nat, level: int): seq<(int, Entry)>
    requires Ascending(nodes) && id < |nodes|
    decreases |nodes| - id, 1, 0
  {
    [(level, nodes[id].entry)] + PreorderAll(nodes, nodes[id].Kids(), id, level + 1)
  }

  function PreorderAll(nodes: Arena, ids: seq<nat>, above: nat, level: int): seq<(int, Entry)>
    requires Ascending(nodes) && Above(nodes, ids, above)
    decreases |nodes| - above, 0, |ids|
  {
    if ids == [] then [] else Preorder(nodes, ids[0], level) + PreorderAll(nodes, ids[1..], above, level)
  }

  /** The forest an arena spells out, without the parser's decorations. */
  function Outline(nodes: Arena, id: nat): Tree
    requires Ascending(nodes) && id < |nodes|
    decreases |nodes| - id, 1, 0
  {
    Tree(nodes[id].entry, OutlineAll(nodes, nodes[id].Kids(), id))
  }

  function OutlineAll(nodes: Arena, ids: seq<nat>, above: nat): seq<Tree>
    requires Ascending(nodes) && Above(nodes, ids, above)
    decreases |nodes| - above, 0, |ids|
  {
    if ids == [] then [] else [Outline(nodes, ids[0])] + OutlineAll(nodes, ids[1..], above)
  }

  /** What the parser should make of a tree: an entry with children carries them and starts collapsed. */
  function Decorated(t: Tree): Item {
    Item(t.entry, t.children != [], if t.children == [] then None else Some(DecoratedAll(t.children)))
  }

  function DecoratedAll(ts: seq<Tree>): seq<Item> {
    if ts == [] then [] else [Decorated(ts[0])] + DecoratedAll(ts[1..])
  }

  /** Exactly the entries that have children are collapsed and hold a list. */
  predicate Shaped(nodes: Arena) {
    forall id :: 1 <= id < |nodes| ==> nodes[id].collapsed == nodes[id].items.Some? == (nodes[id].Kids() != [])
  }

  // ---- subtrees occupy consecutive stretches of the arena ----

  ghost predicate Within(nodes: Arena, id: nat, hi: nat)
    requires Ascending(nodes) && id < |nodes|
    decreases |nodes| - id, 1, 0
  {
    id < hi <= |nodes| && WithinAll(nodes, nodes[id].Kids(), id, hi)
  }

  ghost predicate WithinAll(nodes: Arena, ids: seq<nat>, above: nat, hi: nat)
    requires Ascending(nodes) && Above(nodes, ids, above)
    decreases |nodes| - above, 0, |ids|
  {
    ids != [] ==>
      var next := if |ids| > 1 then ids[1] else hi;
      next <= hi && Within(nodes, ids[0], next) && WithinAll(nodes, ids[1..], above, hi)
  }

  /** A subtree reads the same in any arena that agrees on the stretch it occupies. */
  lemma {:induction false} Frame(nodes: Arena, nodes': Arena, id: nat, hi: nat, level: int)
    requires Ascending(nodes) && Ascending(nodes') && id < |nodes| && hi <= |nodes'|
    requires Within(nodes, id, hi)
    requires nodes[id..hi] == nodes'[id..hi]
    ensures Within(nodes', id, hi)
    ensures Preorder(nodes', id, level) == Preorder(nodes, id, level)
    decreases |nodes| - id, 1, 0
  {
    assert nodes[id] == nodes[id..hi][0] == nodes'[id..hi][0] == nodes'[id];
    FrameAll(nodes, nodes', nodes[id].Kids(), id, hi, level + 1);
  }

  lemma {:induction false} FrameAll(nodes: Arena, nodes': Arena, ids: seq<nat>, above: nat, hi: nat, level: int)
    requires Ascending(nodes) && Ascending(nodes') && hi <= |nodes| && hi <= |nodes'|
    requires Above(nodes, ids, above) && Above(nodes', ids, above)
    requires WithinAll(nodes, ids, above, hi)
    requires above < hi && nodes[above..hi] == nodes'[above..hi]
    ensures WithinAll(nodes', ids, above, hi)
    ensures PreorderAll(nodes', ids, above, level) == PreorderAll(nodes, ids, above, level)
    decreases |nodes| - above, 0, |ids|
  {
    if ids != [] {
      var next := if |ids| > 1 then ids[1] else hi;
      var id := ids[0];
      assert nodes[id..next] == nodes[above..hi][id - above..next - above];
      assert nodes'[id..next] == nodes'[above..hi][id - above..next - above];
      Frame(nodes, nodes', id, next, level);
      FrameAll(nodes, nodes', ids[1..], above, hi, level);
    }
  }

  // ---- adding an entry at the end ----

  /** `nodes'` is `nodes` with a fresh leaf made the last child of `p`. */
  ghost predicate Adds(nodes: Arena, nodes': Arena, p: nat, entry: Entry)
    requires p < |nodes|
  {
    && |nodes'| == |nodes| + 1
    && nodes'[|nodes|] == Node(entry, false, None)
    && nodes'[p].entry == nodes[p].entry
    && nodes'[p].Kids() == nodes[p].Kids() + [|nodes|]
    && forall i :: 0 <= i < |nodes| && i != p ==> nodes'[i] == nodes[i]
  }

  /** The path from an entry to the end of the document: every step goes to the last child. */
  ghost predicate Spine(nodes: Arena, path: seq<nat>) {
    && path != [] && (forall i :: 0 <= i < |path| ==> path[i] < |nodes|)
    && forall i {:trigger Follows(nodes, path, i)} :: 0 <= i < |path| - 1 ==> Follows(nodes, path, i)
  }

  ghost predicate Follows(nodes: Arena, path: seq<nat>, i: nat)
    requires i < |path| - 1 && path[i] < |nodes|
  {
    EndsWith(nodes[path[i]].Kids(), path[i + 1])
  }

  ghost predicate EndsWith(ids: seq<nat>, id: nat) {
    ids != [] && ids[|ids| - 1] == id
  }

  lemma SpineTail(nodes: Arena, path: seq<nat>)
    requires Ascending(nodes) && Spine(nodes, path) && |path| > 1
    ensures Spine(nodes, path[1..]) && path[0] < path[1] && path[1] <= path[|path| - 1]
    decreases |path|
  {
    var tail := path[1..];
    assert Follows(nodes, path, 0) && Above(nodes, nodes[path[0]].Kids(), path[0]);
    forall i | 0 <= i < |tail| - 1 ensures Follows(nodes, tail, i) {
      assert Follows(nodes, path, i + 1);
    }
    if |tail| > 1 {
      SpineTail(nodes, tail);
    }
  }

  /** A leaf added at the end of the spine is the new last line of the document. */
  lemma {:induction false} Grow(nodes: Arena, nodes': Arena, path: seq<nat>, entry: Entry, level: int)
    requires Ascending(nodes) && Ascending(nodes') && Spine(nodes, path)
    requires Adds(nodes, nodes', path[|path| - 1], entry)
    requires Within(nodes, path[0], |nodes|)
    ensures Within(nodes', path[0], |nodes'|)
    ensures Preorder(nodes', path[0], level) == Preorder(nodes, path[0], level) + [(level + |path|, entry)]
    decreases |path|, 1, 0
  {
    var id, kids := path[0], nodes[path[0]].Kids();
    var line := (level + |path|, entry);
    if |path| == 1 {
      NewLeaf(nodes, nodes', kids, id, entry, level + 1);
    } else {
      SpineTail(nodes, path);
      assert nodes'[id] == nodes[id];
      assert Follows(nodes, path, 0);
      GrowLast(nodes, nodes', path, kids, entry, level + 1);
    }
    Headed(nodes, nodes', id, line, level);
  }

  /** What is appended to the lines below an entry is appended to its own lines. */
  lemma Headed(nodes: Arena, nodes': Arena, id: nat, line: (int, Entry), level: int)
    requires Ascending(nodes) && Ascending(nodes') && id < |nodes| <= |nodes'| && nodes'[id].entry == nodes[id].entry
    requires WithinAll(nodes', nodes'[id].Kids(), id, |nodes'|)
    requires PreorderAll(nodes', nodes'[id].Kids(), id, level + 1) ==
             PreorderAll(nodes, nodes[id].Kids(), id, level + 1) + [line]
    ensures Within(nodes', id, |nodes'|)
    ensures Preorder(nodes', id, level) == Preorder(nodes, id, level) + [line]
  {
  }

  /** The new leaf becomes the last of a list of siblings. */
  lemma {:induction false} NewLeaf(nodes: Arena, nodes': Arena, ids: seq<nat>, p: nat, entry: Entry, level: int)
    requires Ascending(nodes) && Ascending(nodes') && p < |nodes| && Adds(nodes, nodes', p, entry)
    requires Above(nodes, ids, p)
    requires WithinAll(nodes, ids, p, |nodes|)
    ensures WithinAll(nodes', ids + [|nodes|], p, |nodes'|)
    ensures PreorderAll(nodes', ids + [|nodes|], p, level) == PreorderAll(nodes, ids, p, level) + [(level, entry)]
    decreases |ids|
  {
    var all := ids + [|nodes|];
    if ids == [] {
      assert all[1..] == [];
      assert Preorder(nodes', |nodes|, level) == [(level, entry)];
    } else {
      var next := if |ids| > 1 then ids[1] else |nodes|;
      assert nodes[ids[0]..next] == nodes'[ids[0]..next];
      Frame(nodes, nodes', ids[0], next, level);
      NewLeaf(nodes, nodes', ids[1..], p, entry, level);
      assert all[1..] == ids[1..] + [|nodes|];
    }
  }

  /** The leaf lands inside the last sibling; the earlier ones do not notice. */
  lemma {:induction false} GrowLast(nodes: Arena, nodes': Arena, path: seq<nat>, ids: seq<nat>, entry: Entry, level: int)
    requires Ascending(nodes) && Ascending(nodes') && Spine(nodes, path) && |path| > 1
    requires Adds(nodes, nodes', path[|path| - 1], entry)
    requires ids != [] && ids[|ids| - 1] == path[1] && Above(nodes, ids, path[0])
    requires WithinAll(nodes, ids, path[0], |nodes|)
    ensures WithinAll(nodes', ids, path[0], |nodes'|)
    ensures PreorderAll(nodes', ids, path[0], level) ==
            PreorderAll(nodes, ids, path[0], level) + [(level + |path| - 1, entry)]
    decreases |path|, 0, |ids|
  {
    SpineTail(nodes, path);
    var line := (level + |path| - 1, entry);
    if |ids| == 1 {
      assert ids == [path[1]];
      GrowOnly(nodes, nodes', path, entry, level);
    } else {
      LastIsLargest(nodes, ids, path[0], |nodes|);
      EarlierUnchanged(nodes, nodes', ids[0], ids[1], path[|path| - 1], entry, level);
      GrowLast(nodes, nodes', path, ids[1..], entry, level);
      Behind(nodes, nodes', ids, path[0], line, level);
    }
  }

  lemma {:induction false} GrowOnly(nodes: Arena, nodes': Arena, path: seq<nat>, entry: Entry, level: int)
    requires Ascending(nodes) && Ascending(nodes') && Spine(nodes, path) && |path| > 1
    requires Adds(nodes, nodes', path[|path| - 1], entry)
    requires path[0] < path[1] && WithinAll(nodes, [path[1]], path[0], |nodes|)
    ensures WithinAll(nodes', [path[1]], path[0], |nodes'|)
    ensures PreorderAll(nodes', [path[1]], path[0], level) ==
            PreorderAll(nodes, [path[1]], path[0], level) + [(level + |path| - 1, entry)]
    decreases |path|, 0, 0
  {
    SpineTail(nodes, path);
    Only(nodes, path[1], path[0], level);
    Only(nodes', path[1], path[0], level);
    Grow(nodes, nodes', path[1..], entry, level);
  }

  lemma Only(nodes: Arena, id: nat, above: nat, level: int)
    requires Ascending(nodes) && above < id < |nodes|
    ensures PreorderAll(nodes, [id], above, level) == Preorder(nodes, id, level)
    ensures forall hi: nat :: WithinAll(nodes, [id], above, hi) <==> hi <= |nodes| && Within(nodes, id, hi)
  {
    assert PreorderAll(nodes, [], above, level) == [];
    assert [id][1..] == [];
  }

  lemma Behind(nodes: Arena, nodes': Arena, ids: seq<nat>, above: nat, line: (int, Entry), level: int)
    requires Ascending(nodes) && Ascending(nodes') && |ids| > 1 && Above(nodes, ids, above) && Above(nodes', ids, above)
    requires Within(nodes', ids[0], ids[1]) && WithinAll(nodes', ids[1..], above, |nodes'|)
    requires Preorder(nodes', ids[0], level) == Preorder(nodes, ids[0], level)
    requires PreorderAll(nodes', ids[1..], above, level) == PreorderAll(nodes, ids[1..], above, level) + [line]
    ensures WithinAll(nodes', ids, above, |nodes'|)
    ensures PreorderAll(nodes', ids, above, level) == PreorderAll(nodes, ids, above, level) + [line]
  {
  }

  lemma EarlierUnchanged(nodes: Arena, nodes': Arena, id: nat, hi: nat, p: nat, entry: Entry, level: int)
    requires Ascending(nodes) && Ascending(nodes') && id < |nodes| && hi <= p < |nodes|
    requires Adds(nodes, nodes', p, entry) && Within(nodes, id, hi)
    ensures Within(nodes', id, hi)
    ensures Preorder(nodes', id, level) == Preorder(nodes, id, level)
  {
    assert nodes[id..hi] == nodes'[id..hi];
    Frame(nodes, nodes', id, hi, level);
  }

  lemma {:induction false} LastIsLargest(nodes: Arena, ids: seq<nat>, above: nat, hi: nat)
    requires Ascending(nodes) && Above(nodes, ids, above)
    requires WithinAll(nodes, ids, above, hi) && |ids| > 1
    ensures ids[1] <= ids[|ids| - 1]
    decreases |ids|
  {
    if |ids| > 2 {
      LastIsLargest(nodes, ids[1..], above, hi);
      assert Within(nodes, ids[1..][0], ids[1..][1]);
    }
  }

  // ---- printing ----

  function Print(t: Tree, level: int): seq<(int, Entry)> {
    [(level, t.entry)] + PrintAll(t.children, level + 1)
  }

  /** The obvious printer: every entry on a line of its own, one level deeper than its parent. */
  function PrintAll(ts: seq<Tree>, level: int): seq<(int, Entry)> {
    if ts == [] then [] else Print(ts[0], level) + PrintAll(ts[1..], level)
  }

  ghost predicate AtLeast(lines: seq<(int, Entry)>, level: int) {
    forall i :: 0 <= i < |lines| ==> lines[i].0 >= level
  }

  lemma Unfold(ts: seq<Tree>, level: int)
    requires ts != []
    ensures PrintAll(ts, level) ==
            [(level, ts[0].entry)] + (PrintAll(ts[0].children, level + 1) + PrintAll(ts[1..], level))
  {
  }

  lemma {:induction false} PrintedLevels(ts: seq<Tree>, level: int)
    ensures AtLeast(PrintAll(ts, level), level)
    ensures ts != [] ==> PrintAll(ts, level) != [] && PrintAll(ts, level)[0] == (level, ts[0].entry)
  {
    if ts != [] {
      Unfold(ts, level);
      PrintedLevels(ts[0].children, level + 1);
      PrintedLevels(ts[1..], level);
    }
  }

  /** A stretch of deeper lines followed by a line at `level` can be cut in only one way. */
  lemma {:induction false} CutIsUnique(a: seq<(int, Entry)>, b: seq<(int, Entry)>,
                                       a': seq<(int, Entry)>, b': seq<(int, Entry)>, level: int)
    requires a + b == a' + b'
    requires AtLeast(a, level + 1) && AtLeast(a', level + 1)
    requires b != [] ==> b[0].0 == level
    requires b' != [] ==> b'[0].0 == level
    ensures a == a' && b == b'
  {
    assert (a == [] ==> a + b == b) && (a != [] ==> (a + b)[0] == a[0]);
    assert (a' == [] ==> a' + b' == b') && (a' != [] ==> (a' + b')[0] == a'[0]);
    if a != [] && a' != [] {
      assert (a + b)[1..] == a[1..] + b && (a' + b')[1..] == a'[1..] + b';
      CutIsUnique(a[1..], b, a'[1..], b', level);
    }
  }

  /** Two forests that print the same are the same. */
  lemma {:induction false} PrintIsInjective(ts: seq<Tree>, us: seq<Tree>, level: int)
    requires PrintAll(ts, level) == PrintAll(us, level)
    ensures ts == us
  {
    PrintedLevels(ts, level);
    PrintedLevels(us, level);
    if ts != [] && us != [] {
      FirstIsSame(ts, us, level);
      PrintIsInjective(ts[0].children, us[0].children, level + 1);
      PrintIsInjective(ts[1..], us[1..], level);
      assert ts == [ts[0]] + ts[1..] && us == [us[0]] + us[1..];
    }
  }

  lemma FirstIsSame(ts: seq<Tree>, us: seq<Tree>, level: int)
    requires ts != [] && us != [] && PrintAll(ts, level) == PrintAll(us, level)
    ensures ts[0].entry == us[0].entry
    ensures PrintAll(ts[0].children, level + 1) == PrintAll(us[0].children, level + 1)
    ensures PrintAll(ts[1..], level) == PrintAll(us[1..], level)
  {
    Unfold(ts, level);
    Unfold(us, level);
    var a, b := PrintAll(ts[0].children, level + 1), PrintAll(ts[1..], level);
    var a', b' := PrintAll(us[0].children, level + 1), PrintAll(us[1..], level);
    assert PrintAll(ts, level)[1..] == a + b && PrintAll(us, level)[1..] == a' + b';
    PrintedLevels(ts[0].children, level + 1);
    PrintedLevels(us[0].children, level + 1);
    PrintedLevels(ts[1..], level);
    PrintedLevels(us[1..], level);
    CutIsUnique(a, b, a', b', level);
  }

  // ---- the arena spells out what it prints ----

  lemma {:induction false} OutlinePrints(nodes: Arena, id: nat, level: int)
    requires Ascending(nodes) && id < |nodes|
    ensures Print(Outline(nodes, id), level) == Preorder(nodes, id, level)
    decreases |nodes| - id, 1, 0
  {
    OutlineAllPrints(nodes, nodes[id].Kids(), id, level + 1);
  }

  lemma {:induction false} OutlineAllPrints(nodes: Arena, ids: seq<nat>, above: nat, level: int)
    requires Ascending(nodes) && Above(nodes, ids, above)
    ensures PrintAll(OutlineAll(nodes, ids, above), level) == PreorderAll(nodes, ids, above, level)
    decreases |nodes| - above, 0, |ids|
  {
    if ids != [] {
      OutlinePrints(nodes, ids[0], level);
      OutlineAllPrints(nodes, ids[1..], above, level);
      assert OutlineAll(nodes, ids, above)[1..] == OutlineAll(nodes, ids[1..], above);
    }
  }

  lemma {:induction false} BuildIsDecorated(nodes: Arena, id: nat)
    requires Ascending(nodes) && Shaped(nodes) && 1 <= id < |nodes|
    ensures Build(nodes, id) == Decorated(Outline(nodes, id))
    decreases |nodes| - id, 1, 0
  {
    BuildAllIsDecorated(nodes, nodes[id].Kids(), id);
  }

  lemma {:induction false} BuildAllIsDecorated(nodes: Arena, ids: seq<nat>, above: nat)
    requires Ascending(nodes) && Shaped(nodes) && Above(nodes, ids, above)
    ensures BuildAll(nodes, ids, above) == DecoratedAll(OutlineAll(nodes, ids, above))
    decreases |nodes| - above, 0, |ids|
  {
    if ids != [] {
      BuildIsDecorated(nodes, ids[0]);
      BuildAllIsDecorated(nodes, ids[1..], above);
      assert OutlineAll(nodes, ids, above)[1..] == OutlineAll(nodes, ids[1..], above);
    }
  }

  /** A sidebar stands for at most one forest. */
  lemma {:induction false} DecoratedIsInjective(ts: seq<Tree>, us: seq<Tree>)
    requires DecoratedAll(ts) == DecoratedAll(us)
    ensures ts == us
  {
    if ts != [] && us != [] {
      var t, u := ts[0], us[0];
      assert Decorated(t) == DecoratedAll(ts)[0] == DecoratedAll(us)[0] == Decorated(u);
      DecoratedIsInjective(t.children, u.children);
      assert DecoratedAll(ts[1..]) == DecoratedAll(ts)[1..] == DecoratedAll(us)[1..] == DecoratedAll(us[1..]);
      DecoratedIsInjective(ts[1..], us[1..]);
      assert ts == [t] + ts[1..] && us == [u] + us[1..];
    }
  }

  // ---- printed levels climb one at a time ----

  /** No line is more than one level deeper than the line before it. */
  ghost predicate StepsUp(lines: seq<(int, Entry)>) {
    forall i :: 0 <= i < |lines| - 1 ==> lines[i + 1].0 <= lines[i].0 + 1
  }

  lemma StepsUpConcat(a: seq<(int, Entry)>, b: seq<(int, Entry)>, level: int)
    requires StepsUp(a) && StepsUp(b) && AtLeast(a, level)
    requires b != [] ==> b[0].0 <= level + 1
    ensures StepsUp(a + b)
  {
    var s := a + b;
    forall i | 0 <= i < |s| - 1 ensures s[i + 1].0 <= s[i].0 + 1 {
      if i >= |a| {
        assert s[i] == b[i - |a|] && s[i + 1] == b[i - |a| + 1];
      } else if i == |a| - 1 {
        assert s[i + 1] == b[0];
      }
    }
  }

  lemma {:induction false} PrintStepsUp(ts: seq<Tree>, level: int)
    ensures StepsUp(PrintAll(ts, level))
  {
    if ts != [] {
      Unfold(ts, level);
      PrintStepsUp(ts[0].children, level + 1);
      PrintStepsUp(ts[1..], level);
      PrintedLevels(ts[0].children, level + 1);
      PrintedLevels(ts[1..], level);
      var below := PrintAll(ts[0].children, level + 1);
      StepsUpConcat(below, PrintAll(ts[1..], level), level);
      StepsUpConcat([(level, ts[0].entry)], below + PrintAll(ts[1..], level), level);
    }
  }
}
