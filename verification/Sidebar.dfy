/** The summary-to-sidebar parser: an explicit stack of parents, edited line by line. */
module Sidebar {
  import opened Common
  import opened Doubles
  import opened SidebarTree

  /** A line of the summary: skipped, or a bullet with its indentation. */
  datatype Line = Skipped | Bullet(indent: Column, entry: Entry)

  datatype State = State(nodes: Arena, parents: seq<nat>, lastLevel: Measure, divider: Column) {
    predicate Valid() {
      nodes != [] && Ascending(nodes) && forall i :: 0 <= i < |parents| ==> parents[i] < |nodes|
    }
  }

  /** Only the dummy top-level parent, with an empty list. */
  const START := State([Node(Entry("DUMMY", "DUMMY"), false, Some([]))], [0], 0.0, 0)

  /** The first indentation seen is the unit every later one is measured in. */
  function Divider(divider: Column, indent: Column): Column {
    if divider == 0 then indent else divider
  }

  function Level(a: Arithmetic, divider: Column, indent: Column): Measure {
    if divider > 0 then a.quotient(indent, divider) else indent as real
  }

  /** How often one is taken off `last` before it has come down to `level`: that many parents are left. */
  function Rises(a: Arithmetic, last: real, level: Measure): nat
    requires last <= LIMIT as real
    decreases if level < last then (2.0 * (last - level)).Floor + 1 else 0
  {
    if level < last then
      Lower(a, last, level);
      1 + Rises(a, a.decrement(last), level)
    else 0
  }

  lemma Lower(a: Arithmetic, last: real, level: Measure)
    requires level < last <= LIMIT as real
    ensures a.decrement(last) <= last - 0.5
    ensures (2.0 * (a.decrement(last) - level)).Floor < (2.0 * (last - level)).Floor
  {
  }

  function WithChild(nodes: Arena, p: nat, entry: Entry): Arena
    requires p < |nodes|
  {
    nodes[p := nodes[p].(items := Some(nodes[p].Kids() + [|nodes|]))] + [Node(entry, false, None)]
  }

  /** The entry goes below the last child of `top`; without one the parse is lost at this point. */
  function NestUnder(nodes: Arena, top: nat, entry: Entry): Arena
    requires Ascending(nodes) && top < |nodes|
  {
    var kids := nodes[top].Kids();
    if kids == [] then nodes[top := nodes[top].(items := Some([]))]
    else
      assert Above(nodes, kids, top);
      var last := kids[|kids| - 1];
      WithChild(nodes[last := nodes[last].(collapsed := true)], last, entry)
  }

  /** The arena and the stack of parents after one bullet. An empty stack stands for a lost parse:
      the source throws, logs and goes on. */
  function Placed(a: Arithmetic, s: State, level: Measure, entry: Entry): (Arena, seq<nat>)
    requires s.Valid()
  {
    var depth := |s.parents|;
    if level <= s.lastLevel then
      var keep := depth - Rises(a, s.lastLevel, level);
      if keep <= 0 then (s.nodes, []) else (WithChild(s.nodes, s.parents[keep - 1], entry), s.parents[..keep])
    else if depth == 0 then (s.nodes, [])
    else
      var top := s.parents[depth - 1];
      var kids := s.nodes[top].Kids();
      (NestUnder(s.nodes, top, entry),
       if kids == [] then s.parents[..depth - 1] else s.parents + [kids[|kids| - 1]])
  }

  function Advance(a: Arithmetic, s: State, line: Line): State
    requires s.Valid()
  {
    match line
    case Skipped => s
    case Bullet(indent, entry) =>
      var divider := Divider(s.divider, indent);
      var level := Level(a, divider, indent);
      var (nodes, parents) := Placed(a, s, level, entry);
      State(nodes, parents, level, divider)
  }

  lemma WithChildAscends(nodes: Arena, p: nat, entry: Entry)
    requires Ascending(nodes) && p < |nodes|
    ensures Ascending(WithChild(nodes, p, entry))
  {
    var grown := WithChild(nodes, p, entry);
    forall id | 0 <= id < |grown| ensures Above(grown, grown[id].Kids(), id) {
      if id < |nodes| {
        assert Above(nodes, nodes[id].Kids(), id);
      }
    }
  }

  lemma NestAscends(nodes: Arena, top: nat, entry: Entry)
    requires Ascending(nodes) && top < |nodes|
    ensures Ascending(NestUnder(nodes, top, entry)) && |NestUnder(nodes, top, entry)| >= |nodes|
  {
    var kids := nodes[top].Kids();
    assert Above(nodes, kids, top);
    if kids == [] {
      var listed := nodes[top := nodes[top].(items := Some([]))];
      forall id | 0 <= id < |listed| ensures Above(listed, listed[id].Kids(), id) {
        assert Above(nodes, nodes[id].Kids(), id);
      }
    } else {
      var last := kids[|kids| - 1];
      var marked := nodes[last := nodes[last].(collapsed := true)];
      forall id | 0 <= id < |marked| ensures Above(marked, marked[id].Kids(), id) {
        assert Above(nodes, nodes[id].Kids(), id);
      }
      WithChildAscends(marked, last, entry);
    }
  }

  lemma PlacedKeepsValid(a: Arithmetic, s: State, level: Measure, entry: Entry)
    requires s.Valid()
    ensures var (nodes, parents) := Placed(a, s, level, entry);
            State(nodes, parents, level, 0).Valid()
  {
    var depth := |s.parents|;
    if level <= s.lastLevel {
      var keep := depth - Rises(a, s.lastLevel, level);
      if keep > 0 {
        WithChildAscends(s.nodes, s.parents[keep - 1], entry);
      }
    } else if depth > 0 {
      var top := s.parents[depth - 1];
      assert Above(s.nodes, s.nodes[top].Kids(), top);
      NestAscends(s.nodes, top, entry);
    }
  }

  lemma AdvanceKeepsValid(a: Arithmetic, s: State, line: Line)
    requires s.Valid()
    ensures Advance(a, s, line).Valid()
  {
    if line.Bullet? {
      PlacedKeepsValid(a, s, Level(a, Divider(s.divider, line.indent), line.indent), line.entry);
    }
  }

  /** The placement again, seen from the parent popped first. */
  lemma PlacedFrom(a: Arithmetic, s: State, level: Measure, entry: Entry)
    requires s.Valid()
    ensures s.parents == [] && level >= s.lastLevel ==> Placed(a, s, level, entry) == (s.nodes, [])
    ensures s.parents != [] && level == s.lastLevel ==>
              var rest, top := s.parents[..|s.parents| - 1], s.parents[|s.parents| - 1];
              Placed(a, s, level, entry) == (WithChild(s.nodes, top, entry), rest + [top])
    ensures s.parents != [] && level > s.lastLevel ==>
              var rest, top := s.parents[..|s.parents| - 1], s.parents[|s.parents| - 1];
              var kids := s.nodes[top].Kids();
              Placed(a, s, level, entry) ==
              (NestUnder(s.nodes, top, entry), rest + if kids == [] then [] else [top, kids[|kids| - 1]])
  {
    if s.parents != [] {
      var depth := |s.parents|;
      assert s.parents == s.parents[..depth - 1] + [s.parents[depth - 1]];
      if level > s.lastLevel {
        var kids := s.nodes[s.parents[depth - 1]].Kids();
        if kids == [] {
          assert s.parents[..depth - 1] + [] == s.parents[..depth - 1];
        } else {
          assert s.parents + [kids[|kids| - 1]] == s.parents[..depth - 1] + [s.parents[depth - 1], kids[|kids| - 1]];
        }
      } else if level == s.lastLevel {
        assert s.parents[..depth] == s.parents;
      }
    }
  }

  ghost function Fold(a: Arithmetic, lines: seq<Line>): (s: State)
    ensures s.Valid()
  {
    if lines == [] then START
    else
      AdvanceKeepsValid(a, Fold(a, lines[..|lines| - 1]), lines[|lines| - 1]);
      Advance(a, Fold(a, lines[..|lines| - 1]), lines[|lines| - 1])
  }

  /** The sidebar returned at the end: the items of the dummy parent. */
  function Sidebar(s: State): seq<Item>
    requires s.Valid()
  {
    assert Above(s.nodes, s.nodes[0].Kids(), 0);
    BuildAll(s.nodes, s.nodes[0].Kids(), 0)
  }

  class Parser {
    const floats: Arithmetic
    var nodes: Arena
    var parents: seq<nat>
    var lastLevel: real
    var divider: Column

    /** Between lines the last level is one that was measured; within the loop of `Rise` it may not be. */
    predicate Settled()
      reads this
    {
      0.0 <= lastLevel <= LIMIT as real
    }

    function Snapshot(): State
      requires Settled()
      reads this
    {
      State(nodes, parents, lastLevel, divider)
    }

    constructor (floats: Arithmetic)
      ensures this.floats == floats && Settled() && Snapshot() == START
    {
      this.floats := floats;
      nodes, parents := [Node(Entry("DUMMY", "DUMMY"), false, Some([]))], [0];
      lastLevel, divider := 0.0, 0;
    }

    method Pop() returns (top: Option<nat>)
      modifies this`parents
      ensures parents == if old(parents) == [] then [] else old(parents)[..|old(parents)| - 1]
      ensures top == if old(parents) == [] then None else Some(old(parents)[|old(parents)| - 1])
    {
      if parents == [] {
        return None;
      }
      top := Some(parents[|parents| - 1]);
      parents := parents[..|parents| - 1];
    }

    /** Append a new entry to the items of `p`, which may not have a list yet. */
    method Append(p: nat, entry: Entry)
      requires p < |nodes|
      modifies this`nodes
      ensures nodes == WithChild(old(nodes), p, entry)
    {
      var entries := nodes[p].Kids();
      nodes := nodes + [Node(entry, false, None)];
      nodes := nodes[p := nodes[p].(items := Some(entries + [|nodes| - 1]))];
    }

    method AddLine(line: Line)
      requires Settled() && Snapshot().Valid()
      modifies this
      ensures Settled() && Snapshot().Valid()
      ensures Snapshot() == Advance(floats, old(Snapshot()), line)
    {
      AdvanceKeepsValid(floats, Snapshot(), line);
      if line.Bullet? {
        var level := Measured(line.indent);
        Place(level, line.entry);
      }
    }

    method Measured(indent: Column) returns (level: Measure)
      modifies this`divider
      ensures divider == Divider(old(divider), indent)
      ensures level == Level(floats, divider, indent)
    {
      if divider == 0 && indent > 0 {
        divider := indent;
      }
      level := indent as real;
      if divider > 0 {
        level := floats.quotient(indent, divider);
      }
    }

    method Place(level: Measure, entry: Entry)
      requires Settled() && Snapshot().Valid()
      modifies this
      ensures divider == old(divider) && lastLevel == level
      ensures (nodes, parents) == Placed(floats, old(Snapshot()), level, entry)
    {
      var current := Pop();
      if level == lastLevel {
        if current.Some? {
          Follow(current.value, entry);
        }
      } else if level > lastLevel {
        if current.Some? {
          Nest(current.value, entry);
        }
      } else {
        assert parents + (if current.Some? then [current.value] else []) == old(parents);
        Rise(level, current, entry);
      }
      lastLevel := level;
      PlacedFrom(floats, old(Snapshot()), level, entry);
    }

    /** Another entry of the same parent. */
    method Follow(current: nat, entry: Entry)
      requires current < |nodes|
      modifies this`nodes, this`parents
      ensures nodes == WithChild(old(nodes), current, entry) && parents == old(parents) + [current]
    {
      Append(current, entry);
      parents := parents + [current];
    }

    /** The entry belongs under the last child of `current`, which becomes the innermost parent. */
    method Nest(current: nat, entry: Entry)
      requires current < |nodes| && Ascending(nodes)
      modifies this`nodes, this`parents
      ensures nodes == NestUnder(old(nodes), current, entry)
      ensures var kids := old(nodes)[current].Kids();
              parents == old(parents) + if kids == [] then [] else [current, kids[|kids| - 1]]
    {
      var entries := nodes[current].Kids();
      assert Above(nodes, entries, current);
      nodes := nodes[current := nodes[current].(items := Some(entries))];
      if entries == [] {
        return;
      }
      var last := entries[|entries| - 1];
      nodes := nodes[current := nodes[current].(items := Some(entries[..|entries| - 1]))];
      nodes := nodes[last := nodes[last].(collapsed := true)];
      Append(last, entry);
      assert nodes[current].Kids() + [last] == entries;
      nodes := nodes[current := nodes[current].(items := Some(nodes[current].Kids() + [last]))];
      assert nodes == NestUnder(old(nodes), current, entry);
      parents := parents + [current, last];
    }

    /** Pop one parent per level climbed, then append to the one reached. */
    method Rise(level: Measure, popped: Option<nat>, entry: Entry)
      requires Settled() && level < lastLevel
      requires popped.None? ==> parents == []
      requires popped.Some? ==> popped.value < |nodes|
      requires forall i :: 0 <= i < |parents| ==> parents[i] < |nodes|
      modifies this
      ensures divider == old(divider)
      ensures var stack := old(parents) + (if popped.Some? then [popped.value] else []);
              var keep := |stack| - Rises(floats, old(lastLevel), level);
              if keep <= 0 then nodes == old(nodes) && parents == []
              else nodes == WithChild(old(nodes), stack[keep - 1], entry) && parents == stack[..keep]
    {
      var current := popped;
      ghost var stack := parents + (if popped.Some? then [popped.value] else []);
      ghost var pops := 0;
      while level < lastLevel
        invariant lastLevel <= LIMIT as real
        invariant pops + Rises(floats, lastLevel, level) == Rises(floats, old(lastLevel), level)
        invariant nodes == old(nodes) && divider == old(divider)
        invariant var left := |stack| - pops;
                  if left > 0 then parents == stack[..left - 1] && current == Some(stack[left - 1])
                  else parents == [] && current == None
        decreases Rises(floats, lastLevel, level)
      {
        Lower(floats, lastLevel, level);
        lastLevel := floats.decrement(lastLevel);
        current := Pop();
        pops := pops + 1;
      }
      if current.Some? {
        Append(current.value, entry);
        parents := parents + [current.value];
      }
    }
  }

  method Parse(floats: Arithmetic, lines: seq<Line>) returns (items: seq<Item>)
    ensures items == Sidebar(Fold(floats, lines))
  {
    var parser := new Parser(floats);
    for i := 0 to |lines|
      invariant fresh(parser) && parser.floats == floats && parser.Settled()
      invariant parser.Snapshot() == Fold(floats, lines[..i])
    {
      assert lines[..i + 1][..i] == lines[..i];
      parser.AddLine(lines[i]);
    }
    assert lines[..|lines|] == lines;
    items := Sidebar(parser.Snapshot());
  }
}
