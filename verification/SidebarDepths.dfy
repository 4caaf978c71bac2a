/** The sidebar of every document: which lines are lost, and what the parser makes of the rest. */
module SidebarDepths {
  import opened Common
  import opened Doubles
  import opened Sidebar
  import opened SidebarTree

  // ---- reading a document without a stack ----

  /** The indentation of the first indented bullet; 0 before there is one. */
  function Unit(lines: seq<Line>): Column {
    if lines == [] then 0
    else
      var n := |lines| - 1;
      if Unit(lines[..n]) == 0 && lines[n].Bullet? then lines[n].indent else Unit(lines[..n])
  }

  /** The indentation of the last bullet; 0 before there is one. */
  function LastColumn(lines: seq<Line>): Column {
    if lines == [] then 0
    else
      var n := |lines| - 1;
      if lines[n].Bullet? then lines[n].indent else LastColumn(lines[..n])
  }

  /** One deeper for a bullet whose level is above that of the bullet before it, by however much; shallower,
      for any other, by the times one can be taken off before the new level is reached. */
  function Change(a: Arithmetic, unit: Column, column: Column, indent: Column): (change: int)
    ensures change <= 1 && (change == 1 <==> Level(a, unit, column) < Level(a, Divider(unit, indent), indent))
  {
    var last, level := Level(a, unit, column), Level(a, Divider(unit, indent), indent);
    if last < level then 1 else 0 - Rises(a, last, level)
  }

  /** The depth the document stands at: one for the dummy parent, changed by every bullet. */
  function Running(a: Arithmetic, lines: seq<Line>): int {
    if lines == [] then 1
    else
      var n := |lines| - 1;
      match lines[n]
      case Skipped => Running(a, lines[..n])
      case Bullet(indent, _) => Running(a, lines[..n]) + Change(a, Unit(lines[..n]), LastColumn(lines[..n]), indent)
  }

  /** The bullets, each at the running depth it is read at. */
  function Depths(a: Arithmetic, lines: seq<Line>): (depths: seq<(int, Entry)>)
    ensures |depths| <= |lines|
  {
    if lines == [] then []
    else
      var n := |lines| - 1;
      if lines[n].Bullet? then Depths(a, lines[..n]) + [(Running(a, lines) - 1, lines[n].entry)] else Depths(a, lines[..n])
  }

  ghost predicate Opens(lines: seq<Line>, i: nat)
    requires i < |lines|
  {
    lines[i].Bullet? && lines[i].indent > 0 && forall j :: 0 <= j < i ==> lines[j].Skipped?
  }

  ghost predicate OpensIndented(lines: seq<Line>) {
    exists i :: 0 <= i < |lines| && Opens(lines, i)
  }

  ghost predicate Sunk(a: Arithmetic, lines: seq<Line>, k: nat)
    requires k <= |lines|
  {
    Running(a, lines[..k]) <= 0
  }

  ghost predicate RunsOut(a: Arithmetic, lines: seq<Line>) {
    exists k :: 0 <= k <= |lines| && Sunk(a, lines, k)
  }

  /** The first bullet is indented, or the running depth has fallen to nothing at some line. */
  ghost predicate Lost(a: Arithmetic, lines: seq<Line>) {
    OpensIndented(lines) || RunsOut(a, lines)
  }

  lemma NothingYet(a: Arithmetic)
    ensures !Lost(a, [])
  {
    var none: seq<Line> := [];
    assert none[..0] == none && !Sunk(a, none, 0);
  }

  lemma RunsOutStep(a: Arithmetic, init: seq<Line>, last: Line)
    ensures RunsOut(a, init + [last]) <==> RunsOut(a, init) || Running(a, init + [last]) <= 0
  {
    var lines := init + [last];
    assert lines[..|lines|] == lines;
    forall k | 0 <= k <= |init| ensures Sunk(a, lines, k) <==> Sunk(a, init, k) {
      assert lines[..k] == init[..k];
    }
    assert Sunk(a, lines, |lines|) <==> Running(a, lines) <= 0;
  }

  lemma OpensStep(a: Arithmetic, init: seq<Line>, last: Line)
    ensures OpensIndented(init + [last]) <==>
            OpensIndented(init) || (Depths(a, init) == [] && last.Bullet? && last.indent > 0)
  {
    var lines := init + [last];
    NoBullets(a, init);
    assert lines[..|init|] == init;
    forall i | 0 <= i < |init| ensures Opens(lines, i) <==> Opens(init, i) {
      assert lines[i] == init[i] && lines[..i] == init[..i];
      assert forall j :: 0 <= j < i ==> lines[j] == lines[..i][j] == init[..i][j] == init[j];
    }
    assert forall j :: 0 <= j < |init| ==> lines[j] == lines[..|init|][j];
    assert Opens(lines, |init|) <==> Depths(a, init) == [] && last.Bullet? && last.indent > 0;
  }

  /** What one more line does to being lost. */
  lemma LostStep(a: Arithmetic, init: seq<Line>, last: Line)
    ensures Lost(a, init + [last]) <==>
            || Lost(a, init) || Running(a, init + [last]) <= 0
            || (Depths(a, init) == [] && last.Bullet? && last.indent > 0)
  {
    RunsOutStep(a, init, last);
    OpensStep(a, init, last);
  }

  lemma {:induction false} NoBullets(a: Arithmetic, lines: seq<Line>)
    ensures Depths(a, lines) == [] <==> forall j :: 0 <= j < |lines| ==> lines[j].Skipped?
  {
    if lines != [] {
      NoBullets(a, lines[..|lines| - 1]);
    }
  }

  lemma {:induction false} NoUnitYet(a: Arithmetic, lines: seq<Line>)
    ensures Unit(lines) == 0 ==> LastColumn(lines) == 0
    ensures Depths(a, lines) == [] ==> Unit(lines) == 0
  {
    if lines != [] {
      NoUnitYet(a, lines[..|lines| - 1]);
    }
  }

  /** One bullet more. */
  lemma BulletRead(a: Arithmetic, init: seq<Line>, last: Line)
    requires last.Bullet?
    ensures Fold(a, init + [last]) == Advance(a, Fold(a, init), last)
    ensures Running(a, init + [last]) == Running(a, init) + Change(a, Unit(init), LastColumn(init), last.indent)
    ensures Depths(a, init + [last]) == Depths(a, init) + [(Running(a, init + [last]) - 1, last.entry)]
  {
    var lines := init + [last];
    assert lines[..|lines| - 1] == init;
  }

  // ---- the parser keeps the whole document while it is not lost ----

  function LastLevelOf(content: seq<(int, Entry)>): int {
    if content == [] then 0 else content[|content| - 1].0
  }

  /** The stack is the path to the parent of the last entry, one deeper than its level, and the arena
      spells out exactly the lines read. */
  ghost predicate Tracks(s: State, content: seq<(int, Entry)>) {
    && s.Valid() && Shaped(s.nodes) && s.nodes[0].items.Some?
    && Within(s.nodes, 0, |s.nodes|)
    && Preorder(s.nodes, 0, -1) == [(-1, s.nodes[0].entry)] + content
    && Spine(s.nodes, s.parents) && s.parents[0] == 0
    && |s.parents| == LastLevelOf(content) + 1
    && (content != [] ==> EndsWith(s.nodes[s.parents[|s.parents| - 1]].Kids(), |s.nodes| - 1) && |s.nodes| > 1)
    && (content == [] ==> s.parents == [0] && s.nodes[0].Kids() == [])
  }

  /** The arena has the new entry as its last line, and the stack leads to its parent. */
  ghost predicate Grown(old_: Arena, nodes: Arena, parents: seq<nat>, entry: Entry, level: nat)
    requires Ascending(old_) && old_ != []
  {
    && nodes != [] && Ascending(nodes) && Shaped(nodes) && nodes[0].items.Some?
    && Within(nodes, 0, |nodes|)
    && Preorder(nodes, 0, -1) == Preorder(old_, 0, -1) + [(level, entry)]
    && nodes[0].entry == old_[0].entry
    && Spine(nodes, parents) && parents[0] == 0 && |parents| == level + 1
    && |nodes| == |old_| + 1 && EndsWith(nodes[parents[level]].Kids(), |old_|)
  }

  /** A leaf added at the end of a path of last children leaves that path one of last children. */
  lemma SpineKept(nodes: Arena, nodes': Arena, path: seq<nat>, entry: Entry)
    requires Ascending(nodes) && Spine(nodes, path) && Adds(nodes, nodes', path[|path| - 1], entry)
    ensures Spine(nodes', path)
    decreases |path|
  {
    if |path| > 1 {
      SpineTail(nodes, path);
      SpineKept(nodes, nodes', path[1..], entry);
      assert Follows(nodes, path, 0);
      forall i | 0 <= i < |path| - 1 ensures Follows(nodes', path, i) {
        if i > 0 {
          assert Follows(nodes', path[1..], i - 1);
        }
      }
    }
  }

  lemma GrownAlong(nodes: Arena, nodes': Arena, path: seq<nat>, entry: Entry)
    requires nodes != [] && Ascending(nodes) && Within(nodes, 0, |nodes|)
    requires Spine(nodes, path) && path[0] == 0 && Adds(nodes, nodes', path[|path| - 1], entry)
    requires Ascending(nodes') && Shaped(nodes') && nodes'[0].items.Some?
    ensures Grown(nodes, nodes', path, entry, |path| - 1)
  {
    SpineKept(nodes, nodes', path, entry);
    Grow(nodes, nodes', path, entry, -1);
    if |path| > 1 {
      SpineTail(nodes, path);
    }
  }

  /** Same level or climbing back: the entry becomes the last child of a parent on the stack. */
  lemma PlaceOnStack(a: Arithmetic, s: State, content: seq<(int, Entry)>, level: Measure, entry: Entry)
    requires Tracks(s, content) && level <= s.lastLevel && Rises(a, s.lastLevel, level) <= LastLevelOf(content)
    ensures var (nodes, parents) := Placed(a, s, level, entry);
            Grown(s.nodes, nodes, parents, entry, LastLevelOf(content) - Rises(a, s.lastLevel, level))
  {
    var depth := LastLevelOf(content) - Rises(a, s.lastLevel, level);
    var path := s.parents[..depth + 1];
    ParentHasChildren(s, content, depth);
    var nodes := WithChild(s.nodes, path[depth], entry);
    assert Placed(a, s, level, entry) == (nodes, path);
    WithChildAscends(s.nodes, path[depth], entry);
    ShapedGrows(s.nodes, nodes, path[depth], entry);
    GrownAlong(s.nodes, nodes, path, entry);
  }

  lemma ParentHasChildren(s: State, content: seq<(int, Entry)>, depth: nat)
    requires Tracks(s, content) && depth <= LastLevelOf(content)
    ensures Spine(s.nodes, s.parents[..depth + 1])
    ensures depth > 0 ==> s.parents[depth] > 0 && s.nodes[s.parents[depth]].Kids() != []
  {
    var path := s.parents[..depth + 1];
    forall i | 0 <= i < |path| - 1 ensures Follows(s.nodes, path, i) {
      assert Follows(s.nodes, s.parents, i);
    }
    if depth > 0 {
      SpineTail(s.nodes, path);
      assert depth < LastLevelOf(content) ==> Follows(s.nodes, s.parents, depth);
    }
  }

  /** Further in than the line before: the entry read last becomes a parent. */
  lemma PlaceBelow(a: Arithmetic, s: State, content: seq<(int, Entry)>, level: Measure, entry: Entry)
    requires Tracks(s, content) && content != [] && s.lastLevel < level
    ensures var (nodes, parents) := Placed(a, s, level, entry);
            Grown(s.nodes, nodes, parents, entry, LastLevelOf(content) + 1)
  {
    var top, last := s.parents[|s.parents| - 1], |s.nodes| - 1;
    assert Above(s.nodes, s.nodes[top].Kids(), top);
    NestAdds(s.nodes, top, entry);
    NestAscends(s.nodes, top, entry);
    SpineExtends(s.nodes, s.parents, last);
    GrownAlong(s.nodes, NestUnder(s.nodes, top, entry), s.parents + [last], entry);
    PlacedBelow(a, s, level, entry);
  }

  lemma PlacedBelow(a: Arithmetic, s: State, level: Measure, entry: Entry)
    requires s.Valid() && s.parents != [] && s.lastLevel < level
    requires EndsWith(s.nodes[s.parents[|s.parents| - 1]].Kids(), |s.nodes| - 1)
    ensures Placed(a, s, level, entry) ==
            (NestUnder(s.nodes, s.parents[|s.parents| - 1], entry), s.parents + [|s.nodes| - 1])
  {
  }

  lemma NestAdds(nodes: Arena, top: nat, entry: Entry)
    requires Ascending(nodes) && Shaped(nodes) && |nodes| > 1 && top < |nodes| && nodes[0].items.Some?
    requires EndsWith(nodes[top].Kids(), |nodes| - 1)
    ensures Adds(nodes, NestUnder(nodes, top, entry), |nodes| - 1, entry)
    ensures Shaped(NestUnder(nodes, top, entry)) && NestUnder(nodes, top, entry)[0].items.Some?
  {
    var last := |nodes| - 1;
    assert Above(nodes, nodes[last].Kids(), last);
    var marked := nodes[last := nodes[last].(collapsed := true)];
    assert NestUnder(nodes, top, entry) == WithChild(marked, last, entry);
  }

  lemma SpineExtends(nodes: Arena, path: seq<nat>, last: nat)
    requires Spine(nodes, path) && last < |nodes| && EndsWith(nodes[path[|path| - 1]].Kids(), last)
    ensures Spine(nodes, path + [last])
  {
    var longer := path + [last];
    forall i | 0 <= i < |longer| - 1 ensures Follows(nodes, longer, i) {
      assert i < |path| - 1 ==> Follows(nodes, path, i);
    }
  }

  lemma ShapedGrows(nodes: Arena, nodes': Arena, p: nat, entry: Entry)
    requires p < |nodes| && Shaped(nodes) && nodes' == WithChild(nodes, p, entry)
    requires p > 0 ==> nodes[p].Kids() != []
    ensures Shaped(nodes')
  {
  }

  /** A bullet that does not lose the parse keeps the parser on track, at the new running depth. */
  lemma GrownTracks(s: State, content: seq<(int, Entry)>, s': State, entry: Entry, depth: nat)
    requires Tracks(s, content) && Grown(s.nodes, s'.nodes, s'.parents, entry, depth)
    ensures Tracks(s', content + [(depth, entry)])
  {
    assert [(-1, s.nodes[0].entry)] + content + [(depth, entry)] == [(-1, s.nodes[0].entry)] + (content + [(depth, entry)]);
  }

  lemma StartTracks()
    ensures Tracks(START, [])
  {
    assert Preorder(START.nodes, 0, -1) == [(-1, START.nodes[0].entry)];
  }

  /** The scale the parser measures with: the unit is found at the first indented bullet, and what was
      measured before it was 0. */
  lemma {:induction false} FoldMeasures(a: Arithmetic, lines: seq<Line>)
    ensures Fold(a, lines).divider == Unit(lines)
    ensures Fold(a, lines).lastLevel == Level(a, Unit(lines), LastColumn(lines))
  {
    if lines != [] {
      FoldMeasures(a, lines[..|lines| - 1]);
    }
  }

  /** The parser is on track, with a stack as high as the running depth, until the document is lost;
      then its stack is empty. */
  ghost predicate OnTrack(s: State, content: seq<(int, Entry)>, running: int, lost: bool) {
    if lost then s.Valid() && s.parents == [] else Tracks(s, content) && |s.parents| == running
  }

  lemma {:induction false} FoldTracks(a: Arithmetic, lines: seq<Line>)
    ensures OnTrack(Fold(a, lines), Depths(a, lines), Running(a, lines), Lost(a, lines))
  {
    if lines == [] {
      StartTracks();
      NothingYet(a);
    } else {
      var init, last := lines[..|lines| - 1], lines[|lines| - 1];
      FoldTracks(a, init);
      LostStep(a, init, last);
      assert init + [last] == lines;
      if last.Bullet? {
        FoldTracksBullet(a, init, last);
      }
    }
  }

  lemma FoldTracksBullet(a: Arithmetic, init: seq<Line>, last: Line)
    requires last.Bullet? && OnTrack(Fold(a, init), Depths(a, init), Running(a, init), Lost(a, init))
    ensures var lines := init + [last];
            OnTrack(Fold(a, lines), Depths(a, lines), Running(a, lines), Lost(a, lines))
  {
    FoldMeasures(a, init);
    NoUnitYet(a, init);
    LostStep(a, init, last);
    BulletRead(a, init, last);
    StepOn(a, Fold(a, init), Depths(a, init), Unit(init), LastColumn(init), last, Running(a, init), Lost(a, init),
           Fold(a, init + [last]), Depths(a, init + [last]), Running(a, init + [last]), Lost(a, init + [last]));
  }

  lemma StepOn(a: Arithmetic, s: State, content: seq<(int, Entry)>, unit: Column, column: Column, line: Line,
               running: int, lost: bool, s': State, content': seq<(int, Entry)>, running': int, lost': bool)
    requires OnTrack(s, content, running, lost) && line.Bullet?
    requires s.divider == unit && s.lastLevel == Level(a, unit, column) && (unit == 0 ==> column == 0)
    requires content == [] ==> unit == 0 && column == 0
    requires s.Valid() && s' == Advance(a, s, line)
    requires running' == running + Change(a, unit, column, line.indent)
    requires content' == content + [(running' - 1, line.entry)]
    requires lost' <==> lost || running' <= 0 || (content == [] && line.indent > 0)
    ensures OnTrack(s', content', running', lost')
  {
    if lost {
      StaysLost(a, s, line);
    } else {
      OpeningChange(a, line.indent);
      BulletBy(a, s, content, unit, column, line);
    }
  }

  /** Only an indented bullet goes deeper before there is a unit. */
  lemma OpeningChange(a: Arithmetic, indent: Column)
    ensures Change(a, 0, 0, indent) == if indent > 0 then 1 else 0
  {
  }

  /** One more bullet after a document not yet lost. */
  lemma BulletStep(a: Arithmetic, init: seq<Line>, line: Line)
    requires Tracks(Fold(a, init), Depths(a, init)) && line.Bullet?
    ensures Stepped(Fold(a, init), Depths(a, init), line, Change(a, Unit(init), LastColumn(init), line.indent),
                    Advance(a, Fold(a, init), line))
    ensures Depths(a, init) == [] ==> Unit(init) == 0 && LastColumn(init) == 0
  {
    FoldMeasures(a, init);
    NoUnitYet(a, init);
    BulletBy(a, Fold(a, init), Depths(a, init), Unit(init), LastColumn(init), line);
  }

  lemma BulletBy(a: Arithmetic, s: State, content: seq<(int, Entry)>, unit: Column, column: Column, line: Line)
    requires Tracks(s, content) && line.Bullet?
    requires s.divider == unit && s.lastLevel == Level(a, unit, column) && (unit == 0 ==> column == 0)
    ensures Stepped(s, content, line, Change(a, unit, column, line.indent), Advance(a, s, line))
  {
    Step(a, s, content, line, Change(a, unit, column, line.indent));
  }

  /** The bullet is read at its depth, or loses the parse and leaves no trace. */
  ghost predicate Stepped(s: State, content: seq<(int, Entry)>, line: Line, change: int, s': State)
    requires s.Valid() && line.Bullet?
  {
    var depth := LastLevelOf(content) + 1 + change;
    if depth <= 0 || (content == [] && change == 1) then s'.parents == [] && s'.nodes == s.nodes
    else Tracks(s', content + [(depth - 1, line.entry)]) && |s'.parents| == depth
  }

  lemma StaysLost(a: Arithmetic, s: State, line: Line)
    requires s.Valid() && s.parents == []
    ensures Advance(a, s, line).Valid() && Advance(a, s, line).parents == [] && Advance(a, s, line).nodes == s.nodes
  {
  }

  /** One bullet, by what it does to the running depth. */
  lemma Step(a: Arithmetic, s: State, content: seq<(int, Entry)>, line: Line, change: int)
    requires Tracks(s, content) && line.Bullet? && change <= 1
    requires var level := Level(a, Divider(s.divider, line.indent), line.indent);
             && (s.lastLevel < level <==> change == 1)
             && (change <= 0 ==> Rises(a, s.lastLevel, level) == -change)
    ensures Stepped(s, content, line, change, Advance(a, s, line))
  {
    var level := Level(a, Divider(s.divider, line.indent), line.indent);
    var depth := LastLevelOf(content) + 1 + change;
    if content == [] && change == 1 {
      assert NestUnder(s.nodes, 0, line.entry) == s.nodes;
    } else if change == 1 {
      PlaceBelow(a, s, content, level, line.entry);
      GrownTracks(s, content, Advance(a, s, line), line.entry, depth - 1);
    } else if depth > 0 {
      PlaceOnStack(a, s, content, level, line.entry);
      GrownTracks(s, content, Advance(a, s, line), line.entry, depth - 1);
    }
  }

  /** The parse is lost on exactly the documents that open indented or run out of depth. */
  lemma LostExactly(a: Arithmetic, lines: seq<Line>)
    ensures Fold(a, lines).parents == [] <==> Lost(a, lines)
  {
    FoldTracks(a, lines);
  }

  /** The sidebar of a document that is not lost holds every entry, in order, at its running depth. */
  lemma SidebarOfUnlost(a: Arithmetic, lines: seq<Line>) returns (forest: seq<Tree>)
    requires !Lost(a, lines)
    ensures PrintAll(forest, 0) == Depths(a, lines)
    ensures Sidebar.Sidebar(Fold(a, lines)) == DecoratedAll(forest)
  {
    FoldTracks(a, lines);
    var nodes := Fold(a, lines).nodes;
    var kids := nodes[0].Kids();
    assert Above(nodes, kids, 0);
    forest := OutlineAll(nodes, kids, 0);
    OutlineAllPrints(nodes, kids, 0, 0);
    assert Preorder(nodes, 0, -1)[1..] == PreorderAll(nodes, kids, 0, 0);
    BuildAllIsDecorated(nodes, kids, 0);
  }

  // ---- every document ----

  /** Once the stack of parents is lost, no later line is ever added. */
  lemma {:induction false} LostForGood(a: Arithmetic, lines: seq<Line>, more: seq<Line>)
    requires Fold(a, lines).parents == []
    ensures Fold(a, lines + more).parents == [] && Fold(a, lines + more).nodes == Fold(a, lines).nodes
  {
    if more == [] {
      assert lines + more == lines;
    } else {
      var n := |more| - 1;
      LostForGood(a, lines, more[..n]);
      assert lines + more == (lines + more[..n]) + [more[n]];
      if more[n].Bullet? {
        BulletRead(a, lines + more[..n], more[n]);
        StaysLost(a, Fold(a, lines + more[..n]), more[n]);
      } else {
        SkippedRead(a, lines + more[..n], more[n]);
      }
    }
  }

  lemma SkippedRead(a: Arithmetic, init: seq<Line>, last: Line)
    requires last.Skipped?
    ensures Fold(a, init + [last]) == Fold(a, init)
  {
    var lines := init + [last];
    assert lines[..|lines| - 1] == init;
  }

  /** The line that loses the parse is a bullet, and it is not added either. */
  lemma LosingLine(a: Arithmetic, init: seq<Line>, line: Line)
    requires Lost(a, init + [line]) && !Lost(a, init)
    ensures line.Bullet?
    ensures Fold(a, init + [line]).parents == [] && Fold(a, init + [line]).nodes == Fold(a, init).nodes
  {
    var lines := init + [line];
    assert lines[..|lines| - 1] == init;
    FoldTracks(a, init);
    LostStep(a, init, line);
    if line.Bullet? {
      BulletStep(a, init, line);
      BulletRead(a, init, line);
      OpeningChange(a, line.indent);
    }
  }

  /** How many lines are read before the parse is lost. */
  ghost predicate ReadTo(a: Arithmetic, lines: seq<Line>, k: nat) {
    k <= |lines| && !Lost(a, lines[..k]) && (k < |lines| ==> Lost(a, lines[..k + 1]))
  }

  lemma {:induction false} SomeAreRead(a: Arithmetic, lines: seq<Line>) returns (k: nat)
    ensures ReadTo(a, lines, k) && (k == |lines| <==> !Lost(a, lines))
  {
    NothingYet(a);
    if Lost(a, lines) {
      var init := lines[..|lines| - 1];
      k := SomeAreRead(a, init);
      if k == |init| {
        assert lines[..k + 1] == lines && lines[..k] == init;
      } else {
        assert lines[..k + 1] == init[..k + 1] && lines[..k] == init[..k];
      }
    } else {
      k := |lines|;
      assert lines[..k] == lines;
    }
  }

  /** For every document whatever: the sidebar is a decorated forest, and that forest is the document
      up to the line that loses the parse, each entry at its running depth. */
  lemma SidebarOfAny(a: Arithmetic, lines: seq<Line>) returns (k: nat, forest: seq<Tree>)
    ensures ReadTo(a, lines, k) && (k == |lines| <==> !Lost(a, lines))
    ensures PrintAll(forest, 0) == Depths(a, lines[..k])
    ensures Sidebar.Sidebar(Fold(a, lines)) == DecoratedAll(forest)
  {
    k := SomeAreRead(a, lines);
    forest := SidebarOfUnlost(a, lines[..k]);
    if k < |lines| {
      var upTo := lines[..k + 1];
      assert upTo == lines[..k] + [lines[k]];
      LosingLine(a, lines[..k], lines[k]);
      LostForGood(a, upTo, lines[k + 1..]);
      assert upTo + lines[k + 1..] == lines;
    } else {
      assert lines[..k] == lines;
    }
  }

  lemma {:induction false} DepthsGrow(a: Arithmetic, lines: seq<Line>, k: nat)
    requires k <= |lines|
    ensures |Depths(a, lines[..k])| <= |Depths(a, lines)|
    ensures k < |lines| && lines[k].Bullet? ==> |Depths(a, lines[..k])| < |Depths(a, lines)|
  {
    if k == |lines| {
      assert lines[..k] == lines;
    } else {
      var init := lines[..|lines| - 1];
      DepthsGrow(a, init, k);
      assert init[..k] == lines[..k];
    }
  }

  ghost predicate Holds(sidebar: seq<Item>, content: seq<(int, Entry)>) {
    exists forest {:trigger DecoratedAll(forest)} :: PrintAll(forest, 0) == content && sidebar == DecoratedAll(forest)
  }

  lemma HoldsOne(sidebar: seq<Item>, content: seq<(int, Entry)>, forest: seq<Tree>)
    requires sidebar == DecoratedAll(forest)
    ensures Holds(sidebar, content) <==> PrintAll(forest, 0) == content
  {
    forall other | sidebar == DecoratedAll(other) ensures other == forest {
      DecoratedIsInjective(forest, other);
    }
  }

  /** Every entry of the document reaches the sidebar exactly when the document is not lost. */
  lemma NothingIsDroppedExactly(a: Arithmetic, lines: seq<Line>)
    ensures Holds(Sidebar.Sidebar(Fold(a, lines)), Depths(a, lines)) <==> !Lost(a, lines)
  {
    var k, forest := SidebarOfAny(a, lines);
    if Lost(a, lines) {
      assert lines[..k + 1] == lines[..k] + [lines[k]];
      LosingLine(a, lines[..k], lines[k]);
      DepthsGrow(a, lines, k);
      HoldsOne(Sidebar.Sidebar(Fold(a, lines)), Depths(a, lines), forest);
    } else {
      assert lines[..k] == lines;
    }
  }

  /** A document whose first bullet is indented yields an empty sidebar, whatever follows. */
  lemma IndentedStartLosesEverything(a: Arithmetic, lines: seq<Line>, i: nat)
    requires i < |lines| && Opens(lines, i)
    ensures Sidebar.Sidebar(Fold(a, lines)) == []
  {
    var k, forest := SidebarOfAny(a, lines);
    if k > i {
      assert Opens(lines[..k], i);
      assert false;
    }
    NoBullets(a, lines[..k]);
    PrintedLevels(forest, 0);
  }
}
