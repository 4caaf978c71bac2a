/** Documents whose columns divide evenly, and the printer the parser inverts. */
module SidebarRoundTrip {
  import opened Common
  import opened Doubles
  import opened Sidebar
  import opened SidebarDepths
  import opened SidebarTree

  // ---- columns that divide evenly ----

  ghost predicate PowerOfTwo(unit: Column) {
    exists k: nat :: Power(k) == unit
  }

  /** A column that divided by the unit is a double, and stays one when whole units are taken off. */
  ghost predicate Even(unit: Column, n: int)
    requires unit > 0
  {
    PowerOfTwo(unit) || n % unit == 0
  }

  lemma EvenIsDouble(unit: Column, n: int)
    requires unit > 0 && Even(unit, n) && -LIMIT <= n <= LIMIT
    ensures Double(n as real / unit as real)
  {
    var x := n as real / unit as real;
    QuotientTimes(n as real, unit as real);
    if PowerOfTwo(unit) {
      var k: nat :| Power(k) == unit;
      assert Represents(x, k, n);
    } else {
      WholeQuotient(n, unit, n / unit);
      NotLess(n / unit, unit);
      IntegerIsDouble(n / unit);
    }
  }

  lemma WholeQuotient(n: int, unit: Column, q: int)
    requires unit > 0 && n == q * unit
    ensures n as real / unit as real == q as real
  {
    RealProduct(q, unit);
    assert n as real == (q * unit) as real;
    Undone(n as real, q as real, unit as real);
  }

  lemma Undone(n: real, q: real, unit: real)
    requires unit > 0.0 && n == q * unit
    ensures n / unit == q
  {
    QuotientTimes(n, unit);
    SameTimes(n / unit, q, unit);
  }

  lemma NotLess(q: int, unit: nat)
    requires unit > 0
    ensures if q >= 0 then q * unit >= q else q * unit <= q
  {
  }

  lemma SameTimes(x: real, y: real, p: real)
    requires p > 0.0 && x * p == y * p
    ensures x == y
  {
    NotMore(x, y, p);
    NotMore(y, x, p);
  }

  /** Units left behind by going back `columns`, a unit left in part counting in full. */
  function Climbed(columns: nat, unit: nat): nat {
    if unit == 0 || columns == 0 then 0
    else if columns <= unit then 1
    else 1 + Climbed(columns - unit, unit)
  }

  lemma MultipleLess(n: int, unit: nat)
    requires unit > 0 && n % unit == 0
    ensures (n - unit) % unit == 0
  {
    var q := n / unit - 1;
    assert n - unit == q * unit + 0;
    DivideAcross(q, unit, 0);
    Remainder(n - unit, unit, q);
  }

  lemma Remainder(n: int, unit: nat, q: int)
    requires unit > 0 && n / unit == q && n == q * unit
    ensures n % unit == 0
  {
  }

  lemma Times(a: int, b: int, unit: nat)
    ensures a <= b ==> a * unit <= b * unit
  {
  }

  lemma DivideAcross(q: int, unit: nat, rest: nat)
    requires rest < unit
    ensures (q * unit + rest) / unit == q
  {
    var d := (q * unit + rest) / unit;
    assert d * unit <= q * unit + rest < d * unit + unit;
    Times(d + 1, q, unit);
    Times(q + 1, d, unit);
  }

  /** Evenly divided, levels are exact. */
  lemma EvenLevel(a: Arithmetic, unit: Column, column: Column)
    requires CorrectlyRounded(a) && unit > 0 && Even(unit, column)
    ensures a.quotient(column, unit) == column as real / unit as real
  {
    EvenIsDouble(unit, column);
    assert Divides(a, column, unit);
    ExactWhenDouble(column as real / unit as real, a.quotient(column, unit));
  }

  lemma EvenDecrement(a: Arithmetic, unit: Column, n: int)
    requires CorrectlyRounded(a) && unit > 0 && Even(unit, n) && 0 < n <= LIMIT
    ensures Even(unit, n - unit) && 0.0 < n as real / unit as real <= LIMIT as real
    ensures a.decrement(n as real / unit as real) == (n - unit) as real / unit as real
  {
    var x := n as real / unit as real;
    ColumnsDivide(n, unit);
    QuotientTimes(n as real, unit as real);
    Shifted(n, unit);
    if n % unit == 0 {
      MultipleLess(n, unit);
    }
    EvenIsDouble(unit, n - unit);
    assert TakesOneOff(a, x);
    ExactWhenDouble(x - 1.0, a.decrement(x));
  }

  lemma Shifted(n: int, unit: Column)
    requires unit > 0
    ensures n as real / unit as real - 1.0 == (n - unit) as real / unit as real
  {
    var x, y, p := n as real / unit as real, (n - unit) as real / unit as real, unit as real;
    QuotientTimes(n as real, p);
    QuotientTimes((n - unit) as real, p);
    Distribute(x, 1.0, p);
    SameTimes(x - 1.0, y, p);
  }

  // ---- the pops, counted in columns ----

  lemma EvenMeasure(unit: Column, column: Column)
    requires unit > 0
    ensures 0.0 <= column as real / unit as real <= LIMIT as real
  {
    ColumnsDivide(column, unit);
  }

  lemma QuotientsCompare(unit: Column, a: int, b: int)
    requires unit > 0
    ensures a as real / unit as real < b as real / unit as real <==> a < b
  {
    QuotientTimes(a as real, unit as real);
    QuotientTimes(b as real, unit as real);
    TimesCompare(a as real / unit as real, b as real / unit as real, unit as real, a, b);
  }

  lemma TimesCompare(x: real, y: real, p: real, a: int, b: int)
    requires p > 0.0 && x * p == a as real && y * p == b as real
    ensures x < y <==> a < b
  {
    if a < b {
      Less(x, y, p);
    } else {
      NotMore(y, x, p);
    }
  }

  /** Evenly divided, a level is reached after as many steps as units were left, rounded up. */
  lemma {:induction false} RisesAreClimbed(a: Arithmetic, unit: Column, last: int, indent: Column)
    requires CorrectlyRounded(a) && unit > 0 && Even(unit, last) && Even(unit, indent) && indent - unit <= last <= LIMIT
    ensures last as real / unit as real <= LIMIT as real && 0.0 <= indent as real / unit as real <= LIMIT as real
    ensures Rises(a, last as real / unit as real, indent as real / unit as real) ==
            if indent < last then Climbed(last - indent, unit) else 0
    decreases if indent < last then last - indent else 0
  {
    QuotientsCompare(unit, indent, last);
    EvenMeasure(unit, indent);
    if indent < last {
      EvenDecrement(a, unit, last);
      RisesAreClimbed(a, unit, last - unit, indent);
    }
  }

  /** What a bullet does to the running depth, read off the columns. */
  function InColumns(unit: Column, column: Column, indent: Column): int {
    if indent > column then 1 else 0 - Climbed(column - indent, unit)
  }

  lemma ChangeInColumns(a: Arithmetic, unit: Column, column: Column, indent: Column)
    requires CorrectlyRounded(a) && (unit == 0 ==> column == 0)
    requires unit > 0 ==> Even(unit, column) && Even(unit, indent)
    ensures Change(a, unit, column, indent) == InColumns(unit, column, indent)
  {
    if unit > 0 {
      EvenLevel(a, unit, column);
      EvenLevel(a, unit, indent);
      QuotientsCompare(unit, column, indent);
      if indent <= column {
        RisesAreClimbed(a, unit, column, indent);
      }
    } else {
      OpeningChange(a, indent);
    }
  }

  /** The running depth, read off the columns. */
  function ColumnDepth(lines: seq<Line>): int {
    if lines == [] then 1
    else
      var n := |lines| - 1;
      match lines[n]
      case Skipped => ColumnDepth(lines[..n])
      case Bullet(indent, _) => ColumnDepth(lines[..n]) + InColumns(Unit(lines[..n]), LastColumn(lines[..n]), indent)
  }

  /** Every bullet is indented by whole units, or the unit is a power of two. */
  ghost predicate Aligned(lines: seq<Line>) {
    Unit(lines) > 0 ==> forall i :: 0 <= i < |lines| && lines[i].Bullet? ==> Even(Unit(lines), lines[i].indent)
  }

  lemma AlignedBefore(lines: seq<Line>)
    requires lines != [] && Aligned(lines)
    ensures Aligned(lines[..|lines| - 1])
  {
    var n := |lines| - 1;
    forall i | 0 <= i < n && lines[..n][i].Bullet? && Unit(lines[..n]) > 0 ensures Even(Unit(lines), lines[..n][i].indent) {
      assert lines[..n][i] == lines[i];
    }
  }

  lemma {:induction false} LastIsEven(lines: seq<Line>, unit: Column)
    requires unit > 0 && forall i :: 0 <= i < |lines| && lines[i].Bullet? ==> Even(unit, lines[i].indent)
    ensures Even(unit, LastColumn(lines))
  {
    if lines != [] && lines[|lines| - 1].Skipped? {
      LastIsEven(lines[..|lines| - 1], unit);
    }
  }

  /** In aligned documents the running depth is the one read off the columns, whatever way ties are rounded. */
  lemma {:induction false} RunningInColumns(a: Arithmetic, lines: seq<Line>)
    requires CorrectlyRounded(a) && Aligned(lines)
    ensures Running(a, lines) == ColumnDepth(lines)
  {
    if lines != [] {
      var n := |lines| - 1;
      var init, unit := lines[..n], Unit(lines[..n]);
      AlignedBefore(lines);
      RunningInColumns(a, init);
      if lines[n].Bullet? {
        NoUnitYet(a, init);
        if unit > 0 {
          LastIsEven(init, unit);
        }
        ChangeInColumns(a, unit, LastColumn(init), lines[n].indent);
      }
    }
  }

  ghost predicate RunsOutInColumns(lines: seq<Line>) {
    exists k {:trigger lines[..k]} :: 0 <= k <= |lines| && ColumnDepth(lines[..k]) <= 0
  }

  lemma {:induction false} AlignedPrefix(lines: seq<Line>, k: nat)
    requires k <= |lines| && Aligned(lines)
    ensures Aligned(lines[..k])
  {
    if k == |lines| {
      assert lines[..k] == lines;
    } else {
      AlignedBefore(lines);
      AlignedPrefix(lines[..|lines| - 1], k);
      assert lines[..|lines| - 1][..k] == lines[..k];
    }
  }

  /** An aligned document is lost exactly if it opens indented or its depth in columns falls to nothing. */
  lemma LostInColumns(a: Arithmetic, lines: seq<Line>)
    requires CorrectlyRounded(a) && Aligned(lines)
    ensures Lost(a, lines) <==> OpensIndented(lines) || RunsOutInColumns(lines)
  {
    forall k | 0 <= k <= |lines| ensures Sunk(a, lines, k) <==> ColumnDepth(lines[..k]) <= 0 {
      AlignedPrefix(lines, k);
      RunningInColumns(a, lines[..k]);
    }
  }

  // ---- documents with levels ----

  /** `lines` lays out `content` with `unit` columns per level, with skipped lines anywhere. */
  ghost predicate LaysOut(lines: seq<Line>, content: seq<(int, Entry)>, unit: Column) {
    if lines == [] then content == []
    else
      var n := |lines| - 1;
      match lines[n]
      case Skipped => LaysOut(lines[..n], content, unit)
      case Bullet(indent, entry) =>
        && content != []
        && content[|content| - 1].1 == entry
        && indent == unit * content[|content| - 1].0
        && LaysOut(lines[..n], content[..|content| - 1], unit)
  }

  /** Starts at the left margin and never goes in more than one level at a time. */
  ghost predicate WellNested(content: seq<(int, Entry)>) {
    AtLeast(content, 0) && StepsUp(content) && (content != [] ==> content[0].0 == 0)
  }

  lemma {:induction false} ClimbedByLevels(unit: Column, levels: nat)
    requires unit > 0
    ensures unit * levels >= 0 && Climbed(unit * levels, unit) == levels
  {
    if levels > 0 {
      ClimbedByLevels(unit, levels - 1);
      assert unit * levels == unit * (levels - 1) + unit;
    }
  }

  /** The columns of a document laid out with levels. */
  lemma {:induction false} LaidOutColumns(lines: seq<Line>, content: seq<(int, Entry)>, unit: Column)
    requires unit > 0 && LaysOut(lines, content, unit) && WellNested(content)
    ensures LastColumn(lines) == unit * LastLevelOf(content)
    ensures Unit(lines) == unit || (Unit(lines) == 0 && LastLevelOf(content) == 0)
  {
    if lines != [] {
      var n, m := |lines| - 1, |content| - 1;
      if lines[n].Skipped? {
        LaidOutColumns(lines[..n], content, unit);
      } else {
        WellNestedBefore(content);
        LaidOutColumns(lines[..n], content[..m], unit);
        LaidOutStep(unit, LastLevelOf(content[..m]), content[m].0);
      }
    }
  }

  lemma WellNestedBefore(content: seq<(int, Entry)>)
    requires WellNested(content) && content != []
    ensures var before, last := content[..|content| - 1], content[|content| - 1];
            && WellNested(before) && 0 <= LastLevelOf(before) && 0 <= last.0
            && (if before == [] then last.0 == 0 else last.0 <= LastLevelOf(before) + 1)
  {
    var m := |content| - 1;
    assert forall i :: 0 <= i < m ==> content[..m][i] == content[i];
    assert m > 0 ==> content[m - 1 + 1].0 <= content[m - 1].0 + 1;
  }

  /** A well-nested document is read at the depths it was laid out with. */
  lemma {:induction false} LaidOutDepths(a: Arithmetic, lines: seq<Line>, content: seq<(int, Entry)>, unit: Column)
    requires CorrectlyRounded(a) && unit > 0 && LaysOut(lines, content, unit) && WellNested(content)
    ensures !Lost(a, lines) && Depths(a, lines) == content && Running(a, lines) == LastLevelOf(content) + 1
  {
    if lines == [] {
      NothingYet(a);
    } else {
      var n := |lines| - 1;
      var init, last := lines[..n], lines[n];
      assert init + [last] == lines;
      if last.Skipped? {
        LaidOutDepths(a, init, content, unit);
        LostStep(a, init, last);
      } else {
        LaidOutDepths(a, init, content[..|content| - 1], unit) by { WellNestedBefore(content); }
        LaidOutBullet(a, init, last, content, unit);
      }
    }
  }

  lemma LaidOutBullet(a: Arithmetic, init: seq<Line>, last: Line, content: seq<(int, Entry)>, unit: Column)
    requires CorrectlyRounded(a) && unit > 0 && last.Bullet? && content != [] && WellNested(content)
    requires var (level, entry) := content[|content| - 1];
             last.entry == entry && last.indent == unit * level && LaysOut(init, content[..|content| - 1], unit)
    requires var before := content[..|content| - 1];
             !Lost(a, init) && Depths(a, init) == before && Running(a, init) == LastLevelOf(before) + 1
    ensures var lines := init + [last];
            !Lost(a, lines) && Depths(a, lines) == content && Running(a, lines) == LastLevelOf(content) + 1
  {
    var before, level := content[..|content| - 1], content[|content| - 1].0;
    WellNestedBefore(content);
    LaidOutColumns(init, before, unit);
    LaidOutChange(a, unit, Unit(init), LastLevelOf(before), level);
    BulletAtLevel(a, init, last, before, level);
    assert before + [(level, last.entry)] == content;
  }

  /** A bullet that changes the running depth by as many levels as it should is read at its level. */
  lemma BulletAtLevel(a: Arithmetic, init: seq<Line>, last: Line, before: seq<(int, Entry)>, level: nat)
    requires last.Bullet? && (before == [] ==> last.indent == 0)
    requires Change(a, Unit(init), LastColumn(init), last.indent) == level - LastLevelOf(before)
    requires !Lost(a, init) && Depths(a, init) == before && Running(a, init) == LastLevelOf(before) + 1
    ensures var lines := init + [last];
            !Lost(a, lines) && Depths(a, lines) == before + [(level, last.entry)] && Running(a, lines) == level + 1
  {
    BulletRead(a, init, last);
    LostStep(a, init, last);
  }

  lemma LaidOutChange(a: Arithmetic, unit: Column, known: Column, before: nat, level: nat)
    requires CorrectlyRounded(a) && unit > 0 && level <= before + 1 && (known == unit || (known == 0 && before == 0))
    requires unit * before <= LIMIT && unit * level <= LIMIT
    ensures Change(a, known, unit * before, unit * level) == level - before
    ensures level == 0 ==> unit * level == 0
  {
    LaidOutStep(unit, before, level);
    WholeUnits(unit, before);
    WholeUnits(unit, level);
    ChangeInColumns(a, known, unit * before, unit * level);
  }

  lemma WholeUnits(unit: Column, level: nat)
    requires unit > 0
    ensures (unit * level) % unit == 0
  {
    DivideAcross(level, unit, 0);
    assert unit * level == level * unit + 0;
    Remainder(unit * level, unit, level);
  }

  lemma LaidOutStep(unit: Column, before: nat, level: nat)
    requires unit > 0 && level <= before + 1
    ensures unit * level > unit * before <==> level == before + 1
    ensures level <= before ==> Climbed(unit * before - unit * level, unit) == before - level
    ensures (unit * level == 0 <==> level == 0) && (before == 0 && level == 1 ==> unit * level == unit)
  {
    if level <= before {
      ClimbedByLevels(unit, before - level);
      assert unit * before - unit * level == unit * (before - level);
    } else {
      assert unit * level == unit * before + unit;
    }
    assert level > 0 ==> unit * level >= unit;
  }

  /** A document laid out with levels comes back with those levels exactly when it is well nested. */
  lemma ComesBackExactly(a: Arithmetic, lines: seq<Line>, content: seq<(int, Entry)>, unit: Column)
    requires CorrectlyRounded(a) && unit > 0 && LaysOut(lines, content, unit)
    ensures Holds(Sidebar.Sidebar(Fold(a, lines)), content) <==> WellNested(content)
  {
    if WellNested(content) {
      LaidOutDepths(a, lines, content, unit);
      NothingIsDroppedExactly(a, lines);
    } else {
      forall forest ensures PrintAll(forest, 0) != content {
        PrintedLevels(forest, 0);
        PrintStepsUp(forest, 0);
      }
    }
  }

  /**
   Round trip: parsing a printed forest rebuilds exactly that forest, with `collapsed` set on exactly
   the entries that have children, for every positive indentation unit and any skipped lines between.
   */
  lemma RoundTrip(a: Arithmetic, forest: seq<Tree>, lines: seq<Line>, unit: Column)
    requires CorrectlyRounded(a) && unit > 0 && LaysOut(lines, PrintAll(forest, 0), unit)
    ensures Sidebar.Sidebar(Fold(a, lines)) == DecoratedAll(forest)
  {
    PrintedLevels(forest, 0);
    PrintStepsUp(forest, 0);
    LaidOutDepths(a, lines, PrintAll(forest, 0), unit);
    var parsed := SidebarOfUnlost(a, lines);
    PrintIsInjective(parsed, forest, 0);
  }
}
