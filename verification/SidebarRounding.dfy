/** A document that the columns keep and the doubles lose: bullets at 0, 3, 7 and 1. */
module SidebarRounding {
  import opened Common
  import opened Doubles
  import opened Sidebar
  import opened SidebarDepths
  import opened SidebarRoundTrip
  import opened SidebarTree

  const STEP := 0x8_0000_0000_0000

  lemma StepIsPower()
    ensures Power(51) == STEP && Power(52) == 2 * STEP
  {
    assert Power(10) == 0x400;
    PowerSum(10, 10);
    PowerSum(20, 20);
    PowerSum(40, 10);
    assert Power(51) == 2 * Power(50) && Power(52) == 2 * Power(51);
  }

  /** The double nearest to 7/3 is above it. */
  lemma SevenThirds(r: real)
    requires Nearest(7.0 / 3.0, r)
    ensures r == 5254199565265579.0 / STEP as real
  {
    var c, x := 5254199565265579.0 / STEP as real, 7.0 / 3.0;
    StepIsPower();
    assert Represents(c, 51, 5254199565265579);
    assert Double(c);
    assert Abs(x - r) <= Abs(x - c);
    var k: nat, m: int :| Represents(r, k, m);
    Coarse(r, k, m);
    var n := StepsOnGrid(r, k, m, 51);
    assert n == 5254199565265579;
  }

  /** A double of this size has no finer step. */
  lemma Coarse(r: real, k: nat, m: int)
    requires 2.2 < r && Represents(r, k, m)
    ensures k <= 51
  {
    if k > 51 {
      TooFine(r, k);
    }
  }

  lemma TooFine(r: real, k: nat)
    requires 2.2 < r && k > 51
    ensures r * Power(k) as real > LIMIT as real
  {
    StepIsPower();
    PowerSum(52, k - 52);
    var p := Power(k) as real;
    NotLess(2 * STEP, Power(k - 52));
    assert p >= 2.0 * STEP as real;
    Product(r - 2.2, p);
    Distribute(r, 2.2, p);
  }

  /** Taking one off twice is exact there, and leaves more than the double nearest to 1/3. */
  lemma TwiceOneOff(a: Arithmetic)
    requires CorrectlyRounded(a)
    ensures var s := STEP as real;
            && a.quotient(7, 3) == 5254199565265579.0 / s
            && a.decrement(5254199565265579.0 / s) == 3002399751580331.0 / s
            && a.decrement(3002399751580331.0 / s) == 750599937895083.0 / s
            && a.quotient(1, 3) < 750599937895083.0 / s
  {
    QuotientIsNearest(a, 7, 3, 7.0 / 3.0);
    SevenThirds(a.quotient(7, 3));
    QuotientIsNearest(a, 1, 3, 1.0 / 3.0);
    OneThird(a.quotient(1, 3));
    OneOff(a, 5254199565265579, 3002399751580331);
    OneOff(a, 3002399751580331, 750599937895083);
  }

  lemma QuotientIsNearest(a: Arithmetic, i: Column, u: Column, x: real)
    requires CorrectlyRounded(a) && u > 0 && x == i as real / u as real
    ensures Nearest(x, a.quotient(i, u))
  {
    assert Divides(a, i, u);
  }

  lemma OneOff(a: Arithmetic, n: nat, left: nat)
    requires CorrectlyRounded(a) && 0 < n <= 3 * STEP && left == n - STEP
    ensures a.decrement(n as real / STEP as real) == left as real / STEP as real
  {
    var x := n as real / STEP as real;
    StepIsPower();
    Shifted(n, STEP);
    QuotientTimes(left as real, STEP as real);
    assert Represents(x - 1.0, 51, left);
    assert TakesOneOff(a, x);
    ExactWhenDouble(x - 1.0, a.decrement(x));
  }

  lemma OneThird(r: real)
    requires Nearest(1.0 / 3.0, r)
    ensures r < 750599937895083.0 / STEP as real
  {
    var c := 1501199875790165.0 / (2 * STEP) as real;
    StepIsPower();
    assert Represents(c, 52, 1501199875790165);
    assert Double(c);
    assert Abs(1.0 / 3.0 - r) <= Abs(1.0 / 3.0 - c);
  }

  /** So the loop pops three times where the columns go back two units. */
  lemma PopsOnceMore(a: Arithmetic)
    requires CorrectlyRounded(a)
    ensures Rises(a, a.quotient(7, 3), a.quotient(1, 3)) >= 3 && Climbed(6, 3) == 2
  {
    TwiceOneOff(a);
    var s, level := STEP as real, a.quotient(1, 3);
    PopsOne(a, 5254199565265579.0 / s, level);
    PopsOne(a, 3002399751580331.0 / s, level);
    PopsOne(a, 750599937895083.0 / s, level);
  }

  lemma PopsOne(a: Arithmetic, last: real, level: Measure)
    requires level < last <= LIMIT as real
    ensures a.decrement(last) <= LIMIT as real && Rises(a, last, level) == 1 + Rises(a, a.decrement(last), level)
  {
    Lower(a, last, level);
  }

  /** Where a document stands: its unit, its last column, and its depth as read off levels and columns. */
  ghost predicate At(a: Arithmetic, lines: seq<Line>, unit: Column, column: Column, running: int, depth: int) {
    && Unit(lines) == unit && LastColumn(lines) == column
    && Running(a, lines) == running && ColumnDepth(lines) == depth && !RunsOutInColumns(lines)
  }

  lemma OneBullet(a: Arithmetic, init: seq<Line>, indent: Column, e: Entry, unit: Column, column: Column,
                  running: int, depth: int)
    requires At(a, init, unit, column, running, depth) && depth + InColumns(unit, column, indent) > 0
    ensures At(a, init + [Bullet(indent, e)], Divider(unit, indent), indent,
               running + Change(a, unit, column, indent), depth + InColumns(unit, column, indent))
  {
    var lines := init + [Bullet(indent, e)];
    assert lines[..|init|] == init && lines[..|lines|] == lines;
    assert forall k :: 0 <= k <= |init| ==> lines[..k] == init[..k];
  }

  lemma ThreeBullets(a: Arithmetic, e: Entry)
    requires CorrectlyRounded(a)
    ensures At(a, [Bullet(0, e), Bullet(3, e), Bullet(7, e)], 3, 7, 3, 3)
  {
    var none: seq<Line> := [];
    assert none[..0] == none && !RunsOutInColumns(none);
    EarlyChanges(a);
    OneBullet(a, none, 0, e, 0, 0, 1, 1);
    OneBullet(a, none + [Bullet(0, e)], 3, e, 0, 0, 1, 1);
    OneBullet(a, none + [Bullet(0, e)] + [Bullet(3, e)], 7, e, 3, 3, 2, 2);
    assert none + [Bullet(0, e)] + [Bullet(3, e)] + [Bullet(7, e)] == [Bullet(0, e), Bullet(3, e), Bullet(7, e)];
  }

  lemma EarlyChanges(a: Arithmetic)
    requires CorrectlyRounded(a)
    ensures Change(a, 0, 0, 0) == 0 && Change(a, 0, 0, 3) == 1 && Change(a, 3, 3, 7) == 1
  {
    OpeningChange(a, 0);
    OpeningChange(a, 3);
    assert Divides(a, 3, 3);
    OneIsExact(3, a.quotient(3, 3));
    TwiceOneOff(a);
  }

  /** The document is lost at its last line, where its depth in columns is one. */
  lemma RoundingLosesADocument(a: Arithmetic, e: Entry)
    requires CorrectlyRounded(a)
    ensures var lines := [Bullet(0, e), Bullet(3, e), Bullet(7, e), Bullet(1, e)];
            Lost(a, lines) && !OpensIndented(lines) && !RunsOutInColumns(lines) && ColumnDepth(lines) == 1
  {
    var three := [Bullet(0, e), Bullet(3, e), Bullet(7, e)];
    ThreeBullets(a, e);
    LastChange(a);
    OneBullet(a, three, 1, e, 3, 7, 3, 3);
    LostAtLast(a, three + [Bullet(1, e)]);
    assert three + [Bullet(1, e)] == [Bullet(0, e), Bullet(3, e), Bullet(7, e), Bullet(1, e)];
  }

  lemma LastChange(a: Arithmetic)
    requires CorrectlyRounded(a)
    ensures Change(a, 3, 7, 1) <= -3 && InColumns(3, 7, 1) == -2
  {
    TwiceOneOff(a);
    PopsOnceMore(a);
  }

  lemma LostAtLast(a: Arithmetic, lines: seq<Line>)
    requires lines != [] && lines[0].Bullet? && lines[0].indent == 0 && Running(a, lines) <= 0
    ensures Lost(a, lines) && !OpensIndented(lines)
  {
    assert lines[..|lines|] == lines && Sunk(a, lines, |lines|);
    forall i | 0 <= i < |lines| ensures !Opens(lines, i) {
      assert i > 0 ==> !lines[0].Skipped?;
    }
  }
}
