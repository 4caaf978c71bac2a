/** Floating-point numbers as far as columns need them: what division and taking one off deliver. */
module Doubles {

  /** Whole numbers up to here are doubles; no line of text is longer. */
  const LIMIT := 0x20_0000_0000_0000

  type Column = n: nat | n <= LIMIT

  type Measure = x: real | 0.0 <= x <= LIMIT as real

  function Power(k: nat): (p: nat)
    ensures p > 0
  {
    if k == 0 then 1 else 2 * Power(k - 1)
  }

  function Abs(x: real): real {
    if x < 0.0 then -x else x
  }

  // ---- doubles ----

  /** 53 bits over a power of two. */
  ghost predicate Represents(x: real, k: nat, m: int) {
    -LIMIT <= m <= LIMIT && x * Power(k) as real == m as real
  }

  ghost predicate Double(x: real) {
    exists k: nat, m: int :: Represents(x, k, m)
  }

  /** `r` is a double, and none is nearer to `x`; of two equally near ones it is either. */
  ghost predicate Nearest(x: real, r: real) {
    Double(r) && forall y :: Double(y) ==> Abs(x - r) <= Abs(x - y)
  }

  /** The two operations on levels. */
  datatype Floats = Floats(quotient: (nat, nat) -> real, decrement: real -> real)

  /** Every result is the double nearest to the exact one. */
  ghost predicate CorrectlyRounded(a: Floats) {
    && (forall i: Column, u: Column {:trigger a.quotient(i, u)} :: u > 0 ==> Divides(a, i, u))
    && (forall x: real {:trigger a.decrement(x)} :: 0.0 < x <= LIMIT as real ==> TakesOneOff(a, x))
  }

  ghost predicate Divides(a: Floats, i: Column, u: Column)
    requires u > 0
  {
    Nearest(i as real / u as real, a.quotient(i, u))
  }

  ghost predicate TakesOneOff(a: Floats, x: real) {
    Nearest(x - 1.0, a.decrement(x))
  }

  /** What it takes for a parser's loop over levels to end. */
  ghost predicate Descends(a: Floats) {
    && (forall i: Column, u: Column :: u > 0 ==> 0.0 <= a.quotient(i, u) <= LIMIT as real)
    && (forall u: Column :: u > 0 ==> a.quotient(u, u) > 0.0)
    && (forall x :: 0.0 < x <= LIMIT as real ==> a.decrement(x) <= x - 0.5)
  }

  type Arithmetic = a: Floats | Descends(a) witness Floats((i, u) => if i == 0 || u == 0 then 0.0 else 1.0, x => x - 1.0)

  // ---- what rounding to the nearest gives ----

  lemma IntegerIsDouble(n: int)
    requires -LIMIT <= n <= LIMIT
    ensures Double(n as real)
  {
    assert Represents(n as real, 0, n);
  }

  lemma ExactWhenDouble(x: real, r: real)
    requires Double(x) && Nearest(x, r)
    ensures r == x
  {
    assert Abs(x - r) <= Abs(x - x) == 0.0;
  }

  lemma StaysInRange(x: real, r: real)
    requires Nearest(x, r) && 0.0 <= x <= LIMIT as real
    ensures 0.0 <= r <= LIMIT as real
  {
    IntegerIsDouble(0);
    IntegerIsDouble(LIMIT);
    assert Abs(x - r) <= Abs(x - 0 as real) && Abs(x - r) <= Abs(x - LIMIT as real);
  }

  lemma HalfOffAtMost(x: real, r: real)
    requires -(LIMIT as real) <= x <= LIMIT as real && Nearest(x, r)
    ensures x - 0.5 <= r <= x + 0.5
  {
    var n := (x + 0.5).Floor;
    IntegerIsDouble(n);
    assert Abs(x - r) <= Abs(x - n as real);
  }

  lemma Product(x: real, y: real)
    requires x >= 0.0 && y >= 0.0
    ensures x * y >= 0.0
  {
  }

  lemma Cancel(x: real, p: real, limit: real)
    requires x > 0.0 && x * p <= limit
    ensures p <= limit / x
  {
    var q := limit / x;
    assert q * x == limit;
    assert (q - p) * x == limit - p * x;
  }

  lemma ColumnsDivide(i: Column, u: Column)
    requires u > 0
    ensures 0.0 <= i as real / u as real <= i as real
  {
    var n, d := i as real, u as real;
    var q := n / d;
    assert q * d == n;
    Cancel(d, 0.0, n);
    Product(q, d - 1.0);
    assert q * (d - 1.0) == q * d - q;
  }

  lemma QuotientInRange(i: Column, u: Column, r: real)
    requires u > 0 && Nearest(i as real / u as real, r)
    ensures 0.0 <= r <= LIMIT as real
  {
    ColumnsDivide(i, u);
    StaysInRange(i as real / u as real, r);
  }

  lemma ByItself(d: real)
    requires d != 0.0
    ensures d / d == 1 as real
  {
    QuotientTimes(d, d);
    Distribute(d / d, 1.0, d);
    TimesPositive(d / d - 1.0, Abs(d));
  }

  lemma OneIsExact(u: Column, r: real)
    requires u > 0 && Nearest(u as real / u as real, r)
    ensures r == 1.0
  {
    IntegerIsDouble(1);
    ByItself(u as real);
    ExactWhenDouble(1 as real, r);
  }

  /** Correct rounding is all a parser needs. */
  lemma RoundedDescends(a: Floats)
    requires CorrectlyRounded(a)
    ensures Descends(a)
  {
    forall i: Column, u: Column | u > 0 ensures 0.0 <= a.quotient(i, u) <= LIMIT as real {
      assert Divides(a, i, u);
      QuotientInRange(i, u, a.quotient(i, u));
    }
    forall u: Column | u > 0 ensures a.quotient(u, u) > 0.0 {
      assert Divides(a, u, u);
      OneIsExact(u, a.quotient(u, u));
    }
    forall x: real | 0.0 < x <= LIMIT as real ensures a.decrement(x) <= x - 0.5 {
      assert TakesOneOff(a, x);
      HalfOffAtMost(x - 1.0, a.decrement(x));
    }
  }

  // ---- and there is such arithmetic ----

  lemma Finer(x: real, p: nat)
    requires 0.0 < x && 0 < p && x * (2 * p) as real <= LIMIT as real
    ensures p < 2 * p <= (LIMIT as real / x).Floor
  {
    Cancel(x, (2 * p) as real, LIMIT as real);
  }

  predicate Fits(x: real, p: nat) {
    x * p as real <= LIMIT as real
  }

  /** The finest power of two, from `p` on, at which `x` still fits into 53 bits. */
  function Finest(x: real, p: nat): (f: nat)
    requires 0.0 < x && 0 < p && Fits(x, p)
    ensures 0 < f && Fits(x, f) && !Fits(x, 2 * f)
    decreases (LIMIT as real / x).Floor - p
  {
    if !Fits(x, 2 * p) then p
    else
      Finer(x, p);
      Finest(x, 2 * p)
  }

  /** The whole number of steps of one `p`-th nearest to `x`. */
  function Steps(x: real, p: nat): int {
    (x * p as real + 0.5).Floor
  }

  function Stepped(x: real, p: nat): real
    requires p > 0
  {
    Steps(x, p) as real / p as real
  }

  function Rounded(x: real): real {
    if x == 0.0 || Abs(x) > LIMIT as real then 0.0 else Stepped(x, Finest(Abs(x), 1))
  }

  lemma PowerSum(i: nat, j: nat)
    ensures Power(i + j) == Power(i) * Power(j)
  {
    if i > 0 {
      PowerSum(i - 1, j);
    }
  }

  lemma {:induction false} FinestIsPower(x: real, k: nat) returns (j: nat)
    requires 0.0 < x && Fits(x, Power(k))
    ensures Finest(x, Power(k)) == Power(j)
    decreases (LIMIT as real / x).Floor - Power(k)
  {
    j := k;
    if Fits(x, 2 * Power(k)) {
      Finer(x, Power(k));
      assert Power(k + 1) == 2 * Power(k);
      j := FinestIsPower(x, k + 1);
    }
  }

  lemma NearestInteger(z: real, n: int)
    ensures Abs(z - (z + 0.5).Floor as real) <= Abs(z - n as real)
  {
    var m := (z + 0.5).Floor;
    assert -0.5 <= z - m as real <= 0.5;
    assert n < m ==> n as real <= m as real - 1.0;
    assert n > m ==> n as real >= m as real + 1.0;
  }

  lemma Scaled(a: real, b: real, p: real, ap: real, bp: real)
    requires p > 0.0 && ap == a * p && bp == b * p && Abs(ap) <= Abs(bp)
    ensures Abs(a) <= Abs(b)
  {
    AbsTimes(a, p);
    AbsTimes(b, p);
    NotMore(Abs(a), Abs(b), p);
  }

  lemma Distribute(x: real, y: real, p: real)
    ensures (x - y) * p == x * p - y * p
  {
  }

  lemma NotMore(x: real, y: real, q: real)
    requires q > 0.0 && x * q <= y * q
    ensures x <= y
  {
    TimesPositive(x - y, q);
    Distribute(x, y, q);
  }

  lemma Less(x: real, y: real, q: real)
    requires q > 0.0 && x * q < y * q
    ensures x < y
  {
    TimesPositive(x - y, q);
    Distribute(x, y, q);
  }

  lemma AbsTimes(x: real, p: real)
    requires p > 0.0
    ensures Abs(x * p) == Abs(x) * p
  {
    TimesPositive(x, p);
  }

  lemma TimesPositive(x: real, p: real)
    requires p > 0.0
    ensures x > 0.0 ==> x * p > 0.0
    ensures x < 0.0 ==> x * p < 0.0
  {
  }

  /** A double on a grid no finer than `p` is a whole number of its steps. */
  lemma StepsOnGrid(y: real, i: nat, n: int, j: nat) returns (steps: int)
    requires i <= j && Represents(y, i, n)
    ensures y * Power(j) as real == steps as real
  {
    PowerSum(i, j - i);
    steps := n * Power(j - i);
    RealProduct(Power(i), Power(j - i));
    RealProduct(n, Power(j - i));
    Associate(y, Power(i) as real, Power(j - i) as real);
  }

  lemma RealProduct(a: int, b: int)
    ensures (a * b) as real == a as real * b as real
  {
  }

  lemma Associate(a: real, b: real, c: real)
    ensures a * (b * c) == (a * b) * c
  {
  }

  lemma QuotientTimes(n: real, d: real)
    requires d != 0.0
    ensures n / d * d == n
  {
  }

  /** A finer double is too small to come nearer than the last step of the coarser grid. */
  lemma FinerIsSmaller(x: real, y: real, b: real, q: real, s: real)
    requires 0.0 < q <= s && Abs(y) * s <= LIMIT as real == b * q && Abs(x) * q > LIMIT as real
    ensures Abs(x - (if x < 0.0 then -b else b)) <= Abs(x - y)
  {
    Product(Abs(y), s - q);
    Distribute(s, q, Abs(y));
    NotMore(Abs(y), b, q);
    NotMore(b, Abs(x), q);
  }

  lemma RoundedIsNearest(x: real)
    requires -(LIMIT as real) <= x <= LIMIT as real
    ensures Nearest(x, Rounded(x))
  {
    if x == 0.0 {
      IntegerIsDouble(0);
    } else {
      assert Fits(Abs(x), Power(0));
      var j := FinestIsPower(Abs(x), 0);
      RoundedOnGrid(x, j);
    }
  }

  lemma RoundedOnGrid(x: real, j: nat)
    requires x != 0.0 && Abs(x) <= LIMIT as real && Finest(Abs(x), 1) == Power(j)
    ensures Nearest(x, Rounded(x))
  {
    SteppedIsDouble(x, j);
    forall y | Double(y) ensures Abs(x - Rounded(x)) <= Abs(x - y) {
      var i: nat, n: int :| Represents(y, i, n);
      NoneNearer(x, j, y, i, n);
    }
  }

  lemma SteppedIsDouble(x: real, j: nat)
    requires Fits(Abs(x), Power(j))
    ensures Represents(Stepped(x, Power(j)), j, Steps(x, Power(j)))
  {
    var p, m := Power(j) as real, Steps(x, Power(j));
    QuotientTimes(m as real, p);
    MagnitudeOf(x, p, x * p, m);
  }

  lemma MagnitudeOf(x: real, p: real, z: real, m: int)
    requires p > 0.0 && z == x * p && m == (z + 0.5).Floor && Abs(x) * p <= LIMIT as real
    ensures -LIMIT <= m <= LIMIT
  {
    AbsTimes(x, p);
    assert -(LIMIT as real) <= z <= LIMIT as real;
  }

  lemma SteppedTimes(x: real, p: nat)
    requires p > 0
    ensures Stepped(x, p) * p as real == Steps(x, p) as real
  {
    QuotientTimes(Steps(x, p) as real, p as real);
  }

  lemma NoneNearer(x: real, j: nat, y: real, i: nat, n: int)
    requires !Fits(Abs(x), 2 * Power(j)) && Represents(y, i, n)
    ensures Abs(x - Stepped(x, Power(j))) <= Abs(x - y)
  {
    if i <= j {
      SteppedOnSameGrid(x, y, i, n, j);
    } else {
      MorePower(i, j);
      SteppedOnFinerGrid(x, y, i, n, Power(j));
    }
  }

  lemma SteppedOnSameGrid(x: real, y: real, i: nat, n: int, j: nat)
    requires i <= j && Represents(y, i, n)
    ensures Abs(x - Stepped(x, Power(j))) <= Abs(x - y)
  {
    var steps := StepsOnGrid(y, i, n, j);
    SteppedOnGrid(x, y, Power(j), steps);
  }

  lemma SteppedOnFinerGrid(x: real, y: real, i: nat, n: int, p: nat)
    requires p > 0 && Power(i) >= 2 * p && Represents(y, i, n) && !Fits(Abs(x), 2 * p)
    ensures Abs(x - Stepped(x, p)) <= Abs(x - y)
  {
    SteppedTimes(x, p);
    FinerOnGrid(x, Stepped(x, p), y, i, n, p);
  }

  lemma SteppedOnGrid(x: real, y: real, p: nat, steps: int)
    requires p > 0 && y * p as real == steps as real
    ensures Abs(x - Stepped(x, p)) <= Abs(x - y)
  {
    SteppedTimes(x, p);
    OnGrid(x, Stepped(x, p), y, p, steps);
  }

  lemma MorePower(i: nat, j: nat)
    requires i > j
    ensures Power(i) >= 2 * Power(j)
  {
    PowerSum(j + 1, i - j - 1);
  }

  lemma FinerOnGrid(x: real, r: real, y: real, i: nat, n: int, p: nat)
    requires p > 0 && Power(i) >= 2 * p && Represents(y, i, n) && !Fits(Abs(x), 2 * p)
    requires r * p as real == Steps(x, p) as real
    ensures Abs(x - r) <= Abs(x - y)
  {
    var half, g := LIMIT / 2, p as real;
    var b := half as real / g;
    QuotientTimes(half as real, g);
    Twice(b, g, half);
    AbsTimes(y, Power(i) as real);
    FinerIsSmaller(x, y, b, 2.0 * g, Power(i) as real);
    if x < 0.0 {
      Distribute(0.0, b, g);
      OnGrid(x, r, -b, p, -half);
    } else {
      OnGrid(x, r, b, p, half);
    }
  }

  lemma Twice(b: real, g: real, half: int)
    requires b * g == half as real
    ensures b * (2.0 * g) == 2.0 * half as real
  {
  }

  lemma OnSteps(x: real, r: real, y: real, g: real, z: real, m: int, n: int)
    requires g > 0.0 && z == x * g && m == (z + 0.5).Floor && r * g == m as real && y * g == n as real
    ensures Abs(x - r) <= Abs(x - y)
  {
    NearestInteger(z, n);
    Distribute(x, r, g);
    Distribute(x, y, g);
    Scaled(x - r, x - y, g, z - m as real, z - n as real);
  }

  lemma OnGrid(x: real, r: real, y: real, p: nat, steps: int)
    requires p > 0 && r * p as real == Steps(x, p) as real && y * p as real == steps as real
    ensures Abs(x - r) <= Abs(x - y)
  {
    OnSteps(x, r, y, p as real, x * p as real, Steps(x, p), steps);
  }

  /** Correctly rounded arithmetic, made from the exact one. */
  function InDoubles(): Floats {
    Floats((i, u) => if u == 0 then 0.0 else Rounded(i as real / u as real), x => Rounded(x - 1.0))
  }

  lemma DoublesAreCorrectlyRounded()
    ensures CorrectlyRounded(InDoubles())
  {
    var a := InDoubles();
    forall i: Column, u: Column | u > 0 ensures Divides(a, i, u) {
      ColumnsDivide(i, u);
      RoundedIsNearest(i as real / u as real);
    }
    forall x: real | 0.0 < x <= LIMIT as real ensures TakesOneOff(a, x) {
      RoundedIsNearest(x - 1.0);
    }
  }
}
