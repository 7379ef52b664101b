/** Tick generation of the linear Chart.js scale: nice spacings, the ladder of ticks, and what the
    user's minimum, maximum, step size and precision make of it. */
module LinearTicks {
  import opened Rounding
  import opened Wrappers

  // ----- powers of ten -----

  function Pow10(k: int): (r: real)
    ensures r > 0.0
    decreases if k < 0 then -k else k
  {
    if k == 0 then 1.0 else if k > 0 then 10.0 * Pow10(k - 1) else Pow10(k + 1) / 10.0
  }

  lemma {:induction false} Pow10Monotone(j: int, k: int)
    requires j <= k
    ensures Pow10(j) <= Pow10(k)
    decreases k - j
  {
    if j < k {
      Pow10Monotone(j, k - 1);
    }
  }

  /** floor(log10 x): the k with 10^k <= x < 10^(k + 1). */
  function FloorLog10(x: real): (k: int)
    requires x > 0.0
    ensures Pow10(k) <= x < Pow10(k + 1)
    decreases x < 1.0, if x < 1.0 then (1.0 / x).Floor else x.Floor
  {
    if x < 1.0 then
      var k := FloorLog10(10.0 * x);
      k - 1
    else if x >= 10.0 then
      var k := FloorLog10(x / 10.0);
      k + 1
    else
      assert Pow10(0) == 1.0 && Pow10(1) == 10.0;
      0
  }

  // ----- nice numbers -----

  /** 1, 2 or 5 times a power of ten. */
  ghost predicate Nice(s: real) {
    exists k: int :: NiceAt(s, k)
  }

  ghost predicate NiceAt(s: real, k: int) {
    s == Pow10(k) || s == 2.0 * Pow10(k) || s == 5.0 * Pow10(k)
  }

  function NiceFraction(fraction: real, round: bool): (r: real)
    ensures !round && 1.0 <= fraction < 10.0 ==> fraction <= r < 2.5 * fraction
    ensures r == 1.0 || r == 2.0 || r == 5.0 || r == 10.0
  {
    if round then
      if fraction < 1.5 then 1.0 else if fraction < 3.0 then 2.0 else if fraction < 7.0 then 5.0 else 10.0
    else if fraction <= 1.0 then 1.0
    else if fraction <= 2.0 then 2.0
    else if fraction <= 5.0 then 5.0
    else 10.0
  }

  function NiceNum(range: real, round: bool): (r: real)
    requires range > 0.0
    ensures r > 0.0
  {
    var exponent := FloorLog10(range);
    NiceFraction(range / Pow10(exponent), round) * Pow10(exponent)
  }

  /** The next nice number: not below the range and less than two and a half times as large. */
  lemma NiceNumBounds(range: real)
    requires range > 0.0
    ensures range <= NiceNum(range, false) < 2.5 * range && Nice(NiceNum(range, false))
  {
    var k := FloorLog10(range);
    var p := Pow10(k);
    var fraction := range / p;
    FractionBounds(fraction, p, range);
    ScaleBounds(fraction, NiceFraction(fraction, false), p, range);
    NiceFractionNice(fraction, k);
  }

  lemma NiceFractionNice(fraction: real, k: int)
    ensures Nice(NiceFraction(fraction, false) * Pow10(k))
  {
    var r := NiceFraction(fraction, false);
    if r == 10.0 {
      assert NiceAt(r * Pow10(k), k + 1);
    } else {
      assert NiceAt(r * Pow10(k), k);
    }
  }

  lemma FractionBounds(f: real, p: real, x: real)
    requires p > 0.0 && f == x / p && p <= x < 10.0 * p
    ensures 1.0 <= f < 10.0 && f * p == x
  {
    var u, v := (x - p) / p, (10.0 * p - x) / p;
    assert u * p == x - p && v * p == 10.0 * p - x && f * p == x;
    CancelFactor(f, u + 1.0, p);
    CancelFactor(f, 10.0 - v, p);
    if v <= 0.0 {
      CancelFactor(v, 0.0, p);
    }
  }

  lemma CancelFactor(a: real, b: real, e: real)
    requires e > 0.0
    ensures a * e == b * e ==> a == b
  {
    assert (a - b) * e == a * e - b * e;
  }

  lemma ScaleBounds(f: real, r: real, p: real, x: real)
    requires p > 0.0 && f * p == x && f <= r < 2.5 * f
    ensures x <= r * p < 2.5 * x
  {
    var d, e := r - f, 2.5 * f - r;
    assert d * p >= 0.0 && e * p > 0.0;
    assert d * p == r * p - f * p;
    assert e * p == 2.5 * (f * p) - r * p;
  }

  /** A larger nice number is at least twice as large. */
  lemma NiceGap(a: real, b: real)
    requires Nice(a) && Nice(b) && a < b
    ensures 2.0 * a <= b
  {
    var j :| NiceAt(a, j);
    var k :| NiceAt(b, k);
    if j < k {
      Pow10Monotone(j + 1, k);
    } else if k < j {
      Pow10Monotone(k + 1, j);
    }
  }

  // ----- decimal places -----

  ghost predicate Decimal(x: real) {
    exists p: nat :: DecimalAt(x, p)
  }

  lemma NiceIsDecimal(s: real)
    requires Nice(s)
    ensures Decimal(s)
  {
    var k :| NiceAt(s, k);
    if k >= 0 {
      Pow10Whole(k);
      TimesDigit(s, Pow10(k));
      WholeIsDecimal(s);
    } else {
      Pow10Inverse(-k);
      Inverse(s, Pow10(k), Pow10(-k));
      assert DecimalAt(s, -k);
    }
  }

  lemma WholeIsDecimal(s: real)
    requires Whole(s)
    ensures Decimal(s)
  {
    assert Pow10(0) == 1.0;
    assert Scale(s, Pow10(0)) == s;
    assert DecimalAt(s, 0);
  }

  lemma TimesDigit(s: real, p: real)
    requires Whole(p) && (s == p || s == 2.0 * p || s == 5.0 * p)
    ensures Whole(s)
  {
    var n := p.Floor;
    if s == 2.0 * p {
      IntegerWhole(2 * n, s);
    } else if s == 5.0 * p {
      IntegerWhole(5 * n, s);
    }
  }

  lemma IntegerWhole(n: int, x: real)
    requires x == n as real
    ensures Whole(x)
  {
  }

  lemma {:induction false} Pow10Inverse(k: int)
    requires k >= 0
    ensures Scale(Pow10(-k), Pow10(k)) == 1.0
  {
    if k > 0 {
      Pow10Inverse(k - 1);
      var a, b, c, d := Pow10(-k), Pow10(-(k - 1)), Pow10(k), Pow10(k - 1);
      assert b == 10.0 * a by {
      }
    }
  }

  lemma Inverse(s: real, p: real, t: real)
    requires Scale(p, t) == 1.0 && (s == p || s == 2.0 * p || s == 5.0 * p)
    ensures Whole(Scale(s, t))
  {
    assert (2.0 * p) * t == 2.0 * (p * t) && (5.0 * p) * t == 5.0 * (p * t);
    assert Scale(s, t) == 1.0 || Scale(s, t) == 2.0 || Scale(s, t) == 5.0;
    assert Whole(1.0) && Whole(2.0) && Whole(5.0);
  }

  lemma WholeProduct(x: real, y: real)
    requires Whole(x) && Whole(y)
    ensures Whole(Scale(x, y))
  {
    assert Scale(x, y) == (x.Floor * y.Floor) as real;
  }

  lemma {:induction false} Pow10Whole(k: nat)
    ensures Whole(Pow10(k))
  {
    if k > 0 {
      Pow10Whole(k - 1);
      assert Pow10(k) == (10 * Pow10(k - 1).Floor) as real;
    }
  }

  function Scale(x: real, e: real): real {
    x * e
  }

  ghost predicate DecimalAt(x: real, p: nat) {
    Whole(Scale(x, Pow10(p)))
  }

  /** Math.round(x * e) / e. */
  function RoundTo(x: real, e: real): real
    requires e > 0.0
  {
    Round(Scale(x, e)) as real / e
  }

  /** The number of digits behind the decimal point; the loop ends on every decimal number. */
  method DecimalPlaces(x: real) returns (p: nat)
    requires Decimal(x)
    ensures DecimalAt(x, p) && forall q: nat :: q < p ==> !DecimalAt(x, q)
  {
    var e := 1.0;
    p := 0;
    ghost var bound: nat :| DecimalAt(x, bound);
    RoundBack(x, e);
    while RoundTo(x, e) != x
      invariant e == Pow10(p) && p <= bound
      invariant RoundTo(x, e) == x <==> DecimalAt(x, p)
      invariant forall q: nat :: q < p ==> !DecimalAt(x, q)
      decreases bound - p
    {
      e := e * 10.0;
      p := p + 1;
      RoundBack(x, e);
    }
  }

  lemma RoundWhole(z: real)
    ensures Round(z) as real == z <==> Whole(z)
  {
    var n, m := Round(z), z.Floor;
    assert (n as real).Floor == n;
    assert (m as real + 0.5).Floor == m;
  }

  /** Rounding after scaling changes nothing exactly when the scaled number is whole. */
  lemma RoundBack(x: real, e: real)
    requires e > 0.0
    ensures RoundTo(x, e) == x <==> Whole(Scale(x, e))
  {
    var z := Scale(x, e);
    RoundWhole(z);
  }

  lemma ScaledMultiple(m: real, s: real, e: real, x: real)
    requires x == m * s
    ensures Scale(x, e) == Scale(m, Scale(s, e))
  {
  }

  /** Multiples of a spacing survive rounding to the spacing's decimal places. */
  lemma MultipleExact(m: int, s: real, p: nat, x: real)
    requires DecimalAt(s, p) && x == m as real * s
    ensures RoundTo(x, Pow10(p)) == x
  {
    var f := Pow10(p);
    WholeProduct(m as real, Scale(s, f));
    ScaledMultiple(m as real, s, f, x);
    RoundBack(x, f);
  }

  // ----- the ladder of ticks -----

  const MIN_SPACING := 0.00000000000001

  lemma DivideOrder(a: real, b: real, s: real)
    requires s > 0.0
    ensures a < b ==> a / s < b / s
    ensures a <= b ==> a / s <= b / s
    ensures a / s * s == a
  {
    var d := (b - a) / s;
    assert d * s == b - a;
    assert b / s == a / s + d by {
      CancelFactor(b / s, a / s + d, s);
    }
    if d <= 0.0 && a < b {
      CancelFactor(d, 0.0, s);
    }
  }

  /** How many spaces of width `s` cover the range from a multiple of `s` on. */
  function Spaces(rmin: real, rmax: real, s: real): int
    requires s > 0.0
  {
    Ceil(rmax / s) - (rmin / s).Floor
  }

  /** A nice number of units, wide enough for the span to need no more than `m` of it. */
  function NiceStep(span: real, m: int, u: real): (s: real)
    requires span > 0.0 && m >= 1 && u > 0.0
    ensures s > 0.0
  {
    DivideOrder(0.0, span, m as real);
    DivideOrder(0.0, span / m as real, u);
    Scale(NiceNum(span / m as real / u, false), u)
  }

  lemma NiceStepBounds(span: real, m: int, u: real) returns (t: real)
    requires span > 0.0 && m >= 1 && u > 0.0
    ensures Nice(t) && Scale(t, u) == NiceStep(span, m, u) && span <= m as real * Scale(t, u)
  {
    DivideOrder(0.0, span, m as real);
    DivideOrder(0.0, span / m as real, u);
    t := NiceNum(span / m as real / u, false);
    NiceNumBounds(span / m as real / u);
    WideEnough(span, m, u, t);
  }

  lemma WideEnough(span: real, m: int, u: real, t: real)
    requires span > 0.0 && m >= 1 && u > 0.0 && span / m as real / u <= t
    ensures span <= m as real * Scale(t, u)
  {
    var q := span / m as real;
    DivideOrder(0.0, q, u);
    ProductOrder(q / u, t, u);
  }

  function FirstSpacing(rmin: real, rmax: real, maxSpaces: int, u: real): (r: real)
    requires rmin < rmax && maxSpaces >= 1 && u > 0.0
    ensures r > 0.0
  {
    NiceStep(rmax - rmin, maxSpaces, u)
  }

  lemma SpacesPositive(rmin: real, rmax: real, s: real)
    requires s > 0.0 && rmin < rmax
    ensures Spaces(rmin, rmax, s) >= 1
  {
    DivideOrder(rmin, rmax, s);
  }

  /** The spacing is widened once if too many spaces would be needed. */
  function FinalSpacing(rmin: real, rmax: real, maxSpaces: int, u: real): (r: real)
    requires rmin < rmax && maxSpaces >= 1 && u > 0.0
    ensures r > 0.0
  {
    var s := FirstSpacing(rmin, rmax, maxSpaces, u);
    var n := Spaces(rmin, rmax, s);
    SpacesPositive(rmin, rmax, s);
    if n > maxSpaces then NiceStep(Scale(n as real, s), maxSpaces, u) else s
  }

  /** The j-th multiple of the spacing from the last one at or below the minimum. */
  ghost function Rung(rmin: real, s: real, j: int): real
    requires s > 0.0
  {
    ((rmin / s).Floor + j) as real * s
  }

  /** A tick for every rung of the range, but at the ends the user's minimum and maximum where they are set. */
  ghost predicate Ladder(ticks: seq<real>, rmin: real, rmax: real, s: real, min: Option<real>, max: Option<real>)
    requires s > 0.0
  {
    var n := Spaces(rmin, rmax, s);
    && |ticks| == n + 1 >= 2
    && ticks[0] == (if min.Some? then min.value else Rung(rmin, s, 0))
    && ticks[n] == (if max.Some? then max.value else Rung(rmin, s, n))
    && forall j :: 0 < j < n ==> ticks[j] == Rung(rmin, s, j)
  }

  lemma FinalSpacingNice(rmin: real, rmax: real, maxSpaces: int, u: real) returns (t: real)
    requires rmin < rmax && maxSpaces >= 1 && u > 0.0
    ensures Nice(t) && Scale(t, u) == FinalSpacing(rmin, rmax, maxSpaces, u)
  {
    var s := FirstSpacing(rmin, rmax, maxSpaces, u);
    var n := Spaces(rmin, rmax, s);
    SpacesPositive(rmin, rmax, s);
    if n > maxSpaces {
      t := NiceStepBounds(Scale(n as real, s), maxSpaces, u);
    } else {
      t := NiceStepBounds(rmax - rmin, maxSpaces, u);
    }
  }

  predicate AlmostEquals(x: real, y: real, epsilon: real) {
    (if x < y then y - x else x - y) < epsilon
  }

  lemma LadderSpan(rmin: real, rmax: real, s: real)
    requires s > 0.0
    ensures (Ceil(rmax / s) as real * s - (rmin / s).Floor as real * s) / s == Spaces(rmin, rmax, s) as real
    ensures Whole(Spaces(rmin, rmax, s) as real)
  {
    var n := Spaces(rmin, rmax, s);
    assert (n as real).Floor == n;
    var a, b := Ceil(rmax / s) as real, (rmin / s).Floor as real;
    assert a * s - b * s == (a - b) * s;
    assert ((a - b) * s) / s == a - b by {
      CancelFactor(((a - b) * s) / s, a - b, s);
    }
  }

  // ----- the user's options -----

  datatype Options = Options(maxTicks: int, stepSize: Option<real>, precision: Option<nat>,
                             min: Option<real>, max: Option<real>)

  /** A step size of zero counts as none; every floating point number is decimal. */
  predicate HasStep(o: Options) {
    o.stepSize.Some? && o.stepSize.value != 0.0
  }

  ghost predicate Sound(o: Options) {
    o.maxTicks >= 2 && (o.stepSize.Some? ==> o.stepSize.value >= 0.0 && Decimal(o.stepSize.value))
  }

  function Unit(o: Options): (u: real)
    requires Sound(o)
    ensures u > 0.0
  {
    if HasStep(o) then o.stepSize.value else 1.0
  }

  function NiceSpacing(o: Options, rmin: real, rmax: real): (s: real)
    requires Sound(o) && rmin < rmax
    ensures s > 0.0
  {
    FinalSpacing(rmin, rmax, o.maxTicks - 1, Unit(o))
  }

  /** The next number with `p` decimal places. */
  function RoundUp(s: real, p: nat): (r: real)
    requires s > 0.0
    ensures r > 0.0
  {
    Ceil(Scale(s, Pow10(p))) as real / Pow10(p)
  }

  /** The final spacing: a precision widens it, but only where no step size is set. */
  function StepOf(o: Options, rmin: real, rmax: real): (s: real)
    requires Sound(o) && rmin < rmax
    ensures s > 0.0
  {
    if HasStep(o) || o.precision.None? then NiceSpacing(o, rmin, rmax)
    else RoundUp(NiceSpacing(o, rmin, rmax), o.precision.value)
  }

  predicate AlmostWhole(x: real, epsilon: real) {
    Round(x) as real - epsilon <= x <= Round(x) as real + epsilon
  }

  /** With a step size, the user's limit replaces the multiple of the spacing if it is almost one itself. */
  predicate TakesLimit(o: Options, limit: Option<real>, s: real)
    requires s > 0.0
  {
    HasStep(o) && limit.Some? && AlmostWhole(limit.value / s, s / 1000.0)
  }

  function Start(o: Options, rmin: real, s: real): real
    requires s > 0.0
  {
    if TakesLimit(o, o.min, s) then o.min.value else (rmin / s).Floor as real * s
  }

  function End(o: Options, rmax: real, s: real): real
    requires s > 0.0
  {
    if TakesLimit(o, o.max, s) then o.max.value else Ceil(rmax / s) as real * s
  }

  /** Ticks from `a` to `b` in steps of `s`, `e` being the power of ten that the ticks are rounded with. */
  ghost predicate Climbed(ticks: seq<real>, a: real, b: real, s: real, e: real, min: Option<real>, max: Option<real>)
    requires s > 0.0 && e > 0.0
  {
    var n := CountSpaces((b - a) / s, s);
    && |ticks| == (if n < 1 then 1 else n) + 1
    && ticks[0] == (if min.Some? then min.value else RoundTo(a, e))
    && ticks[|ticks| - 1] == (if max.Some? then max.value else RoundTo(b, e))
    && forall j :: 0 < j < n ==> ticks[j] == StepFrom(RoundTo(a, e), j, s)
  }

  /** The spacing is too fine to calculate with, and nobody asks for more ticks than two. */
  predicate TooFine(o: Options, rmin: real, rmax: real)
    requires Sound(o) && rmin < rmax
  {
    FirstSpacing(rmin, rmax, o.maxTicks - 1, Unit(o)) < MIN_SPACING && o.min.None? && o.max.None?
  }

  /** Generates the ticks; `places` is the number of decimal places they are rounded to. */
  method GenerateTicks(o: Options, rmin: real, rmax: real) returns (ticks: seq<real>, ghost places: nat)
    requires Sound(o) && rmin < rmax
    ensures TooFine(o, rmin, rmax) ==> ticks == [rmin, rmax]
    ensures !TooFine(o, rmin, rmax) ==>
      var s := StepOf(o, rmin, rmax);
      && DecimalAt(s, places)
      && Climbed(ticks, Start(o, rmin, s), End(o, rmax, s), s, Pow10(places), o.min, o.max)
      && (!TakesLimit(o, o.min, s) && !TakesLimit(o, o.max, s) ==> Ladder(ticks, rmin, rmax, s, o.min, o.max))
      && if HasStep(o) || o.precision.None? then forall q: nat :: q < places ==> !DecimalAt(s, q)
         else places == o.precision.value
  {
    var unit, maxNumSpaces := Unit(o), o.maxTicks - 1;
    var spacing := NiceStep(rmax - rmin, maxNumSpaces, unit);
    if spacing < MIN_SPACING && o.min.None? && o.max.None? {
      places := 0;
      return [rmin, rmax], places;
    }
    spacing := Widen(rmin, rmax, maxNumSpaces, unit, spacing);
    var digits: nat;
    if HasStep(o) || o.precision.None? {
      NiceSpacingDecimal(o, rmin, rmax);
      digits := DecimalPlaces(spacing);
    } else {
      digits := o.precision.value;
      RoundUpDecimal(spacing, digits);
      spacing := RoundUp(spacing, digits);
    }
    places := digits;
    ticks := Climb(o, rmin, rmax, spacing, digits);
  }

  method Widen(rmin: real, rmax: real, maxNumSpaces: int, unit: real, spacing: real) returns (spacing': real)
    requires rmin < rmax && maxNumSpaces >= 1 && unit > 0.0 && spacing == FirstSpacing(rmin, rmax, maxNumSpaces, unit)
    ensures spacing' == FinalSpacing(rmin, rmax, maxNumSpaces, unit)
  {
    var numSpaces := Ceil(rmax / spacing) - (rmin / spacing).Floor;
    spacing' := spacing;
    if numSpaces > maxNumSpaces {
      spacing' := NiceStep(Scale(numSpaces as real, spacing), maxNumSpaces, unit);
    }
  }

  lemma {:induction false} Pow10Sum(p: nat, q: nat)
    ensures Pow10(p + q) == Scale(Pow10(p), Pow10(q))
  {
    if p > 0 {
      Pow10Sum(p - 1, q);
      assert Pow10(p + q) == 10.0 * Pow10(p - 1 + q);
      assert (10.0 * Pow10(p - 1)) * Pow10(q) == 10.0 * (Pow10(p - 1) * Pow10(q));
    }
  }

  lemma DecimalProduct(x: real, p: nat, y: real, q: nat)
    requires DecimalAt(x, p) && DecimalAt(y, q)
    ensures DecimalAt(Scale(x, y), p + q)
  {
    Pow10Sum(p, q);
    WholeProduct(Scale(x, Pow10(p)), Scale(y, Pow10(q)));
    Rearranged(x, y, Pow10(p), Pow10(q));
  }

  lemma Rearranged(x: real, y: real, a: real, b: real)
    ensures Scale(Scale(x, a), Scale(y, b)) == Scale(Scale(x, y), Scale(a, b))
  {
  }

  lemma NiceSpacingDecimal(o: Options, rmin: real, rmax: real)
    requires Sound(o) && rmin < rmax
    ensures Decimal(NiceSpacing(o, rmin, rmax))
  {
    var t := FinalSpacingNice(rmin, rmax, o.maxTicks - 1, Unit(o));
    NiceIsDecimal(t);
    UnitDecimal(o);
    DecimalTimes(t, Unit(o));
  }

  lemma UnitDecimal(o: Options)
    requires Sound(o)
    ensures Decimal(Unit(o))
  {
    if !HasStep(o) {
      assert Whole(1.0);
      WholeIsDecimal(1.0);
    }
  }

  lemma DecimalTimes(x: real, y: real)
    requires Decimal(x) && Decimal(y)
    ensures Decimal(Scale(x, y))
  {
    var p: nat :| DecimalAt(x, p);
    var q: nat :| DecimalAt(y, q);
    DecimalProduct(x, p, y, q);
  }

  lemma RoundUpDecimal(s: real, p: nat)
    requires s > 0.0
    ensures DecimalAt(RoundUp(s, p), p)
  {
    var c, e := Ceil(Scale(s, Pow10(p))) as real, Pow10(p);
    assert Scale(c / e, e) == c;
  }

  // ----- the climb -----

  /** The number of spaces between the ends: the nearest whole number if that is close, or else the next. */
  function CountSpaces(span: real, spacing: real): (n: int)
    requires spacing > 0.0
    ensures Whole(span) ==> n as real == span
  {
    RoundWhole(span);
    DivideOrder(0.0, spacing, 1000.0);
    if AlmostEquals(span, Round(span) as real, spacing / 1000.0) then Round(span) else Ceil(span)
  }

  method Climb(o: Options, rmin: real, rmax: real, spacing: real, places: nat) returns (ticks: seq<real>)
    requires rmin < rmax && spacing > 0.0 && DecimalAt(spacing, places)
    ensures Climbed(ticks, Start(o, rmin, spacing), End(o, rmax, spacing), spacing, Pow10(places), o.min, o.max)
    ensures !TakesLimit(o, o.min, spacing) && !TakesLimit(o, o.max, spacing) ==>
      Ladder(ticks, rmin, rmax, spacing, o.min, o.max)
  {
    var niceMin, niceMax := FindEnds(o, rmin, rmax, spacing);
    var numSpaces := CountSpaces((niceMax - niceMin) / spacing, spacing);
    var first := if o.min.Some? then o.min.value else RoundTo(niceMin, Pow10(places));
    var last := if o.max.Some? then o.max.value else RoundTo(niceMax, Pow10(places));
    ticks := ClimbFrom(first, niceMin, numSpaces, spacing, places);
    ticks := ticks + [last];
    if !TakesLimit(o, o.min, spacing) && !TakesLimit(o, o.max, spacing) {
      ClimbedLadder(ticks, rmin, rmax, spacing, places, o.min, o.max);
    }
  }

  method FindEnds(o: Options, rmin: real, rmax: real, spacing: real) returns (niceMin: real, niceMax: real)
    requires spacing > 0.0
    ensures niceMin == Start(o, rmin, spacing) && niceMax == End(o, rmax, spacing)
  {
    niceMin := (rmin / spacing).Floor as real * spacing;
    niceMax := Ceil(rmax / spacing) as real * spacing;
    if HasStep(o) {
      if o.min.Some? && AlmostWhole(o.min.value / spacing, spacing / 1000.0) {
        niceMin := o.min.value;
      }
      if o.max.Some? && AlmostWhole(o.max.value / spacing, spacing / 1000.0) {
        niceMax := o.max.value;
      }
    }
  }

  method ClimbFrom(first: real, niceMin: real, numSpaces: int, spacing: real, places: nat) returns (ticks: seq<real>)
    requires spacing > 0.0 && DecimalAt(spacing, places)
    ensures |ticks| == (if numSpaces < 1 then 1 else numSpaces) && ticks[0] == first
    ensures forall j :: 0 < j < numSpaces ==> ticks[j] == StepFrom(RoundTo(niceMin, Pow10(places)), j, spacing)
  {
    var factor := Pow10(places);
    var start := RoundTo(niceMin, factor);
    ticks := [first];
    var j := 1;
    while j < numSpaces
      invariant 1 <= j <= (if numSpaces < 1 then 1 else numSpaces) && |ticks| == j && ticks[0] == first
      invariant forall i :: 0 < i < j ==> ticks[i] == StepFrom(start, i, spacing)
    {
      StepExact(niceMin, spacing, places, j);
      ticks := ticks + [RoundTo(start + j as real * spacing, factor)];
      j := j + 1;
    }
  }

  function StepFrom(a: real, j: int, s: real): real {
    a + j as real * s
  }

  /** A step from a rounded start needs no rounding. */
  lemma StepExact(a: real, s: real, p: nat, j: int)
    requires DecimalAt(s, p)
    ensures RoundTo(StepFrom(RoundTo(a, Pow10(p)), j, s), Pow10(p)) == StepFrom(RoundTo(a, Pow10(p)), j, s)
  {
    var e := Pow10(p);
    var r := RoundTo(a, e);
    RoundedWhole(a, e);
    assert Whole(j as real);
    WholeProduct(j as real, Scale(s, e));
    WholeSum(Scale(r, e), Scale(j as real, Scale(s, e)));
    ScaledStep(r, j, s, e);
    RoundBack(StepFrom(r, j, s), e);
  }

  lemma RoundedWhole(a: real, e: real)
    requires e > 0.0
    ensures Whole(Scale(RoundTo(a, e), e))
  {
    var n := Round(Scale(a, e)) as real;
    assert Scale(n / e, e) == n;
  }

  lemma ScaledStep(r: real, j: int, s: real, e: real)
    ensures Scale(StepFrom(r, j, s), e) == Scale(r, e) + Scale(j as real, Scale(s, e))
  {
    assert (j as real * s) * e == j as real * (s * e);
  }

  lemma WholeSum(x: real, y: real)
    requires Whole(x) && Whole(y)
    ensures Whole(x + y)
  {
    assert x + y == (x.Floor + y.Floor) as real;
  }

  /** Between multiples of the spacing the climb goes from rung to rung. */
  lemma ClimbedLadder(ticks: seq<real>, rmin: real, rmax: real, s: real, p: nat, min: Option<real>, max: Option<real>)
    requires rmin < rmax && s > 0.0 && DecimalAt(s, p)
    requires Climbed(ticks, (rmin / s).Floor as real * s, Ceil(rmax / s) as real * s, s, Pow10(p), min, max)
    ensures Ladder(ticks, rmin, rmax, s, min, max)
  {
    var n := Spaces(rmin, rmax, s);
    LadderEnds(rmin, rmax, s, p);
    SpacesPositive(rmin, rmax, s);
    forall j | 0 < j < n ensures ticks[j] == Rung(rmin, s, j) {
      RungFrom(rmin, s, j);
    }
  }

  lemma LadderEnds(rmin: real, rmax: real, s: real, p: nat)
    requires s > 0.0 && DecimalAt(s, p)
    ensures var a, b, n := (rmin / s).Floor as real * s, Ceil(rmax / s) as real * s, Spaces(rmin, rmax, s);
      && CountSpaces((b - a) / s, s) == n
      && RoundTo(a, Pow10(p)) == a == Rung(rmin, s, 0) && RoundTo(b, Pow10(p)) == b == Rung(rmin, s, n)
  {
    var a, b := (rmin / s).Floor as real * s, Ceil(rmax / s) as real * s;
    LadderSpan(rmin, rmax, s);
    MultipleExact((rmin / s).Floor, s, p, a);
    MultipleExact(Ceil(rmax / s), s, p, b);
  }

  lemma RungFrom(rmin: real, s: real, j: int)
    requires s > 0.0
    ensures Rung(rmin, s, j) == StepFrom((rmin / s).Floor as real * s, j, s)
  {
    assert ((rmin / s).Floor + j) as real == (rmin / s).Floor as real + j as real;
  }

  // ----- what the ticks guarantee -----

  lemma FloorBracket(x: real, s: real, f: int)
    requires s > 0.0 && f == (x / s).Floor
    ensures f as real * s <= x < f as real * s + s
  {
    var q := x / s;
    assert q * s == x;
    Straddle(f as real, q, s, x);
  }

  lemma CeilBracket(x: real, s: real, c: int)
    requires s > 0.0 && c == Ceil(x / s)
    ensures c as real * s - s < x <= c as real * s
  {
    var q := x / s;
    assert q * s == x;
    StraddleUp(c as real, q, s, x);
  }

  lemma Straddle(a: real, q: real, s: real, x: real)
    requires s > 0.0 && q * s == x && a <= q < a + 1.0
    ensures a * s <= x < a * s + s
  {
    var b := a + 1.0;
    ProductOrder(a, q, s);
    ProductOrder(q, b, s);
    assert x < b * s;
    assert b * s == a * s + s;
  }

  lemma StraddleUp(a: real, q: real, s: real, x: real)
    requires s > 0.0 && q * s == x && a - 1.0 < q <= a
    ensures a * s - s < x <= a * s
  {
    var b := a - 1.0;
    ProductOrder(b, q, s);
    ProductOrder(q, a, s);
    assert b * s < x;
    assert b * s == a * s - s;
  }

  lemma ProductOrder(a: real, b: real, s: real)
    requires s > 0.0
    ensures a <= b ==> a * s <= b * s
    ensures a < b ==> a * s < b * s
  {
    assert b * s - a * s == (b - a) * s;
  }

  lemma RungNext(rmin: real, s: real, j: int)
    requires s > 0.0
    ensures Rung(rmin, s, j + 1) == Rung(rmin, s, j) + s
  {
  }

  lemma RungEnds(rmin: real, rmax: real, s: real, n: int)
    requires s > 0.0 && n == Spaces(rmin, rmax, s)
    ensures Rung(rmin, s, 0) <= rmin < Rung(rmin, s, 1)
    ensures Rung(rmin, s, n - 1) < rmax <= Rung(rmin, s, n)
  {
    FloorBracket(rmin, s, (rmin / s).Floor);
    CeilBracket(rmax, s, Ceil(rmax / s));
    RungNext(rmin, s, 0);
    RungNext(rmin, s, n - 1);
  }

  /** The ticks increase, the first step holds the minimum and the last step the maximum; all steps between rungs are
      equal, and a step from or to a limit of the user is at most as wide. */
  lemma LadderBrackets(ticks: seq<real>, rmin: real, rmax: real, s: real, min: Option<real>, max: Option<real>)
    requires rmin < rmax && s > 0.0 && Ladder(ticks, rmin, rmax, s, min, max)
    requires (min.Some? ==> min.value == rmin) && (max.Some? ==> max.value == rmax)
    ensures |ticks| >= 2
    ensures ticks[0] <= rmin < ticks[1]
    ensures ticks[|ticks| - 2] < rmax <= ticks[|ticks| - 1]
    ensures forall j, k :: 0 <= j && k == j + 1 < |ticks| ==> 0.0 < ticks[k] - ticks[j] <= s
    ensures forall j, k :: (min.None? || 0 < j) && 0 <= j && k == j + 1 < |ticks| && (max.None? || k < |ticks| - 1) ==>
      ticks[k] - ticks[j] == s
  {
    var n := |ticks| - 1;
    RungEnds(rmin, rmax, s, n);
    forall j | 0 <= j < n ensures Rung(rmin, s, j + 1) == Rung(rmin, s, j) + s {
      RungNext(rmin, s, j);
    }
    forall j, k | 0 <= j && k == j + 1 < |ticks|
      ensures 0.0 < ticks[k] - ticks[j] <= s
      ensures (min.None? || 0 < j) && (max.None? || k < n) ==> ticks[k] - ticks[j] == s
    {
      StepWidth(ticks, rmin, rmax, s, min, max, j);
    }
  }

  lemma StepWidth(ticks: seq<real>, rmin: real, rmax: real, s: real, min: Option<real>, max: Option<real>, j: nat)
    requires rmin < rmax && s > 0.0 && Ladder(ticks, rmin, rmax, s, min, max) && j + 1 < |ticks|
    requires (min.Some? ==> min.value == rmin) && (max.Some? ==> max.value == rmax)
    ensures 0.0 < ticks[j + 1] - ticks[j] <= s
    ensures (min.None? || 0 < j) && (max.None? || j + 1 < |ticks| - 1) ==> ticks[j + 1] - ticks[j] == s
  {
    RungEnds(rmin, rmax, s, |ticks| - 1);
    RungNext(rmin, s, j);
  }

  /** Fewer than span / s + 2 spaces cover a range. */
  lemma SpacesBound(rmin: real, rmax: real, s: real)
    requires s > 0.0
    ensures Spaces(rmin, rmax, s) as real * s < rmax - rmin + 2.0 * s
  {
    FloorBracket(rmin, s, (rmin / s).Floor);
    CeilBracket(rmax, s, Ceil(rmax / s));
    var lo, hi := (rmin / s).Floor, Ceil(rmax / s);
    assert hi as real * s - lo as real * s == (hi - lo) as real * s;
  }

  /** The ladder fits the requested number of ticks whenever at least three are allowed; two may become three. */
  lemma LadderLength(rmin: real, rmax: real, maxTicks: int, u: real)
    requires 2 <= maxTicks && rmin < rmax && u > 0.0
    ensures Spaces(rmin, rmax, FinalSpacing(rmin, rmax, maxTicks - 1, u)) + 1 <= if maxTicks >= 3 then maxTicks else 3
  {
    var m := maxTicks - 1;
    var s1, s2 := FirstSpacing(rmin, rmax, m, u), FinalSpacing(rmin, rmax, m, u);
    if Spaces(rmin, rmax, s1) > m {
      WidenedTwice(rmin, rmax, m, u);
      WidenedSpaces(rmin, rmax, m, s1, s2);
    }
  }

  /** The first spacing is wide enough for the span, and a widened one is at least twice as wide. */
  lemma WidenedTwice(rmin: real, rmax: real, m: int, u: real)
    requires m >= 1 && rmin < rmax && u > 0.0
    ensures var s := FirstSpacing(rmin, rmax, m, u);
      && rmax - rmin <= m as real * s
      && if Spaces(rmin, rmax, s) > m then 2.0 * s <= FinalSpacing(rmin, rmax, m, u)
         else s == FinalSpacing(rmin, rmax, m, u)
  {
    var s := FirstSpacing(rmin, rmax, m, u);
    var n := Spaces(rmin, rmax, s);
    var t := NiceStepBounds(rmax - rmin, m, u);
    if n > m {
      var t' := NiceStepBounds(Scale(n as real, s), m, u);
      Grows(n as real, m as real, s, Scale(t', u));
      TwiceTheStep(t, t', u);
    }
  }

  lemma Grows(n: real, m: real, a: real, b: real)
    requires n > m > 0.0 && a > 0.0 && Scale(n, a) <= m * b
    ensures a < b
  {
    ProductOrder(m, n, a);
  }

  lemma TwiceTheStep(t: real, t': real, u: real)
    requires u > 0.0 && Nice(t) && Nice(t') && Scale(t, u) < Scale(t', u)
    ensures 2.0 * Scale(t, u) <= Scale(t', u)
  {
    SmallerScale(t, t', u);
    NiceGap(t, t');
    TwiceScaled(t, t', u);
  }

  lemma SmallerScale(a: real, b: real, s: real)
    requires s > 0.0 && Scale(a, s) < Scale(b, s)
    ensures a < b
  {
    SmallerFactor(a, b, s);
  }

  lemma TwiceScaled(a: real, b: real, s: real)
    requires s > 0.0 && 2.0 * a <= b
    ensures 2.0 * Scale(a, s) <= Scale(b, s)
  {
    ProductOrder(2.0 * a, b, s);
    assert (2.0 * a) * s == 2.0 * (a * s);
  }

  lemma WidenedSpaces(rmin: real, rmax: real, m: int, s1: real, s2: real)
    requires m >= 1 && s1 > 0.0 && 2.0 * s1 <= s2 && rmax - rmin <= m as real * s1
    ensures 2 * (Spaces(rmin, rmax, s2) - 2) < m
  {
    SpacesBound(rmin, rmax, s2);
    HalfTheSpaces(Spaces(rmin, rmax, s2), m, s1, s2, rmax - rmin);
  }

  lemma HalfTheSpaces(k: int, m: int, s1: real, s2: real, span: real)
    requires m >= 1 && s1 > 0.0 && 2.0 * s1 <= s2 && span <= m as real * s1 && k as real * s2 < span + 2.0 * s2
    ensures 2 * (k - 2) < m
  {
    var c, h := k as real - 2.0, m as real;
    if c > 0.0 {
      assert c * (s2 - 2.0 * s1) >= 0.0;
    }
    assert c * s2 == k as real * s2 - 2.0 * s2;
    SmallerFactor(2.0 * c, h, s1);
  }

  lemma SmallerFactor(a: real, b: real, s: real)
    requires s > 0.0 && a * s < b * s
    ensures a < b
  {
    assert (b - a) * s > 0.0;
  }

  // ----- the number of ticks under all options -----

  lemma {:induction false} DecimalMore(s: real, q: nat, p: nat)
    requires DecimalAt(s, q) && q <= p
    ensures DecimalAt(s, p)
    decreases p
  {
    if q < p {
      DecimalMore(s, q, p - 1);
      TenTimesWhole(Scale(s, Pow10(p - 1)));
      TenTimes(s, Pow10(p - 1));
    }
  }

  lemma TenTimes(s: real, e: real)
    ensures Scale(s, 10.0 * e) == 10.0 * Scale(s, e)
  {
  }

  lemma TenTimesWhole(x: real)
    requires Whole(x)
    ensures Whole(10.0 * x)
  {
    assert 10.0 * x == (10 * x.Floor) as real;
  }

  /** Rounding a nice number up changes nothing or doubles it at least. */
  lemma RoundUpDoubles(s: real, p: nat)
    requires s > 0.0 && Nice(s)
    ensures RoundUp(s, p) == s || 2.0 * s <= RoundUp(s, p)
  {
    var k :| NiceAt(s, k);
    if p >= -k {
      NicePlaces(s, k);
      DecimalMore(s, if k < 0 then -k else 0, p);
      UpExact(s, Pow10(p));
    } else {
      HalfAtMost(s, k, p);
      UpToOne(s, Pow10(p));
    }
  }

  lemma NicePlaces(s: real, k: int)
    requires NiceAt(s, k)
    ensures DecimalAt(s, if k < 0 then -k else 0)
  {
    if k >= 0 {
      Pow10Whole(k);
      TimesDigit(s, Pow10(k));
      assert Pow10(0) == 1.0;
    } else {
      Pow10Inverse(-k);
      Inverse(s, Pow10(k), Pow10(-k));
    }
  }

  lemma UpExact(s: real, e: real)
    requires e > 0.0 && Whole(Scale(s, e))
    ensures Ceil(Scale(s, e)) as real / e == s
  {
    var z := Scale(s, e);
    CeilWhole(z);
  }

  lemma CeilWhole(z: real)
    requires Whole(z)
    ensures Ceil(z) as real == z
  {
    CeilInteger(z.Floor);
  }

  lemma CeilInteger(n: int)
    ensures Ceil(n as real) == n
  {
    assert -(n as real) == (-n) as real;
  }

  lemma HalfAtMost(s: real, k: int, p: nat)
    requires NiceAt(s, k) && p < -k
    ensures 2.0 * Scale(s, Pow10(p)) <= 1.0
  {
    Pow10Monotone(p, -k - 1);
    Pow10Inverse(-k);
    TenthOf(s, Pow10(k), Pow10(-k - 1), Pow10(p));
  }

  lemma TenthOf(s: real, a: real, b: real, e: real)
    requires a > 0.0 && 0.0 < e <= b && Scale(a, 10.0 * b) == 1.0 && (s == a || s == 2.0 * a || s == 5.0 * a)
    ensures 2.0 * Scale(s, e) <= 1.0
  {
    assert a * b == 0.1;
    assert a * (b - e) >= 0.0;
  }

  lemma UpToOne(s: real, e: real)
    requires s > 0.0 && e > 0.0 && 2.0 * Scale(s, e) <= 1.0
    ensures 2.0 * s <= Ceil(Scale(s, e)) as real / e
  {
    assert Ceil(Scale(s, e)) == 1;
  }

  lemma NiceFinal(rmin: real, rmax: real, m: int)
    requires m >= 1 && rmin < rmax
    ensures Nice(FinalSpacing(rmin, rmax, m, 1.0))
  {
    var t := FinalSpacingNice(rmin, rmax, m, 1.0);
  }

  lemma FirstOf(rmin: real, rmax: real, m: int, u: real) returns (s: real)
    requires m >= 1 && rmin < rmax && u > 0.0
    ensures 0.0 < s <= FinalSpacing(rmin, rmax, m, u) && rmax - rmin <= m as real * s
  {
    s := FirstSpacing(rmin, rmax, m, u);
    WidenedTwice(rmin, rmax, m, u);
  }

  /** A precision leaves the spacing alone or doubles it at least. */
  lemma PrecisionDoubles(o: Options, rmin: real, rmax: real)
    requires Sound(o) && rmin < rmax
    ensures var s, s' := NiceSpacing(o, rmin, rmax), StepOf(o, rmin, rmax);
      s' == s || (2.0 * s <= s' && Unit(o) == 1.0)
  {
    if !HasStep(o) && o.precision.Some? {
      NiceFinal(rmin, rmax, o.maxTicks - 1);
      RoundUpDoubles(NiceSpacing(o, rmin, rmax), o.precision.value);
    }
  }

  lemma WiderSpaces(rmin: real, rmax: real, maxTicks: int, u: real, s: real)
    requires 2 <= maxTicks && rmin < rmax && u > 0.0 && 2.0 * FinalSpacing(rmin, rmax, maxTicks - 1, u) <= s
    ensures Spaces(rmin, rmax, s) + 1 <= if maxTicks >= 3 then maxTicks else 3
  {
    var s1 := FirstOf(rmin, rmax, maxTicks - 1, u);
    WidenedSpaces(rmin, rmax, maxTicks - 1, s1, s);
  }

  /** Step size and precision keep the ladder within the limit as well. */
  lemma StepSpaces(o: Options, rmin: real, rmax: real)
    requires Sound(o) && rmin < rmax
    ensures Spaces(rmin, rmax, StepOf(o, rmin, rmax)) + 1 <= if o.maxTicks >= 3 then o.maxTicks else 3
  {
    PrecisionDoubles(o, rmin, rmax);
    if StepOf(o, rmin, rmax) == NiceSpacing(o, rmin, rmax) {
      LadderLength(rmin, rmax, o.maxTicks, Unit(o));
    } else {
      WiderSpaces(rmin, rmax, o.maxTicks, Unit(o), StepOf(o, rmin, rmax));
    }
  }

  /** Ends between the last multiple below the range and the first above it need no more spaces than the range. */
  lemma CountWithin(a: real, b: real, rmin: real, rmax: real, s: real)
    requires s > 0.0 && (rmin / s).Floor as real * s <= a && b <= Ceil(rmax / s) as real * s
    ensures CountSpaces((b - a) / s, s) <= Spaces(rmin, rmax, s)
  {
    var top := Ceil(rmax / s) as real * s - (rmin / s).Floor as real * s;
    LadderSpan(rmin, rmax, s);
    DivideOrder(b - a, top, s);
  }

  /** The range holds the user's limits. */
  predicate HoldsLimits(o: Options, rmin: real, rmax: real) {
    (o.min.Some? ==> rmin <= o.min.value) && (o.max.Some? ==> o.max.value <= rmax)
  }

  lemma EndsWithin(o: Options, rmin: real, rmax: real, s: real)
    requires s > 0.0 && HoldsLimits(o, rmin, rmax)
    ensures (rmin / s).Floor as real * s <= Start(o, rmin, s) && End(o, rmax, s) <= Ceil(rmax / s) as real * s
  {
    FloorBracket(rmin, s, (rmin / s).Floor);
    CeilBracket(rmax, s, Ceil(rmax / s));
  }

  /** No options make more ticks than are allowed, or three. */
  lemma TicksWithin(ticks: seq<real>, o: Options, rmin: real, rmax: real, s: real, e: real)
    requires Sound(o) && rmin < rmax && HoldsLimits(o, rmin, rmax) && s == StepOf(o, rmin, rmax) && e > 0.0
    requires Climbed(ticks, Start(o, rmin, s), End(o, rmax, s), s, e, o.min, o.max)
    ensures |ticks| <= if o.maxTicks >= 3 then o.maxTicks else 3
  {
    StepSpaces(o, rmin, rmax);
    EndsWithin(o, rmin, rmax, s);
    var a, b := Start(o, rmin, s), End(o, rmax, s);
    CountWithin(a, b, rmin, rmax, s);
  }

  // ----- evenly spaced ticks from limit to limit -----

  ghost predicate Even(ticks: seq<real>, s: real) {
    forall j, k :: 0 <= j && k == j + 1 < |ticks| ==> ticks[k] - ticks[j] == s
  }

  lemma {:induction false} EvenSpan(ticks: seq<real>, s: real, j: nat)
    requires j < |ticks| && Even(ticks, s)
    ensures ticks[j] == StepFrom(ticks[0], j, s)
  {
    if j > 0 {
      EvenSpan(ticks, s, j - 1);
      NextStep(ticks[0], j - 1, s);
    }
  }

  lemma NextStep(a: real, j: int, s: real)
    ensures StepFrom(a, j + 1, s) == StepFrom(a, j, s) + s
  {
    assert (j + 1) as real * s == j as real * s + s;
  }

  /** `rmax` is `n` steps from `rmin` exactly if the quotient says so. */
  lemma StepsBetween(rmin: real, rmax: real, n: int, s: real)
    requires s > 0.0
    ensures rmax == StepFrom(rmin, n, s) <==> (rmax - rmin) / s == n as real
  {
    var d := (rmax - rmin) / s;
    assert d * s == rmax - rmin;
    CancelFactor(d, n as real, s);
  }

  /** A shift by whole steps changes nothing about being almost whole. */
  lemma ShiftAlmost(x: real, n: int, epsilon: real)
    ensures AlmostWhole(x + n as real, epsilon) <==> AlmostWhole(x, epsilon)
  {
    assert Round(x + n as real) == Round(x) + n;
  }

  lemma ShiftQuotient(rmin: real, rmax: real, n: int, s: real)
    requires s > 0.0 && rmax == StepFrom(rmin, n, s)
    ensures rmax / s == rmin / s + n as real
  {
    StepsBetween(rmin, rmax, n, s);
  }

  /** Ticks from the user's minimum on are even if the minimum survives rounding. */
  lemma TakenEvenIff(ticks: seq<real>, rmin: real, rmax: real, n: nat, s: real, p: nat)
    requires s > 0.0 && n >= 1 && rmax == StepFrom(rmin, n, s)
    requires Climbed(ticks, rmin, rmax, s, Pow10(p), Some(rmin), Some(rmax))
    ensures Even(ticks, s) <==> n == 1 || DecimalAt(rmin, p)
  {
    StepsBetween(rmin, rmax, n, s);
    assert Whole(n as real);
    assert |ticks| == n + 1;
    RoundBack(rmin, Pow10(p));
    NextStep(rmin, 0, s);
    if n > 1 && Even(ticks, s) {
      EvenSpan(ticks, s, 1);
      NextStep(RoundTo(rmin, Pow10(p)), 0, s);
    }
    if n == 1 || DecimalAt(rmin, p) {
      forall j, k | 0 <= j && k == j + 1 < |ticks| ensures ticks[k] - ticks[j] == s {
        NextStep(rmin, j, s);
      }
    }
  }

  /** Ticks from the multiple below the user's minimum to the one above the maximum are not even. */
  lemma PassedNotEven(ticks: seq<real>, rmin: real, rmax: real, n: nat, s: real, e: real)
    requires s > 0.0 && n >= 1 && e > 0.0 && rmax == StepFrom(rmin, n, s) && !Whole(rmin / s)
    requires Climbed(ticks, (rmin / s).Floor as real * s, Ceil(rmax / s) as real * s, s, e, Some(rmin), Some(rmax))
    ensures !Even(ticks, s)
  {
    ShiftQuotient(rmin, rmax, n, s);
    LadderSpan(rmin, rmax, s);
    assert |ticks| == n + 2;
    if Even(ticks, s) {
      EvenSpan(ticks, s, n + 1);
      NextStep(rmin, n, s);
    }
  }

  /** Between a minimum and a maximum of the user, a step size gives evenly spaced ticks exactly when a whole number of
      spaces fits in between, the minimum is almost a multiple of the spacing, and it survives rounding to the
      spacing's decimal places, which only matters with more than one space. */
  lemma EvenIff(ticks: seq<real>, o: Options, rmin: real, rmax: real, s: real, p: nat)
    requires s > 0.0 && rmin < rmax && HasStep(o) && o.min == Some(rmin) && o.max == Some(rmax)
    requires Climbed(ticks, Start(o, rmin, s), End(o, rmax, s), s, Pow10(p), o.min, o.max)
    ensures Even(ticks, s) <==>
      && Whole((rmax - rmin) / s)
      && AlmostWhole(rmin / s, s / 1000.0)
      && (rmax - rmin == s || DecimalAt(rmin, p))
  {
    if Even(ticks, s) {
      EvenSpan(ticks, s, |ticks| - 1);
      StepsBetween(rmin, rmax, |ticks| - 1, s);
      assert Whole((|ticks| - 1) as real);
    }
    if Whole((rmax - rmin) / s) {
      var n := WholeSteps(rmin, rmax, s);
      EvenIfWhole(ticks, o, rmin, rmax, n, s, p);
    }
  }

  lemma WholeSteps(rmin: real, rmax: real, s: real) returns (n: nat)
    requires s > 0.0 && rmin < rmax && Whole((rmax - rmin) / s)
    ensures n >= 1 && rmax == StepFrom(rmin, n, s) && rmax / s == rmin / s + n as real
    ensures n == 1 <==> rmax - rmin == s
  {
    DivideOrder(0.0, rmax - rmin, s);
    n := ((rmax - rmin) / s).Floor;
    StepsBetween(rmin, rmax, n, s);
    StepsBetween(rmin, rmax, 1, s);
    NextStep(rmin, 0, s);
    ShiftQuotient(rmin, rmax, n, s);
  }

  lemma EndsTaken(o: Options, rmin: real, rmax: real, n: int, s: real)
    requires s > 0.0 && HasStep(o) && o.min == Some(rmin) && o.max == Some(rmax) && rmax / s == rmin / s + n as real
    ensures if AlmostWhole(rmin / s, s / 1000.0) then Start(o, rmin, s) == rmin && End(o, rmax, s) == rmax
            else && Start(o, rmin, s) == (rmin / s).Floor as real * s && End(o, rmax, s) == Ceil(rmax / s) as real * s
                 && !Whole(rmin / s)
  {
    ShiftAlmost(rmin / s, n, s / 1000.0);
    if !AlmostWhole(rmin / s, s / 1000.0) {
      NotWhole(rmin / s, s / 1000.0);
    }
  }

  lemma NotWhole(x: real, epsilon: real)
    requires epsilon > 0.0 && !AlmostWhole(x, epsilon)
    ensures !Whole(x)
  {
    RoundWhole(x);
  }

  lemma EvenIfWhole(ticks: seq<real>, o: Options, rmin: real, rmax: real, n: nat, s: real, p: nat)
    requires s > 0.0 && rmin < rmax && HasStep(o) && o.min == Some(rmin) && o.max == Some(rmax)
    requires Climbed(ticks, Start(o, rmin, s), End(o, rmax, s), s, Pow10(p), o.min, o.max)
    requires n >= 1 && rmax == StepFrom(rmin, n, s) && rmax / s == rmin / s + n as real
    ensures Even(ticks, s) <==> AlmostWhole(rmin / s, s / 1000.0) && (n == 1 || DecimalAt(rmin, p))
  {
    EndsTaken(o, rmin, rmax, n, s);
    if AlmostWhole(rmin / s, s / 1000.0) {
      TakenEvenIff(ticks, rmin, rmax, n, s, p);
    } else {
      PassedNotEven(ticks, rmin, rmax, n, s, Pow10(p));
    }
  }

  function HalfSteps(): Options {
    Options(4, Some(1.0), None, Some(0.5), Some(2.5))
  }

  /** Two spaces of 1 fit between 0.5 and 2.5, but the ticks are 0.5, 1, 2 and 2.5. */
  lemma HalfStepsUneven()
    ensures Climbed([0.5, 1.0, 2.0, 2.5], Start(HalfSteps(), 0.5, 1.0), End(HalfSteps(), 2.5, 1.0), 1.0, Pow10(0),
                    Some(0.5), Some(2.5))
    ensures Whole((2.5 - 0.5) / 1.0) && !Even([0.5, 1.0, 2.0, 2.5], 1.0)
  {
    var ticks := [0.5, 1.0, 2.0, 2.5];
    assert Whole(2.0) && Whole(3.0);
    assert CountSpaces((3.0 - 0.0) / 1.0, 1.0) == 3;
    assert StepFrom(0.0, 1, 1.0) == 1.0 && StepFrom(0.0, 2, 1.0) == 2.0;
    assert ticks[1] - ticks[0] == 0.5;
  }

  lemma HalfStepSpacing()
    ensures Sound(HalfSteps()) && StepOf(HalfSteps(), 0.5, 2.5) == 1.0
  {
    assert Whole(1.0);
    WholeIsDecimal(1.0);
    NiceJustBelow(2.0 / 3 as real);
    assert FirstSpacing(0.5, 2.5, 3, 1.0) == 1.0;
    assert Ceil(2.5) == 3;
  }

  lemma NiceJustBelow(x: real)
    requires 0.5 < x < 1.0
    ensures NiceNum(x, false) == 1.0
  {
    var k := FloorLog10(x);
    assert Pow10(0) == 1.0;
    if k >= 0 {
      Pow10Monotone(0, k);
    } else if k < -1 {
      Pow10Monotone(k + 1, -1);
    }
    assert x / 0.1 > 5.0;
  }

  // ----- two ticks -----

  function MultipleOf(m: int, s: real): real {
    m as real * s
  }

  /** A multiple of the spacing lies strictly inside the range. */
  ghost predicate MultipleInside(rmin: real, rmax: real, s: real) {
    exists m: int :: rmin < MultipleOf(m, s) < rmax
  }

  lemma OneSpaceIff(rmin: real, rmax: real, s: real)
    requires rmin < rmax && s > 0.0
    ensures Spaces(rmin, rmax, s) == 1 <==> !MultipleInside(rmin, rmax, s)
  {
    var f, c := (rmin / s).Floor, Ceil(rmax / s);
    FloorBracket(rmin, s, f);
    CeilBracket(rmax, s, c);
    SpacesPositive(rmin, rmax, s);
    if c > f + 1 {
      FirstInside(rmin, rmax, s, f, c);
    } else {
      forall m: int ensures !(rmin < MultipleOf(m, s) < rmax) {
        NoneInside(rmin, rmax, s, f, c, m);
      }
    }
  }

  lemma FirstInside(rmin: real, rmax: real, s: real, f: int, c: int)
    requires s > 0.0 && c > f + 1 && rmin < MultipleOf(f, s) + s && MultipleOf(c, s) - s < rmax
    ensures MultipleInside(rmin, rmax, s)
  {
    MultipleOrder(f, f + 1, s);
    MultipleOrder(f + 1, c - 1, s);
    MultipleOrder(c - 1, c, s);
    assert rmin < MultipleOf(f + 1, s) < rmax;
  }

  lemma NoneInside(rmin: real, rmax: real, s: real, f: int, c: int, m: int)
    requires s > 0.0 && c <= f + 1 && MultipleOf(f, s) <= rmin && rmax <= MultipleOf(c, s)
    ensures !(rmin < MultipleOf(m, s) < rmax)
  {
    MultipleOrder(m, f, s);
    MultipleOrder(c, m, s);
  }

  lemma MultipleOrder(m: int, n: int, s: real)
    requires s > 0.0
    ensures m <= n ==> MultipleOf(m, s) <= MultipleOf(n, s)
    ensures n == m + 1 ==> MultipleOf(n, s) == MultipleOf(m, s) + s
  {
    ProductOrder(m as real, n as real, s);
  }

  /** A spacing as large as the range needs at most two spaces. */
  lemma AtMostTwoSpaces(rmin: real, rmax: real, s: real)
    requires rmin < rmax && s > 0.0 && rmax - rmin <= s
    ensures 1 <= Spaces(rmin, rmax, s) <= 2
  {
    SpacesPositive(rmin, rmax, s);
    SpacesBound(rmin, rmax, s);
    SmallerFactor(Spaces(rmin, rmax, s) as real, 3.0, s);
  }

  /** With two ticks allowed there are at most two exactly when the range has no multiple of the first spacing strictly
      inside, or none of the widened one. */
  lemma TwoTicksIff(rmin: real, rmax: real, u: real)
    requires rmin < rmax && u > 0.0
    ensures var s1 := NiceStep(rmax - rmin, 1, u); var s2 := NiceStep(2.0 * s1, 1, u);
      Spaces(rmin, rmax, FinalSpacing(rmin, rmax, 1, u)) + 1 <= 2
      <==> !MultipleInside(rmin, rmax, s1) || !MultipleInside(rmin, rmax, s2)
  {
    var s1 := NiceStep(rmax - rmin, 1, u);
    var t := NiceStepBounds(rmax - rmin, 1, u);
    AtMostTwoSpaces(rmin, rmax, s1);
    OneSpaceIff(rmin, rmax, s1);
    var s2 := NiceStep(2.0 * s1, 1, u);
    OneSpaceIff(rmin, rmax, s2);
    SpacesPositive(rmin, rmax, s2);
    assert Spaces(rmin, rmax, s1) == 2 ==> FinalSpacing(rmin, rmax, 1, u) == s2;
  }

  /** Asked for at most two ticks from -1 to 1, the generator makes three: -5, 0 and 5. */
  lemma TwoTicksExceeded()
    ensures FinalSpacing(-1.0, 1.0, 1, 1.0) == 5.0 && Spaces(-1.0, 1.0, 5.0) == 2
    ensures Ladder([-5.0, 0.0, 5.0], -1.0, 1.0, 5.0, None, None)
  {
    assert FirstSpacing(-1.0, 1.0, 1, 1.0) == 2.0;
    assert Spaces(-1.0, 1.0, 2.0) == 2;
    assert NiceStep(4.0, 1, 1.0) == 5.0;
  }

  // ----- two ticks under all options -----

  /** How far two ticks may be further apart than one spacing. */
  function Slack(s: real): real {
    Min(s / 2.0, Tolerance(s))
  }

  /** The distance from a multiple of the spacing that counts as none. */
  function Tolerance(s: real): real {
    s / 1000.0 * s
  }

  /** Counting spaces rounds down below a half if the rest is within a thousandth of the spacing's value. */
  lemma CountFraction(x: real, s: real)
    requires s > 0.0
    ensures var rest := x - x.Floor as real;
      CountSpaces(x, s) == if rest < 0.5 && rest < s / 1000.0 then x.Floor else x.Floor + 1
  {
    SlackBounds(s);
    RoundFraction(x);
    CeilFraction(x);
  }

  lemma RoundFraction(x: real)
    ensures Round(x) == if x - x.Floor as real < 0.5 then x.Floor else x.Floor + 1
  {
  }

  lemma CeilFraction(x: real)
    ensures Ceil(x) == if x == x.Floor as real then x.Floor else x.Floor + 1
  {
    if x == x.Floor as real {
      CeilInteger(x.Floor);
    }
  }

  lemma SlackBounds(s: real)
    requires s > 0.0
    ensures s / 1000.0 > 0.0 && 0.0 < Slack(s) <= s / 2.0
  {
    var t := s / 1000.0;
    PositiveProduct(t, s);
    assert Tolerance(s) == t * s;
  }

  lemma PositiveProduct(a: real, b: real)
    requires a > 0.0 && b > 0.0
    ensures a * b > 0.0
  {
  }

  lemma BelowSteps(d: real, c: real, s: real)
    requires s > 0.0
    ensures d / s < c <==> d < c * s
  {
    var x := d / s;
    assert x * s == d;
    ProductOrder(x, c, s);
    ProductOrder(c, x, s);
  }

  lemma OneSpaceCounted(d: real, s: real)
    requires s > 0.0
    ensures CountSpaces(d / s, s) <= 1 <==> d < s + Slack(s)
  {
    var t := s / 1000.0;
    CountFraction(d / s, s);
    BelowSteps(d, 1.0, s);
    BelowSteps(d, 1.5, s);
    BelowSteps(d, 1.0 + t, s);
    SlackBounds(s);
    assert (1.0 + t) * s == s + t * s;
  }

  /** Whatever the options, there are two ticks exactly if the ends of the climb are less than a spacing and its slack
      apart. */
  lemma TwoTicksEnds(ticks: seq<real>, a: real, b: real, s: real, e: real, min: Option<real>, max: Option<real>)
    requires s > 0.0 && e > 0.0 && Climbed(ticks, a, b, s, e, min, max)
    ensures |ticks| == 2 <==> b - a < s + Slack(s)
  {
    OneSpaceCounted(b - a, s);
  }

  /** A multiple of the spacing lies behind the minimum and before the maximum, clearly so at an end that the climb
      takes from the user. */
  ghost predicate MultipleClear(rmin: real, rmax: real, s: real, takesMin: bool, takesMax: bool) {
    exists m: int ::
      && (if takesMin then rmin + Slack(s) <= MultipleOf(m, s) else rmin < MultipleOf(m, s))
      && (if takesMax then MultipleOf(m, s) <= rmax - Slack(s) else MultipleOf(m, s) < rmax)
  }

  /** There are two ticks exactly if no multiple of the final spacing lies clearly inside the range; where both limits
      are taken multiples do not matter, but only the width of the range. */
  lemma TwoTicks(ticks: seq<real>, o: Options, rmin: real, rmax: real, s: real, e: real)
    requires s > 0.0 && e > 0.0 && rmin < rmax
    requires (o.min.Some? ==> o.min.value == rmin) && (o.max.Some? ==> o.max.value == rmax)
    requires Climbed(ticks, Start(o, rmin, s), End(o, rmax, s), s, e, o.min, o.max)
    ensures var takesMin, takesMax := TakesLimit(o, o.min, s), TakesLimit(o, o.max, s);
      |ticks| == 2 <==> if takesMin && takesMax then rmax - rmin < s + Slack(s)
                        else !MultipleClear(rmin, rmax, s, takesMin, takesMax)
  {
    var takesMin, takesMax := TakesLimit(o, o.min, s), TakesLimit(o, o.max, s);
    TwoTicksEnds(ticks, Start(o, rmin, s), End(o, rmax, s), s, e, o.min, o.max);
    if !(takesMin && takesMax) {
      EndsClear(rmin, rmax, s, takesMin, takesMax);
    }
  }

  /** The ends of the climb. */
  lemma EndsClear(rmin: real, rmax: real, s: real, takesMin: bool, takesMax: bool)
    requires s > 0.0 && rmin < rmax && !(takesMin && takesMax)
    ensures var a, b := (if takesMin then rmin else (rmin / s).Floor as real * s),
                        (if takesMax then rmax else Ceil(rmax / s) as real * s);
      b - a < s + Slack(s) <==> !MultipleClear(rmin, rmax, s, takesMin, takesMax)
  {
    var f, c := (rmin / s).Floor, Ceil(rmax / s);
    FloorBracket(rmin, s, f);
    CeilBracket(rmax, s, c);
    if takesMin {
      LastClear(rmin, rmax, s, c);
    } else if takesMax {
      FirstClear(rmin, rmax, s, f);
    } else {
      BothClear(rmin, rmax, s, f, c);
    }
  }

  lemma LastClear(rmin: real, rmax: real, s: real, c: int)
    requires s > 0.0 && rmin < rmax && MultipleOf(c, s) - s < rmax <= MultipleOf(c, s)
    ensures MultipleOf(c, s) - rmin < s + Slack(s) <==> !MultipleClear(rmin, rmax, s, true, false)
  {
    MultipleOrder(c - 1, c, s);
    forall m: int | MultipleOf(m, s) < rmax ensures MultipleOf(m, s) <= MultipleOf(c - 1, s) {
      MultipleOrder(c, m, s);
      MultipleOrder(m, c - 1, s);
    }
    if MultipleOf(c, s) - rmin >= s + Slack(s) {
      assert rmin + Slack(s) <= MultipleOf(c - 1, s) < rmax;
    }
  }

  lemma FirstClear(rmin: real, rmax: real, s: real, f: int)
    requires s > 0.0 && rmin < rmax && MultipleOf(f, s) <= rmin < MultipleOf(f, s) + s
    ensures rmax - MultipleOf(f, s) < s + Slack(s) <==> !MultipleClear(rmin, rmax, s, false, true)
  {
    MultipleOrder(f, f + 1, s);
    forall m: int | rmin < MultipleOf(m, s) ensures MultipleOf(f + 1, s) <= MultipleOf(m, s) {
      MultipleOrder(m, f, s);
      MultipleOrder(f + 1, m, s);
    }
    if rmax - MultipleOf(f, s) >= s + Slack(s) {
      assert rmin < MultipleOf(f + 1, s) <= rmax - Slack(s);
    }
  }

  lemma BothClear(rmin: real, rmax: real, s: real, f: int, c: int)
    requires s > 0.0 && rmin < rmax && f == (rmin / s).Floor && c == Ceil(rmax / s)
    ensures MultipleOf(c, s) - MultipleOf(f, s) < s + Slack(s) <==> !MultipleClear(rmin, rmax, s, false, false)
  {
    OneSpaceIff(rmin, rmax, s);
    SpacesPositive(rmin, rmax, s);
    SlackBounds(s);
    MultipleOrder(f, f + 1, s);
    MultipleOrder(f + 1, f + 2, s);
    MultipleOrder(f + 2, c, s);
    assert MultipleClear(rmin, rmax, s, false, false) <==> MultipleInside(rmin, rmax, s);
  }

  /** Two allowed ticks stay two where both limits are taken. */
  lemma TwoTicksKept(ticks: seq<real>, o: Options, rmin: real, rmax: real, s: real, e: real)
    requires Sound(o) && o.maxTicks == 2 && rmin < rmax && s == StepOf(o, rmin, rmax) && e > 0.0
    requires o.min == Some(rmin) && o.max == Some(rmax) && TakesLimit(o, o.min, s) && TakesLimit(o, o.max, s)
    requires Climbed(ticks, Start(o, rmin, s), End(o, rmax, s), s, e, o.min, o.max)
    ensures |ticks| == 2
  {
    var s1 := FirstOf(rmin, rmax, 1, Unit(o));
    SlackBounds(s);
    TwoTicksEnds(ticks, rmin, rmax, s, e, o.min, o.max);
  }

  // ----- increasing ticks -----

  ghost predicate Increasing(ticks: seq<real>) {
    forall j, k :: 0 <= j && k == j + 1 < |ticks| ==> ticks[j] < ticks[k]
  }

  /** How many spaces there are from a minimum next to the k-th multiple of the spacing to the b-th. */
  function SpacesFrom(rmin: real, s: real, k: int, b: int): int
    requires s > 0.0
  {
    if k as real - rmin / s == s / 1000.0 then b - k + 1 else b - k
  }

  /** The climb from the user's minimum lands at the last tick, or passes it, before it ends. If it passes over a
      maximum that is no end of it, this depends on how far both limits lie behind their multiples; if the last tick is
      its end, minimum and end have to be off by exactly the tolerance. */
  predicate LandsPast(o: Options, rmin: real, rmax: real, s: real, e: real)
    requires s > 0.0 && e > 0.0
  {
    TakesLimit(o, o.min, s) &&
    if o.max.Some? && !TakesLimit(o, o.max, s) then
      var n := SpacesFrom(rmin, s, Round(rmin / s), Ceil(rmax / s));
      n >= 2 && StepFrom(RoundTo(rmin, e), n - 1, s) >= rmax
    else
      OffByTolerance(rmin, End(o, rmax, s), s, RoundTo(rmin, e))
  }

  /** `rounded` is off `a` by the tolerance, and so is `b` from a whole number of steps behind `a`. */
  predicate OffByTolerance(a: real, b: real, s: real, rounded: real)
    requires s > 0.0
  {
    var x := (b - a) / s;
    x >= 1.0 && x - x.Floor as real == s / 1000.0 && rounded - a == Tolerance(s)
  }

  /** With limits of the user that are those of the range, the ticks increase strictly unless the climb starts at the
      user's minimum and lands past the last tick. */
  lemma IncreasingIff(ticks: seq<real>, o: Options, rmin: real, rmax: real, s: real, p: nat)
    requires s > 0.0 && DecimalAt(s, p) && rmin < rmax
    requires (o.min.Some? ==> o.min.value == rmin) && (o.max.Some? ==> o.max.value == rmax)
    requires Climbed(ticks, Start(o, rmin, s), End(o, rmax, s), s, Pow10(p), o.min, o.max)
    ensures Increasing(ticks) <==> !LandsPast(o, rmin, rmax, s, Pow10(p))
  {
    if TakesLimit(o, o.min, s) {
      TakenIncreasingIff(ticks, o, rmin, rmax, s, p);
    } else if TakesLimit(o, o.max, s) {
      StartBelow(rmin, s, p);
      OnlyMaxIncreasing(ticks, Start(o, rmin, s), rmin, rmax, s, Pow10(p), o.min);
    } else {
      ClimbedLadder(ticks, rmin, rmax, s, p, o.min, o.max);
      LadderBrackets(ticks, rmin, rmax, s, o.min, o.max);
      assert forall j, k :: 0 <= j && k == j + 1 < |ticks| ==> 0.0 < ticks[k] - ticks[j];
    }
  }

  /** Whatever the options and the range, a climb increases exactly if its first step and its last one do. */
  lemma IncreasingSteps(ticks: seq<real>, a: real, b: real, s: real, e: real, min: Option<real>, max: Option<real>)
    requires s > 0.0 && e > 0.0 && Climbed(ticks, a, b, s, e, min, max)
    ensures var n, first := |ticks| - 1, RoundTo(a, e);
      Increasing(ticks) <==> if n == 1 then ticks[0] < ticks[1]
                             else ticks[0] < StepFrom(first, 1, s) && StepFrom(first, n - 1, s) < ticks[n]
  {
    StepsIncrease(ticks, |ticks| - 1, RoundTo(a, e), s);
  }

  lemma StepsIncrease(ticks: seq<real>, n: int, first: real, s: real)
    requires s > 0.0 && n >= 1 && |ticks| == n + 1
    requires forall j :: 0 < j < n ==> ticks[j] == StepFrom(first, j, s)
    ensures Increasing(ticks) <==> if n == 1 then ticks[0] < ticks[1]
                                   else ticks[0] < StepFrom(first, 1, s) && StepFrom(first, n - 1, s) < ticks[n]
  {
    if n >= 2 && ticks[0] < StepFrom(first, 1, s) && StepFrom(first, n - 1, s) < ticks[n] {
      forall j, k | 0 <= j && k == j + 1 < |ticks| ensures ticks[j] < ticks[k] {
        NextStep(first, j, s);
      }
    }
  }

  /** Between equal limits of the user the ticks never increase. */
  lemma EqualLimits(ticks: seq<real>, a: real, b: real, s: real, e: real, v: real)
    requires s > 0.0 && e > 0.0 && Climbed(ticks, a, b, s, e, Some(v), Some(v))
    ensures !Increasing(ticks)
  {
    IncreasingSteps(ticks, a, b, s, e, Some(v), Some(v));
    if |ticks| > 2 {
      StepsOrdered(RoundTo(a, e), |ticks| - 2, s);
    }
  }

  lemma StepsOrdered(first: real, n: int, s: real)
    requires s > 0.0 && n >= 1
    ensures StepFrom(first, 1, s) <= StepFrom(first, n, s)
  {
    ScaleOrder(1.0, n as real, s);
    assert StepFrom(first, n, s) == first + Scale(n as real, s) && Scale(1.0, s) == s;
  }

  lemma ClimbIncreasing(ticks: seq<real>, a: real, b: real, s: real, e: real, min: Option<real>, max: Option<real>)
    requires s > 0.0 && e > 0.0 && Climbed(ticks, a, b, s, e, min, max)
    requires ticks[0] < RoundTo(a, e) + s && ticks[0] < ticks[|ticks| - 1]
    ensures var n := CountSpaces((b - a) / s, s);
      Increasing(ticks) <==> n < 2 || StepFrom(RoundTo(a, e), n - 1, s) < ticks[|ticks| - 1]
  {
    IncreasingSteps(ticks, a, b, s, e, min, max);
    assert StepFrom(RoundTo(a, e), 1, s) == RoundTo(a, e) + s;
  }

  /** The last step of a climb begins before its end. */
  lemma CountBelow(a: real, b: real, s: real)
    requires s > 0.0
    ensures StepFrom(a, CountSpaces((b - a) / s, s) - 1, s) < b
  {
    var x := (b - a) / s;
    var last := (CountSpaces(x, s) - 1) as real;
    CountFraction(x, s);
    ScaleOrder(last, x, s);
    assert Scale(x, s) == b - a && StepFrom(a, CountSpaces(x, s) - 1, s) == a + Scale(last, s);
  }

  lemma OnlyMaxIncreasing(ticks: seq<real>, a: real, rmin: real, rmax: real, s: real, e: real, min: Option<real>)
    requires s > 0.0 && e > 0.0 && a <= rmin < a + s && rmin < rmax && RoundTo(a, e) == a
    requires (min.Some? ==> min.value == rmin) && Climbed(ticks, a, rmax, s, e, min, Some(rmax))
    ensures Increasing(ticks)
  {
    CountBelow(a, rmax, s);
    ClimbIncreasing(ticks, a, rmax, s, e, min, Some(rmax));
  }

  lemma StartBelow(rmin: real, s: real, p: nat)
    requires s > 0.0 && DecimalAt(s, p)
    ensures var a := (rmin / s).Floor as real * s; a <= rmin < a + s && RoundTo(a, Pow10(p)) == a
  {
    FloorBracket(rmin, s, (rmin / s).Floor);
    MultipleExact((rmin / s).Floor, s, p, (rmin / s).Floor as real * s);
  }

  lemma EndAbove(rmax: real, s: real, p: nat)
    requires s > 0.0 && DecimalAt(s, p)
    ensures var b := Ceil(rmax / s) as real * s; b - s < rmax <= b && RoundTo(b, Pow10(p)) == b
  {
    CeilBracket(rmax, s, Ceil(rmax / s));
    MultipleExact(Ceil(rmax / s), s, p, Ceil(rmax / s) as real * s);
  }

  lemma TakenIncreasingIff(ticks: seq<real>, o: Options, rmin: real, rmax: real, s: real, p: nat)
    requires s > 0.0 && DecimalAt(s, p) && rmin < rmax && TakesLimit(o, o.min, s) && o.min == Some(rmin)
    requires o.max.Some? ==> o.max.value == rmax
    requires Climbed(ticks, rmin, End(o, rmax, s), s, Pow10(p), o.min, o.max)
    ensures Increasing(ticks) <==> !LandsPast(o, rmin, rmax, s, Pow10(p))
  {
    EndAbove(rmax, s, p);
    TakenRound(rmin, s, p);
    if o.max.Some? && !TakesLimit(o, o.max, s) {
      MaxPassedCount(rmin, rmax, s);
      ClimbIncreasing(ticks, rmin, Ceil(rmax / s) as real * s, s, Pow10(p), o.min, o.max);
    } else {
      EndReachedIff(ticks, rmin, End(o, rmax, s), s, Pow10(p), o.min, o.max);
    }
  }

  lemma EndReachedIff(ticks: seq<real>, a: real, b: real, s: real, e: real, min: Option<real>, max: Option<real>)
    requires s > 0.0 && e > 0.0 && a < b && Climbed(ticks, a, b, s, e, min, max)
    requires ticks[0] == a && ticks[|ticks| - 1] == b
    requires RoundTo(a, e) - a <= Tolerance(s) && -s < 2.0 * (RoundTo(a, e) - a) < s
    ensures Increasing(ticks) <==> !OffByTolerance(a, b, s, RoundTo(a, e))
  {
    ClimbIncreasing(ticks, a, b, s, e, min, max);
    LastStepIff(a, b, s, RoundTo(a, e));
  }

  lemma MaxPassedCount(rmin: real, rmax: real, s: real)
    requires s > 0.0 && AlmostWhole(rmin / s, s / 1000.0) && !AlmostWhole(rmax / s, s / 1000.0)
    ensures CountSpaces((Ceil(rmax / s) as real * s - rmin) / s, s)
      == SpacesFrom(rmin, s, Round(rmin / s), Ceil(rmax / s))
  {
    NarrowTolerance(rmax / s, s / 1000.0);
    PassedCount(rmin, s, Round(rmin / s), Ceil(rmax / s));
  }

  /** Where anything is not almost whole, the tolerance is less than a half. */
  lemma NarrowTolerance(x: real, epsilon: real)
    requires !AlmostWhole(x, epsilon)
    ensures epsilon < 0.5
  {
  }

  lemma PassedCount(rmin: real, s: real, k: int, b: int)
    requires s > 0.0 && s / 1000.0 < 0.5 && k as real - s / 1000.0 <= rmin / s <= k as real + s / 1000.0
    ensures CountSpaces((b as real * s - rmin) / s, s) == SpacesFrom(rmin, s, k, b)
  {
    StepsMinus(b as real, rmin, s);
    CountFrom(rmin / s, s, k, b);
  }

  lemma StepsMinus(b: real, rmin: real, s: real)
    requires s > 0.0
    ensures (b * s - rmin) / s == b - rmin / s
  {
    var q, x := rmin / s, (b * s - rmin) / s;
    assert q * s == rmin && x * s == b * s - rmin;
    assert (b - q) * s == b * s - q * s;
    CancelFactor(x, b - q, s);
  }

  lemma CountFrom(q: real, s: real, k: int, b: int)
    requires s > 0.0 && s / 1000.0 < 0.5 && k as real - s / 1000.0 <= q <= k as real + s / 1000.0
    ensures CountSpaces(b as real - q, s) == if k as real - q == s / 1000.0 then b - k + 1 else b - k
  {
    SlackBounds(s);
    CountFraction(b as real - q, s);
    assert (b - k) as real == b as real - k as real;
    FractionOf(b as real - q, b - k, q - k as real);
  }

  lemma FractionOf(x: real, n: int, rest: real)
    requires -0.5 < rest < 0.5 && x == n as real - rest
    ensures x.Floor == if rest <= 0.0 then n else n - 1
  {
  }

  lemma ScaleOrder(a: real, b: real, e: real)
    requires e > 0.0
    ensures (a <= b <==> Scale(a, e) <= Scale(b, e)) && (a < b <==> Scale(a, e) < Scale(b, e))
  {
    ProductOrder(a, b, e);
    ProductOrder(b, a, e);
  }

  lemma ScaleSum(x: real, d: real, e: real)
    ensures Scale(x + d, e) == Scale(x, e) + Scale(d, e) && Scale(x - d, e) == Scale(x, e) - Scale(d, e)
  {
  }

  lemma RoundedScale(x: real, e: real)
    requires e > 0.0
    ensures Scale(RoundTo(x, e), e) == Round(Scale(x, e)) as real
  {
    var n := Round(Scale(x, e)) as real;
    assert n / e * e == n;
  }

  lemma RoundHalf(z: real)
    ensures z - 0.5 < Round(z) as real <= z + 0.5
  {
  }

  lemma RoundError(x: real, e: real)
    requires e > 0.0
    ensures -1.0 < 2.0 * Scale(RoundTo(x, e) - x, e) <= 1.0
  {
    RoundedScale(x, e);
    RoundHalf(Scale(x, e));
    ScaleSum(RoundTo(x, e), x, e);
  }

  /** Nothing with as few decimal places is nearer. */
  lemma NearestPlace(x: real, e: real, w: real, d: real)
    requires e > 0.0 && Whole(Scale(w, e)) && x - d <= w <= x + d
    ensures x - d <= RoundTo(x, e) <= x + d
  {
    ScaleOrder(x - d, w, e);
    ScaleOrder(w, x + d, e);
    ScaleSum(x, d, e);
    RoundedScale(x, e);
    NearestWhole(Scale(x, e), Scale(w, e).Floor, Scale(d, e));
    ScaleOrder(x - d, RoundTo(x, e), e);
    ScaleOrder(RoundTo(x, e), x + d, e);
  }

  lemma NearestWhole(z: real, w: int, d: real)
    requires z - d <= w as real <= z + d
    ensures z - d <= Round(z) as real <= z + d
  {
    var n := Round(z);
    RoundHalf(z);
    if n > w {
      assert n as real >= w as real + 1.0;
    } else if n < w {
      assert n as real <= w as real - 1.0;
    }
  }

  lemma Pow10AtLeastOne(p: nat)
    ensures Pow10(p) >= 1.0
  {
    Pow10Monotone(0, p);
    assert Pow10(0) == 1.0;
  }

  /** A minimum that is almost a multiple of the spacing is rounded by at most the tolerance, and by less than half a
      spacing. */
  lemma TakenRound(rmin: real, s: real, p: nat)
    requires s > 0.0 && DecimalAt(s, p) && AlmostWhole(rmin / s, s / 1000.0)
    ensures var r := RoundTo(rmin, Pow10(p)) - rmin;
      r <= Tolerance(s) && -s < 2.0 * r < s
  {
    var k := Round(rmin / s);
    NearMultiple(rmin, s, k);
    MultiplePlaces(k, s, p, MultipleOf(k, s));
    NearestPlace(rmin, Pow10(p), MultipleOf(k, s), Tolerance(s));
    RoundError(rmin, Pow10(p));
    Pow10AtLeastOne(p);
    HalfStep(s, Pow10(p), RoundTo(rmin, Pow10(p)) - rmin);
  }

  lemma NearMultiple(rmin: real, s: real, k: int)
    requires s > 0.0 && k as real - s / 1000.0 <= rmin / s <= k as real + s / 1000.0
    ensures rmin - Tolerance(s) <= MultipleOf(k, s) <= rmin + Tolerance(s)
  {
    var q, t := rmin / s, s / 1000.0;
    assert Scale(q, s) == rmin && Scale(t, s) == Tolerance(s) && Scale(k as real, s) == MultipleOf(k, s);
    ScaleOrder(k as real - t, q, s);
    ScaleOrder(q, k as real + t, s);
    ScaleSum(k as real, t, s);
  }

  lemma MultiplePlaces(k: int, s: real, p: nat, x: real)
    requires DecimalAt(s, p) && x == k as real * s
    ensures Whole(Scale(x, Pow10(p)))
  {
    WholeProduct(k as real, Scale(s, Pow10(p)));
    ScaledMultiple(k as real, s, Pow10(p), x);
  }

  lemma HalfStep(s: real, e: real, r: real)
    requires s > 0.0 && e >= 1.0 && Whole(Scale(s, e)) && r <= Tolerance(s) && -1.0 < 2.0 * Scale(r, e) <= 1.0
    ensures -s < 2.0 * r < s
  {
    PositiveProduct(s, e);
    WholePositive(Scale(s, e));
    ScaleSum(r, r, e);
    ScaleSum(0.0, s, e);
    assert Scale(0.0, e) == 0.0;
    ScaleOrder(0.0 - s, r + r, e);
    if r + r >= s {
      ScaleOrder(s, r + r, e);
      ScaleOrder(1.0, e, s);
      assert Scale(1.0, s) == s && Scale(e, s) == Scale(s, e);
      SmallTolerance(s);
    }
  }

  lemma WholePositive(z: real)
    requires Whole(z) && z > 0.0
    ensures z >= 1.0
  {
  }

  lemma SmallTolerance(s: real)
    requires 0.0 < s <= 1.0
    ensures Tolerance(s) <= s / 1000.0
  {
    var t := s / 1000.0;
    SlackBounds(s);
    ScaleOrder(s, 1.0, t);
    assert Scale(s, t) == Tolerance(s) && Scale(1.0, t) == t;
  }

  /** A climb to its last tick lands there too early only if it is off by the tolerance at both ends. */
  lemma LastStepIff(a: real, b: real, s: real, first: real)
    requires s > 0.0 && a < b && first - a <= Tolerance(s) && -s < 2.0 * (first - a) < s
    ensures var n := CountSpaces((b - a) / s, s);
      n >= 2 && StepFrom(first, n - 1, s) >= b <==> OffByTolerance(a, b, s, first)
  {
    var x := (b - a) / s;
    CountFraction(x, s);
    StepsApart(a, b, s, first, x.Floor, x - x.Floor as real);
    RestScaled(x - x.Floor as real, s);
    LastStepCases(x.Floor, x - x.Floor as real, s / 1000.0, Scale(x - x.Floor as real, s), Tolerance(s), first - a, s);
  }

  lemma StepsApart(a: real, b: real, s: real, first: real, f: int, rest: real)
    requires s > 0.0 && (b - a) / s == f as real + rest
    ensures StepFrom(first, f, s) == first + (b - a) - Scale(rest, s)
    ensures StepFrom(first, f - 1, s) == StepFrom(first, f, s) - s
  {
    var x := (b - a) / s;
    assert Scale(x, s) == b - a && StepFrom(first, f, s) == first + Scale(f as real, s);
    ScaleSum(f as real, rest, s);
    NextStep(first, f - 1, s);
  }

  lemma RestScaled(rest: real, s: real)
    requires s > 0.0 && rest >= 0.0
    ensures var t, scaled := s / 1000.0, Scale(rest, s);
      && scaled >= 0.0 && (rest >= 0.5 ==> scaled >= s / 2.0)
      && (t <= rest <==> Tolerance(s) <= scaled) && (rest <= t <==> scaled <= Tolerance(s))
  {
    var t := s / 1000.0;
    assert Scale(0.0, s) == 0.0 && Scale(0.5, s) == s / 2.0 && Scale(t, s) == Tolerance(s);
    ScaleOrder(0.0, rest, s);
    ScaleOrder(0.5, rest, s);
    ScaleOrder(t, rest, s);
    ScaleOrder(rest, t, s);
  }

  lemma LastStepCases(f: int, rest: real, t: real, scaled: real, tolerance: real, r: real, s: real)
    requires 0.0 <= rest && s > 0.0 && scaled >= 0.0 && (rest >= 0.5 ==> scaled >= s / 2.0)
    requires (t <= rest <==> tolerance <= scaled) && (rest <= t <==> scaled <= tolerance)
    requires r <= tolerance && -s < 2.0 * r < s
    ensures var n := if rest < 0.5 && rest < t then f else f + 1;
      n >= 2 && (if n == f then r - s else r) >= scaled <==> f >= 1 && rest == t && r == tolerance
  {
  }

  /** A minimum that is not at the very edge of the tolerance and has no more decimal places than the spacing is
      safe. */
  lemma ExactMinimumIncreases(o: Options, rmin: real, rmax: real, s: real, p: nat)
    requires s > 0.0 && DecimalAt(rmin, p) && o.min == Some(rmin) && (o.max.Some? ==> o.max.value == rmax)
    requires Round(rmin / s) as real - rmin / s != s / 1000.0
    ensures !LandsPast(o, rmin, rmax, s, Pow10(p))
  {
    RoundBack(rmin, Pow10(p));
    SlackBounds(s);
    if TakesLimit(o, o.min, s) && o.max.Some? && !TakesLimit(o, o.max, s) {
      var k, b, t := Round(rmin / s), Ceil(rmax / s), s / 1000.0;
      AboveMultiple(rmax / s, t);
      StepsBefore(rmin, rmax, s, k, b, t);
    }
  }

  lemma AboveMultiple(x: real, epsilon: real)
    requires !AlmostWhole(x, epsilon)
    ensures x > (Ceil(x) - 1) as real + epsilon
  {
    NarrowTolerance(x, epsilon);
    RoundFraction(x);
    CeilFraction(x);
  }

  lemma StepsBefore(rmin: real, rmax: real, s: real, k: int, b: int, t: real)
    requires s > 0.0 && rmin / s <= k as real + t && rmax / s > (b - 1) as real + t
    ensures StepFrom(rmin, b - k - 1, s) < rmax
  {
    var q, u, n := rmin / s, rmax / s, (b - k - 1) as real;
    assert Scale(q, s) == rmin && Scale(u, s) == rmax && StepFrom(rmin, b - k - 1, s) == rmin + Scale(n, s);
    ScaleSum(q, n, s);
    ScaleOrder(q + n, u, s);
  }

  function Hundreds(): Options {
    Options(4, Some(100.0), None, Some(90.0), Some(250.0))
  }

  /** From 90 to 250 with step size 100 the ticks are 90, 190, 290 and 250. */
  lemma HundredsPass()
    ensures Start(Hundreds(), 90.0, 100.0) == 90.0 && End(Hundreds(), 250.0, 100.0) == 300.0
    ensures Climbed([90.0, 190.0, 290.0, 250.0], 90.0, 300.0, 100.0, Pow10(0), Some(90.0), Some(250.0))
    ensures !Increasing([90.0, 190.0, 290.0, 250.0])
  {
    var ticks := [90.0, 190.0, 290.0, 250.0];
    HundredsEnds();
    CountFraction((300.0 - 90.0) / 100.0, 100.0);
    assert StepFrom(90.0, 1, 100.0) == 190.0 && StepFrom(90.0, 2, 100.0) == 290.0;
    assert ticks[2] > ticks[3];
  }

  lemma HundredsEnds()
    ensures Start(Hundreds(), 90.0, 100.0) == 90.0 && End(Hundreds(), 250.0, 100.0) == 300.0
    ensures Pow10(0) == 1.0 && RoundTo(90.0, 1.0) == 90.0
  {
    assert Round(0.9) == 1 && Round(2.5) == 3 && Round(90.0) == 90;
    assert Ceil(2.5) == 3;
  }

  lemma HundredsSpacing()
    ensures Sound(Hundreds()) && StepOf(Hundreds(), 90.0, 250.0) == 100.0
  {
    assert Whole(100.0);
    WholeIsDecimal(100.0);
    NiceJustBelow(160.0 / 3 as real / 100.0);
    assert FirstSpacing(90.0, 250.0, 3, 100.0) == 100.0;
    assert Ceil(2.5) == 3;
  }

  // ----- the range that the ticks are generated for -----

  datatype RangeOptions = RangeOptions(beginAtZero: bool, min: Option<real>, suggestedMin: Option<real>,
                                       max: Option<real>, suggestedMax: Option<real>)
  {
    predicate SetMin() {
      min.Some? || suggestedMin.Some?
    }

    predicate SetMax() {
      max.Some? || suggestedMax.Some?
    }
  }

  function AtZero(o: RangeOptions, low: real, high: real): (real, real) {
    if o.beginAtZero && low < 0.0 && high < 0.0 then (low, 0.0)
    else if o.beginAtZero && low > 0.0 && high > 0.0 then (0.0, high)
    else (low, high)
  }

  /** The ends that the user asks for, given those of the data. */
  function Asked(o: RangeOptions, low: real, high: real): (real, real) {
    var (l, h) := AtZero(o, low, high);
    (if o.min.Some? then o.min.value else if o.suggestedMin.Some? then Min(l, o.suggestedMin.value) else l,
     if o.max.Some? then o.max.value else if o.suggestedMax.Some? then Max(h, o.suggestedMax.value) else h)
  }

  /** The range of the scale is not empty and holds the user's limits, unless both ends were asked for in the wrong
      order; it is the asked one where that is not empty. */
  method HandleTickRangeOptions(o: RangeOptions, low: real, high: real) returns (min: real, max: real)
    requires low <= high
    ensures var (l, h) := Asked(o, low, high);
      && (min < max <==> !(o.SetMin() && o.SetMax() && l > h))
      && (min < max ==> (o.min.Some? ==> min <= o.min.value) && (o.max.Some? ==> o.max.value <= max))
      && (l < h || (o.SetMin() && o.SetMax() && l > h) ==> min == l && max == h)
      && (l == h && o.SetMin() == o.SetMax() ==> max == h + 1.0 && min == if o.beginAtZero then l else l - 1.0)
      && (l >= h && o.SetMin() && !o.SetMax() ==> min == l && max == l + 1.0)
      && (l >= h && o.SetMax() && !o.SetMin() ==> max == h && min == h - 1.0)
    ensures o.min.None? ==> min <= low && (o.suggestedMin.Some? ==> min <= o.suggestedMin.value)
    ensures o.max.None? ==> high <= max && (o.suggestedMax.Some? ==> o.suggestedMax.value <= max)
    ensures o.beginAtZero && o.min.None? && o.max.None? ==> min <= 0.0 <= max
  {
    min, max := low, high;
    if o.beginAtZero {
      if min < 0.0 && max < 0.0 {
        max := 0.0;
      } else if min > 0.0 && max > 0.0 {
        min := 0.0;
      }
    }
    var setMin, setMax := o.min.Some? || o.suggestedMin.Some?, o.max.Some? || o.suggestedMax.Some?;
    if o.min.Some? {
      min := o.min.value;
    } else if o.suggestedMin.Some? {
      min := Min(min, o.suggestedMin.value);
    }
    if o.max.Some? {
      max := o.max.value;
    } else if o.suggestedMax.Some? {
      max := Max(max, o.suggestedMax.value);
    }
    if setMin != setMax && min >= max {
      if setMin {
        max := min + 1.0;
      } else {
        min := max - 1.0;
      }
    }
    if min == max {
      max := max + 1.0;
      if !o.beginAtZero {
        min := min - 1.0;
      }
    }
  }
}
