/** Which spacing the linear scale takes: the finest nice one that fits, rounded up to the user's precision. */
module TickSpacing {
  import opened Rounding
  import opened LinearTicks
  import opened Wrappers

  // ----- rounding up -----

  /** `r` is the least number with `p` decimal places that is not below `s`. */
  ghost predicate LeastDecimal(s: real, p: nat, r: real) {
    && s <= r && DecimalAt(r, p)
    && forall x :: s <= x && DecimalAt(x, p) ==> r <= x
  }

  lemma RoundUpLeast(s: real, p: nat)
    requires s > 0.0
    ensures LeastDecimal(s, p, RoundUp(s, p))
  {
    var e, r := Pow10(p), RoundUp(s, p);
    var n := Ceil(Scale(s, e));
    DivideOrder(0.0, n as real, e);
    assert Scale(r, e) == n as real;
    assert Whole(n as real);
    ScaleOrder(s, r, e);
    forall x | s <= x && DecimalAt(x, p) ensures r <= x {
      ScaleOrder(s, x, e);
      CeilLeast(Scale(s, e), Scale(x, e));
      ScaleOrder(r, x, e);
    }
  }

  lemma CeilLeast(a: real, b: real)
    requires a <= b && Whole(b)
    ensures Ceil(a) as real <= b
  {
    var n := b.Floor;
    assert (-n) as real <= -a;
    assert -n <= (-a).Floor;
  }

  // ----- the least nice number -----

  /** No nice number between the range and its nice number is passed over. */
  lemma NiceNumLeast(range: real, y: real)
    requires range > 0.0 && Nice(y) && range <= y
    ensures NiceNum(range, false) <= y
  {
    var k := FloorLog10(range);
    var j :| NiceAt(y, j);
    FractionBounds(range / Pow10(k), Pow10(k), range);
    NiceLeastAt(range, range / Pow10(k), k, y, j);
  }

  lemma NiceLeastAt(range: real, f: real, k: int, y: real, j: int)
    requires NiceAt(y, j) && 1.0 <= f < 10.0 && f * Pow10(k) == range && Pow10(k) <= range <= y
    ensures NiceFraction(f, false) * Pow10(k) <= y
  {
    if j < k {
      DecadeBelow(y, j, k);
    } else if j > k {
      DecadeAbove(y, k, j);
      ProductOrder(NiceFraction(f, false), 10.0, Pow10(k));
    } else {
      SameDecade(f, Pow10(k), range, y);
    }
  }

  lemma DecadeBelow(y: real, j: int, k: int)
    requires NiceAt(y, j) && j < k
    ensures y < Pow10(k)
  {
    Pow10Monotone(j + 1, k);
  }

  lemma DecadeAbove(y: real, k: int, j: int)
    requires NiceAt(y, j) && k < j
    ensures 10.0 * Pow10(k) <= y
  {
    Pow10Monotone(k + 1, j);
  }

  lemma SameDecade(f: real, p: real, range: real, y: real)
    requires p > 0.0 && f * p == range <= y && 1.0 <= f < 10.0
    requires y == p || y == 2.0 * p || y == 5.0 * p
    ensures NiceFraction(f, false) * p <= y
  {
    if y == p {
      CancelOrder(f, 1.0, p);
    } else if y == 2.0 * p {
      CancelOrder(f, 2.0, p);
      ProductOrder(NiceFraction(f, false), 2.0, p);
    } else {
      CancelOrder(f, 5.0, p);
      ProductOrder(NiceFraction(f, false), 5.0, p);
    }
  }

  lemma CancelOrder(a: real, b: real, p: real)
    requires p > 0.0 && a * p <= b * p
    ensures a <= b
  {
    ProductOrder(b, a, p);
  }

  /** A nice number of units. */
  ghost predicate NiceIn(s: real, u: real) {
    exists t :: Nice(t) && s == Scale(t, u)
  }

  /** `s` is the least nice number of units of which `m` cover the span. */
  ghost predicate LeastNice(span: real, m: int, u: real, s: real) {
    && NiceIn(s, u) && span <= m as real * s
    && forall t :: NiceIn(t, u) && span <= m as real * t ==> s <= t
  }

  lemma NiceStepLeast(span: real, m: int, u: real)
    requires span > 0.0 && m >= 1 && u > 0.0
    ensures LeastNice(span, m, u, NiceStep(span, m, u))
  {
    var s := NiceStep(span, m, u);
    var t := NiceStepBounds(span, m, u);
    DivideOrder(0.0, span, m as real);
    DivideOrder(0.0, span / m as real, u);
    forall y | NiceIn(y, u) && span <= m as real * y ensures s <= y {
      var z :| Nice(z) && y == Scale(z, u);
      Covers(span, m, u, z);
      NiceNumLeast(span / m as real / u, z);
      ScaleOrder(NiceNum(span / m as real / u, false), z, u);
    }
  }

  lemma Covers(span: real, m: int, u: real, z: real)
    requires m >= 1 && u > 0.0 && span <= m as real * Scale(z, u)
    ensures span / m as real / u <= z
  {
    var q := span / m as real;
    DivideOrder(0.0, span, m as real);
    assert q * m as real == span;
    assert m as real * Scale(z, u) == Scale(z, u) * m as real;
    CancelOrder(q, Scale(z, u), m as real);
    DivideOrder(0.0, q, u);
    CancelOrder(q / u, z, u);
  }

  // ----- the finest spacing that fits -----

  /** The ticks of spacing `s` around the range leave no more than `m` spaces. */
  predicate Fits(rmin: real, rmax: real, s: real, m: int)
    requires s > 0.0
  {
    Ceil(rmax / s) - (rmin / s).Floor <= m
  }

  lemma FitsCovers(rmin: real, rmax: real, s: real, m: int)
    requires s > 0.0 && Fits(rmin, rmax, s, m)
    ensures rmax - rmin <= m as real * s
  {
    var lo, hi := (rmin / s).Floor, Ceil(rmax / s);
    FloorBracket(rmin, s, lo);
    CeilBracket(rmax, s, hi);
    SpacesProduct(hi, lo, m, s);
  }

  lemma SpacesProduct(hi: int, lo: int, m: int, s: real)
    requires s > 0.0 && hi - lo <= m
    ensures hi as real * s - lo as real * s <= m as real * s
  {
    assert (m - hi + lo) as real * s >= 0.0;
    assert (m - hi + lo) as real * s == m as real * s - hi as real * s + lo as real * s;
  }

  /** `f` is the least nice number of units of which `m` cover the range or, if its ticks do not fit, the next one. It
      is the least of all that fit; only a single space may be too few for it. */
  ghost predicate FinestNice(rmin: real, rmax: real, m: int, u: real, f: real) {
    && f > 0.0
    && (exists s :: s > 0.0 && LeastNice(rmax - rmin, m, u, s)
          && if Fits(rmin, rmax, s, m) then f == s else NextNice(s, f, u))
    && (forall s :: s > 0.0 && NiceIn(s, u) && Fits(rmin, rmax, s, m) ==> f <= s)
    && (m >= 2 ==> Fits(rmin, rmax, f, m))
  }

  /** `f` is the least nice number of units above `s`. */
  ghost predicate NextNice(s: real, f: real, u: real) {
    NiceIn(f, u) && s < f && forall t :: NiceIn(t, u) && s < t ==> f <= t
  }

  /** Widening takes the next nice number of units. */
  lemma WidenedNext(rmin: real, rmax: real, m: int, u: real)
    requires rmin < rmax && m >= 1 && u > 0.0
    requires !Fits(rmin, rmax, FirstSpacing(rmin, rmax, m, u), m)
    ensures NextNice(FirstSpacing(rmin, rmax, m, u), FinalSpacing(rmin, rmax, m, u), u)
  {
    var s := FirstSpacing(rmin, rmax, m, u);
    NiceStepLeast(rmax - rmin, m, u);
    WidenedTwice(rmin, rmax, m, u);
    OneTooMany(rmin, rmax, m, s);
    NiceStepLeast(Scale(Spaces(rmin, rmax, s) as real, s), m, u);
    NextCovers(Spaces(rmin, rmax, s), m, u, s, FinalSpacing(rmin, rmax, m, u));
  }

  lemma NextCovers(n: int, m: int, u: real, s: real, f: real)
    requires 1 <= m && n <= m + 1 && u > 0.0 && 0.0 < s < f && NiceIn(s, u) && LeastNice(Scale(n as real, s), m, u, f)
    ensures NextNice(s, f, u)
  {
    forall t | NiceIn(t, u) && s < t ensures f <= t {
      var a :| Nice(a) && s == Scale(a, u);
      var b :| Nice(b) && t == Scale(b, u);
      TwiceTheStep(a, b, u);
      TwiceCovers(n, m, s, t);
    }
  }

  lemma OneTooMany(rmin: real, rmax: real, m: int, s: real)
    requires s > 0.0 && rmax - rmin <= m as real * s
    ensures Spaces(rmin, rmax, s) <= m + 1
  {
    SpacesBound(rmin, rmax, s);
    assert (m + 2) as real * s == m as real * s + 2.0 * s;
    SmallerFactor(Spaces(rmin, rmax, s) as real, (m + 2) as real, s);
  }

  lemma TwiceCovers(n: int, m: int, s: real, t: real)
    requires 1 <= m && n <= m + 1 && 0.0 < 2.0 * s <= t
    ensures Scale(n as real, s) <= m as real * t
  {
    ProductOrder(n as real, (2 * m) as real, s);
    assert (2 * m) as real * s == m as real * (2.0 * s);
    assert m as real * t - m as real * (2.0 * s) == m as real * (t - 2.0 * s);
    assert m as real * (t - 2.0 * s) >= 0.0;
  }

  /** The spacing of the scale is the finest nice one that fits. */
  lemma FinalIsFinest(rmin: real, rmax: real, m: int, u: real)
    requires rmin < rmax && m >= 1 && u > 0.0
    ensures FinestNice(rmin, rmax, m, u, FinalSpacing(rmin, rmax, m, u))
  {
    var first, f := FirstSpacing(rmin, rmax, m, u), FinalSpacing(rmin, rmax, m, u);
    NiceStepLeast(rmax - rmin, m, u);
    LadderLength(rmin, rmax, m + 1, u);
    if !Fits(rmin, rmax, first, m) {
      WidenedNext(rmin, rmax, m, u);
    }
    forall s | s > 0.0 && NiceIn(s, u) && Fits(rmin, rmax, s, m) ensures f <= s {
      FitsCovers(rmin, rmax, s, m);
    }
  }

  // ----- the spacing under all options -----

  /** What the spacing has to be: with a step size the finest nice number of it that fits, without one the finest nice
      number, rounded up to the precision if there is one. */
  ghost predicate RightSpacing(o: Options, rmin: real, rmax: real, s: real) {
    if o.stepSize.Some? && o.stepSize.value != 0.0 then
      FinestNice(rmin, rmax, o.maxTicks - 1, o.stepSize.value, s)
    else if o.precision.None? then FinestNice(rmin, rmax, o.maxTicks - 1, 1.0, s)
    else exists f :: FinestNice(rmin, rmax, o.maxTicks - 1, 1.0, f) && LeastDecimal(f, o.precision.value, s)
  }

  /** The ticks are generated with the right spacing. */
  lemma StepIsRight(o: Options, rmin: real, rmax: real)
    requires Sound(o) && rmin < rmax
    ensures RightSpacing(o, rmin, rmax, StepOf(o, rmin, rmax))
  {
    FinalIsFinest(rmin, rmax, o.maxTicks - 1, Unit(o));
    if !HasStep(o) && o.precision.Some? {
      RoundUpLeast(NiceSpacing(o, rmin, rmax), o.precision.value);
    }
  }

  /** Only the two ends become ticks where spacings below ten to the power of -14 would cover the range and the user
      sets no limit. */
  lemma TooFineIff(o: Options, rmin: real, rmax: real)
    requires Sound(o) && rmin < rmax
    ensures TooFine(o, rmin, rmax) <==>
      (o.min.None? && o.max.None? &&
       exists s :: NiceIn(s, Unit(o)) && rmax - rmin <= (o.maxTicks - 1) as real * s && s < Pow10(-14))
  {
    NiceStepLeast(rmax - rmin, o.maxTicks - 1, Unit(o));
    MinSpacing();
  }

  lemma MinSpacing()
    ensures MIN_SPACING == Pow10(-14)
  {
    assert Pow10(-3) == 0.001;
    assert Pow10(-6) == 0.000001;
    assert Pow10(-9) == 0.000000001;
    assert Pow10(-12) == 0.000000000001;
  }
}
