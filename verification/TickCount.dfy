/** How many ticks the selection of the Chart.js scales leaves, and which of them are majors. */
module TickCount {
  import opened Rounding
  import opened TickSkip
  import opened Wrappers

  /** The number of marked ticks from `a` to before `b`. */
  ghost function MarksIn(ts: seq<Tick>, a: int, b: int): nat
    decreases b - a
  {
    if a >= b then 0 else MarksIn(ts, a, b - 1) + if 0 <= b - 1 < |ts| && ts[b - 1].index.Some? then 1 else 0
  }

  lemma {:induction false} MarksSplit(ts: seq<Tick>, a: int, b: int, c: int)
    requires a <= b <= c
    ensures MarksIn(ts, a, c) == MarksIn(ts, a, b) + MarksIn(ts, b, c)
    decreases c - b
  {
    if b < c {
      MarksSplit(ts, a, b, c - 1);
    }
  }

  lemma {:induction false} SameMarks(ts: seq<Tick>, r: seq<Tick>, a: int, b: int)
    requires forall i :: a <= i < b ==> 0 <= i < |ts| && i < |r| && (r[i].index.Some? <==> ts[i].index.Some?)
    ensures MarksIn(r, a, b) == MarksIn(ts, a, b)
    decreases b - a
  {
    if a < b {
      SameMarks(ts, r, a, b - 1);
    }
  }

  lemma {:induction false} NoMarks(ts: seq<Tick>, a: int, b: int)
    requires forall i :: a <= i < b && 0 <= i < |ts| ==> ts[i].index.None?
    ensures MarksIn(ts, a, b) == 0
    decreases b - a
  {
    if a < b {
      NoMarks(ts, a, b - 1);
    }
  }

  lemma {:induction false} CollectedCount(ts: seq<Tick>)
    ensures |NonSkipped(ts)| == MarksIn(ts, 0, |ts|)
  {
    if ts != [] {
      var n := |ts| - 1;
      CollectedCount(ts[..n]);
      SameMarks(ts, ts[..n], 0, n);
    }
  }

  // ----- the marks of one pass -----

  lemma {:induction false} FirstFrom(start: real, t: real, c: nat) returns (count: nat)
    requires start < 0.0 && t >= 1.0 && c >= 1 && (c > 1 ==> Grid(start, t, c - 1) < 0)
    ensures count >= 1 && NextMark(start, Some(t), count, Some(Grid(start, t, count)), 0)
    decreases -Grid(start, t, c)
  {
    if Grid(start, t, c) >= 0 {
      count := c;
    } else {
      GridGrows(start, t, c, c + 1);
      count := FirstFrom(start, t, c + 1);
    }
  }

  lemma FirstMarkExists(start: real, step: Option<real>) returns (count: nat, next: Option<int>)
    requires (start >= 0.0 ==> Whole(start)) && (step.Some? ==> step.value >= 1.0)
    ensures NextMark(start, step, count, next, if start >= 0.0 then start.Floor else 0)
    ensures count <= 1 || step.Some?
    ensures if start >= 0.0 then count == 0 else count >= 1
  {
    if start >= 0.0 {
      count, next := 0, Some(start.Floor);
      GridStart(start, step);
    } else if step.None? {
      count, next := 1, None;
    } else {
      count := FirstFrom(start, step.value, 1);
      next := Some(Grid(start, step.value, count));
    }
  }

  lemma GridStart(start: real, step: Option<real>)
    requires Whole(start)
    ensures step.Some? ==> Grid(start, step.value, 0) == start.Floor
  {
    assert step.Some? ==> 0 as real * step.value == 0.0;
  }

  /** From the state of a pass at tick `a` to its state at tick `b`. */
  lemma {:induction false} CountFrom(r: seq<Tick>, start: real, step: Option<real>, a: int, b: int,
                                     c: nat, next: Option<int>) returns (c': nat, next': Option<int>)
    requires 0 <= a <= b <= |r| && NextMark(start, step, c, next, a) && (c <= 1 || step.Some?)
    requires forall i :: a <= i < b ==> (r[i].index.Some? <==> OnGrid(start, step, i))
    ensures NextMark(start, step, c', next', b) && c' == c + MarksIn(r, a, b)
    ensures c' <= 1 || step.Some?
    decreases b - a
  {
    if a == b {
      c', next' := c, next;
    } else {
      c', next' := CountFrom(r, start, step, a, b - 1, c, next);
      MarkHere(start, step, c', next', b - 1);
      Advance(start, step, c', next', b - 1);
      if next' == Some(b - 1) {
        c' := c' + 1;
        next' := if step.None? then None else Some(Grid(start, step.value, c'));
      }
    }
  }

  /** The first tick of a pass. */
  function From(start: real): int {
    if start >= 0.0 then start.Floor else 0
  }

  /** Behind the last tick of a pass over `n` ticks. */
  function To(end: real, n: nat): int {
    Ceil(Min(end, n as real))
  }

  lemma PassTicks(ts: seq<Tick>, spacing: real, start: real, end: real)
    requires spacing > 0.0 && (start >= 0.0 ==> Whole(start))
    ensures var r, a, b := Pass(ts, spacing, Some(start), Some(end)), From(start), To(end, |ts|);
      && r.Some? && Untouched(ts, r.value, a, b)
      && forall i :: a <= i < b && i < |ts| ==>
           r.value[i].index == if OnGrid(start, StepOf(spacing, start, Some(end)), i) then Some(i) else ts[i].index
  {
    var r := Pass(ts, spacing, Some(start), Some(end)).value;
    var step := StepOf(spacing, start, Some(end));
    forall i | 0 <= i < |ts|
      ensures r[i].index == if From(start) <= i < To(end, |ts|) && OnGrid(start, step, i) then Some(i) else ts[i].index
      ensures !(From(start) <= i < To(end, |ts|)) ==> r[i] == ts[i]
    {
      BelowCeil(i, Min(end, |ts| as real));
      FromBelow(start, i);
    }
  }

  lemma BelowCeil(i: int, x: real)
    ensures i < Ceil(x) <==> i as real < x
  {
  }

  lemma FromBelow(start: real, i: nat)
    requires start >= 0.0 ==> Whole(start)
    ensures From(start) <= i <==> start <= i as real
  {
  }

  /** A pass over unmarked ticks makes the marks from number `c` to before number `c'`, and only as many as fit. */
  lemma PassCount(ts: seq<Tick>, spacing: real, start: real, end: real) returns (c: nat, c': nat)
    requires spacing > 0.0 && start <= end && (start >= 0.0 ==> Whole(start))
    requires From(start) <= To(end, |ts|)
    requires forall i :: From(start) <= i < To(end, |ts|) && i < |ts| ==> ts[i].index == None
    ensures Pass(ts, spacing, Some(start), Some(end)).Some?
    ensures c' == c + MarksIn(Pass(ts, spacing, Some(start), Some(end)).value, From(start), To(end, |ts|))
    ensures GridWithin(start, StepOf(spacing, start, Some(end)), c, c', From(start), To(end, |ts|))
  {
    PassTicks(ts, spacing, start, end);
    StepAtLeastOne(spacing, start, Some(end));
    var step, next, next' := StepOf(spacing, start, Some(end)), None, None;
    c, next := FirstMarkExists(start, step);
    ToWithin(end, |ts|);
    c', next' := CountFrom(Pass(ts, spacing, Some(start), Some(end)).value, start, step,
                           From(start), To(end, |ts|), c, next);
  }

  lemma ToWithin(end: real, n: nat)
    ensures To(end, n) <= n
  {
    BelowCeil(n, Min(end, n as real));
  }

  /** Without a step there is at most the mark at the start; otherwise the marks lie on the grid between `a` and `b`. */
  ghost predicate GridWithin(start: real, step: Option<real>, c: nat, c': nat, a: int, b: int) {
    && (start >= 0.0 ==> c == 0)
    && (step.None? ==> c' - c <= if start >= 0.0 then 1 else 0)
    && (step.Some? && c < c' ==> a <= Grid(start, step.value, c) && Grid(start, step.value, c' - 1) < b)
  }

  // ----- how many marks fit -----

  function Mul(a: real, b: real): real {
    a * b
  }

  lemma Cancel(a: real, b: real, t: real)
    requires t > 0.0
    ensures (a * t < b * t <==> a < b) && (a * t <= b * t <==> a <= b)
  {
    assert b * t - a * t == (b - a) * t;
  }

  /** The step of a pass between majors divides it into `q` parts of at least the spacing. */
  lemma StepShape(spacing: real, start: real, end: real) returns (q: nat)
    requires spacing > 0.0 && start < end && end != 0.0
    ensures Parts(end - start, Ceil(spacing), StepOf(spacing, start, Some(end)), q)
  {
    var length, s := end - start, Ceil(spacing) as real;
    q := PartsOf(length, s);
    if q >= 1 {
      PartLength(length, s, q);
    }
  }

  /** A length is divided into `q` equal parts of at least `s`, or not at all if it is shorter. */
  ghost predicate Parts(length: real, s: int, step: Option<real>, q: nat) {
    if length < s as real then q == 0 && step.None?
    else
      && q >= 1 && step.Some?
      && step.value * q as real == length && step.value >= s as real && q as real * s as real <= length
  }

  lemma PartLength(length: real, s: real, q: int)
    requires q >= 1 && q as real * s <= length
    ensures var t := length / q as real; t * q as real == length && t >= s
  {
    var t := length / q as real;
    assert t * q as real == length;
    assert s * q as real == q as real * s;
    Cancel(s, t, q as real);
  }

  lemma PartsOf(length: real, s: real) returns (q: nat)
    requires length > 0.0 && s > 0.0
    ensures q == (length / s).Floor && q as real * s <= length && (q == 0 <==> length < s)
  {
    QuotientOrder(length, 0.0, s);
    QuotientOrder(length, 1.0, s);
    q := (length / s).Floor;
    QuotientOrder(length, q as real, s);
  }

  lemma QuotientOrder(length: real, a: real, s: real)
    requires s > 0.0
    ensures (length / s < a <==> length < a * s) && (length / s <= a <==> length <= a * s)
  {
    var x := length / s;
    assert x * s == length;
    Cancel(x, a, s);
  }

  lemma GridAtLeast(start: real, t: real, c: nat, a: int)
    requires a <= Grid(start, t, c)
    ensures a as real - 0.5 <= start + c as real * t
  {
  }

  lemma GridBelow(start: real, t: real, c: nat, b: int)
    requires Grid(start, t, c) < b
    ensures start + c as real * t < b as real - 0.5
  {
    assert Grid(start, t, c) + 1 <= b;
  }

  lemma FewerParts(c: int, q: int, t: real, x: real, y: real)
    requires t > 0.0 && x + c as real * t < y && t * q as real == y - x
    ensures c < q
  {
    assert t * q as real == q as real * t;
    Cancel(c as real, q as real, t);
  }

  lemma Product(m: int, s: int)
    ensures Times(m, s) as real == m as real * s as real
  {
  }

  lemma WiderParts(m: nat, s: int, t: real)
    requires s as real <= t
    ensures Times(m, s) as real <= m as real * t
  {
    Product(m, s);
    assert m as real * t - m as real * s as real == m as real * (t - s as real);
  }

  /** Between two majors at most as many ticks are marked as the spacing fits in, but at least one. */
  lemma MarksBetween(x: int, y: int, s: int, step: Option<real>, q: nat, c': nat)
    requires 0 <= x < y && s >= 1 && GridWithin(x as real, step, 0, c', x, y)
    requires Parts((y - x) as real, s, step, q)
    ensures Times(c', s) <= y - x + if y - x < s then s else 0
  {
    if step.Some? && c' > 0 {
      GridBelow(x as real, step.value, c' - 1, y);
      assert step.value * q as real == y as real - x as real;
      FewerParts(c' - 1, q, step.value, x as real, y as real);
      Product(q, s);
      assert c' * s <= q * s by {
        Sign(q - c', s);
        assert (q - c') * s == q * s - c' * s;
      }
    } else if step.None? {
      assert c' <= 1;
      Sign(1 - c', s);
      assert (1 - c') * s == s - c' * s;
    }
  }

  /** Below the first major, at `f`, a pass that is at least a spacing long marks no more than fit before it. */
  lemma MarksBelow(start: real, f: int, s: int, t: real, q: nat, c: nat, c': nat)
    requires s >= 1 && t >= s as real && t * q as real == f as real - start && c < c'
    requires 0 <= Grid(start, t, c) && Grid(start, t, c' - 1) < f
    ensures Times(c' - c, s) <= f
  {
    GridAtLeast(start, t, c, 0);
    GridBelow(start, t, c' - 1, f);
    FewerParts(c' - 1, q, t, start, f as real);
    var m := c' - c;
    WiderParts(m, s, t);
    assert (q - c) as real * t == t * q as real - c as real * t;
    assert (q - c' + c - c) as real * t >= 0.0;
    assert m as real * t <= (q - c) as real * t;
  }

  /** From the last major, at `l`, on there is one mark more than fit between it and the last tick. */
  lemma MarksAbove(l: int, n: int, s: int, t: real, c': nat)
    requires s >= 1 && t >= s as real && c' >= 1 && Grid(l as real, t, c' - 1) < n
    ensures Times(c' - 1, s) <= n - 1 - l
  {
    GridBelow(l as real, t, c' - 1, n);
    WiderParts(c' - 1, s, t);
  }

  // ----- the bound for majors that are not too many -----

  /** The neighbours among the first `k` + 1 majors that are closer to each other than the spacing. */
  ghost function Short(majors: seq<int>, s: int, k: nat): nat
    requires k < |majors|
  {
    if k == 0 then 0 else Short(majors, s, k - 1) + if majors[k] - majors[k - 1] < s then 1 else 0
  }

  ghost predicate Unmarked(ts: seq<Tick>) {
    forall i :: 0 <= i < |ts| ==> ts[i].index == None
  }

  /** Ascending ticks. */
  ghost predicate MajorsOf(majors: seq<int>, n: nat) {
    Ascending(majors) && forall j :: 0 <= j < |majors| ==> 0 <= majors[j] < n
  }

  lemma MajorsInRange(ts: seq<Tick>)
    ensures MajorsOf(MajorIndices(ts), |ts|)
  {
    var majors := MajorIndices(ts);
    assert forall j :: 0 <= j < |majors| ==> majors[j] in majors;
  }

  lemma BetweenCount(ts: seq<Tick>, spacing: real, x: int, y: int)
    requires spacing > 0.0 && 0 <= x < y <= |ts| && forall i :: x <= i < y ==> ts[i].index == None
    ensures var r, s := Pass(ts, spacing, Some(x as real), Some(y as real)), Ceil(spacing);
      && r.Some? && Untouched(ts, r.value, x, y)
      && Times(MarksIn(r.value, x, y), s) <= y - x + if y - x < s then s else 0
  {
    assert From(x as real) == x && To(y as real, |ts|) == y;
    PassTicks(ts, spacing, x as real, y as real);
    var c, c' := PassCount(ts, spacing, x as real, y as real);
    var q := StepShape(spacing, x as real, y as real);
    MarksBetween(x, y, Ceil(spacing), StepOf(spacing, x as real, Some(y as real)), q, c');
  }

  /** The marks between the first and the k-th major. */
  lemma {:induction false} InnerCount(ts: seq<Tick>, spacing: real, majors: seq<int>, k: nat)
    requires spacing > 0.0 && k < |majors| && MajorsOf(majors, |ts|) && Unmarked(ts)
    ensures var r, s := MajorPasses(ts, spacing, majors, k), Ceil(spacing);
      && r.Some? && Untouched(ts, r.value, majors[0], majors[k])
      && Times(MarksIn(r.value, majors[0], majors[k]), s) <= majors[k] - majors[0] + Times(Short(majors, s, k), s)
  {
    if k > 0 {
      InnerCount(ts, spacing, majors, k - 1);
      var before := MajorPasses(ts, spacing, majors, k - 1).value;
      InnerStep(ts, before, spacing, majors, k);
    }
  }

  lemma InnerStep(ts: seq<Tick>, before: seq<Tick>, spacing: real, majors: seq<int>, k: nat)
    requires spacing > 0.0 && 0 < k < |majors| && MajorsOf(majors, |ts|) && Unmarked(ts)
    requires Untouched(ts, before, majors[0], majors[k - 1])
    requires Times(MarksIn(before, majors[0], majors[k - 1]), Ceil(spacing))
      <= majors[k - 1] - majors[0] + Times(Short(majors, Ceil(spacing), k - 1), Ceil(spacing))
    ensures var r, s := Pass(before, spacing, Some(majors[k - 1] as real), Some(majors[k] as real)), Ceil(spacing);
      && r.Some? && Untouched(ts, r.value, majors[0], majors[k])
      && Times(MarksIn(r.value, majors[0], majors[k]), s) <= majors[k] - majors[0] + Times(Short(majors, s, k), s)
  {
    var f, x, y, s := majors[0], majors[k - 1], majors[k], Ceil(spacing);
    assert f <= x < y;
    BetweenCount(before, spacing, x, y);
    var r := Pass(before, spacing, Some(x as real), Some(y as real)).value;
    MarksSplit(r, f, x, y);
    SameMarks(before, r, f, x);
    Distribute(MarksIn(before, f, x), MarksIn(r, x, y), s);
    Distribute(Short(majors, s, k - 1), if y - x < s then 1 else 0, s);
  }

  lemma Distribute(a: int, b: int, s: int)
    ensures Times(a + b, s) == Times(a, s) + Times(b, s)
  {
  }

  /** The pass below the first major. */
  lemma LowerCount(ts: seq<Tick>, spacing: real, start: real, f: int)
    requires spacing > 0.0 && start < f as real && (start >= 0.0 ==> Whole(start)) && 0 <= f < |ts|
    requires forall i :: 0 <= i < f ==> ts[i].index == None
    ensures 0 <= From(start) <= f
    ensures var r, s := Pass(ts, spacing, Some(start), Some(f as real)), Ceil(spacing);
      && r.Some? && Untouched(ts, r.value, From(start), f)
      && var m := MarksIn(r.value, From(start), f); if f as real - start >= s as real then Times(m, s) <= f else m <= 1
  {
    var s := Ceil(spacing);
    assert To(f as real, |ts|) == f;
    PassTicks(ts, spacing, start, f as real);
    if f > 0 {
      var c, c' := PassCount(ts, spacing, start, f as real);
      var q := StepShape(spacing, start, f as real);
      LowerBound(start, f, s, StepOf(spacing, start, Some(f as real)), q, c, c', From(start));
    }
  }

  lemma LowerBound(start: real, f: int, s: int, step: Option<real>, q: nat, c: nat, c': nat, a: int)
    requires s >= 1 && 0 <= a && 0 < f && c <= c' && GridWithin(start, step, c, c', a, f)
    requires Parts(f as real - start, s, step, q)
    ensures if f as real - start >= s as real then Times(c' - c, s) <= f else c' - c <= 1
  {
    if step.Some? && c < c' {
      MarksBelow(start, f, s, step.value, q, c, c');
    } else if step.Some? {
      assert c' - c == 0;
    }
  }

  lemma UpperBound(l: int, n: int, b: int, s: int, length: real, step: Option<real>, q: nat, c': nat)
    requires s >= 1 && 0 <= l < n && b <= n && GridWithin(l as real, step, 0, c', l, b) && Parts(length, s, step, q)
    ensures if length >= s as real then Times(c' - 1, s) <= n - 1 - l else c' <= 1
  {
    if step.Some? && c' > 0 {
      MarksAbove(l, n, s, step.value, c');
    } else if step.Some? {
      Sign(-1, s);
    }
  }

  /** The pass from the last major on. */
  lemma UpperCount(ts: seq<Tick>, spacing: real, l: int, end: real)
    requires spacing > 0.0 && 0 <= l < |ts| && l as real < end && forall i :: l <= i < |ts| ==> ts[i].index == None
    ensures l <= To(end, |ts|) <= |ts|
    ensures var r, s := Pass(ts, spacing, Some(l as real), Some(end)), Ceil(spacing);
      && r.Some? && Untouched(ts, r.value, l, To(end, |ts|))
      && var m := MarksIn(r.value, l, To(end, |ts|));
         if end - l as real >= s as real then Times(m - 1, s) <= |ts| - 1 - l else m <= 1
  {
    var s := Ceil(spacing);
    ToWithin(end, |ts|);
    BelowCeil(l, Min(end, |ts| as real));
    PassTicks(ts, spacing, l as real, end);
    var c, c' := PassCount(ts, spacing, l as real, end);
    var q := StepShape(spacing, l as real, end);
    UpperBound(l, |ts|, To(end, |ts|), s, end - l as real, StepOf(spacing, l as real, Some(end)), q, c');
  }

  /** The marks of all passes. */
  lemma Assemble(ts: seq<Tick>, inner: seq<Tick>, lower: seq<Tick>, r: seq<Tick>, a: int, f: int, l: int, b: int)
    requires 0 <= a <= f <= l <= b <= |ts| && Unmarked(ts)
    requires Untouched(ts, inner, f, l) && Untouched(inner, lower, a, f) && Untouched(lower, r, l, b)
    ensures |NonSkipped(r)| == MarksIn(lower, a, f) + MarksIn(inner, f, l) + MarksIn(r, l, b)
  {
    var n := |ts|;
    CollectedCount(r);
    MarksSplit(r, 0, a, n);
    MarksSplit(r, a, f, n);
    MarksSplit(r, f, l, n);
    MarksSplit(r, l, b, n);
    NoMarks(r, 0, a);
    NoMarks(r, b, n);
    SameMarks(lower, r, a, f);
    SameMarks(inner, r, f, l);
  }

  lemma SpacingAtLeast(majors: seq<int>, n: nat, ticksLimit: real)
    requires ticksLimit > 0.0
    ensures (n - 1) as real / ticksLimit <= SpacingFor(majors, n, ticksLimit)
  {
  }

  lemma CeilAtLeast(x: real)
    ensures x <= Ceil(x) as real
  {
  }

  /** The spacing is wide enough for the limit. */
  lemma SpacingReaches(n: int, ticksLimit: real, spacing: real)
    requires ticksLimit > 0.0 && n as real / ticksLimit <= spacing
    ensures n as real <= Mul(Ceil(spacing) as real, ticksLimit)
  {
    QuotientOrder(n as real, spacing, ticksLimit);
    CeilAtLeast(spacing);
    Cancel(spacing, Ceil(spacing) as real, ticksLimit);
  }

  /** What the passes mark, in terms of the spacing, adds up to the limit, one more, and one for each short distance. */
  lemma WithinLimit(count: int, short: nat, s: int, n: nat, ticksLimit: real)
    requires s >= 1 && ticksLimit > 0.0 && (n - 1) as real <= Mul(s as real, ticksLimit)
    requires Times(count - 1 - short, s) <= n - 1
    ensures count as real <= ticksLimit + 1.0 + short as real
  {
    var m := count - 1 - short;
    Product(m, s);
    assert s as real * ticksLimit == ticksLimit * s as real;
    Cancel(m as real, ticksLimit, s as real);
  }

  lemma AverageProduct(majors: seq<int>)
    requires Ascending(majors) && |majors| >= 2
    ensures AverageSpacing(majors).Some?
    ensures var avg, k := AverageSpacing(majors).value, |majors| - 1;
      avg > 0.0 && Mul(avg, k as real) == (majors[k] - majors[0]) as real
  {
    var k := |majors| - 1;
    assert majors[0] < majors[k];
    AveragePositive(majors);
    var avg := (majors[k] - majors[0]) as real / k as real;
    assert avg * k as real == (majors[k] - majors[0]) as real;
  }

  /** Where the average distance reaches the spacing, the passes mark what the range has room for. */
  lemma RoomFor(lower: nat, inner: nat, upper: nat, f: int, l: int, n: nat, short: nat, s: int)
    requires s >= 1 && Times(lower, s) <= f && Times(upper - 1, s) <= n - 1 - l
    requires Times(inner, s) <= l - f + Times(short, s)
    ensures Times(lower + inner + upper - 1 - short, s) <= n - 1
  {
    Distribute(lower, inner, s);
    Distribute(lower + inner, upper - 1, s);
    Distribute(lower + inner + upper - 1 - short, short, s);
  }

  /** Where it does not, there are as many short distances as makes up for all marks but the majors'. */
  lemma FewerThanMajors(inner: nat, f: int, l: int, short: nat, s: int, avg: real, k: nat)
    requires s >= 1 && k >= 1 && Times(inner, s) <= l - f + Times(short, s)
    requires avg < s as real && Mul(avg, k as real) == (l - f) as real
    ensures inner <= short + k - 1
  {
    Product(k, s);
    assert s as real * k as real == k as real * s as real;
    Cancel(avg, s as real, k as real);
    assert l - f < k * s;
    Distribute(short, k, s);
    CancelInt(inner, short + k, s);
  }

  lemma CancelInt(a: int, b: int, s: int)
    requires s >= 1 && a * s < b * s
    ensures a < b
  {
    assert (b - a) * s == b * s - a * s;
  }

  /** `inner`, `lower` and `r` are the ticks after the passes between, below and above the majors. */
  ghost predicate Passes(ts: seq<Tick>, spacing: real, majors: seq<int>, avg: real, inner: seq<Tick>,
                         lower: seq<Tick>, r: seq<Tick>)
    requires spacing > 0.0 && |majors| >= 1 && avg > 0.0
  {
    var f, l := majors[0] as real, majors[|majors| - 1] as real;
    && MajorPasses(ts, spacing, majors, |majors| - 1) == Some(inner)
    && Pass(inner, spacing, Some(f - avg), Some(f)) == Some(lower)
    && Pass(lower, spacing, Some(l), Some(l + avg)) == Some(r)
  }

  lemma PassesOf(ts: seq<Tick>, spacing: real, majors: seq<int>, avg: real, r: seq<Tick>)
    returns (inner: seq<Tick>, lower: seq<Tick>)
    requires spacing > 0.0 && |majors| >= 2 && Ascending(majors)
    requires avg > 0.0 && AverageSpacing(majors) == Some(avg) && MarkedByMajors(ts, spacing, majors) == Some(r)
    ensures Passes(ts, spacing, majors, avg, inner, lower, r)
  {
    inner := MajorPasses(ts, spacing, majors, |majors| - 1).value;
    var f := majors[0] as real;
    lower := Pass(inner, spacing, Some(f - avg), Some(f)).value;
  }

  lemma WholeStartOf(ts: seq<Tick>, spacing: real, start: real, f: int)
    requires spacing > 0.0 && start < f as real && 0 <= f < |ts|
    requires Pass(ts, spacing, Some(start), Some(f as real)).Some?
    ensures start >= 0.0 ==> Whole(start)
  {
  }

  /** The marks below and above the majors, whose average distance is `avg`. */
  ghost predicate OuterFits(lower: nat, upper: nat, f: int, l: int, n: int, s: int, avg: real) {
    if avg >= s as real then Times(lower, s) <= f && Times(upper - 1, s) <= n - 1 - l else lower <= 1 && upper <= 1
  }

  lemma OuterCounts(inner: seq<Tick>, lower: seq<Tick>, r: seq<Tick>, spacing: real, f: int, l: int,
                    start: real, end: real, avg: real)
    requires spacing > 0.0 && 0 <= f < l < |inner| && avg > 0.0 && f as real - start == avg && end - l as real == avg
    requires Pass(inner, spacing, Some(start), Some(f as real)) == Some(lower)
    requires Pass(lower, spacing, Some(l as real), Some(end)) == Some(r)
    requires forall i :: 0 <= i < |inner| && !(f <= i < l) ==> inner[i].index == None
    ensures 0 <= From(start) <= f && l <= To(end, |inner|) <= |inner|
    ensures Untouched(inner, lower, From(start), f) && Untouched(lower, r, l, To(end, |inner|))
    ensures var below, above := MarksIn(lower, From(start), f), MarksIn(r, l, To(end, |inner|));
      OuterFits(below, above, f, l, |inner|, Ceil(spacing), avg)
  {
    WholeStartOf(inner, spacing, start, f);
    LowerCount(inner, spacing, start, f);
    UpperCount(lower, spacing, l, end);
  }

  /** The bound for several majors. */
  lemma SeveralBound(ts: seq<Tick>, spacing: real, majors: seq<int>, ticksLimit: real, avg: real, r: seq<Tick>)
    requires spacing > 0.0 && ticksLimit > 0.0 && |majors| >= 2 && |majors| as real <= ticksLimit
    requires MajorsOf(majors, |ts|) && Unmarked(ts) && (|ts| - 1) as real <= Mul(Ceil(spacing) as real, ticksLimit)
    requires avg > 0.0 && AverageSpacing(majors) == Some(avg) && MarkedByMajors(ts, spacing, majors) == Some(r)
    ensures |NonSkipped(r)| as real <= ticksLimit + 1.0 + Short(majors, Ceil(spacing), |majors| - 1) as real
  {
    var k := |majors| - 1;
    AverageProduct(majors);
    InnerCount(ts, spacing, majors, k);
    var inner, lower := PassesOf(ts, spacing, majors, avg, r);
    assert majors[0] < majors[k];
    var f, l := majors[0], majors[k];
    OuterBound(ts, inner, lower, r, spacing, f, l, f as real - avg, l as real + avg, avg,
               Short(majors, Ceil(spacing), k), k, ticksLimit);
  }

  lemma OuterBound(ts: seq<Tick>, inner: seq<Tick>, lower: seq<Tick>, r: seq<Tick>, spacing: real, f: int, l: int,
                   start: real, end: real, avg: real, short: nat, k: nat, ticksLimit: real)
    requires spacing > 0.0 && ticksLimit > 0.0 && k >= 1 && (k + 1) as real <= ticksLimit && Unmarked(ts)
    requires (|ts| - 1) as real <= Mul(Ceil(spacing) as real, ticksLimit)
    requires 0 <= f < l < |ts| && avg > 0.0 && Mul(avg, k as real) == (l - f) as real
    requires f as real - start == avg && end - l as real == avg
    requires Untouched(ts, inner, f, l)
    requires Times(MarksIn(inner, f, l), Ceil(spacing)) <= l - f + Times(short, Ceil(spacing))
    requires Pass(inner, spacing, Some(start), Some(f as real)) == Some(lower)
    requires Pass(lower, spacing, Some(l as real), Some(end)) == Some(r)
    ensures |NonSkipped(r)| as real <= ticksLimit + 1.0 + short as real
  {
    OuterCounts(inner, lower, r, spacing, f, l, start, end, avg);
    Assemble(ts, inner, lower, r, From(start), f, l, To(end, |ts|));
    SeveralArithmetic(MarksIn(lower, From(start), f), MarksIn(inner, f, l), MarksIn(r, l, To(end, |ts|)),
                      f, l, |ts|, short, Ceil(spacing), avg, k, ticksLimit);
  }

  lemma SeveralArithmetic(lower: nat, inner: nat, upper: nat, f: int, l: int, n: nat, short: nat, s: int, avg: real,
                          k: nat, ticksLimit: real)
    requires s >= 1 && ticksLimit > 0.0 && k >= 1 && (k + 1) as real <= ticksLimit
    requires (n - 1) as real <= Mul(s as real, ticksLimit) && Mul(avg, k as real) == (l - f) as real
    requires Times(inner, s) <= l - f + Times(short, s)
    requires OuterFits(lower, upper, f, l, n, s, avg)
    ensures (lower + inner + upper) as real <= ticksLimit + 1.0 + short as real
  {
    if avg >= s as real {
      RoomFor(lower, inner, upper, f, l, n, short, s);
      WithinLimit(lower + inner + upper, short, s, n, ticksLimit);
    } else {
      FewerThanMajors(inner, f, l, short, s, avg, k);
    }
  }

  /** The bound for a single major. */
  lemma SingleBound(ts: seq<Tick>, spacing: real, f: int, ticksLimit: real)
    requires spacing > 0.0 && 1.0 <= ticksLimit && 0 <= f < |ts| && Unmarked(ts)
    requires (|ts| - 1) as real <= Mul(Ceil(spacing) as real, ticksLimit)
    ensures var r := MarkedByMajors(ts, spacing, [f]); r.Some? && |NonSkipped(r.value)| as real <= ticksLimit + 1.0
  {
    var n := |ts|;
    WholeStart(ts, spacing, 0, Some(f as real));
    var lower := Pass(ts, spacing, Some(0.0), Some(f as real)).value;
    WholeStart(lower, spacing, f, Some(n as real));
    var r := Pass(lower, spacing, Some(f as real), Some(n as real)).value;
    assert MarkedByMajors(ts, spacing, [f]) == Some(r);
    SinglePasses(ts, lower, r, spacing, f, ticksLimit);
  }

  lemma SinglePasses(ts: seq<Tick>, lower: seq<Tick>, r: seq<Tick>, spacing: real, f: int, ticksLimit: real)
    requires spacing > 0.0 && 1.0 <= ticksLimit && 0 <= f < |ts| && Unmarked(ts)
    requires (|ts| - 1) as real <= Mul(Ceil(spacing) as real, ticksLimit)
    requires Pass(ts, spacing, Some(0.0), Some(f as real)) == Some(lower)
    requires Pass(lower, spacing, Some(f as real), Some(|ts| as real)) == Some(r)
    ensures |NonSkipped(r)| as real <= ticksLimit + 1.0
  {
    var n := |ts|;
    FromZero(ts, lower, spacing, f);
    BetweenCount(lower, spacing, f, n);
    UpperCount(lower, spacing, f, n as real);
    assert To(n as real, n) == n;
    Assemble(ts, ts, lower, r, 0, f, f, n);
    SingleArithmetic(MarksIn(lower, 0, f), MarksIn(r, f, n), f, n, Ceil(spacing), ticksLimit);
  }

  lemma FromZero(ts: seq<Tick>, lower: seq<Tick>, spacing: real, f: int)
    requires spacing > 0.0 && 0 <= f < |ts| && Unmarked(ts)
    requires Pass(ts, spacing, Some(0.0), Some(f as real)) == Some(lower)
    ensures Untouched(ts, lower, 0, f)
    ensures var m, s := MarksIn(lower, 0, f), Ceil(spacing);
      if f >= s then Times(m, s) <= f else m <= 1 && (f == 0 ==> m == 0)
  {
    if f > 0 {
      assert Whole(0.0) && From(0.0) == 0;
      LowerCount(ts, spacing, 0.0, f);
    }
  }

  lemma SingleArithmetic(lower: nat, upper: nat, f: int, n: nat, s: int, ticksLimit: real)
    requires s >= 1 && 1.0 <= ticksLimit && 0 <= f < n && (n - 1) as real <= Mul(s as real, ticksLimit)
    requires if f >= s then Times(lower, s) <= f else lower <= 1 && (f == 0 ==> lower == 0)
    requires Times(upper, s) <= n - f + if n - f < s then s else 0
    requires if n - f >= s then Times(upper - 1, s) <= n - 1 - f else upper <= 1
    ensures (lower + upper) as real <= ticksLimit + 1.0
  {
    if upper <= 1 && lower <= 1 {
    } else if f >= s || lower == 0 {
      if upper <= 1 {
        Sign(upper - 1, s);
        assert (1 - upper) * s == -((upper - 1) * s);
        Sign(1 - upper, s);
      }
      assert lower == 0 ==> lower * s == 0;
      Distribute(lower, upper - 1, s);
      WithinLimit(lower + upper, 0, s, n, ticksLimit);
    } else {
      Distribute(1, upper - 1, s);
      WithinLimit(lower + upper, 0, s, n, ticksLimit);
    }
  }

  /** The distances between neighbouring majors that are shorter than the spacing. */
  ghost function ShortDistances(majors: seq<int>, s: int): nat {
    if majors == [] then 0 else Short(majors, s, |majors| - 1)
  }

  /** Where the majors fit the limit, at most one tick more than the limit remains, and besides one for each distance
      between neighbouring majors that is shorter than the spacing. */
  lemma SelectionBound(ts: seq<Tick>, ticksLimit: real)
    requires ticksLimit > 0.0 && Unmarked(ts) && |MajorIndices(ts)| as real <= ticksLimit
    requires Marked(ts, MajorIndices(ts), ticksLimit).Some?
    ensures var majors := MajorIndices(ts);
      var r, s := Marked(ts, majors, ticksLimit).value, Ceil(SpacingFor(majors, |ts|, ticksLimit));
      |NonSkipped(r)| as real <= ticksLimit + 1.0 + ShortDistances(majors, s) as real
  {
    var majors := MajorIndices(ts);
    var spacing := SpacingFor(majors, |ts|, ticksLimit);
    SpacingAtLeast(majors, |ts|, ticksLimit);
    SpacingReaches(|ts| - 1, ticksLimit, spacing);
    MajorsInRange(ts);
    if |majors| >= 2 {
      AverageProduct(majors);
      SeveralBound(ts, spacing, majors, ticksLimit, AverageSpacing(majors).value, Marked(ts, majors, ticksLimit).value);
    } else if |majors| == 1 {
      SingleBound(ts, spacing, majors[0], ticksLimit);
      assert majors == [majors[0]];
    } else {
      PlainSelection(ts, ticksLimit);
    }
  }

  lemma CrowdedPass(ts: seq<Tick>, x: int, y: int)
    requires |ts| == 9 && (x, y) in {(0, 1), (1, 2), (2, 8)}
    ensures var r := Pass(ts, 2.0, Some(x as real), Some(y as real));
      && r.Some? && Untouched(ts, r.value, x, y)
      && forall i :: x <= i < y ==> r.value[i].index == if (i - x) % 2 == 0 then Some(i) else ts[i].index
  {
    assert From(x as real) == x && To(y as real, 9) == y;
    PassTicks(ts, 2.0, x as real, y as real);
    var start, step := x as real, StepOf(2.0, x as real, Some(y as real));
    CrowdedStep();
    forall i | x <= i < y ensures OnGrid(start, step, i) <==> (i - x) % 2 == 0 {
      if x == 2 {
        assert forall c: nat :: Grid(2.0, 2.0, c) == 2 + 2 * c;
        assert (i - 2) % 2 == 0 ==> i == Grid(2.0, 2.0, (i - 2) / 2);
      }
    }
  }

  lemma CrowdedStep()
    ensures StepOf(2.0, 0.0, Some(1.0)) == None && StepOf(2.0, 1.0, Some(2.0)) == None
    ensures StepOf(2.0, 2.0, Some(8.0)) == Some(2.0)
  {
    assert Ceil(2.0) == 2 && (1.0 / 2.0).Floor == 0 && (6.0 / 2.0).Floor == 3 && 6.0 / 3.0 == 2.0;
  }

  lemma CrowdedOuterPasses(inner: seq<Tick>)
    requires |inner| == 9
    ensures var avg := (8 - 0) as real / 3 as real;
      && Pass(inner, 2.0, Some(0.0 - avg), Some(0.0)) == Some(inner)
      && var r := Pass(inner, 2.0, Some(8.0), Some(8.0 + avg));
         r.Some? && Untouched(inner, r.value, 8, 9) && r.value[8].index == Some(8)
  {
    var end := 8.0 + (8 - 0) as real / 3 as real;
    assert From(8.0) == 8 && To(end, 9) == 9;
    PassTicks(inner, 2.0, 8.0, end);
    assert Pass(inner, 2.0, Some(8.0 - end), Some(0.0)).value == inner;
  }

  lemma CrowdedCount(r: seq<Tick>)
    requires |r| == 9 && forall i :: 0 <= i < 9 ==> (r[i].index.Some? <==> i == 1 || i % 2 == 0)
    ensures |NonSkipped(r)| == 6
  {
    CollectedCount(r);
    assert MarksIn(r, 0, 0) == 0 && MarksIn(r, 0, 1) == 1 && MarksIn(r, 0, 2) == 2;
    assert MarksIn(r, 0, 3) == 3 && MarksIn(r, 0, 4) == 3 && MarksIn(r, 0, 5) == 4;
    assert MarksIn(r, 0, 6) == 4 && MarksIn(r, 0, 7) == 5 && MarksIn(r, 0, 8) == 5;
  }

  /** Nine ticks of which the first three and the last are majors. */
  function Crowded(): seq<Tick> {
    seq(9, i => Tick(i <= 2 || i == 8, None, true))
  }

  lemma CrowdedSpacing()
    ensures SpacingFor([0, 1, 2, 8], 9, 4.0) == 2.0 && ShortDistances([0, 1, 2, 8], 2) == 2
  {
    var majors := [0, 1, 2, 8];
    forall d ensures !EvenSteps(majors, d) {
      assert majors[1] - majors[0] == 1;
    }
    assert Short(majors, 2, 0) == 0 && Short(majors, 2, 1) == 1 && Short(majors, 2, 2) == 2;
  }

  lemma CrowdedMarks(ts: seq<Tick>, majors: seq<int>)
    requires ts == Crowded() && majors == [0, 1, 2, 8]
    ensures var r := MarkedByMajors(ts, 2.0, majors); r.Some? && |NonSkipped(r.value)| == 6
  {
    assert MajorPasses(ts, 2.0, majors, 0) == Some(ts);
    CrowdedPass(ts, 0, 1);
    var r1 := MajorPasses(ts, 2.0, majors, 1).value;
    CrowdedPass(r1, 1, 2);
    var r2 := MajorPasses(ts, 2.0, majors, 2).value;
    CrowdedPass(r2, 2, 8);
    CrowdedOuterPasses(MajorPasses(ts, 2.0, majors, 3).value);
    CrowdedCount(MarkedByMajors(ts, 2.0, majors).value);
  }

  /** With a limit of 4 they leave six ticks, two more than the limit: two distances are too short. */
  lemma CrowdedMajors()
    ensures MajorIndices(Crowded()) == [0, 1, 2, 8]
    ensures var m := Marked(Crowded(), [0, 1, 2, 8], 4.0); m.Some? && |NonSkipped(m.value)| == 6
    ensures ShortDistances([0, 1, 2, 8], Ceil(SpacingFor([0, 1, 2, 8], 9, 4.0))) == 2
  {
    SameAscending(MajorIndices(Crowded()), [0, 1, 2, 8]);
    CrowdedSpacing();
    CrowdedMarks(Crowded(), [0, 1, 2, 8]);
  }

  // ----- too many majors -----

  /** `r` holds the marked ones of the first `n` ticks when every `step`-th major is marked. */
  ghost predicate EveryMajor(r: seq<Tick>, majors: seq<int>, step: int, n: int) {
    && (forall j :: 0 <= j < |r| ==> MajorAt(majors, Times(j, step), n) && r[j].index == Some(majors[Times(j, step)]))
    && (0 <= Times(|r|, step) < |majors| ==> n <= majors[Times(|r|, step)])
  }

  ghost predicate MajorAt(majors: seq<int>, i: int, n: int) {
    0 <= i < |majors| && majors[i] < n
  }

  lemma {:induction false} CollectMajors(ts: seq<Tick>, majors: seq<int>, step: int)
    requires step >= 1 && Ascending(majors) && forall j :: 0 <= j < |majors| ==> 0 <= majors[j]
    requires forall i :: 0 <= i < |ts| ==> ts[i].index == if MajorMark(majors, step, i) then Some(i) else None
    ensures EveryMajor(NonSkipped(ts), majors, step, |ts|)
  {
    if ts != [] {
      var n := |ts| - 1;
      CollectMajors(ts[..n], majors, step);
      NextMajor(NonSkipped(ts[..n]), ts[n], majors, step, n);
    }
  }

  lemma NextMajor(before: seq<Tick>, tick: Tick, majors: seq<int>, step: int, n: nat)
    requires step >= 1 && Ascending(majors) && EveryMajor(before, majors, step, n)
    requires tick.index == if MajorMark(majors, step, n) then Some(n) else None
    ensures EveryMajor(before + if tick.index.Some? then [tick] else [], majors, step, n + 1)
  {
    var c := |before|;
    Sign(c, step);
    forall e: nat | e < c ensures e * step < |majors| && majors[e * step] < n {
      assert MajorAt(majors, Times(e, step), n);
    }
    MajorMarkHere(majors, step, c, if c * step < |majors| then Some(majors[c * step]) else None, n);
    Distribute(c, 1, step);
  }

  lemma EveryMajorRemains(ts: seq<Tick>, majors: seq<int>, step: int)
    requires step >= 1 && Unmarked(ts) && MajorsOf(majors, |ts|)
    ensures var r := NonSkipped(MajorsOnly(ts, majors, step));
      && EveryMajor(r, majors, step, |ts|)
      && Times(|r| - 1, step) < |majors| <= Times(|r|, step)
  {
    var m := MajorsOnly(ts, majors, step);
    CollectMajors(m, majors, step);
    AllMajorsSeen(NonSkipped(m), majors, step, |ts|);
  }

  lemma AllMajorsSeen(r: seq<Tick>, majors: seq<int>, step: int, n: nat)
    requires step >= 1 && MajorsOf(majors, n) && EveryMajor(r, majors, step, n)
    ensures Times(|r| - 1, step) < |majors| <= Times(|r|, step)
  {
    var c := |r|;
    Sign(c, step);
    if c > 0 {
      assert MajorAt(majors, Times(c - 1, step), n);
    } else {
      Sign(-1, step);
    }
  }

  lemma FewMajors(count: int, step: int, k: nat, ticksLimit: real)
    requires step >= 1 && ticksLimit > 0.0 && k as real / ticksLimit <= step as real && Times(count - 1, step) < k
    ensures count as real < ticksLimit + 1.0
  {
    QuotientOrder(k as real, step as real, ticksLimit);
    Product(count - 1, step);
    LessByFactor((count - 1) as real, ticksLimit, step as real);
  }

  /** Where the majors are too many, every `step`-th of them remains, fewer than the limit plus one. */
  lemma MajorsSelection(ts: seq<Tick>, ticksLimit: real)
    requires ticksLimit > 0.0 && Unmarked(ts) && |MajorIndices(ts)| as real > ticksLimit
    ensures var majors := MajorIndices(ts); var step := Ceil(|majors| as real / ticksLimit);
      var m := Marked(ts, majors, ticksLimit);
      && m.Some?
      && var r := NonSkipped(m.value);
         && EveryMajor(r, majors, step, |ts|)
         && Times(|r| - 1, step) < |majors| <= Times(|r|, step)
         && |r| as real < ticksLimit + 1.0
  {
    var majors := MajorIndices(ts);
    MajorsInRange(ts);
    var step := Ceil(|majors| as real / ticksLimit);
    CeilAtLeast(|majors| as real / ticksLimit);
    PositiveQuotient(|majors| as real, ticksLimit);
    EveryMajorRemains(ts, majors, step);
    FewMajors(|NonSkipped(MajorsOnly(ts, majors, step))|, step, |majors|, ticksLimit);
  }
}
