/** Where the ticks that the selection of the Chart.js scales keeps stand: no wide gap, and none too close. */
module TickCover {
  import opened Rounding
  import opened TickSkip
  import opened TickCount
  import opened Wrappers

  // ----- the marks of one pass -----

  /** From tick `a` to before tick `b` the ticks on the grid are marked and the others have lost their labels. */
  ghost predicate GridTicks(ts: seq<Tick>, r: seq<Tick>, start: real, step: Option<real>, a: int, b: int) {
    |r| == |ts| && forall i :: a <= i < b && 0 <= i < |ts| ==>
      r[i] == if OnGrid(start, step, i) then ts[i].(index := Some(i)) else ts[i].(labelled := false)
  }

  /** The ticks between two limits are those of one pass. */
  ghost predicate Segment(ts: seq<Tick>, r: seq<Tick>, spacing: real, start: real, end: real)
    requires spacing > 0.0
  {
    GridTicks(ts, r, start, StepOf(spacing, start, Some(end)), From(start), To(end, |ts|))
  }

  lemma PassSegment(ts: seq<Tick>, spacing: real, start: real, end: real)
    requires spacing > 0.0 && (start >= 0.0 ==> Whole(start))
    ensures var r := Pass(ts, spacing, Some(start), Some(end));
      r.Some? && Untouched(ts, r.value, From(start), To(end, |ts|)) && Segment(ts, r.value, spacing, start, end)
  {
    var r := Pass(ts, spacing, Some(start), Some(end)).value;
    var step := StepOf(spacing, start, Some(end));
    forall i | 0 <= i < |ts|
      ensures r[i] ==
        if !(From(start) <= i < To(end, |ts|)) then ts[i]
        else if OnGrid(start, step, i) then ts[i].(index := Some(i)) else ts[i].(labelled := false)
    {
      BelowCeil(i, Min(end, |ts| as real));
      FromBelow(start, i);
    }
  }

  /** A pass elsewhere leaves a segment alone. */
  lemma SegmentStays(ts: seq<Tick>, before: seq<Tick>, r: seq<Tick>, spacing: real, start: real, end: real,
                     a: int, b: int)
    requires spacing > 0.0 && Segment(ts, before, spacing, start, end) && Untouched(before, r, a, b)
    requires To(end, |ts|) <= a || b <= From(start)
    ensures Segment(ts, r, spacing, start, end)
  {
  }

  /** A pass over ticks that are still as they were. */
  lemma SegmentOf(ts: seq<Tick>, before: seq<Tick>, r: seq<Tick>, spacing: real, start: real, end: real)
    requires spacing > 0.0 && Segment(before, r, spacing, start, end) && |before| == |ts|
    requires forall i :: From(start) <= i < To(end, |ts|) && 0 <= i < |ts| ==> before[i] == ts[i]
    ensures Segment(ts, r, spacing, start, end)
  {
  }

  // ----- the marks of all passes -----

  ghost predicate SegmentAt(ts: seq<Tick>, r: seq<Tick>, spacing: real, majors: seq<int>, j: nat)
    requires spacing > 0.0 && j + 1 < |majors|
  {
    Segment(ts, r, spacing, majors[j] as real, majors[j + 1] as real)
  }

  lemma WholeLimits(x: int, y: int, n: nat)
    requires 0 <= x && y <= n
    ensures From(x as real) == x && To(y as real, n) == y && Whole(x as real)
  {
  }

  lemma {:induction false} InnerSegments(ts: seq<Tick>, spacing: real, majors: seq<int>, k: nat)
    requires spacing > 0.0 && k < |majors| && MajorsOf(majors, |ts|)
    ensures var r := MajorPasses(ts, spacing, majors, k);
      r.Some? && Untouched(ts, r.value, majors[0], majors[k]) && SegmentsBelow(ts, r.value, spacing, majors, k)
  {
    if k > 0 {
      InnerSegments(ts, spacing, majors, k - 1);
      NextSegment(ts, MajorPasses(ts, spacing, majors, k - 1).value, spacing, majors, k);
    }
  }

  ghost predicate SegmentsBelow(ts: seq<Tick>, r: seq<Tick>, spacing: real, majors: seq<int>, k: nat)
    requires spacing > 0.0 && k < |majors|
  {
    forall j: nat :: j < k ==> SegmentAt(ts, r, spacing, majors, j)
  }

  lemma NextSegment(ts: seq<Tick>, before: seq<Tick>, spacing: real, majors: seq<int>, k: nat)
    requires spacing > 0.0 && 0 < k < |majors| && MajorsOf(majors, |ts|)
    requires Untouched(ts, before, majors[0], majors[k - 1]) && SegmentsBelow(ts, before, spacing, majors, k - 1)
    ensures var r := Pass(before, spacing, Some(majors[k - 1] as real), Some(majors[k] as real));
      r.Some? && Untouched(ts, r.value, majors[0], majors[k]) && SegmentsBelow(ts, r.value, spacing, majors, k)
  {
    var x, y := majors[k - 1], majors[k];
    WholeLimits(x, y, |ts|);
    PassSegment(before, spacing, x as real, y as real);
    var r := Pass(before, spacing, Some(x as real), Some(y as real)).value;
    SegmentOf(ts, before, r, spacing, x as real, y as real);
    assert majors[0] <= x < y;
    SegmentsStay(ts, before, r, spacing, majors, k - 1, x, y);
  }

  lemma SegmentsStay(ts: seq<Tick>, before: seq<Tick>, r: seq<Tick>, spacing: real, majors: seq<int>, k: nat,
                     a: int, b: int)
    requires spacing > 0.0 && k < |majors| && MajorsOf(majors, |ts|) && SegmentsBelow(ts, before, spacing, majors, k)
    requires Untouched(before, r, a, b) && (majors[k] <= a || b <= majors[0])
    ensures SegmentsBelow(ts, r, spacing, majors, k)
  {
    forall j: nat | j < k ensures SegmentAt(ts, r, spacing, majors, j) {
      WholeLimits(majors[j], majors[j + 1], |ts|);
      assert majors[0] <= majors[j] && majors[j + 1] <= majors[k];
      assert SegmentAt(ts, before, spacing, majors, j);
      SegmentStays(ts, before, r, spacing, majors[j] as real, majors[j + 1] as real, a, b);
    }
  }

  // ----- the outer passes -----

  /** The pass below the first major starts one average distance before it, or at 0 if it is the only one. */
  ghost function LowerStart(majors: seq<int>): real
    requires |majors| > 0
  {
    var k := |majors| - 1;
    if k == 0 then 0.0 else majors[0] as real - (majors[k] - majors[0]) as real / k as real
  }

  /** The pass from the last major on ends one average distance behind it, or with the ticks if it is the only one. */
  ghost function UpperEnd(majors: seq<int>, n: nat): real
    requires |majors| > 0
  {
    var k := |majors| - 1;
    if k == 0 then n as real else majors[k] as real + (majors[k] - majors[0]) as real / k as real
  }

  /** The ticks that all passes together reach. */
  ghost predicate Within(majors: seq<int>, n: nat, a: int, b: int)
    requires |majors| > 0
  {
    From(LowerStart(majors)) <= a && b <= To(UpperEnd(majors, n), n)
  }

  /** The result of all passes. */
  ghost predicate AllSegments(ts: seq<Tick>, r: seq<Tick>, spacing: real, majors: seq<int>)
    requires spacing > 0.0 && |majors| > 0
  {
    var k := |majors| - 1;
    && Segment(ts, r, spacing, LowerStart(majors), majors[0] as real)
    && SegmentsBelow(ts, r, spacing, majors, k)
    && Segment(ts, r, spacing, majors[k] as real, UpperEnd(majors, |ts|))
    && Untouched(ts, r, From(LowerStart(majors)), To(UpperEnd(majors, |ts|), |ts|))
  }

  lemma OuterLimits(majors: seq<int>, n: nat)
    requires |majors| > 0 && MajorsOf(majors, n)
    ensures var k := |majors| - 1; var start, end := LowerStart(majors), UpperEnd(majors, n);
      && start <= majors[0] as real && majors[k] as real < end
      && 0 <= From(start) <= majors[0] <= majors[k] < To(end, n) <= n
      && (k > 0 ==> start < majors[0] as real)
  {
    var k := |majors| - 1;
    var end := UpperEnd(majors, n);
    if k > 0 {
      assert majors[0] < majors[k];
      PositiveQuotient((majors[k] - majors[0]) as real, k as real);
    }
    ToWithin(end, n);
    BelowCeil(majors[k], Min(end, n as real));
  }

  lemma OuterSegments(ts: seq<Tick>, spacing: real, majors: seq<int>)
    requires spacing > 0.0 && |majors| > 0 && MajorsOf(majors, |ts|) && MarkedByMajors(ts, spacing, majors).Some?
    ensures AllSegments(ts, MarkedByMajors(ts, spacing, majors).value, spacing, majors)
    ensures LowerStart(majors) >= 0.0 ==> LowerStart(majors) == majors[0] as real || Whole(LowerStart(majors))
  {
    var k := |majors| - 1;
    InnerSegments(ts, spacing, majors, k);
    OuterLimits(majors, |ts|);
    var inner := MajorPasses(ts, spacing, majors, k).value;
    var start, end, f, l := LowerStart(majors), UpperEnd(majors, |ts|), majors[0], majors[k];
    var lower := Pass(inner, spacing, Some(start), Some(f as real)).value;
    WholeLimits(f, f, |ts|);
    WholeLimits(l, l, |ts|);
    PassSegment(inner, spacing, start, f as real);
    PassSegment(lower, spacing, l as real, end);
    LastSegments(ts, inner, lower, MarkedByMajors(ts, spacing, majors).value, spacing, majors);
  }

  lemma LastSegments(ts: seq<Tick>, inner: seq<Tick>, lower: seq<Tick>, r: seq<Tick>, spacing: real, majors: seq<int>)
    requires spacing > 0.0 && |majors| > 0 && MajorsOf(majors, |ts|)
    requires Untouched(ts, inner, majors[0], majors[|majors| - 1])
    requires SegmentsBelow(ts, inner, spacing, majors, |majors| - 1)
    requires Untouched(inner, lower, From(LowerStart(majors)), majors[0])
    requires Segment(inner, lower, spacing, LowerStart(majors), majors[0] as real)
    requires Untouched(lower, r, majors[|majors| - 1], To(UpperEnd(majors, |ts|), |ts|))
    requires Segment(lower, r, spacing, majors[|majors| - 1] as real, UpperEnd(majors, |ts|))
    ensures AllSegments(ts, r, spacing, majors)
  {
    var k := |majors| - 1;
    var start, end, f, l := LowerStart(majors), UpperEnd(majors, |ts|), majors[0], majors[k];
    OuterLimits(majors, |ts|);
    WholeLimits(f, f, |ts|);
    WholeLimits(l, l, |ts|);
    SegmentOf(ts, inner, lower, spacing, start, f as real);
    SegmentStays(ts, lower, r, spacing, start, f as real, l, To(end, |ts|));
    SegmentsStay(ts, inner, lower, spacing, majors, k, From(start), f);
    SegmentsStay(ts, lower, r, spacing, majors, k, l, To(end, |ts|));
    SegmentOf(ts, lower, r, spacing, l as real, end);
  }

  // ----- the distances of the marks of one grid -----

  /** Neighbouring marks are at least a spacing apart, and at most two. */
  lemma GridGap(start: real, t: real, s: int, c: nat)
    requires s >= 1 && s as real <= t < (2 * s) as real
    ensures s <= Grid(start, t, c + 1) - Grid(start, t, c) <= 2 * s
  {
    var x := start + c as real * t;
    assert start + (c + 1) as real * t == x + t;
  }

  lemma {:induction false} GridApart(start: real, t: real, s: int, c: nat, e: nat)
    requires s >= 1 && s as real <= t < (2 * s) as real && c < e
    ensures Grid(start, t, e) - Grid(start, t, c) >= s
  {
    GridGap(start, t, s, e - 1);
    if c < e - 1 {
      GridApart(start, t, s, c, e - 1);
    }
  }

  /** The first mark, from number `c` on, that is not below `i`. */
  lemma {:induction false} FirstNotBelow(start: real, t: real, s: int, i: int, c: nat) returns (e: nat)
    requires s >= 1 && s as real <= t < (2 * s) as real
    ensures e >= c && Grid(start, t, e) >= i && (e == c || Grid(start, t, e - 1) < i)
    decreases i - Grid(start, t, c)
  {
    if Grid(start, t, c) >= i {
      e := c;
    } else {
      GridGap(start, t, s, c);
      e := FirstNotBelow(start, t, s, i, c + 1);
    }
  }

  /** A stretched step is less than two spacings, and one and a half if the pass holds two or more. */
  lemma StretchedStep(spacing: real, start: real, end: real)
    requires spacing > 0.0 && start < end && end != 0.0
    ensures var step, s := StepOf(spacing, start, Some(end)), Ceil(spacing);
      && (step.None? <==> end - start < s as real)
      && (step.Some? ==> s as real <= step.value < (2 * s) as real)
      && (step.Some? ==> step.value == end - start || 2.0 * step.value < (3 * s) as real)
  {
    var length, s := end - start, Ceil(spacing) as real;
    var q := StepShape(spacing, start, end);
    if q >= 1 {
      var n := (length / s).Floor;
      QuotientOrder(length, (n + 1) as real, s);
      QuotientOrder(length, n as real, s);
      var t := length / n as real;
      assert t * n as real == length;
      StretchBound(t, n, s);
    }
  }

  lemma StretchBound(t: real, n: int, s: real)
    requires n >= 1 && s > 0.0 && t * n as real < (n + 1) as real * s
    ensures t < 2.0 * s && (n >= 2 ==> 2.0 * t < 3.0 * s)
  {
    assert (2 * n) as real * s == (2.0 * s) * n as real;
    assert (n - 1) as real * s >= 0.0;
    assert (n + 1) as real * s == (2 * n) as real * s - (n - 1) as real * s;
    Cancel(t, 2.0 * s, n as real);
    if n >= 2 {
      assert (n - 2) as real * s >= 0.0;
      assert (2.0 * t) * n as real == 2.0 * (t * n as real);
      assert (3.0 * s) * n as real == 2.0 * ((n + 1) as real * s) + (n - 2) as real * s;
      Cancel(2.0 * t, 3.0 * s, n as real);
    }
  }

  // ----- no wide gap -----

  ghost predicate MarkedWithin(r: seq<Tick>, i: int, width: int) {
    exists j :: i <= j < i + width && 0 <= j < |r| && r[j].index.Some?
  }

  /** The first mark of a grid that starts below 0. */
  lemma FirstMarkEarly(start: real, end: real, t: real, s: int)
    requires s >= 1 && start < 0.0 && Whole(end) && s as real <= t < (2 * s) as real
    requires t == end - start || 2.0 * t < (3 * s) as real
    ensures Grid(start, t, 1) < 2 * s
  {
    assert start + 1 as real * t == start + t;
  }

  /** Two spacings of ticks behind the start of a grid hold a mark. */
  lemma MarkInWindow(start: real, t: real, s: int, i: int) returns (e: nat)
    requires s >= 1 && s as real <= t < (2 * s) as real
    requires if start >= 0.0 then Whole(start) && start.Floor <= i else 0 <= i && Grid(start, t, 1) < 2 * s
    ensures i <= Grid(start, t, e) < i + 2 * s && (e == 0 ==> start >= 0.0)
  {
    if start >= 0.0 {
      assert Grid(start, t, 0) == start.Floor by {
        assert 0 as real * t == 0.0;
      }
      e := FirstNotBelow(start, t, s, i, 0);
    } else {
      e := FirstNotBelow(start, t, s, i, 1);
    }
    if e >= 1 {
      GridGap(start, t, s, e - 1);
    }
  }

  lemma MarkOnGrid(start: real, t: real, e: nat, i: int)
    requires if e == 0 then start >= 0.0 && Whole(start) && start.Floor <= i <= Grid(start, t, 0) else true
    ensures OnGrid(start, Some(t), Grid(start, t, e))
  {
    assert 0 as real * t == 0.0;
  }

  /** Where a pass has room for two spacings there is a mark. */
  lemma GridCovers(start: real, end: real, spacing: real, i: int) returns (j: int)
    requires spacing > 0.0 && start < end && end != 0.0
    requires if start >= 0.0 then Whole(start) else Whole(end)
    requires From(start) <= i && i + 2 * Ceil(spacing) <= Ceil(end)
    ensures i <= j < i + 2 * Ceil(spacing) && OnGrid(start, StepOf(spacing, start, Some(end)), j)
  {
    var s, step := Ceil(spacing), StepOf(spacing, start, Some(end));
    StretchedStep(spacing, start, end);
    assert step.Some?;
    if start < 0.0 {
      FirstMarkEarly(start, end, step.value, s);
    }
    var e := MarkInWindow(start, step.value, s, i);
    MarkOnGrid(start, step.value, e, i);
    j := Grid(start, step.value, e);
  }

  lemma SegmentCovers(ts: seq<Tick>, r: seq<Tick>, spacing: real, start: real, end: real, i: int)
    requires spacing > 0.0 && start < end && end != 0.0 && Segment(ts, r, spacing, start, end)
    requires if start >= 0.0 then Whole(start) else Whole(end)
    requires From(start) <= i && i + 2 * Ceil(spacing) <= To(end, |ts|)
    ensures MarkedWithin(r, i, 2 * Ceil(spacing))
  {
    ToWithin(end, |ts|);
    var j := GridCovers(start, end, spacing, i);
    assert r[j].index == Some(j);
  }

  /** The majors are marked. */
  ghost predicate MajorsMarked(r: seq<Tick>, majors: seq<int>) {
    forall j :: 0 <= j < |majors| ==> 0 <= majors[j] < |r| && r[majors[j]].index.Some?
  }

  lemma MajorsAreMarked(ts: seq<Tick>, r: seq<Tick>, spacing: real, majors: seq<int>)
    requires spacing > 0.0 && |majors| > 0 && MajorsOf(majors, |ts|) && AllSegments(ts, r, spacing, majors)
    ensures MajorsMarked(r, majors)
  {
    OuterLimits(majors, |ts|);
    forall j | 0 <= j < |majors| ensures 0 <= majors[j] < |r| && r[majors[j]].index.Some? {
      var x := majors[j];
      WholeLimits(x, x, |ts|);
      if j + 1 < |majors| {
        WholeLimits(x, majors[j + 1], |ts|);
        assert SegmentAt(ts, r, spacing, majors, j);
        assert OnGrid(x as real, StepOf(spacing, x as real, Some(majors[j + 1] as real)), x);
      } else {
        var end := UpperEnd(majors, |ts|);
        assert OnGrid(x as real, StepOf(spacing, x as real, Some(end)), x);
      }
    }
  }

  /** Any two spacings of ticks that the passes reach hold a mark. */
  lemma PassesCover(ts: seq<Tick>, r: seq<Tick>, spacing: real, majors: seq<int>, i: int)
    requires spacing > 0.0 && |majors| > 0 && MajorsOf(majors, |ts|) && AllSegments(ts, r, spacing, majors)
    requires LowerStart(majors) >= 0.0 ==> Whole(LowerStart(majors))
    requires Within(majors, |ts|, i, i + 2 * Ceil(spacing))
    ensures MarkedWithin(r, i, 2 * Ceil(spacing))
  {
    var k, w := |majors| - 1, 2 * Ceil(spacing);
    OuterLimits(majors, |ts|);
    MajorsAreMarked(ts, r, spacing, majors);
    if m :| 0 <= m <= k && i <= majors[m] < i + w {
      assert r[majors[m]].index.Some?;
    } else if i < majors[0] {
      WholeLimits(majors[0], majors[0], |ts|);
      SegmentCovers(ts, r, spacing, LowerStart(majors), majors[0] as real, i);
    } else if majors[k] < i {
      WholeLimits(majors[k], majors[k], |ts|);
      SegmentCovers(ts, r, spacing, majors[k] as real, UpperEnd(majors, |ts|), i);
    } else {
      var m := MajorBelow(majors, i, k);
      WholeLimits(majors[m], majors[m + 1], |ts|);
      assert SegmentAt(ts, r, spacing, majors, m);
      SegmentCovers(ts, r, spacing, majors[m] as real, majors[m + 1] as real, i);
    }
  }

  lemma {:induction false} MajorBelow(majors: seq<int>, i: int, k: nat) returns (m: nat)
    requires k < |majors| && Ascending(majors) && majors[0] <= i < majors[k]
    ensures m < k && majors[m] <= i < majors[m + 1]
  {
    if majors[k - 1] <= i {
      m := k - 1;
    } else {
      m := MajorBelow(majors, i, k - 1);
    }
  }

  // ----- none too close -----

  /** The number of a mark on a grid. */
  lemma MarkNumber(start: real, t: real, i: int) returns (c: nat)
    requires OnGrid(start, Some(t), i)
    ensures Grid(start, t, c) == i
  {
    assert 0 as real * t == 0.0;
    if start >= 0.0 && start == i as real {
      c := 0;
    } else {
      c :| c >= 1 && i == Grid(start, t, c);
    }
  }

  lemma MarksOrdered(start: real, t: real, s: int, c: nat, e: nat)
    requires s >= 1 && s as real <= t < (2 * s) as real && Grid(start, t, c) < Grid(start, t, e)
    ensures Grid(start, t, e) - Grid(start, t, c) >= s
  {
    if c < e {
      GridApart(start, t, s, c, e);
    } else if e < c {
      GridApart(start, t, s, e, c);
    }
  }

  lemma GridSeparate(start: real, end: real, spacing: real, i: int, j: int)
    requires spacing > 0.0 && start < end && end != 0.0 && i < j
    requires OnGrid(start, StepOf(spacing, start, Some(end)), i) && OnGrid(start, StepOf(spacing, start, Some(end)), j)
    ensures j - i >= Ceil(spacing)
  {
    var step, s := StepOf(spacing, start, Some(end)), Ceil(spacing);
    StretchedStep(spacing, start, end);
    if step.Some? {
      var c := MarkNumber(start, step.value, i);
      var e := MarkNumber(start, step.value, j);
      MarksOrdered(start, step.value, s, c, e);
    }
  }

  /** The end of a pass lies on its grid. */
  lemma EndOnGrid(start: real, end: int, spacing: real) returns (q: nat)
    requires spacing > 0.0 && start < end as real && end != 0
    ensures var step := StepOf(spacing, start, Some(end as real)); step.Some? ==> Grid(start, step.value, q) == end
  {
    q := StepShape(spacing, start, end as real);
    var step := StepOf(spacing, start, Some(end as real));
    if step.Some? {
      EndGrid(start, step.value, q, end);
    }
  }

  lemma EndGrid(start: real, t: real, q: nat, end: int)
    requires t * q as real == end as real - start
    ensures Grid(start, t, q) == end
  {
    assert q as real * t == t * q as real;
  }

  /** Only the start of a pass that is shorter than a spacing is marked close to its end. */
  lemma GridBeforeEnd(start: real, end: int, spacing: real, i: int)
    requires spacing > 0.0 && start < end as real && end != 0 && i < end
    requires OnGrid(start, StepOf(spacing, start, Some(end as real)), i)
    ensures end - i >= Ceil(spacing) || i as real == start
  {
    var step := StepOf(spacing, start, Some(end as real));
    StretchedStep(spacing, start, end as real);
    var q := EndOnGrid(start, end, spacing);
    if step.Some? {
      var c := MarkNumber(start, step.value, i);
      MarksOrdered(start, step.value, Ceil(spacing), c, q);
    }
  }

  lemma OnGridOf(ts: seq<Tick>, r: seq<Tick>, spacing: real, start: real, end: real, i: int)
    requires spacing > 0.0 && Unmarked(ts) && Segment(ts, r, spacing, start, end)
    requires From(start) <= i < To(end, |ts|) && 0 <= i < |r| && r[i].index.Some?
    ensures OnGrid(start, StepOf(spacing, start, Some(end)), i)
  {
  }

  /** Marks of one segment. */
  lemma SegmentApart(ts: seq<Tick>, r: seq<Tick>, spacing: real, start: real, end: real, i: int, j: int)
    requires spacing > 0.0 && start < end && end != 0.0 && Unmarked(ts) && Segment(ts, r, spacing, start, end)
    requires From(start) <= i < j < To(end, |ts|) && 0 <= i && j < |r| && r[i].index.Some? && r[j].index.Some?
    ensures j - i >= Ceil(spacing)
  {
    OnGridOf(ts, r, spacing, start, end, i);
    OnGridOf(ts, r, spacing, start, end, j);
    GridSeparate(start, end, spacing, i, j);
  }

  /** The passes in the order of their ticks: the one below the first major, those behind all but the last major, and
      the one from the last major on. */
  ghost function SegmentStart(majors: seq<int>, p: nat): real
    requires 0 < |majors| && p <= |majors|
  {
    if p == 0 then LowerStart(majors) else majors[p - 1] as real
  }

  ghost function SegmentEnd(majors: seq<int>, n: nat, p: nat): real
    requires 0 < |majors| && p <= |majors|
  {
    if p < |majors| then majors[p] as real else UpperEnd(majors, n)
  }

  /** The pass whose ticks lie around tick `i`. */
  lemma {:induction false} PassAround(majors: seq<int>, i: int, k: nat) returns (p: nat)
    requires k <= |majors| && Ascending(majors) && forall m :: k <= m < |majors| ==> i < majors[m]
    ensures p <= k && (p > 0 ==> majors[p - 1] <= i) && (p < |majors| ==> i < majors[p])
  {
    if k == 0 || majors[k - 1] <= i {
      p := k;
    } else {
      p := PassAround(majors, i, k - 1);
    }
  }

  lemma InReach(ts: seq<Tick>, r: seq<Tick>, spacing: real, majors: seq<int>, i: nat)
    requires spacing > 0.0 && |majors| > 0 && MajorsOf(majors, |ts|) && AllSegments(ts, r, spacing, majors)
    requires Unmarked(ts) && i < |r| && r[i].index.Some?
    ensures Within(majors, |ts|, i, i + 1)
  {
  }

  /** The pass around a tick. */
  lemma SegmentHolds(ts: seq<Tick>, r: seq<Tick>, spacing: real, majors: seq<int>, i: nat, p: nat)
    requires spacing > 0.0 && |majors| > 0 && MajorsOf(majors, |ts|) && AllSegments(ts, r, spacing, majors)
    requires Within(majors, |ts|, i, i + 1)
    requires p <= |majors| && (p > 0 ==> majors[p - 1] <= i) && (p < |majors| ==> i < majors[p])
    ensures var start, end := SegmentStart(majors, p), SegmentEnd(majors, |ts|, p);
      && start < end && end != 0.0 && From(start) <= i < To(end, |ts|) && Segment(ts, r, spacing, start, end)
  {
    var k := |majors| - 1;
    OuterLimits(majors, |ts|);
    if p == 0 {
      WholeLimits(majors[0], majors[0], |ts|);
    } else if p == |majors| {
      WholeLimits(majors[k], majors[k], |ts|);
    } else {
      WholeLimits(majors[p - 1], majors[p], |ts|);
      assert SegmentAt(ts, r, spacing, majors, p - 1);
    }
  }

  /** Two marks closer than a spacing are majors, or the one below is where the pass below the first major starts. */
  lemma PassesApart(ts: seq<Tick>, r: seq<Tick>, spacing: real, majors: seq<int>, i: nat, j: nat)
    requires spacing > 0.0 && |majors| > 0 && MajorsOf(majors, |ts|) && AllSegments(ts, r, spacing, majors)
    requires Unmarked(ts) && i < j < |r| && r[i].index.Some? && r[j].index.Some? && j - i < Ceil(spacing)
    ensures j in majors && (i in majors || i as real == LowerStart(majors))
  {
    var p := PassAround(majors, i, |majors|);
    var p' := PassAround(majors, j, |majors|);
    InReach(ts, r, spacing, majors, i);
    InReach(ts, r, spacing, majors, j);
    SegmentHolds(ts, r, spacing, majors, i, p);
    SegmentHolds(ts, r, spacing, majors, j, p');
    assert p <= p';
    if p == p' {
      SegmentApart(ts, r, spacing, SegmentStart(majors, p), SegmentEnd(majors, |ts|, p), i, j);
    } else {
      JustBehindMajor(ts, r, spacing, majors, j, p');
      JustBeforeMajor(ts, r, spacing, majors, i, p);
      assert majors[p] <= majors[p' - 1];
    }
  }

  lemma JustBehindMajor(ts: seq<Tick>, r: seq<Tick>, spacing: real, majors: seq<int>, j: nat, p: nat)
    requires spacing > 0.0 && |majors| > 0 && MajorsOf(majors, |ts|) && AllSegments(ts, r, spacing, majors)
    requires Unmarked(ts) && j < |r| && r[j].index.Some?
    requires 0 < p <= |majors| && majors[p - 1] <= j && (p < |majors| ==> j < majors[p])
    ensures j == majors[p - 1] || j - majors[p - 1] >= Ceil(spacing)
  {
    var m := majors[p - 1];
    MajorsAreMarked(ts, r, spacing, majors);
    InReach(ts, r, spacing, majors, j);
    SegmentHolds(ts, r, spacing, majors, j, p);
    if m < j {
      WholeLimits(m, m, |ts|);
      SegmentApart(ts, r, spacing, SegmentStart(majors, p), SegmentEnd(majors, |ts|, p), m, j);
    }
  }

  lemma JustBeforeMajor(ts: seq<Tick>, r: seq<Tick>, spacing: real, majors: seq<int>, i: nat, p: nat)
    requires spacing > 0.0 && |majors| > 0 && MajorsOf(majors, |ts|) && AllSegments(ts, r, spacing, majors)
    requires Unmarked(ts) && i < |r| && r[i].index.Some?
    requires p < |majors| && (p > 0 ==> majors[p - 1] <= i) && i < majors[p]
    ensures majors[p] - i >= Ceil(spacing) || i as real == SegmentStart(majors, p)
  {
    InReach(ts, r, spacing, majors, i);
    SegmentHolds(ts, r, spacing, majors, i, p);
    var start, end := SegmentStart(majors, p), majors[p];
    OnGridOf(ts, r, spacing, start, end as real, i);
    GridBeforeEnd(start, end, spacing, i);
  }

  // ----- the whole selection -----

  /** Inside the reach of the passes every tick is kept as it was or has lost its label, outside nothing changes. */
  ghost predicate Selected(ts: seq<Tick>, r: seq<Tick>, a: int, b: int) {
    |r| == |ts| && forall i :: 0 <= i < |ts| ==>
      r[i] == (if a <= i < b && r[i].index.Some? then ts[i].(index := Some(i))
               else if a <= i < b then ts[i].(labelled := false) else ts[i])
  }

  lemma PassesSelect(ts: seq<Tick>, r: seq<Tick>, spacing: real, majors: seq<int>)
    requires spacing > 0.0 && |majors| > 0 && MajorsOf(majors, |ts|) && AllSegments(ts, r, spacing, majors)
    requires Unmarked(ts)
    ensures Selected(ts, r, From(LowerStart(majors)), To(UpperEnd(majors, |ts|), |ts|))
  {
    var a, b := From(LowerStart(majors)), To(UpperEnd(majors, |ts|), |ts|);
    forall i | a <= i < b && 0 <= i < |ts|
      ensures r[i] == if r[i].index.Some? then ts[i].(index := Some(i)) else ts[i].(labelled := false)
    {
      var p := PassAround(majors, i, |majors|);
      SegmentHolds(ts, r, spacing, majors, i, p);
    }
  }

  /** A tick at which the pass below the first major starts is kept. */
  lemma StartKept(ts: seq<Tick>, r: seq<Tick>, spacing: real, majors: seq<int>)
    requires spacing > 0.0 && |majors| > 0 && MajorsOf(majors, |ts|) && AllSegments(ts, r, spacing, majors)
    requires LowerStart(majors) >= 0.0 && Whole(LowerStart(majors))
    ensures var i := LowerStart(majors).Floor; 0 <= i < |r| && r[i].index.Some?
  {
    var start, f := LowerStart(majors), majors[0];
    OuterLimits(majors, |ts|);
    WholeLimits(f, f, |ts|);
    if start.Floor < f {
      assert OnGrid(start, StepOf(spacing, start, Some(f as real)), start.Floor);
    } else {
      MajorsAreMarked(ts, r, spacing, majors);
    }
  }

  /** The majors fit the limit and the selection succeeds. */
  ghost predicate Successful(ts: seq<Tick>, majors: seq<int>, ticksLimit: real) {
    && ticksLimit > 0.0 && Unmarked(ts) && majors == MajorIndices(ts)
    && 0 < |majors| && |majors| as real <= ticksLimit && Marked(ts, majors, ticksLimit).Some?
  }

  /** The selection among ticks with majors leaves no gap wider than two spacings in its reach, begins with the tick at
      the start of its reach, and takes the labels of exactly the other ticks there. With a single major the reach is
      all ticks. */
  lemma SelectionCovers(ts: seq<Tick>, majors: seq<int>, ticksLimit: real)
    requires Successful(ts, majors, ticksLimit)
    ensures var r, width := Marked(ts, majors, ticksLimit).value, 2 * Ceil(SpacingFor(majors, |ts|, ticksLimit));
      && (forall i :: Within(majors, |ts|, i, i + width) ==> MarkedWithin(r, i, width))
      && Selected(ts, r, From(LowerStart(majors)), To(UpperEnd(majors, |ts|), |ts|))
      && From(LowerStart(majors)) < |r|
      && (LowerStart(majors) >= 0.0 ==> r[From(LowerStart(majors))].index.Some?)
    ensures |majors| == 1 ==> From(LowerStart(majors)) == 0 && To(UpperEnd(majors, |ts|), |ts|) == |ts|
  {
    var spacing := SpacingFor(majors, |ts|, ticksLimit);
    var r := Marked(ts, majors, ticksLimit).value;
    MajorsInRange(ts);
    OuterLimits(majors, |ts|);
    OuterSegments(ts, spacing, majors);
    PassesSelect(ts, r, spacing, majors);
    if LowerStart(majors) >= 0.0 {
      StartKept(ts, r, spacing, majors);
    }
    forall i | Within(majors, |ts|, i, i + 2 * Ceil(spacing)) ensures MarkedWithin(r, i, 2 * Ceil(spacing)) {
      PassesCover(ts, r, spacing, majors, i);
    }
  }

  /** Two kept ticks closer than the spacing are both majors, or the second one is and the first one is the tick at
      which the reach begins. */
  lemma SelectionApart(ts: seq<Tick>, majors: seq<int>, ticksLimit: real, i: nat, j: nat)
    requires Successful(ts, majors, ticksLimit) && i < j < |ts|
    requires var r := Marked(ts, majors, ticksLimit).value; |r| == |ts| && r[i].index.Some? && r[j].index.Some?
    ensures j - i >= Ceil(SpacingFor(majors, |ts|, ticksLimit))
      || (ts[j].major && (ts[i].major || i as real == LowerStart(majors)))
  {
    var spacing := SpacingFor(majors, |ts|, ticksLimit);
    MajorsInRange(ts);
    OuterSegments(ts, spacing, majors);
    if j - i < Ceil(spacing) {
      PassesApart(ts, Marked(ts, majors, ticksLimit).value, spacing, majors, i, j);
    }
  }

  /** Without majors, or with too many of them, the labels of exactly the ticks that are not kept go as well. */
  lemma OthersSelected(ts: seq<Tick>, majors: seq<int>, ticksLimit: real)
    requires ticksLimit > 0.0 && Unmarked(ts) && (majors == [] || |majors| as real > ticksLimit)
    ensures var m := Marked(ts, majors, ticksLimit); m.Some? && Selected(ts, m.value, 0, |ts|)
  {
    if |majors| as real > ticksLimit {
      PositiveQuotient(|majors| as real, ticksLimit);
    }
  }
}
