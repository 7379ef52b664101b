/** Tick skipping of the Chart.js scales: marking in place the ticks whose labels are drawn. */
module TickSkip {
  import opened Rounding
  import opened Wrappers

  /** A tick: `index` is the mark `_index`, `labelled` whether its label was kept. */
  datatype Tick = Tick(major: bool, index: Option<int>, labelled: bool)

  // ----- proper divisors -----

  ghost predicate Divisor(value: nat, d: int) {
    1 <= d <= value && value % d == 0
  }

  function Insert(x: int, s: seq<int>): seq<int> {
    if s == [] then [x] else if x <= s[0] then [x] + s else [s[0]] + Insert(x, s[1..])
  }

  /** Array.prototype.sort with a numeric comparator. */
  function Sort(s: seq<int>): seq<int> {
    if s == [] then [] else Insert(s[0], Sort(s[1..]))
  }

  ghost predicate Ascending(s: seq<int>) {
    forall i, j :: 0 <= i < j < |s| ==> s[i] < s[j]
  }

  ghost predicate NoRepeats(s: seq<int>) {
    forall i, j :: 0 <= i < j < |s| ==> s[i] != s[j]
  }

  lemma {:induction false} InsertAscending(x: int, s: seq<int>)
    requires Ascending(s) && x !in s
    ensures Ascending(Insert(x, s)) && forall y :: y in Insert(x, s) <==> y == x || y in s
  {
    if s != [] {
      assert s == [s[0]] + s[1..];
      if x > s[0] {
        InsertAscending(x, s[1..]);
        FirstAscending(s[0], Insert(x, s[1..]));
      } else {
        FirstAscending(x, s);
      }
    }
  }

  lemma FirstAscending(x: int, s: seq<int>)
    requires Ascending(s) && forall y :: y in s ==> x < y
    ensures Ascending([x] + s) && forall y :: y in [x] + s <==> y == x || y in s
  {
    forall j | 0 <= j < |s| ensures x < s[j] {
      assert s[j] in s;
    }
  }

  lemma {:induction false} SortAscending(s: seq<int>)
    requires NoRepeats(s)
    ensures Ascending(Sort(s)) && forall y :: y in Sort(s) <==> y in s
  {
    if s != [] {
      SortAscending(s[1..]);
      assert s == [s[0]] + s[1..];
      InsertAscending(s[0], Sort(s[1..]));
    }
  }

  /** The cofactor of a divisor is a divisor. */
  lemma Cofactor(value: nat, d: int)
    requires Divisor(value, d)
    ensures Divisor(value, value / d) && value / (value / d) == d && d * (value / d) == value
  {
    var e := value / d;
    assert d * e == value;
    Sign(-e, d);
    assert (-e) * d == -(d * e);
    Multiple(d, e);
    Sign(d, e);
  }

  lemma Sign(a: int, e: int)
    requires e >= 1
    ensures a >= 1 ==> a * e >= e
    ensures a >= 0 ==> a * e >= 0
    ensures a <= -1 ==> a * e <= -e
  {
  }

  lemma Multiple(d: int, e: int)
    requires e >= 1
    ensures (d * e) % e == 0 && (d * e) / e == d
  {
    var q, r := (d * e) / e, (d * e) % e;
    assert d * e == e * q + r;
    assert (d - q) * e == r;
    Sign(d - q, e);
  }

  lemma ProductAtLeast(d: int, e: int, i: int)
    requires d >= i && e >= i && i >= 1
    ensures d * e >= i * i && (d * e == i * i ==> d == i && e == i)
  {
    assert d * e - i * i == (d - i) * e + (e - i) * i;
    Sign(d - i, e);
    Sign(e - i, i);
  }

  /** A divisor or its cofactor lies below any number whose square reaches the value. */
  lemma Crossing(value: nat, d: int, i: nat)
    requires Divisor(value, d) && 1 <= i && value <= i * i
    ensures d < i || value / d < i || (d == i == value / d && i * i == value)
  {
    Cofactor(value, d);
    if d >= i && value / d >= i {
      ProductAtLeast(d, value / d, i);
    }
  }

  method Factorize(value: nat) returns (result: seq<int>)
    requires 1 <= value
    ensures Ascending(result)
    ensures forall d :: d in result <==> Divisor(value, d) && d != value
  {
    result := [];
    var i := 1;
    while i * i < value
      invariant 1 <= i <= value
      invariant NoRepeats(result)
      invariant forall d :: d in result <==> Divisor(value, d) && (d < i || value / d < i)
      decreases value - i
    {
      if value % i == 0 {
        NewPair(value, i, result);
        result := result + [i, value / i];
      } else {
        NoNewPair(value, i);
      }
      Sign(i, i);
      i := i + 1;
    }
    if i * i == value {
      SquarePair(value, i);
      result := result + [i];
    }
    assert NoRepeats(result);
    AllPairsFound(value, i, result);
    SortAscending(result);
    var sorted := Sort(result);
    assert value in sorted by {
      assert Divisor(value, value);
    }
    LastIsLargest(sorted, value);
    result := sorted[..|sorted| - 1];
  }

  lemma SquarePair(value: nat, i: nat)
    requires 1 <= i && i * i == value
    ensures Divisor(value, i) && value / i == i
  {
    Multiple(i, i);
    Sign(i, i);
  }

  lemma AllPairsFound(value: nat, i: nat, result: seq<int>)
    requires 1 <= i && value <= i * i
    requires forall d :: d in result <==> Divisor(value, d) && (d < i || value / d < i || (d == i && i * i == value))
    ensures forall d :: d in result <==> Divisor(value, d)
  {
    forall d | Divisor(value, d) ensures d in result {
      Crossing(value, d, i);
    }
  }

  /** The pair found at `i` is new. */
  lemma NewPair(value: nat, i: nat, result: seq<int>)
    requires 1 <= i && i * i < value && value % i == 0
    requires NoRepeats(result) && forall d :: d in result <==> Divisor(value, d) && (d < i || value / d < i)
    ensures NoRepeats(result + [i, value / i])
    ensures forall d :: d in result + [i, value / i] <==> Divisor(value, d) && (d < i + 1 || value / d < i + 1)
  {
    Sign(i, i);
    var e := value / i;
    Cofactor(value, i);
    assert i * i - i * e == (i - e) * i;
    Sign(i - e, i);
    assert i !in result && e !in result;
    forall d | Divisor(value, d) && value / d == i ensures d == e {
      Cofactor(value, d);
    }
  }

  lemma NoNewPair(value: nat, i: nat)
    requires 1 <= i && value % i != 0
    ensures forall d :: Divisor(value, d) ==> d != i && value / d != i
  {
    forall d | Divisor(value, d) ensures value / d != i {
      Cofactor(value, d);
    }
  }

  lemma LastIsLargest(s: seq<int>, m: int)
    requires Ascending(s) && m in s && forall x :: x in s ==> x <= m
    ensures |s| > 0 && s[|s| - 1] == m && forall x :: x in s[..|s| - 1] <==> x in s && x != m
  {
    var i :| 0 <= i < |s| && s[i] == m;
    assert s[|s| - 1] in s;
  }

  // ----- spacing -----

  /** The majors stand `d` apart, the first one at `d`. */
  ghost predicate EvenSteps(arr: seq<int>, d: int) {
    2 <= |arr| && arr[0] == d && forall i, j :: 0 <= i && j == i + 1 < |arr| ==> arr[j] - arr[i] == d
  }

  /** Even majors are the multiples of their distance: where they begin elsewhere they do not count as even. */
  lemma {:induction false} EvenStepsIff(arr: seq<int>, d: int)
    ensures EvenSteps(arr, d) <==> 2 <= |arr| && forall j :: 0 <= j < |arr| ==> arr[j] == Times(j + 1, d)
  {
    if EvenSteps(arr, d) {
      forall j | 0 <= j < |arr| ensures arr[j] == Times(j + 1, d) {
        EvenStepAt(arr, d, j);
      }
    }
  }

  lemma {:induction false} EvenStepAt(arr: seq<int>, d: int, j: nat)
    requires EvenSteps(arr, d) && j < |arr|
    ensures arr[j] == Times(j + 1, d)
  {
    if j > 0 {
      EvenStepAt(arr, d, j - 1);
    }
  }

  method GetEvenSpacing(arr: seq<int>) returns (diff: Option<int>)
    ensures diff.Some? ==> EvenSteps(arr, diff.value)
    ensures forall d :: EvenSteps(arr, d) ==> diff == Some(d)
  {
    if |arr| < 2 {
      return None;
    }
    for i := 1 to |arr|
      invariant forall j, k :: 0 <= j && k == j + 1 < i ==> arr[k] - arr[j] == arr[0]
    {
      if arr[i] - arr[i - 1] != arr[0] {
        return None;
      }
    }
    return Some(arr[0]);
  }

  /** The smallest divisor of `d` above `spacing`, unless it is one of the two largest. */
  ghost predicate Chosen(d: nat, spacing: real, f: int) {
    && Divisor(d, f) && f as real > spacing
    && (exists g :: Divisor(d, g) && f < g < d)
    && (forall h :: Divisor(d, h) && h as real > spacing ==> f <= h)
  }

  /** `f` is what the factors of the majors' even distance offer for `spacing`. */
  ghost predicate Offered(majorIndices: seq<int>, spacing: real, f: int) {
    exists d: nat :: EvenSteps(majorIndices, d) && Chosen(d, spacing, f)
  }

  method CalculateSpacing(majorIndices: seq<int>, length: nat, ticksLimit: real) returns (r: real)
    requires ticksLimit > 0.0 && forall i :: 0 <= i < |majorIndices| ==> majorIndices[i] >= 0
    ensures var spacing := (length - 1) as real / ticksLimit;
      (exists f :: Offered(majorIndices, spacing, f) && r == f as real) ||
      (r == Max(spacing, 1.0) && forall f :: !Offered(majorIndices, spacing, f))
  {
    var evenMajorSpacing := GetEvenSpacing(majorIndices);
    var spacing := (length - 1) as real / ticksLimit;
    if evenMajorSpacing.None? || evenMajorSpacing.value == 0 {
      return Max(spacing, 1.0);
    }
    var d: nat := evenMajorSpacing.value;
    var factors := Factorize(d);
    var i := 0;
    while i < |factors| - 1
      invariant 0 <= i && forall j :: 0 <= j < i && j < |factors| ==> factors[j] as real <= spacing
    {
      if factors[i] as real > spacing {
        SmallestFactor(d, spacing, factors, i);
        assert Offered(majorIndices, spacing, factors[i]);
        return factors[i] as real;
      }
      i := i + 1;
    }
    forall f, g | Divisor(d, f) && Divisor(d, g) && f < g < d ensures f as real <= spacing {
      var j :| 0 <= j < |factors| && factors[j] == f;
      var l :| 0 <= l < |factors| && factors[l] == g;
      assert j < l;
    }
    return Max(spacing, 1.0);
  }

  lemma SmallestFactor(d: nat, spacing: real, factors: seq<int>, i: nat)
    requires Ascending(factors) && forall f :: f in factors <==> Divisor(d, f) && f != d
    requires i < |factors| - 1 && factors[i] as real > spacing
    requires forall j :: 0 <= j < i ==> factors[j] as real <= spacing
    ensures Chosen(d, spacing, factors[i])
  {
    assert factors[i] in factors && factors[i + 1] in factors;
    forall h | Divisor(d, h) && h as real > spacing ensures factors[i] <= h {
      if h != d {
        var j :| 0 <= j < |factors| && factors[j] == h;
        assert i <= j;
      }
    }
  }

  // ----- marking -----

  /** Where the c-th mark from `start` falls. */
  function Grid(start: real, step: real, c: nat): int {
    Round(start + c as real * step)
  }

  /** The marks of a pass: the start, if it is a tick, then one every `step`; None is infinite. */
  ghost predicate OnGrid(start: real, step: Option<real>, i: int) {
    (start >= 0.0 && start == i as real) || (step.Some? && exists c: nat :: c >= 1 && i == Grid(start, step.value, c))
  }

  lemma GridGrows(start: real, step: real, c: nat, e: nat)
    requires step >= 1.0 && c < e
    ensures Grid(start, step, c) < Grid(start, step, e)
  {
    var x, y := start + c as real * step, start + e as real * step;
    assert y - x == (e as real - c as real) * step;
  }

  /** The distance of the marks of a pass: between majors it is stretched to end at the next one. */
  function StepOf(spacing: real, start: real, majorEnd: Option<real>): Option<real>
    requires spacing > 0.0
  {
    var s := Ceil(spacing) as real;
    if majorEnd.None? || majorEnd.value == 0.0 then Some(s)
    else
      var length := majorEnd.value - start;
      var n := (length / s).Floor;
      if n == 0 then None else Some(length / n as real)
  }

  lemma StepAtLeastOne(spacing: real, start: real, majorEnd: Option<real>)
    requires spacing > 0.0 && (majorEnd.Some? ==> start <= majorEnd.value)
    ensures StepOf(spacing, start, majorEnd).Some? ==> StepOf(spacing, start, majorEnd).value >= 1.0
  {
    var s := Ceil(spacing) as real;
    assert s >= 1.0;
    if majorEnd.Some? && majorEnd.value != 0.0 {
      var length := majorEnd.value - start;
      var q := length / s;
      assert q * s == length;
      assert q >= 0.0;
      var n := q.Floor;
      if n != 0 {
        assert n as real <= q;
        assert q * s >= q by {
          assert q * (s - 1.0) >= 0.0;
        }
        QuotientAtLeastOne(length, n as real);
      }
    }
  }

  lemma QuotientAtLeastOne(x: real, n: real)
    requires n > 0.0 && x >= n
    ensures x / n >= 1.0
  {
    var p := (x - n) / n;
    assert p * n == x - n;
    assert (p + 1.0) * n == x;
  }

  /** `next` is the first mark at or after tick `i`; it is the count-th one. */
  ghost predicate NextMark(start: real, step: Option<real>, count: nat, next: Option<int>, i: int) {
    && (start >= 0.0 ==> Whole(start) && start.Floor <= i)
    && (step.Some? ==> step.value >= 1.0)
    && if step.None? then
         next == (if start >= 0.0 && count == 0 then Some(start.Floor) else None)
         && (start >= 0.0 ==> if count == 0 then i <= start.Floor else start.Floor < i)
       else
         var c0 := if start >= 0.0 then 0 else 1;
         && count >= c0 && next == Some(Grid(start, step.value, count)) && i <= next.value
         && (count > c0 ==> Grid(start, step.value, count - 1) < i)
  }

  lemma MarkHere(start: real, step: Option<real>, count: nat, next: Option<int>, i: int)
    requires NextMark(start, step, count, next, i) && i >= 0
    ensures OnGrid(start, step, i) <==> next == Some(i)
  {
    if step.Some? {
      forall c: nat ensures c < count ==> Grid(start, step.value, c) <= Grid(start, step.value, count - 1)
                    ensures c > count ==> Grid(start, step.value, c) > Grid(start, step.value, count) {
        if c + 1 < count {
          GridGrows(start, step.value, c, count - 1);
        } else if c > count {
          GridGrows(start, step.value, count, c);
        }
      }
    }
  }

  lemma Advance(start: real, step: Option<real>, count: nat, next: Option<int>, i: int)
    requires NextMark(start, step, count, next, i)
    ensures next != Some(i) ==> NextMark(start, step, count, next, i + 1)
    ensures next == Some(i) ==>
      NextMark(start, step, count + 1, if step.None? then None else Some(Grid(start, step.value, count + 1)), i + 1)
  {
    if step.Some? {
      GridGrows(start, step.value, count, count + 1);
    }
  }

  /** Marks the ticks of one pass and drops the labels of the others. A fractional start inside
      the ticks is no tick: the source then fails on an undefined tick, and `ok` is false. */
  method Skip(ticks: array<Tick>, spacing: real, majorStart: Option<real>, majorEnd: Option<real>) returns (ok: bool)
    requires spacing > 0.0 && (majorEnd.Some? ==> majorStart.Some? && majorStart.value <= majorEnd.value)
    modifies ticks
    ensures var start, end := (if majorStart.Some? then majorStart.value else 0.0),
                              Min(if majorEnd.Some? then majorEnd.value else ticks.Length as real,
                                   ticks.Length as real);
      && (ok <==> !(start > 0.0 && start < end && !Whole(start)))
      && (ok ==> forall i :: 0 <= i < ticks.Length ==>
            ticks[i] == Passed(old(ticks[i]), i, start, end, StepOf(spacing, start, majorEnd)))
  {
    var start := if majorStart.Some? then majorStart.value else 0.0;
    var end := Min(if majorEnd.Some? then majorEnd.value else ticks.Length as real, ticks.Length as real);
    var step := StepOf(spacing, start, majorEnd);
    StepAtLeastOne(spacing, start, majorEnd);
    if start >= end {
      return true;
    }
    if start > 0.0 && start != start.Floor as real {
      return false;
    }
    ok := true;
    var count, next := FirstMark(start, step);
    var i := if start >= 0.0 then start.Floor else 0;
    while i as real < end
      invariant 0 <= i && start <= i as real && NextMark(start, step, count, next, i)
      invariant forall j :: 0 <= j < i && j < ticks.Length ==> ticks[j] == Passed(old(ticks[j]), j, start, end, step)
      invariant forall j :: i <= j < ticks.Length ==> ticks[j] == old(ticks[j])
      decreases end.Floor + 1 - i
    {
      MarkHere(start, step, count, next, i);
      Advance(start, step, count, next, i);
      if next == Some(i) {
        ticks[i] := ticks[i].(index := Some(i));
        count := count + 1;
        next := if step.None? then None else Some(Grid(start, step.value, count));
      } else {
        ticks[i] := ticks[i].(labelled := false);
      }
      i := i + 1;
    }
  }

  /** What one pass makes of tick `i`. */
  ghost function Passed(tick: Tick, i: int, start: real, end: real, step: Option<real>): Tick {
    if !(start <= i as real < end) then tick
    else if OnGrid(start, step, i) then tick.(index := Some(i))
    else tick.(labelled := false)
  }

  /** The start itself, or the first mark behind it that is not negative. */
  method FirstMark(start: real, step: Option<real>) returns (count: nat, next: Option<int>)
    requires start >= 0.0 ==> Whole(start)
    requires step.Some? ==> step.value >= 1.0
    ensures NextMark(start, step, count, next, if start >= 0.0 then start.Floor else 0)
  {
    count := 0;
    if start >= 0.0 {
      return 0, Some(start.Floor);
    }
    count := 1;
    next := if step.None? then None else Some(Grid(start, step.value, 1));
    while next.Some? && next.value < 0
      invariant step.None? <==> next.None?
      invariant count >= 1 && (next.Some? ==> next == Some(Grid(start, step.value, count)))
      invariant next.Some? && count > 1 ==> Grid(start, step.value, count - 1) < 0
      decreases if next.Some? then -next.value else 0
    {
      GridGrows(start, step.value, count, count + 1);
      count := count + 1;
      next := Some(Grid(start, step.value, count));
    }
  }

  // ----- the whole selection -----

  /** All ticks after one pass; None if the pass fails. */
  ghost function Pass(ts: seq<Tick>, spacing: real, majorStart: Option<real>, majorEnd: Option<real>): Option<seq<Tick>>
    requires spacing > 0.0
  {
    var start, end := (if majorStart.Some? then majorStart.value else 0.0),
                      Min(if majorEnd.Some? then majorEnd.value else |ts| as real, |ts| as real);
    if start > 0.0 && start < end && !Whole(start) then None
    else Some(seq(|ts|, i requires 0 <= i < |ts| => Passed(ts[i], i, start, end, StepOf(spacing, start, majorEnd))))
  }

  function MajorIndices(ts: seq<Tick>): (r: seq<int>)
    ensures Ascending(r) && forall i :: i in r <==> 0 <= i < |ts| && ts[i].major
  {
    if ts == [] then []
    else
      var n := |ts| - 1;
      var before := MajorIndices(ts[..n]);
      AppendLargest(before, n);
      if ts[n].major then before + [n] else before
  }

  lemma AppendLargest(s: seq<int>, n: int)
    requires Ascending(s) && forall x :: x in s ==> x < n
    ensures Ascending(s + [n]) && forall x :: x in s + [n] <==> x in s || x == n
  {
    forall j | 0 <= j < |s| ensures s[j] < n {
      assert s[j] in s;
    }
  }

  method GetMajorIndices(ticks: array<Tick>) returns (result: seq<int>)
    ensures result == MajorIndices(ticks[..])
  {
    result := [];
    for i := 0 to ticks.Length
      invariant result == MajorIndices(ticks[..i])
    {
      assert ticks[..i + 1][..i] == ticks[..i];
      if ticks[i].major {
        result := result + [i];
      }
    }
    assert ticks[..ticks.Length] == ticks[..];
  }

  /** Every `step`-th of the major ticks, beginning with the first. */
  ghost predicate MajorMark(majors: seq<int>, step: int, i: int)
    requires step >= 1
  {
    exists c: nat :: c * step < |majors| && majors[c * step] == i
  }

  ghost function MajorsOnly(ts: seq<Tick>, majors: seq<int>, step: int): seq<Tick>
    requires step >= 1
  {
    seq(|ts|, i requires 0 <= i < |ts| =>
      if MajorMark(majors, step, i) then ts[i].(index := Some(i)) else ts[i].(labelled := false))
  }

  lemma ProductGrows(c: nat, e: nat, step: int)
    requires step >= 1 && c < e
    ensures c * step < e * step
  {
    Sign(e - c, step);
    assert e * step - c * step == (e - c) * step;
  }

  method SkipMajors(ticks: array<Tick>, majorIndices: seq<int>, spacing: real)
    requires spacing > 0.0 && Ascending(majorIndices) && forall m :: m in majorIndices ==> m >= 0
    modifies ticks
    ensures ticks[..] == MajorsOnly(old(ticks[..]), majorIndices, Ceil(spacing))
  {
    var count: nat := 0;
    var step := Ceil(spacing);
    var next := if |majorIndices| > 0 then Some(majorIndices[0]) else None;
    assert |majorIndices| > 0 ==> majorIndices[0] in majorIndices;
    for i := 0 to ticks.Length
      invariant next == if count * step < |majorIndices| then Some(majorIndices[count * step]) else None
      invariant next.Some? ==> i <= next.value
      invariant forall c: nat :: c < count ==> c * step < |majorIndices| && majorIndices[c * step] < i
      invariant forall j :: 0 <= j < i ==>
        ticks[j] ==
          if MajorMark(majorIndices, step, j) then old(ticks[j]).(index := Some(j))
          else old(ticks[j]).(labelled := false)
      invariant forall j :: i <= j < ticks.Length ==> ticks[j] == old(ticks[j])
    {
      MajorMarkHere(majorIndices, step, count, next, i);
      if next == Some(i) {
        ticks[i] := ticks[i].(index := Some(i));
        ProductGrows(count, count + 1, step);
        count := count + 1;
        next := if count * step < |majorIndices| then Some(majorIndices[count * step]) else None;
      } else {
        ticks[i] := ticks[i].(labelled := false);
      }
    }
  }

  lemma MajorMarkHere(majors: seq<int>, step: int, count: nat, next: Option<int>, i: int)
    requires step >= 1 && Ascending(majors)
    requires next == if count * step < |majors| then Some(majors[count * step]) else None
    requires next.Some? ==> i <= next.value
    requires forall c: nat :: c < count ==> c * step < |majors| && majors[c * step] < i
    ensures MajorMark(majors, step, i) <==> next == Some(i)
  {
    if c: nat :| c * step < |majors| && majors[c * step] == i {
      if c > count {
        ProductGrows(count, c, step);
      }
    }
  }

  /** The spacing of the ticks: the offered factor if there is one. */
  ghost function SpacingFor(majors: seq<int>, length: nat, ticksLimit: real): (r: real)
    requires ticksLimit > 0.0
    ensures r > 0.0
  {
    var spacing := (length - 1) as real / ticksLimit;
    if f :| Offered(majors, spacing, f) then f as real else Max(spacing, 1.0)
  }

  /** The passes between neighbouring majors, up to the k-th major. */
  ghost function MajorPasses(ts: seq<Tick>, spacing: real, majors: seq<int>, k: nat): Option<seq<Tick>>
    requires spacing > 0.0 && k < |majors|
  {
    if k == 0 then Some(ts)
    else
      var before := MajorPasses(ts, spacing, majors, k - 1);
      if before.None? then None
      else Pass(before.value, spacing, Some(majors[k - 1] as real), Some(majors[k] as real))
  }

  function AverageSpacing(majors: seq<int>): Option<real> {
    if |majors| > 1 then Some((majors[|majors| - 1] - majors[0]) as real / (|majors| - 1) as real) else None
  }

  /** The passes between the majors, below the first and from the last one on. */
  ghost function MarkedByMajors(ts: seq<Tick>, spacing: real, majors: seq<int>): Option<seq<Tick>>
    requires spacing > 0.0 && |majors| > 0
  {
    var first, last, avg := majors[0] as real, majors[|majors| - 1] as real, AverageSpacing(majors);
    var inner := MajorPasses(ts, spacing, majors, |majors| - 1);
    if inner.None? then None else
    var lower := Pass(inner.value, spacing, Some(if avg.None? then 0.0 else first - avg.value), Some(first));
    if lower.None? then None else
    Pass(lower.value, spacing, Some(last), Some(if avg.None? then |ts| as real else last + avg.value))
  }

  ghost function Marked(ts: seq<Tick>, majors: seq<int>, ticksLimit: real): Option<seq<Tick>>
    requires ticksLimit > 0.0
  {
    if |majors| as real > ticksLimit then Some(MajorsOnly(ts, majors, Ceil(|majors| as real / ticksLimit)))
    else
      var spacing := SpacingFor(majors, |ts|, ticksLimit);
      if |majors| == 0 then Pass(ts, spacing, None, None) else MarkedByMajors(ts, spacing, majors)
  }

  /** The ticks with a mark. */
  function NonSkipped(ts: seq<Tick>): seq<Tick> {
    if ts == [] then []
    else
      var n := |ts| - 1;
      NonSkipped(ts[..n]) + if ts[n].index.Some? then [ts[n]] else []
  }

  method CollectNonSkipped(ticks: array<Tick>) returns (filtered: seq<Tick>)
    ensures filtered == NonSkipped(ticks[..])
  {
    filtered := [];
    for i := 0 to ticks.Length
      invariant filtered == NonSkipped(ticks[..i])
    {
      assert ticks[..i + 1][..i] == ticks[..i];
      if ticks[i].index.Some? {
        filtered := filtered + [ticks[i]];
      }
    }
    assert ticks[..ticks.Length] == ticks[..];
  }

  // ----- evenly spaced majors -----

  /** The majors are the ticks `d`, `2 d`, ..., `k d`, at least two of them. */
  ghost predicate EvenMajors(ts: seq<Tick>, d: nat, k: nat) {
    && 1 <= d && 2 <= k && k * d < |ts|
    && forall i :: 0 <= i < |ts| ==> (ts[i].major <==> i % d == 0 && d <= i <= k * d)
  }

  lemma {:induction false} SameAscending(a: seq<int>, b: seq<int>)
    requires Ascending(a) && Ascending(b) && forall x :: x in a <==> x in b
    ensures a == b
  {
    assert |a| > 0 ==> a[0] in a;
    assert |b| > 0 ==> b[0] in b;
    if a != [] && b != [] {
      var m := a[|a| - 1];
      LastBounds(a);
      LastBounds(b);
      assert m in b && b[|b| - 1] in a;
      LastIsLargest(a, m);
      LastIsLargest(b, m);
      var a', b' := a[..|a| - 1], b[..|b| - 1];
      forall x ensures x in a' <==> x in b' {
        assert x in a' <==> x in a && x != m;
        assert x in b' <==> x in b && x != m;
      }
      SameAscending(a', b');
      assert a == a' + [m] && b == b' + [m];
    }
  }

  lemma LastBounds(s: seq<int>)
    requires Ascending(s) && s != []
    ensures s[|s| - 1] in s && forall x :: x in s ==> x <= s[|s| - 1]
  {
  }

  lemma DivMod(x: int, q: int, d: int)
    requires d >= 1 && x == q * d
    ensures x % d == 0 && x / d == q
  {
    Multiple(q, d);
  }

  lemma QuotientBounds(i: int, d: int, k: int)
    requires d >= 1 && i % d == 0 && d <= i <= k * d
    ensures 1 <= i / d <= k && i == (i / d) * d
  {
    var q := i / d;
    assert i == d * q + i % d;
    Sign(q - k, d);
    assert (q - k) * d == q * d - k * d;
    Sign(q, d);
  }

  function MultiplesOf(d: nat, k: nat): (e: seq<int>)
    ensures AtMultiples(e, d, k)
  {
    seq(k, j requires 0 <= j < k => Times(j + 1, d))
  }

  lemma MultiplesAscending(d: nat, k: nat)
    requires d >= 1
    ensures Ascending(MultiplesOf(d, k))
  {
    var e := MultiplesOf(d, k);
    forall i, j | 0 <= i < j < k ensures e[i] < e[j] {
      ProductGrows(i + 1, j + 1, d);
    }
  }

  lemma MultipleInRange(x: int, d: nat, k: nat)
    requires d >= 1
    ensures x in MultiplesOf(d, k) <==> x % d == 0 && d <= x <= k * d
  {
    var e := MultiplesOf(d, k);
    if x % d == 0 && d <= x <= k * d {
      QuotientBounds(x, d, k);
      assert e[x / d - 1] == x;
    }
    if x in e {
      var j :| 0 <= j < k && e[j] == x;
      TimesBetween(j + 1, d, k);
    }
  }

  lemma TimesBetween(j: nat, d: nat, k: nat)
    requires d >= 1 && 1 <= j <= k
    ensures Times(j, d) % d == 0 && d <= Times(j, d) <= k * d
  {
    DivMod(Times(j, d), j, d);
    Sign(j, d);
    Sign(k - j, d);
    assert k * d - j * d == (k - j) * d;
  }

  lemma EvenMajorIndices(ts: seq<Tick>, d: nat, k: nat)
    requires EvenMajors(ts, d, k)
    ensures AtMultiples(MajorIndices(ts), d, k)
    ensures EvenSteps(MajorIndices(ts), d)
  {
    MultiplesAscending(d, k);
    forall x ensures x in MajorIndices(ts) <==> x in MultiplesOf(d, k) {
      MultipleInRange(x, d, k);
      Sign(k, d);
    }
    SameAscending(MajorIndices(ts), MultiplesOf(d, k));
  }

  /** The tick keeps its other fields; it is marked iff it is a multiple of `f` in [s, e). */
  ghost predicate MarkedIn(ts: seq<Tick>, r: seq<Tick>, s: int, e: int, f: int)
    requires f >= 1
  {
    |r| == |ts| && forall i :: 0 <= i < |ts| ==>
      r[i].major == ts[i].major && r[i].index == if s <= i < e && i % f == 0 then Some(i) else ts[i].index
  }

  lemma IntGrid(s: nat, f: nat, c: nat)
    requires f >= 1
    ensures Grid(s as real, f as real, c) == s + c * f
  {
    assert c as real * f as real == (c * f) as real;
  }

  lemma OnIntGrid(s: nat, f: nat, i: nat)
    requires f >= 1 && s % f == 0 && s <= i
    ensures OnGrid(s as real, Some(f as real), i) <==> i % f == 0
  {
    if i % f == 0 && i != s {
      var c := i / f - s / f;
      StepsBetween(s, f, i, c);
      IntGrid(s, f, c);
    }
    var sr, fr := s as real, f as real;
    if c: nat :| c >= 1 && i == Grid(sr, fr, c) {
      IntGrid(s, f, c);
      StepsAhead(s, f, c);
    }
  }

  lemma StepsBetween(s: nat, f: nat, i: nat, c: int)
    requires f >= 1 && s % f == 0 && i % f == 0 && s < i && c == i / f - s / f
    ensures c >= 1 && i == s + c * f
  {
    assert s == (s / f) * f && i == (i / f) * f;
    assert c * f == (i / f) * f - (s / f) * f;
    Sign(-c, f);
    Sign(c, f);
    assert c == 0 ==> c * f == 0;
  }

  lemma StepsAhead(s: nat, f: nat, c: nat)
    requires f >= 1 && s % f == 0
    ensures (s + c * f) % f == 0
  {
    assert s == (s / f) * f;
    assert s + c * f == (s / f + c) * f;
    DivMod(s + c * f, s / f + c, f);
  }

  /** Between majors `d` apart a spacing that divides `d` needs no stretching. */
  lemma EvenStep(f: nat, s: nat, d: nat)
    requires f >= 1 && d >= 1 && d % f == 0
    ensures StepOf(f as real, s as real, Some((s + d) as real)) == Some(f as real)
  {
    var q := d / f;
    assert d == q * f;
    Sign(-q, f);
    assert Ceil(f as real) == f;
    ExactStep(d as real, q, f as real);
    assert (s + d) as real - s as real == d as real;
  }

  lemma ExactStep(x: real, q: int, f: real)
    requires f > 0.0 && q >= 1 && x == q as real * f
    ensures (x / f).Floor == q && x / q as real == f
  {
    CancelReal(q as real, f);
    CancelReal(f, q as real);
    assert (q as real).Floor == q;
  }

  lemma CancelReal(a: real, b: real)
    requires b > 0.0
    ensures (a * b) / b == a
  {
  }

  lemma EvenPass(ts: seq<Tick>, f: nat, s: nat, d: nat)
    requires f >= 1 && d >= 1 && d % f == 0 && s % f == 0
    ensures var r := Pass(ts, f as real, Some(s as real), Some((s + d) as real));
      r.Some? && MarkedIn(ts, r.value, s, s + d, f)
  {
    EvenStep(f, s, d);
    var r := Pass(ts, f as real, Some(s as real), Some((s + d) as real));
    forall i | 0 <= i < |ts| ensures r.value[i].index == if s <= i < s + d && i % f == 0 then Some(i) else ts[i].index {
      if s <= i {
        OnIntGrid(s, f, i);
      }
    }
  }

  lemma ChosenOffered(majors: seq<int>, d: nat, f: int, length: nat, ticksLimit: real)
    requires ticksLimit > 0.0 && EvenSteps(majors, d) && Chosen(d, (length - 1) as real / ticksLimit, f)
    ensures SpacingFor(majors, length, ticksLimit) == f as real
  {
    assert Offered(majors, (length - 1) as real / ticksLimit, f);
  }

  /** Passes over neighbouring ranges mark what one pass over both would. */
  lemma MarkedJoin(ts: seq<Tick>, b: seq<Tick>, r: seq<Tick>, x: int, y: int, z: int, f: int)
    requires f >= 1 && x <= y <= z
    ensures MarkedIn(ts, b, x, y, f) && MarkedIn(b, r, y, z, f) ==> MarkedIn(ts, r, x, z, f)
    ensures MarkedIn(ts, b, y, z, f) && MarkedIn(b, r, x, y, f) ==> MarkedIn(ts, r, x, z, f)
  {
  }

  /** The majors stand at the first `k` multiples of `d`. */
  ghost predicate AtMultiples(majors: seq<int>, d: nat, k: nat) {
    |majors| == k && forall i :: 0 <= i < k ==> majors[i] == Times(i + 1, d)
  }

  function Times(i: int, d: int): int {
    i * d
  }

  /** The passes between the majors mark the multiples of `f` from the first to the last one. */
  lemma {:induction false} EvenInnerPasses(ts: seq<Tick>, f: nat, majors: seq<int>, d: nat, k: nat, j: nat)
    requires f >= 1 && d >= 1 && d % f == 0 && j < k && AtMultiples(majors, d, k)
    ensures var r := MajorPasses(ts, f as real, majors, j);
      r.Some? && MarkedIn(ts, r.value, d, Times(j + 1, d), f)
  {
    if j > 0 {
      EvenInnerPasses(ts, f, majors, d, k, j - 1);
      EvenInnerStep(ts, f, majors, d, k, j, MajorPasses(ts, f as real, majors, j - 1).value);
    }
  }

  lemma EvenInnerStep(ts: seq<Tick>, f: nat, majors: seq<int>, d: nat, k: nat, j: nat, before: seq<Tick>)
    requires f >= 1 && d >= 1 && d % f == 0 && 1 <= j < k && AtMultiples(majors, d, k)
    requires MajorPasses(ts, f as real, majors, j - 1) == Some(before) && MarkedIn(ts, before, d, Times(j, d), f)
    ensures var r := MajorPasses(ts, f as real, majors, j);
      r.Some? && MarkedIn(ts, r.value, d, Times(j + 1, d), f)
  {
    var s := Times(j, d);
    MultipleOfMultiple(j, d, f);
    TimesNext(j, d);
    assert majors[j - 1] == s && majors[j] == s + d;
    EvenPass(before, f, s, d);
    var r := Pass(before, f as real, Some(s as real), Some((s + d) as real));
    assert MajorPasses(ts, f as real, majors, j) == r;
    MarkedJoin(ts, before, r.value, d, s, s + d, f);
  }

  lemma TimesNext(j: int, d: nat)
    requires j >= 1
    ensures Times(j + 1, d) == Times(j, d) + d && Times(j, d) >= d
  {
    if d >= 1 {
      Sign(j, d);
    }
    assert (j + 1) * d == j * d + d;
  }

  lemma MultipleOfMultiple(j: nat, d: nat, f: nat)
    requires f >= 1 && d % f == 0
    ensures Times(j, d) % f == 0
  {
    var q := d / f;
    assert d == q * f;
    assert j * d == (j * q) * f;
    DivMod(j * d, j * q, f);
  }

  lemma EvenAverage(majors: seq<int>, d: nat, k: nat)
    requires 2 <= k && AtMultiples(majors, d, k)
    ensures AverageSpacing(majors) == Some(d as real)
  {
    var diff := majors[k - 1] - majors[0];
    assert diff == Times(k, d) - Times(1, d) == (k - 1) * d;
    assert diff as real == d as real * (k - 1) as real;
    CancelReal(d as real, (k - 1) as real);
    assert diff as real / (k - 1) as real == d as real;
    assert |majors| - 1 == k - 1;
  }

  /** Majors that stand evenly, and a factor `f` of their distance that is offered: all passes
      together mark exactly the multiples of `f` that come before the next major would. */
  lemma EvenMajorsMarks(ts: seq<Tick>, ticksLimit: real, d: nat, k: nat, f: nat) returns (r: seq<Tick>)
    requires ticksLimit > 0.0 && EvenMajors(ts, d, k) && k as real <= ticksLimit
    requires Chosen(d, (|ts| - 1) as real / ticksLimit, f)
    requires forall i :: 0 <= i < |ts| ==> ts[i].index == None
    ensures Marked(ts, MajorIndices(ts), ticksLimit) == Some(r) && |r| == |ts|
    ensures MarksEvery(r, f, k * d + d)
    ensures forall i :: 0 <= i < |ts| && ts[i].major ==> r[i].index == Some(i)
  {
    var majors := MajorIndices(ts);
    EvenMajorIndices(ts, d, k);
    ChosenOffered(majors, d, f, |ts|, ticksLimit);
    EvenAverage(majors, d, k);
    r := EvenOuterPasses(ts, f, majors, d, k);
    forall i | 0 <= i < |ts| && ts[i].major ensures i % f == 0 && i < k * d + d {
      QuotientBounds(i, d, k);
      MultipleOfMultiple(i / d, d, f);
    }
  }

  lemma OuterJoin(ts: seq<Tick>, inner: seq<Tick>, lower: seq<Tick>, r: seq<Tick>, d: nat, last: nat, f: int)
    requires f >= 1 && d <= last
    requires MarkedIn(ts, inner, d, last, f) && MarkedIn(inner, lower, 0, d, f) && MarkedIn(lower, r, last, last + d, f)
    ensures MarkedIn(ts, r, 0, last + d, f)
  {
    MarkedJoin(ts, inner, lower, 0, d, last, f);
    MarkedJoin(ts, lower, r, 0, last, last + d, f);
  }

  lemma ThreePasses(ts: seq<Tick>, f: real, majors: seq<int>, d: nat, last: nat, inner: seq<Tick>, lower: seq<Tick>,
                    r: seq<Tick>)
    requires f > 0.0 && |majors| > 0 && majors[0] == d && majors[|majors| - 1] == last
    requires AverageSpacing(majors) == Some(d as real)
    requires MajorPasses(ts, f, majors, |majors| - 1) == Some(inner)
    requires Pass(inner, f, Some(0 as real), Some(d as real)) == Some(lower)
    requires Pass(lower, f, Some(last as real), Some((last + d) as real)) == Some(r)
    ensures MarkedByMajors(ts, f, majors) == Some(r)
  {
    assert d as real - d as real == 0 as real && (last + d) as real == last as real + d as real;
  }

  lemma EvenOuterPasses(ts: seq<Tick>, f: nat, majors: seq<int>, d: nat, k: nat) returns (r: seq<Tick>)
    requires f >= 1 && d >= 1 && k >= 2 && d % f == 0 && AtMultiples(majors, d, k)
    requires AverageSpacing(majors) == Some(d as real)
    ensures MarkedByMajors(ts, f as real, majors) == Some(r) && MarkedIn(ts, r, 0, Times(k, d) + d, f)
  {
    EvenInnerPasses(ts, f, majors, d, k, k - 1);
    var inner := MajorPasses(ts, f as real, majors, k - 1).value;
    var last := Times(k, d);
    TimesNext(k, d);
    var lower := EvenPassFrom(inner, f, 0, d);
    r := EvenPassFrom(lower, f, k, d);
    OuterJoin(ts, inner, lower, r, d, last, f);
    assert majors[0] == Times(1, d) == d && majors[k - 1] == last;
    ThreePasses(ts, f as real, majors, d, last, inner, lower, r);
  }

  lemma EvenPassFrom(ts: seq<Tick>, f: nat, j: nat, d: nat) returns (r: seq<Tick>)
    requires f >= 1 && d >= 1 && d % f == 0
    ensures Times(0, d) == 0 && Times(j, d) >= 0
    ensures Pass(ts, f as real, Some(Times(j, d) as real), Some((Times(j, d) + d) as real)) == Some(r)
    ensures MarkedIn(ts, r, Times(j, d), Times(j, d) + d, f)
  {
    Sign(j, d);
    MultipleOfMultiple(j, d, f);
    EvenPass(ts, f, Times(j, d), d);
    r := Pass(ts, f as real, Some(Times(j, d) as real), Some((Times(j, d) + d) as real)).value;
  }

  /** The marks are at the multiples of `f` below `m`. */
  ghost predicate MarksEvery(ts: seq<Tick>, f: nat, m: int)
    requires f >= 1
  {
    forall i :: 0 <= i < |ts| ==> ts[i].index == if i % f == 0 && i < m then Some(i) else None
  }

  /** The ticks are those at 0, `f`, `2 f` and so on. */
  ghost predicate Every(r: seq<Tick>, f: nat) {
    forall j :: 0 <= j < |r| ==> r[j].index == Some(j * f)
  }

  /** Collecting the marks at the multiples of `f` below `m` gives them in order, and as many as fit. */
  lemma {:induction false} CollectedEvery(ts: seq<Tick>, f: nat, m: nat)
    requires f >= 1 && MarksEvery(ts, f, m)
    ensures var r := NonSkipped(ts);
      && Every(r, f)
      && (|r| - 1) * f < |ts| && (if |ts| < m then |ts| else m) <= |r| * f
  {
    if ts != [] {
      var n := |ts| - 1;
      CollectedEvery(ts[..n], f, m);
      CollectNext(NonSkipped(ts[..n]), ts[n], n, f, m);
    }
  }

  lemma CollectNext(before: seq<Tick>, tick: Tick, n: nat, f: nat, m: nat)
    requires f >= 1 && tick.index == if n % f == 0 && n < m then Some(n) else None
    requires Every(before, f)
    requires (|before| - 1) * f < n && (if n < m then n else m) <= |before| * f
    ensures var r := before + if tick.index.Some? then [tick] else [];
      && Every(r, f)
      && (|r| - 1) * f < n + 1 && (if n + 1 < m then n + 1 else m) <= |r| * f
  {
    var c := |before|;
    assert (c + 1) * f == c * f + f && (c - 1) * f == c * f - f;
    if n < m {
      NextMultiple(n, c, f);
    }
  }

  lemma NextMultiple(n: nat, c: nat, f: nat)
    requires f >= 1 && (c - 1) * f < n <= c * f
    ensures n % f == 0 <==> n == c * f
  {
    if n % f == 0 {
      var q := n / f;
      assert n == q * f;
      assert (q - c) * f == q * f - c * f;
      Sign(q - c, f);
      assert (c - 1 - q) * f == (c - 1) * f - q * f;
      Sign(c - 1 - q, f);
    } else {
      if n == c * f {
        DivMod(n, c, f);
      }
    }
  }

  /** Fewer than `ticksLimit` + 1 ticks remain. */
  lemma FewEnough(count: int, f: int, n: nat, ticksLimit: real)
    requires f >= 1 && ticksLimit > 0.0 && f as real > (n - 1) as real / ticksLimit && (count - 1) * f < n
    ensures count as real < ticksLimit + 1.0
  {
    var q := (n - 1) as real / ticksLimit;
    assert q * ticksLimit == (n - 1) as real;
    var a, b := (count - 1) as real, f as real;
    assert a * b == ((count - 1) * f) as real;
    assert (b - q) * ticksLimit > 0.0;
    assert b * ticksLimit > a * b;
    LessByFactor(a, ticksLimit, b);
  }

  lemma LessByFactor(a: real, c: real, b: real)
    requires b > 0.0 && a * b < b * c
    ensures a < c
  {
    assert (c - a) * b > 0.0;
    PositiveFactor(c - a, b);
  }

  lemma PositiveFactor(x: real, b: real)
    requires b > 0.0 && x * b > 0.0
    ensures x > 0.0
  {
  }

  /** With evenly spaced majors and an offered factor exactly every `f`-th tick remains, from the
      first one on, and fewer than `ticksLimit` + 1 of them. */
  lemma EvenSelection(ts: seq<Tick>, ticksLimit: real, d: nat, k: nat, f: nat)
    requires ticksLimit > 0.0 && EvenMajors(ts, d, k) && k as real <= ticksLimit
    requires Chosen(d, (|ts| - 1) as real / ticksLimit, f)
    requires forall i :: 0 <= i < |ts| ==> ts[i].index == None
    ensures var m := Marked(ts, MajorIndices(ts), ticksLimit);
      && m.Some?
      && Every(NonSkipped(m.value), f)
      && |NonSkipped(m.value)| as real < ticksLimit + 1.0
  {
    var r := EvenMajorsMarks(ts, ticksLimit, d, k, f);
    CollectedEvery(r, f, k * d + d);
    FewEnough(|NonSkipped(r)|, f, |ts|, ticksLimit);
  }

  /** Nine ticks with majors at 4 and 8 and room for ten: the factor 1 is offered. */
  lemma EvenExample()
    ensures var ts := seq(9, i => Tick(i == 4 || i == 8, None, true));
      && EvenMajors(ts, 4, 2) && Chosen(4, (|ts| - 1) as real / 10.0, 1)
      && forall i :: 0 <= i < |ts| ==> ts[i].index == None
  {
    assert Divisor(4, 1) && Divisor(4, 2);
  }

  lemma DivisorsOfNine(d: int)
    requires Divisor(9, d)
    ensures d == 1 || d == 3 || d == 9
  {
    assert 9 % 2 == 1 && 9 % 4 == 1 && 9 % 5 == 4 && 9 % 6 == 3 && 9 % 7 == 2 && 9 % 8 == 1;
  }

  lemma NotChosenOfNine(f: int)
    ensures !Chosen(9, 1.5, f)
  {
    if Chosen(9, 1.5, f) {
      var g :| Divisor(9, g) && f < g < 9;
      DivisorsOfNine(f);
      DivisorsOfNine(g);
    }
  }

  /** The largest factor is never offered: for majors 9 apart and a spacing of 1.5 it is 3, and the spacing stays. */
  lemma LargestNotOffered()
    ensures EvenSteps([9, 18], 9) && Divisor(9, 3) && SpacingFor([9, 18], 19, 12.0) == 1.5
  {
    var majors := [9, 18];
    forall f ensures !Offered(majors, 1.5, f) {
      NotChosenOfNine(f);
      assert forall d: nat :: EvenSteps(majors, d) ==> d == 9;
    }
  }

  /** Without majors every s-th tick remains, at most `ticksLimit` + 1 of them. */
  lemma PlainSelection(ts: seq<Tick>, ticksLimit: real)
    requires ticksLimit > 0.0 && forall i :: 0 <= i < |ts| ==> ts[i].index == None
    ensures var s := Ceil(Max((|ts| - 1) as real / ticksLimit, 1.0)); var m := Marked(ts, [], ticksLimit);
      && m.Some?
      && Every(NonSkipped(m.value), s)
      && |NonSkipped(m.value)| as real <= ticksLimit + 1.0
  {
    var spacing := Max((|ts| - 1) as real / ticksLimit, 1.0);
    var s := Ceil(spacing);
    assert SpacingFor([], |ts|, ticksLimit) == spacing;
    var r := Pass(ts, spacing, None, None).value;
    DivMod(0, 0, s);
    forall i | 0 <= i < |ts| ensures r[i].index == if i % s == 0 && i < |ts| then Some(i) else None {
      OnIntGrid(0, s, i);
    }
    CollectedEvery(r, s, |ts|);
    FewEnoughPlain(|NonSkipped(r)|, s, |ts|, ticksLimit);
  }

  lemma FewEnoughPlain(count: int, s: int, n: nat, ticksLimit: real)
    requires s >= 1 && ticksLimit > 0.0 && s as real >= (n - 1) as real / ticksLimit && (count - 1) * s < n
    ensures count as real <= ticksLimit + 1.0
  {
    var q := (n - 1) as real / ticksLimit;
    assert q * ticksLimit == (n - 1) as real;
    var a, b := (count - 1) as real, s as real;
    assert a * b == ((count - 1) * s) as real;
    assert (b - q) * ticksLimit >= 0.0;
    AtMostByFactor(a, ticksLimit, b);
  }

  lemma AtMostByFactor(a: real, c: real, b: real)
    requires b > 0.0 && a * b <= b * c
    ensures a <= c
  {
    assert (a - c) * b <= 0.0;
    if a > c {
      PositiveProduct(a - c, b);
    }
  }

  lemma PositiveProduct(x: real, b: real)
    requires x > 0.0 && b > 0.0
    ensures x * b > 0.0
  {
  }

  // ----- uneven majors -----

  lemma WholeStart(ts: seq<Tick>, spacing: real, start: int, end: Option<real>)
    requires spacing > 0.0
    ensures Pass(ts, spacing, Some(start as real), end).Some?
  {
    assert Whole(start as real);
  }

  lemma {:induction false} MajorPassesSucceed(ts: seq<Tick>, spacing: real, majors: seq<int>, k: nat)
    requires spacing > 0.0 && k < |majors|
    ensures var r := MajorPasses(ts, spacing, majors, k); r.Some? && |r.value| == |ts|
  {
    if k > 0 {
      MajorPassesSucceed(ts, spacing, majors, k - 1);
      var before := MajorPasses(ts, spacing, majors, k - 1).value;
      WholeStart(before, spacing, majors[k - 1], Some(majors[k] as real));
    }
  }

  /** The pass below the first major starts behind the first tick, but not at a tick. */
  ghost predicate StartsAtFraction(majors: seq<int>, ticksLimit: real) {
    && 2 <= |majors| && |majors| as real <= ticksLimit
    && majors[0] as real > AverageSpacing(majors).value
    && !Whole(majors[0] as real - AverageSpacing(majors).value)
  }

  /** The selection with majors fails exactly if there are at least two of them, not too many, and their average
      distance is a fraction below the first one. */
  lemma SelectionFailsIff(ts: seq<Tick>, ticksLimit: real)
    requires ticksLimit > 0.0
    ensures Marked(ts, MajorIndices(ts), ticksLimit).None? <==> StartsAtFraction(MajorIndices(ts), ticksLimit)
  {
    var majors := MajorIndices(ts);
    if 0 < |majors| && |majors| as real <= ticksLimit {
      OuterPassesFailIff(ts, SpacingFor(majors, |ts|, ticksLimit), majors, ticksLimit);
    }
  }

  lemma OuterPassesFailIff(ts: seq<Tick>, spacing: real, majors: seq<int>, ticksLimit: real)
    requires spacing > 0.0 && 0 < |majors| && |majors| as real <= ticksLimit
    requires Ascending(majors) && forall m :: m in majors ==> 0 <= m < |ts|
    ensures MarkedByMajors(ts, spacing, majors).None? <==> StartsAtFraction(majors, ticksLimit)
  {
    MajorPassesSucceed(ts, spacing, majors, |majors| - 1);
    var inner := MajorPasses(ts, spacing, majors, |majors| - 1).value;
    var first, last, avg := majors[0], majors[|majors| - 1], AverageSpacing(majors);
    assert first in majors && last in majors;
    AveragePositive(majors);
    var lower := Pass(inner, spacing, Some(if avg.None? then 0.0 else first as real - avg.value), Some(first as real));
    if lower.Some? {
      WholeStart(lower.value, spacing, last, Some(if avg.None? then |ts| as real else last as real + avg.value));
    }
  }

  lemma AveragePositive(majors: seq<int>)
    requires Ascending(majors)
    ensures |majors| > 1 ==> AverageSpacing(majors).value > 0.0
  {
    if |majors| > 1 {
      assert majors[|majors| - 1] > majors[0];
      PositiveQuotient((majors[|majors| - 1] - majors[0]) as real, (|majors| - 1) as real);
    }
  }

  lemma SelectionSucceedsIff(ts: seq<Tick>, ticksLimit: real, majorEnabled: bool)
    requires ticksLimit > 0.0
    ensures Marked(ts, if majorEnabled then MajorIndices(ts) else [], ticksLimit).Some?
      <==> !(majorEnabled && StartsAtFraction(MajorIndices(ts), ticksLimit))
  {
    SelectionFailsIff(ts, ticksLimit);
  }

  /** Of twelve ticks with majors at 5, 7 and 10 the pass below the first major would start at 2.5. */
  lemma FractionExample()
    ensures var ts := seq(12, i => Tick(i == 5 || i == 7 || i == 10, None, true));
      Marked(ts, MajorIndices(ts), 11.0).None?
  {
    var ts := seq(12, i => Tick(i == 5 || i == 7 || i == 10, None, true));
    SameAscending(MajorIndices(ts), [5, 7, 10]);
    assert AverageSpacing([5, 7, 10]) == Some(2.5);
    assert !Whole(2.5);
    SelectionFailsIff(ts, 11.0);
  }

  /** Outside [from, to) nothing changed. */
  ghost predicate Untouched(ts: seq<Tick>, r: seq<Tick>, from: int, to: int) {
    |r| == |ts| && forall i :: 0 <= i < |ts| && !(from <= i < to) ==> r[i] == ts[i]
  }

  /** Tick `m` is marked and otherwise as it was. */
  ghost predicate MarkKept(ts: seq<Tick>, r: seq<Tick>, m: int) {
    0 <= m < |ts| == |r| && r[m] == ts[m].(index := Some(m))
  }

  lemma {:induction false} InnerMarks(ts: seq<Tick>, spacing: real, majors: seq<int>, k: nat)
    requires spacing > 0.0 && k < |majors| && Ascending(majors)
    requires forall j :: 0 <= j < |majors| ==> 0 <= majors[j] < |ts|
    ensures var r := MajorPasses(ts, spacing, majors, k);
      && r.Some? && Untouched(ts, r.value, majors[0], majors[k])
      && forall j :: 0 <= j < k ==> MarkKept(ts, r.value, majors[j])
  {
    if k > 0 {
      InnerMarks(ts, spacing, majors, k - 1);
      var before := MajorPasses(ts, spacing, majors, k - 1).value;
      assert majors[k - 1] < majors[k];
    }
  }

  /** Whenever the selection succeeds and there are not too many majors, every major keeps its mark and its label,
      however the majors are spaced. */
  lemma MajorsKept(ts: seq<Tick>, ticksLimit: real)
    requires ticksLimit > 0.0 && |MajorIndices(ts)| as real <= ticksLimit
    requires Marked(ts, MajorIndices(ts), ticksLimit).Some?
    ensures var r := Marked(ts, MajorIndices(ts), ticksLimit).value;
      forall i :: 0 <= i < |ts| && ts[i].major ==> MarkKept(ts, r, i)
  {
    var majors := MajorIndices(ts);
    forall j | 0 <= j < |majors| ensures 0 <= majors[j] < |ts| {
      assert majors[j] in majors;
    }
    if majors != [] {
      OuterMarks(ts, SpacingFor(majors, |ts|, ticksLimit), majors);
    }
    forall i | 0 <= i < |ts| && ts[i].major ensures MarkKept(ts, Marked(ts, majors, ticksLimit).value, i) {
      assert i in majors;
      var j :| 0 <= j < |majors| && majors[j] == i;
    }
  }

  lemma OuterMarks(ts: seq<Tick>, spacing: real, majors: seq<int>)
    requires spacing > 0.0 && 0 < |majors| && Ascending(majors)
    requires forall j :: 0 <= j < |majors| ==> 0 <= majors[j] < |ts|
    requires MarkedByMajors(ts, spacing, majors).Some?
    ensures forall j :: 0 <= j < |majors| ==> MarkKept(ts, MarkedByMajors(ts, spacing, majors).value, majors[j])
  {
    var k := |majors| - 1;
    InnerMarks(ts, spacing, majors, k);
    var inner := MajorPasses(ts, spacing, majors, k).value;
    var first, last, avg := majors[0], majors[k], AverageSpacing(majors);
    var start := if avg.None? then 0.0 else first as real - avg.value;
    var lower := Pass(inner, spacing, Some(start), Some(first as real)).value;
    assert forall i :: first <= i < |ts| ==> lower[i] == inner[i];
    AveragePositive(majors);
    forall j | 0 <= j < k ensures first <= majors[j] < last {
      assert majors[j] < majors[k];
    }
  }

  /** The selection of the ticks to draw. It fails exactly if the pass below the first major would start at a
      fraction of a tick. */
  method AutoSkip(ticks: array<Tick>, ticksLimit: real, majorEnabled: bool) returns (ok: bool, kept: seq<Tick>)
    requires ticksLimit > 0.0
    modifies ticks
    ensures var m := Marked(old(ticks[..]), if majorEnabled then MajorIndices(old(ticks[..])) else [], ticksLimit);
      (ok <==> m.Some?) && (ok ==> ticks[..] == m.value && kept == NonSkipped(m.value))
    ensures ok <==> !(majorEnabled && StartsAtFraction(MajorIndices(old(ticks[..])), ticksLimit))
  {
    ghost var ts := ticks[..];
    SelectionSucceedsIff(ts, ticksLimit, majorEnabled);
    var majorIndices: seq<int> := [];
    if majorEnabled {
      majorIndices := GetMajorIndices(ticks);
    }
    kept := [];
    if |majorIndices| as real > ticksLimit {
      PositiveQuotient(|majorIndices| as real, ticksLimit);
      SkipMajors(ticks, majorIndices, |majorIndices| as real / ticksLimit);
      kept := CollectNonSkipped(ticks);
      return true, kept;
    }
    assert forall i :: 0 <= i < |majorIndices| ==> majorIndices[i] in majorIndices;
    var spacing := CalculateSpacing(majorIndices, ticks.Length, ticksLimit);
    OfferedUnique(majorIndices, ticks.Length, ticksLimit, spacing);
    if |majorIndices| == 0 {
      ok := SkipPass(ticks, spacing, None, None);
    } else {
      ok := SkipByMajors(ticks, spacing, majorIndices);
    }
    if ok {
      kept := CollectNonSkipped(ticks);
    }
  }

  /** Skip, with its effect on all ticks at once. */
  method SkipPass(ticks: array<Tick>, spacing: real, majorStart: Option<real>, majorEnd: Option<real>)
    returns (ok: bool)
    requires spacing > 0.0 && (majorEnd.Some? ==> majorStart.Some? && majorStart.value <= majorEnd.value)
    modifies ticks
    ensures var p := Pass(old(ticks[..]), spacing, majorStart, majorEnd);
      (ok <==> p.Some?) && (ok ==> ticks[..] == p.value)
  {
    ghost var p := Pass(ticks[..], spacing, majorStart, majorEnd);
    ok := Skip(ticks, spacing, majorStart, majorEnd);
    if ok {
      assert forall i :: 0 <= i < ticks.Length ==> ticks[i] == p.value[i];
    }
  }

  /** The passes between the majors start at ticks and never fail. */
  method SkipBetweenMajors(ticks: array<Tick>, spacing: real, majorIndices: seq<int>)
    requires spacing > 0.0 && Ascending(majorIndices) && |majorIndices| > 0
    modifies ticks
    ensures MajorPasses(old(ticks[..]), spacing, majorIndices, |majorIndices| - 1) == Some(ticks[..])
  {
    ghost var ts := ticks[..];
    for i := 0 to |majorIndices| - 1
      invariant MajorPasses(ts, spacing, majorIndices, i) == Some(ticks[..])
    {
      WholeStart(ticks[..], spacing, majorIndices[i], Some(majorIndices[i + 1] as real));
      var ok := SkipPass(ticks, spacing, Some(majorIndices[i] as real), Some(majorIndices[i + 1] as real));
    }
  }

  method SkipByMajors(ticks: array<Tick>, spacing: real, majorIndices: seq<int>) returns (ok: bool)
    requires spacing > 0.0 && Ascending(majorIndices) && |majorIndices| > 0
    requires forall m :: m in majorIndices ==> 0 <= m < ticks.Length
    modifies ticks
    ensures var p := MarkedByMajors(old(ticks[..]), spacing, majorIndices);
      (ok <==> p.Some?) && (ok ==> ticks[..] == p.value)
  {
    SkipBetweenMajors(ticks, spacing, majorIndices);
    assert majorIndices[|majorIndices| - 1] in majorIndices;
    var first, last := majorIndices[0] as real, majorIndices[|majorIndices| - 1] as real;
    var avg := AverageSpacing(majorIndices);
    AverageNonNegative(majorIndices);
    ok := SkipPass(ticks, spacing, Some(if avg.None? then 0.0 else first - avg.value), Some(first));
    if ok {
      ok := SkipPass(ticks, spacing, Some(last), Some(if avg.None? then ticks.Length as real else last + avg.value));
    }
  }

  lemma PositiveQuotient(x: real, y: real)
    requires x > 0.0 && y > 0.0
    ensures x / y > 0.0
  {
    var q := x / y;
    assert q * y == x;
  }

  lemma OfferedUnique(majors: seq<int>, length: nat, ticksLimit: real, r: real)
    requires ticksLimit > 0.0
    requires var spacing := (length - 1) as real / ticksLimit;
      (exists f :: Offered(majors, spacing, f) && r == f as real) ||
      (r == Max(spacing, 1.0) && forall f :: !Offered(majors, spacing, f))
    ensures r == SpacingFor(majors, length, ticksLimit)
  {
  }

  lemma AverageNonNegative(majors: seq<int>)
    requires Ascending(majors) && |majors| > 0 && forall m :: m in majors ==> m >= 0
    ensures AverageSpacing(majors).Some? ==> AverageSpacing(majors).value >= 0.0
    ensures majors[0] >= 0
  {
    assert majors[0] in majors;
    if |majors| > 1 {
      assert majors[|majors| - 1] > majors[0];
      PositiveQuotient((majors[|majors| - 1] - majors[0]) as real, (|majors| - 1) as real);
    }
  }
}
