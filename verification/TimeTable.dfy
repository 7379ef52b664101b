/** The lookup table of the Chart.js time scale: timestamps that keep the spacing of their
    neighbours are left out, positions and times are interpolated from the rest. */
module TimeTable {
  import opened Rounding
  import opened Wrappers

  datatype Key = Time | Pos

  datatype Entry = Entry(time: real, pos: real) {
    function Get(key: Key): real {
      if key == Time then time else pos
    }
  }

  type Table = seq<Entry>

  // ----- building the table -----

  function Inside(timestamps: seq<real>, min: real, max: real): seq<real> {
    if timestamps == [] then []
    else
      var rest := Inside(timestamps[..|timestamps| - 1], min, max);
      var curr := timestamps[|timestamps| - 1];
      if min < curr < max then rest + [curr] else rest
  }

  /** The scale's limits with the timestamps strictly between them. */
  function Items(timestamps: seq<real>, min: real, max: real): seq<real> {
    [min] + Inside(timestamps, min, max) + [max]
  }

  /** Only the ends and the points that break the linearity are registered. */
  predicate Kept(items: seq<real>, i: nat)
    requires i < |items|
  {
    i == 0 || i == |items| - 1 || Round((items[i + 1] + items[i - 1]) / 2.0) as real != items[i]
  }

  function EntryAt(items: seq<real>, i: nat): Entry
    requires i < |items| && 2 <= |items|
  {
    Entry(items[i], i as real / (|items| - 1) as real)
  }

  /** The registered entries among the first `k` items. */
  function Thinned(items: seq<real>, k: nat): Table
    requires k <= |items| && 2 <= |items|
  {
    if k == 0 then []
    else Thinned(items, k - 1) + if Kept(items, k - 1) then [EntryAt(items, k - 1)] else []
  }

  /** The table with no point dropped. */
  function Full(items: seq<real>): Table
    requires 2 <= |items|
  {
    seq(|items|, i requires 0 <= i < |items| => EntryAt(items, i))
  }

  method BuildLookupTable(timestamps: seq<real>, min: real, max: real, linear: bool) returns (table: Table)
    ensures table == if linear || timestamps == [] then [Entry(min, 0.0), Entry(max, 1.0)]
                     else Thinned(Items(timestamps, min, max), |Items(timestamps, min, max)|)
    ensures Ascending(timestamps) && min < max ==> 2 <= |table| && Increasing(table, Time) && Increasing(table, Pos)
  {
    if linear || |timestamps| == 0 {
      return [Entry(min, 0.0), Entry(max, 1.0)];
    }
    var items := [min];
    for i := 0 to |timestamps|
      invariant items == [min] + Inside(timestamps[..i], min, max)
    {
      var curr := timestamps[i];
      assert timestamps[..i + 1][..i] == timestamps[..i];
      if curr > min && curr < max {
        items := items + [curr];
      }
    }
    assert timestamps[..|timestamps|] == timestamps;
    items := items + [max];
    table := [];
    for i := 0 to |items|
      invariant table == Thinned(items, i)
    {
      var curr := items[i];
      if i == 0 || i == |items| - 1 || Round((items[i + 1] + items[i - 1]) / 2.0) as real != curr {
        table := table + [Entry(curr, i as real / (|items| - 1) as real)];
      }
    }
    if Ascending(timestamps) && min < max {
      ItemsAscending(timestamps, min, max);
      ThinnedIncreasing(items, |items|, Time);
      ThinnedIncreasing(items, |items|, Pos);
    }
  }

  // ----- lookup and interpolation -----

  ghost predicate Increasing(table: Table, key: Key) {
    forall i, j :: 0 <= i < j < |table| ==> table[i].Get(key) < table[j].Get(key)
  }

  /** Segment `s` holds the value; the first and last segment also hold what lies outside. */
  ghost predicate Bracket(table: Table, key: Key, value: real, s: int) {
    && 0 <= s <= |table| - 2
    && (s == 0 || table[s].Get(key) <= value)
    && (s == |table| - 2 || value <= table[s + 1].Get(key))
  }

  /** The entries a lookup result stands for once the missing side is filled in. */
  function Ends(table: Table, lo: Option<Entry>, hi: Option<Entry>): (Entry, Entry)
    requires 2 <= |table|
  {
    (if lo.None? then table[0] else if hi.None? then table[|table| - 2] else lo.value,
     if lo.None? then table[1] else if hi.None? then table[|table| - 1] else hi.value)
  }

  method Lookup(table: Table, key: Key, value: real) returns (lo: Option<Entry>, hi: Option<Entry>)
    requires 2 <= |table| && Increasing(table, key)
    ensures exists s :: Bracket(table, key, value, s) && Ends(table, lo, hi) == (table[s], table[s + 1])
  {
    var first, last := 0, |table| - 1;
    var i1 := table[0];
    while first >= 0 && first <= last
      invariant 0 <= first && last < |table|
      invariant first > 0 ==> first <= |table| && table[first - 1].Get(key) < value
      invariant 0 <= last
      invariant last < |table| - 1 ==> value < table[last].Get(key)
      decreases last + 1 - first
    {
      var mid := (first + last) / 2;
      var i0 := if mid == 0 then None else Some(table[mid - 1]);
      i1 := table[mid];
      if i0.None? {
        assert Bracket(table, key, value, 0);
        return None, Some(i1);
      } else if i1.Get(key) < value {
        first := mid + 1;
      } else if i0.value.Get(key) > value {
        last := mid - 1;
      } else {
        assert Bracket(table, key, value, mid - 1);
        return i0, Some(i1);
      }
    }
    assert Bracket(table, key, value, |table| - 2);
    return Some(i1), None;
  }

  /** The line through (a, c) and (b, d) at `v`; flat where the span is zero. */
  function Line(a: real, b: real, c: real, d: real, v: real): real {
    var span := b - a;
    var ratio := if span != 0.0 then (v - a) / span else 0.0;
    c + (d - c) * ratio
  }

  function Linear(prev: Entry, next: Entry, skey: Key, sval: real, tkey: Key): real {
    Line(prev.Get(skey), next.Get(skey), prev.Get(tkey), next.Get(tkey), sval)
  }

  lemma LineEnds(a: real, b: real, c: real, d: real)
    requires a < b
    ensures Line(a, b, c, d, a) == c && Line(a, b, c, d, b) == d
  {
    var span := b - a;
    assert (b - a) / span == 1.0;
    assert (d - c) * 1.0 == d - c;
  }

  lemma LineInverse(a: real, b: real, c: real, d: real, v: real)
    requires a < b && c < d
    ensures Line(c, d, a, b, Line(a, b, c, d, v)) == v
  {
    var r := (v - a) / (b - a);
    var s := (d - c) * r;
    LineAt(a, b, c, d, v, r, s);
    QuotientOf(s, d - c, r);
    Product(v - a, b - a, r);
    LineAt(c, d, a, b, c + s, r, v - a);
  }

  lemma QuotientOf(x: real, f: real, r: real)
    requires f > 0.0 && x == f * r
    ensures x / f == r
  {
    var q := x / f;
    assert q * f == x;
    assert (q - r) * f == 0.0;
  }

  lemma LineAt(a: real, b: real, c: real, d: real, v: real, r: real, s: real)
    requires a < b && r == (v - a) / (b - a) && s == (d - c) * r
    ensures Line(a, b, c, d, v) == c + s
  {
  }

  lemma Product(x: real, e: real, r: real)
    requires e > 0.0 && r == x / e
    ensures e * r == x
  {
  }

  lemma Cancel(e: real, r: real)
    requires e > 0.0
    ensures (e * r) / e == r
  {
  }

  lemma LineMonotone(a: real, b: real, c: real, d: real, v: real)
    requires a < b && c < d
    ensures a <= v ==> c <= Line(a, b, c, d, v)
    ensures v <= b ==> Line(a, b, c, d, v) <= d
  {
    var r := (v - a) / (b - a);
    Quotient(v - a, b - a);
    ProductSign(d - c, r);
    ProductSign(d - c, 1.0 - r);
    assert (d - c) * (1.0 - r) == (d - c) - (d - c) * r;
  }

  lemma Quotient(x: real, e: real)
    requires e > 0.0
    ensures x >= 0.0 ==> x / e >= 0.0
    ensures x <= e ==> x / e <= 1.0
  {
    var q := x / e;
    assert q * e == x;
  }

  lemma ProductSign(e: real, r: real)
    requires e > 0.0
    ensures r >= 0.0 ==> e * r >= 0.0
  {
  }

  /** `r` is the value of the polyline through the table, prolonged by its outer segments. */
  ghost predicate Interpolates(table: Table, skey: Key, sval: real, tkey: Key, r: real) {
    && (exists s :: Bracket(table, skey, sval, s))
    && forall s :: Bracket(table, skey, sval, s) ==> r == Linear(table[s], table[s + 1], skey, sval, tkey)
  }

  method Interpolate(table: Table, skey: Key, sval: real, tkey: Key) returns (r: real)
    requires 2 <= |table| && Increasing(table, skey)
    ensures Interpolates(table, skey, sval, tkey, r)
  {
    var lo, hi := Lookup(table, skey, sval);
    ghost var s :| Bracket(table, skey, sval, s) && Ends(table, lo, hi) == (table[s], table[s + 1]);
    var (prev, next) := Ends(table, lo, hi);
    r := Linear(prev, next, skey, sval, tkey);
    ValueAt(table, skey, sval, tkey, s, r);
  }

  /** Whichever bracketing segment the search finds, the interpolated value is the same. */
  lemma BracketsAgree(table: Table, skey: Key, sval: real, tkey: Key, s: int, s': int)
    requires Increasing(table, skey)
    requires Bracket(table, skey, sval, s) && Bracket(table, skey, sval, s') && s < s'
    ensures Linear(table[s], table[s + 1], skey, sval, tkey) == Linear(table[s'], table[s' + 1], skey, sval, tkey)
  {
    assert s' == s + 1 && sval == table[s'].Get(skey) by {
      assert table[s + 1].Get(skey) <= table[s'].Get(skey);
    }
    LineEnds(table[s].Get(skey), table[s + 1].Get(skey), table[s].Get(tkey), table[s + 1].Get(tkey));
    LineEnds(table[s'].Get(skey), table[s' + 1].Get(skey), table[s'].Get(tkey), table[s' + 1].Get(tkey));
  }

  lemma ValueAt(table: Table, skey: Key, sval: real, tkey: Key, s: int, r: real)
    requires Increasing(table, skey) && Bracket(table, skey, sval, s)
    requires r == Linear(table[s], table[s + 1], skey, sval, tkey)
    ensures Interpolates(table, skey, sval, tkey, r)
  {
    forall s' | Bracket(table, skey, sval, s') ensures r == Linear(table[s'], table[s' + 1], skey, sval, tkey) {
      if s < s' {
        BracketsAgree(table, skey, sval, tkey, s, s');
      } else if s' < s {
        BracketsAgree(table, skey, sval, tkey, s', s);
      }
    }
  }

  /** Interpolating there and back is the identity on a table that increases in both columns. */
  lemma RoundTrip(table: Table, skey: Key, tkey: Key, x: real, y: real, z: real)
    requires 2 <= |table| && Increasing(table, skey) && Increasing(table, tkey)
    requires Interpolates(table, skey, x, tkey, y)
    requires Interpolates(table, tkey, y, skey, z)
    ensures z == x
  {
    var s :| Bracket(table, skey, x, s);
    var a, b := table[s], table[s + 1];
    LineMonotone(a.Get(skey), b.Get(skey), a.Get(tkey), b.Get(tkey), x);
    assert Bracket(table, tkey, y, s);
    LineInverse(a.Get(skey), b.Get(skey), a.Get(tkey), b.Get(tkey), x);
  }

  // ----- leaving out the points that keep the spacing -----

  ghost predicate Ascending(items: seq<real>) {
    forall i, j :: 0 <= i < j < |items| ==> items[i] < items[j]
  }

  /** Every dropped item lies exactly halfway between its neighbours. */
  ghost predicate DropsExact(items: seq<real>) {
    forall i {:trigger Kept(items, i)} :: 0 < i < |items| - 1 && !Kept(items, i) ==>
      items[i] - items[i - 1] == items[i + 1] - items[i]
  }

  /** Items `a` and `b` are neighbours in the thinned table. */
  ghost predicate Gap(items: seq<real>, a: nat, b: nat) {
    && a < b < |items| && Kept(items, a) && Kept(items, b)
    && forall i :: a < i < b ==> !Kept(items, i)
  }

  lemma {:induction false} ThinnedPrefix(items: seq<real>, j: nat, k: nat)
    requires 2 <= |items| && j <= k <= |items|
    ensures Thinned(items, j) <= Thinned(items, k)
    decreases k
  {
    if j < k {
      ThinnedPrefix(items, j, k - 1);
    }
  }

  lemma {:induction false} ThinnedAcross(items: seq<real>, a: nat, k: nat)
    requires 2 <= |items| && a < k <= |items|
    requires forall i :: a < i < k ==> !Kept(items, i)
    ensures Thinned(items, k) == Thinned(items, a + 1)
    decreases k
  {
    if a + 1 < k {
      ThinnedAcross(items, a, k - 1);
    }
  }

  /** A gap is a segment of the thinned table, an outer one exactly at the outer items. */
  lemma GapIsSegment(items: seq<real>, a: nat, b: nat) returns (s: nat)
    requires 2 <= |items| && Gap(items, a, b)
    ensures var table := Thinned(items, |items|);
            s + 1 < |table| && table[s] == EntryAt(items, a) && table[s + 1] == EntryAt(items, b)
            && (s == 0 <==> a == 0) && (s == |table| - 2 <==> b == |items| - 1)
  {
    s := |Thinned(items, a)|;
    ThinnedAcross(items, a, b);
    assert Thinned(items, b + 1) == Thinned(items, a) + [EntryAt(items, a)] + [EntryAt(items, b)];
    ThinnedPrefix(items, b + 1, |items|);
    if a > 0 {
      ThinnedPrefix(items, 1, a);
    }
    if b < |items| - 1 {
      ThinnedPrefix(items, b + 1, |items| - 1);
    }
  }

  /** Every item but the last starts inside a gap. */
  lemma {:induction false} GapAround(items: seq<real>, m: nat) returns (a: nat, b: nat)
    requires 2 <= |items| && m + 1 < |items|
    ensures Gap(items, a, b) && a <= m < b
  {
    a := m;
    while !Kept(items, a)
      invariant a <= m && forall i :: a < i <= m ==> !Kept(items, i)
      decreases a
    {
      a := a - 1;
    }
    b := m + 1;
    while !Kept(items, b)
      invariant m < b < |items| && forall i :: a < i < b ==> !Kept(items, i)
      decreases |items| - b
    {
      b := b + 1;
    }
  }

  lemma PositionsIncrease(i: nat, j: nat, n: nat)
    requires i < j && 2 <= n
    ensures i as real / (n - 1) as real < j as real / (n - 1) as real
  {
    var d, e := (n - 1) as real, (j - i) as real;
    SumQuotient(i as real, e, d);
    assert (e / d) * d == e;
  }

  lemma {:induction false} ThinnedBelow(items: seq<real>, k: nat, m: nat)
    requires 2 <= |items| && k <= m < |items| && Ascending(items)
    ensures forall key, j :: 0 <= j < |Thinned(items, k)| ==> Thinned(items, k)[j].Get(key) < EntryAt(items, m).Get(key)
  {
    if k > 0 {
      ThinnedBelow(items, k - 1, m);
      PositionsIncrease(k - 1, m, |items|);
    }
  }

  /** The thinned table starts and ends at the limits and increases in both columns. */
  lemma {:induction false} ThinnedIncreasing(items: seq<real>, k: nat, key: Key)
    requires 2 <= |items| && k <= |items| && Ascending(items)
    ensures Increasing(Thinned(items, k), key)
    ensures k > 0 ==> |Thinned(items, k)| > 0 && Thinned(items, k)[0] == EntryAt(items, 0)
    ensures k == |items| ==>
      2 <= |Thinned(items, k)| && Thinned(items, k)[|Thinned(items, k)| - 1] == EntryAt(items, k - 1)
  {
    if k > 0 {
      ThinnedIncreasing(items, k - 1, key);
      ThinnedBelow(items, k - 1, k - 1);
    }
  }

  /** `x` is to `i` what `span` is to `k`. */
  ghost predicate Proportional(x: real, k: real, i: real, span: real) {
    x * k == i * span
  }

  /** Inside a gap without inexact drops the items are evenly spaced. */
  lemma {:induction false} EvenSpacing(items: seq<real>, a: nat, b: nat, m: nat)
    requires Gap(items, a, b) && DropsExact(items) && a <= m <= b
    ensures Proportional(items[m] - items[a], 1.0, m as real - a as real, items[a + 1] - items[a])
    ensures a < m ==> items[m] - items[m - 1] == items[a + 1] - items[a]
  {
    if a < m {
      EvenSpacing(items, a, b, m - 1);
      if a + 1 < m {
        assert !Kept(items, m - 1);
      }
      OneFurther(items[m - 1] - items[a], (m - 1) as real - a as real, items[a + 1] - items[a]);
    }
  }

  lemma OneFurther(x: real, k: real, d: real)
    requires Proportional(x, 1.0, k, d)
    ensures Proportional(x + d, 1.0, k + 1.0, d)
  {
    assert (k + 1.0) * d == k * d + d;
  }

  /** The line between two items `k` positions and `k * d` apart has slope one position per `d`. */
  lemma LineOfSlope(x: real, d: real, i: real, k: real, n: real, t: real)
    requires d > 0.0 && k > 0.0 && n > 0.0
    ensures Line(x, x + k * d, i / n, (i + k) / n, t) == (i + (t - x) / d) / n
  {
    var u := (t - x) / d;
    assert u * d == t - x;
    assert k * d > 0.0;
    SplitQuotient(t - x, k, d, u);
    SumQuotient(i, k, n);
    assert Line(x, x + k * d, i / n, (i + k) / n, t) == i / n + k / n * (u / k);
    Reassociate(k, n, u);
    SumQuotient(i, u, n);
  }

  lemma SplitQuotient(y: real, k: real, d: real, u: real)
    requires k > 0.0 && d > 0.0 && k * d > 0.0 && u * d == y
    ensures y / (k * d) == u / k
  {
    var w := u / k;
    assert w * k == u;
    assert w * (k * d) == (w * k) * d;
    Cancel(k * d, w);
    assert (k * d) * w == y;
  }

  lemma SumQuotient(a: real, b: real, n: real)
    requires n > 0.0
    ensures (a + b) / n == a / n + b / n
  {
  }

  lemma Reassociate(k: real, n: real, u: real)
    requires k > 0.0 && n > 0.0
    ensures k / n * (u / k) == u / n
  {
    var w := u / k;
    assert w * k == u;
    var z := k / n;
    assert z * n == k;
    assert (z * w) * n == (z * n) * w == k * w == u;
    assert z * w == u / n;
  }

  lemma FullIncreasing(items: seq<real>, key: Key)
    requires 2 <= |items| && Ascending(items)
    ensures Increasing(Full(items), key)
  {
    forall i, j | 0 <= i < j < |items| ensures EntryAt(items, i).Get(key) < EntryAt(items, j).Get(key) {
      PositionsIncrease(i, j, |items|);
    }
  }

  /** A value held by a segment of the full table is held by the gap around that segment. */
  lemma GapHolds(items: seq<real>, m: nat, t: real, a: nat, b: nat) returns (s: nat)
    requires 2 <= |items| && Ascending(items)
    requires Bracket(Full(items), Time, t, m)
    requires Gap(items, a, b) && a <= m < b
    ensures var table := Thinned(items, |items|);
            Bracket(table, Time, t, s) && table[s] == EntryAt(items, a) && table[s + 1] == EntryAt(items, b)
  {
    s := GapIsSegment(items, a, b);
  }

  /** Moving the base point along evenly spaced items keeps the line. */
  lemma Rebase(x: real, y: real, d: real, a: real, m: real, t: real)
    requires d > 0.0 && y - x == (m - a) * d
    ensures a + (t - x) / d == m + (t - y) / d
  {
    var u, w := (t - x) / d, (t - y) / d;
    assert u * d == t - x && w * d == t - y;
    assert (u - w) * d == (m - a) * d;
    Cancel(d, u - w);
    Cancel(d, m - a);
  }

  lemma SameSlope(xa: real, xb: real, xm: real, xm': real, d: real, a: real, b: real, m: real, n: real, t: real)
    requires d > 0.0 && a < b && n > 0.0
    requires Proportional(xb - xa, 1.0, b - a, d) && Proportional(xm - xa, 1.0, m - a, d) && xm' - xm == d
    ensures Line(xa, xb, a / n, b / n, t) == Line(xm, xm', m / n, (m + 1.0) / n, t)
  {
    assert xb == xa + (b - a) * d && a + (b - a) == b;
    LineOfSlope(xa, d, a, b - a, n, t);
    assert xm' == xm + 1.0 * d;
    LineOfSlope(xm, d, m, 1.0, n, t);
    Rebase(xa, xm, d, a, m, t);
  }

  /** On a gap without inexact drops, its line and the line of any segment inside coincide. */
  lemma SameLine(items: seq<real>, a: nat, b: nat, m: nat, t: real)
    requires 2 <= |items| && Ascending(items) && DropsExact(items)
    requires Gap(items, a, b) && a <= m < b
    ensures Linear(EntryAt(items, a), EntryAt(items, b), Time, t, Pos)
         == Linear(EntryAt(items, m), EntryAt(items, m + 1), Time, t, Pos)
  {
    var d := items[a + 1] - items[a];
    EvenSpacing(items, a, b, b);
    EvenSpacing(items, a, b, m);
    EvenSpacing(items, a, b, m + 1);
    assert items[m + 1] - items[m] == d;
    SameSlope(items[a], items[b], items[m], items[m + 1], d, a as real, b as real, m as real, (|items| - 1) as real, t);
  }

  /** The thinned table gives every time, inside and outside the limits, the position that the
      table with no point dropped gives it. */
  lemma ThinnedAgrees(items: seq<real>, t: real, p: real)
    requires 2 <= |items| && Ascending(items) && DropsExact(items)
    requires Interpolates(Full(items), Time, t, Pos, p)
    ensures Interpolates(Thinned(items, |items|), Time, t, Pos, p)
  {
    var m :| Bracket(Full(items), Time, t, m);
    var a, b := GapAround(items, m);
    var s := GapHolds(items, m, t, a, b);
    SameLine(items, a, b, m, t);
    ThinnedIncreasing(items, |items|, Time);
    FullValue(items, t, p, m);
    ValueAt(Thinned(items, |items|), Time, t, Pos, s, p);
  }

  lemma FullValue(items: seq<real>, t: real, p: real, m: nat)
    requires 2 <= |items| && Ascending(items)
    requires Interpolates(Full(items), Time, t, Pos, p) && Bracket(Full(items), Time, t, m)
    ensures p == Linear(EntryAt(items, m), EntryAt(items, m + 1), Time, t, Pos)
  {
  }

  /** Item `i` of `n` is placed at `i / (n - 1)`. */
  ghost predicate Placed(items: seq<real>, i: nat)
    requires i < |items| && 2 <= |items|
  {
    Interpolates(Thinned(items, |items|), Time, items[i], Pos, i as real / (|items| - 1) as real)
  }

  lemma FullPlaces(items: seq<real>, i: nat)
    requires 2 <= |items| && Ascending(items) && i < |items|
    ensures Interpolates(Full(items), Time, items[i], Pos, EntryAt(items, i).pos)
  {
    FullIncreasing(items, Time);
    var m := if i == 0 then 0 else i - 1;
    LineEnds(items[m], items[m + 1], EntryAt(items, m).pos, EntryAt(items, m + 1).pos);
    ValueAt(Full(items), Time, items[i], Pos, m, EntryAt(items, i).pos);
  }

  lemma OnLine(xa: real, xb: real, x: real, a: real, b: real, i: real, n: real)
    requires xa < xb && n > 0.0 && Line(xa, xb, a / n, b / n, x) == i / n
    ensures Proportional(x - xa, b - a, i - a, xb - xa)
  {
    var r, p, q, z := (x - xa) / (xb - xa), a / n, b / n, i / n;
    assert r * (xb - xa) == x - xa;
    assert p * n == a && q * n == b && z * n == i;
    assert z == p + (q - p) * r;
    assert z * n == p * n + (q * n - p * n) * r;
    assert i - a == (b - a) * r;
    assert (b - a) * (r * (xb - xa)) == ((b - a) * r) * (xb - xa);
  }

  /** An item placed evenly inside a gap lies on the straight line between the gap's ends. */
  lemma PlacedOnLine(items: seq<real>, a: nat, b: nat, i: nat)
    requires 2 <= |items| && Ascending(items) && Gap(items, a, b) && a <= i <= b && Placed(items, i)
    ensures Proportional(items[i] - items[a], b as real - a as real, i as real - a as real, items[b] - items[a])
  {
    var s := GapIsSegment(items, a, b);
    assert Bracket(Thinned(items, |items|), Time, items[i], s);
    assert Linear(EntryAt(items, a), EntryAt(items, b), Time, items[i], Pos) == i as real / (|items| - 1) as real;
    OnLine(items[a], items[b], items[i], a as real, b as real, i as real, (|items| - 1) as real);
  }

  lemma Midpoint(x: real, y: real, z: real, k: real, e: real, span: real)
    requires k > 0.0
    requires Proportional(x, k, e - 1.0, span) && Proportional(y, k, e, span) && Proportional(z, k, e + 1.0, span)
    ensures y - x == z - y
  {
    assert (y - x) * k == span && (z - y) * k == span;
    assert ((y - x) - (z - y)) * k == 0.0;
  }

  /** All items are placed evenly exactly when no dropped one is off the middle of its neighbours. */
  lemma EvenlyPlacedIff(items: seq<real>)
    requires 2 <= |items| && Ascending(items)
    ensures (forall i :: 0 <= i < |items| ==> Placed(items, i)) <==> DropsExact(items)
  {
    if DropsExact(items) {
      forall i | 0 <= i < |items| ensures Placed(items, i) {
        FullPlaces(items, i);
        ThinnedAgrees(items, items[i], EntryAt(items, i).pos);
      }
    }
    if forall i :: 0 <= i < |items| ==> Placed(items, i) {
      forall i {:trigger Kept(items, i)} | 0 < i < |items| - 1 && !Kept(items, i)
        ensures items[i] - items[i - 1] == items[i + 1] - items[i]
      {
        var a, b := GapAround(items, i);
        PlacedOnLine(items, a, b, i - 1);
        PlacedOnLine(items, a, b, i);
        PlacedOnLine(items, a, b, i + 1);
        assert (i - 1) as real - a as real == i as real - a as real - 1.0;
        assert (i + 1) as real - a as real == i as real - a as real + 1.0;
        Midpoint(items[i - 1] - items[a], items[i] - items[a], items[i + 1] - items[a],
                 b as real - a as real, i as real - a as real, items[b] - items[a]);
      }
    }
  }

  lemma DroppedWhole(prev: int, curr: int, next: int)
    ensures Round((next as real + prev as real) / 2.0) == curr <==>
      2 * curr - prev - next == 0 || 2 * curr - prev - next == 1
  {
  }

  /** Item `i` is half a millisecond past the middle of its neighbours. */
  predicate JustPastMiddle(items: seq<real>, i: nat)
    requires 0 < i < |items| - 1
  {
    2.0 * items[i] - items[i - 1] - items[i + 1] == 1.0
  }

  /** On whole milliseconds the rounding drops a point that is up to half a millisecond late:
      items are placed evenly exactly when no item is just past the middle of its neighbours. */
  lemma WholeItemsIff(items: seq<real>)
    requires 2 <= |items| && Ascending(items) && forall i :: 0 <= i < |items| ==> Whole(items[i])
    ensures (forall i :: 0 <= i < |items| ==> Placed(items, i))
       <==> (forall i :: 0 < i < |items| - 1 ==> !JustPastMiddle(items, i))
  {
    EvenlyPlacedIff(items);
    if forall i :: 0 < i < |items| - 1 ==> !JustPastMiddle(items, i) {
      forall i {:trigger Kept(items, i)} | 0 < i < |items| - 1 && !Kept(items, i)
        ensures items[i] - items[i - 1] == items[i + 1] - items[i]
      {
        KeptWhole(items, i);
      }
    } else {
      var i :| 0 < i < |items| - 1 && JustPastMiddle(items, i);
      KeptWhole(items, i);
    }
  }

  lemma KeptWhole(items: seq<real>, i: nat)
    requires 0 < i < |items| - 1 && Whole(items[i - 1]) && Whole(items[i]) && Whole(items[i + 1])
    ensures !Kept(items, i) <==> items[i] - items[i - 1] == items[i + 1] - items[i] || JustPastMiddle(items, i)
  {
    DroppedWhole(items[i - 1].Floor, items[i].Floor, items[i + 1].Floor);
  }

  /** Of the milliseconds 0, 2 and 3 the middle one is dropped and not placed evenly. */
  lemma LatePointMisplaced()
    ensures !(forall i :: 0 <= i < 3 ==> Placed([0.0, 2.0, 3.0], i))
  {
    var items := [0.0, 2.0, 3.0];
    assert items[0] == 0.0 && items[1] == 2.0 && items[2] == 3.0;
    assert JustPastMiddle(items, 1);
    WholeItemsIff(items);
  }

  /** The items built from ascending timestamps and proper limits are ascending; they are the limits and the timestamps
      between them. */
  lemma ItemsAscending(timestamps: seq<real>, min: real, max: real)
    requires Ascending(timestamps) && min < max
    ensures Ascending(Items(timestamps, min, max))
    ensures forall x :: x in Items(timestamps, min, max) <==> x == min || x == max || (x in timestamps && min < x < max)
  {
    InsideAscending(timestamps, min, max);
    var inside, items := Inside(timestamps, min, max), Items(timestamps, min, max);
    forall i, j | 0 <= i < j < |items| ensures items[i] < items[j] {
      assert i > 0 ==> items[i] == inside[i - 1] && inside[i - 1] in inside;
      assert j < |items| - 1 ==> items[j] == inside[j - 1] && inside[j - 1] in inside;
    }
  }

  lemma {:induction false} InsideAscending(timestamps: seq<real>, min: real, max: real)
    requires Ascending(timestamps)
    ensures Ascending(Inside(timestamps, min, max))
    ensures forall x :: x in Inside(timestamps, min, max) <==> x in timestamps && min < x < max
  {
    if timestamps != [] {
      var front, last := timestamps[..|timestamps| - 1], timestamps[|timestamps| - 1];
      assert timestamps == front + [last];
      InsideAscending(front, min, max);
      var rest := Inside(front, min, max);
      forall i | 0 <= i < |rest| ensures rest[i] < last {
        assert rest[i] in rest;
        var k :| 0 <= k < |front| && front[k] == rest[i];
        assert timestamps[k] < timestamps[|timestamps| - 1];
      }
    }
  }
}
