/** The conversion of KVP values to Scheme data and back. Scheme data carries no type tag, so the reader
    guesses the type from the shape of the data. */
module KvpBridge {
  import opened Scheme
  import opened Wrappers

  // ----- KVP values -----

  /** A KVP value; Null is the null pointer, and Other stands for the types the printer does not know. */
  datatype Kvp =
    | Null
    | Int64(n: int)
    | Double(f: Flonum)
    | Numeric(num: int, denom: int)
    | Text(s: string)
    | Guids(g: Guid)
    | Frame(entries: seq<Entry>)
    | List(items: seq<Kvp>)
    | Other(tag: int)

  datatype Entry = Entry(key: string, value: Kvp)

  // ----- frames: key-sorted entries without null values -----

  predicate Less(a: string, b: string) {
    b != [] && (a == [] || a[0] < b[0] || (a[0] == b[0] && Less(a[1..], b[1..])))
  }

  lemma {:induction false} LessTransitive(a: string, b: string, c: string)
    requires Less(a, b) && Less(b, c)
    ensures Less(a, c)
  {
    if a != [] && a[0] == b[0] && b[0] == c[0] {
      LessTransitive(a[1..], b[1..], c[1..]);
    }
  }

  lemma {:induction false} LessTotal(a: string, b: string)
    ensures !Less(a, a)
    ensures a == b || Less(a, b) || Less(b, a)
  {
    if a != [] {
      LessTotal(a[1..], a[1..]);
      if b != [] && a[0] == b[0] {
        LessTotal(a[1..], b[1..]);
        assert a == [a[0]] + a[1..] && b == [b[0]] + b[1..];
      }
    }
  }

  /** A key that comes before every key of the entries. */
  predicate Before(k: string, es: seq<Entry>) {
    es != [] ==> Less(k, es[0].key) && Before(k, es[1..])
  }

  predicate Sorted(es: seq<Entry>) {
    es != [] ==> !es[0].value.Null? && Before(es[0].key, es[1..]) && Sorted(es[1..])
  }

  lemma {:induction false} BeforeLess(j: string, k: string, es: seq<Entry>)
    requires Less(j, k) && Before(k, es)
    ensures Before(j, es)
  {
    if es != [] {
      LessTransitive(j, k, es[0].key);
      BeforeLess(j, k, es[1..]);
    }
  }

  function Bound(k: string, v: Kvp, rest: seq<Entry>): seq<Entry> {
    if v.Null? then rest else [Entry(k, v)] + rest
  }

  /** KvpFrame::set of one key: the old binding is erased, and a value that is not null is put in its place. */
  function Put(es: seq<Entry>, k: string, v: Kvp): seq<Entry> {
    if es == [] then Bound(k, v, [])
    else if es[0].key == k then Bound(k, v, es[1..])
    else if Less(k, es[0].key) then Bound(k, v, es)
    else [es[0]] + Put(es[1..], k, v)
  }

  function Get(es: seq<Entry>, k: string): Kvp {
    if es == [] then Null else if es[0].key == k then es[0].value else Get(es[1..], k)
  }

  lemma {:induction false} PutBefore(j: string, es: seq<Entry>, k: string, v: Kvp)
    requires Before(j, es) && Less(j, k)
    ensures Before(j, Put(es, k, v))
  {
    if es != [] && es[0].key != k {
      PutBefore(j, es[1..], k, v);
      if Less(k, es[0].key) {
        assert ([Entry(k, v)] + es)[1..] == es;
      } else {
        assert ([es[0]] + Put(es[1..], k, v))[1..] == Put(es[1..], k, v);
      }
    }
    if es != [] {
      assert ([Entry(k, v)] + es[1..])[1..] == es[1..];
    }
  }

  /** Setting a key keeps the frame sorted and free of nulls. */
  lemma {:induction false} PutSorted(es: seq<Entry>, k: string, v: Kvp)
    requires Sorted(es)
    ensures Sorted(Put(es, k, v))
  {
    if es != [] {
      assert ([Entry(k, v)] + es[1..])[1..] == es[1..] && ([Entry(k, v)] + es)[1..] == es;
      LessTotal(k, es[0].key);
      if es[0].key == k {
      } else if Less(k, es[0].key) {
        BeforeLess(k, es[0].key, es[1..]);
      } else {
        PutSorted(es[1..], k, v);
        PutBefore(es[0].key, es[1..], k, v);
        assert ([es[0]] + Put(es[1..], k, v))[1..] == Put(es[1..], k, v);
      }
    }
  }

  lemma {:induction false} GetBefore(es: seq<Entry>, k: string)
    requires Before(k, es)
    ensures Get(es, k) == Null
  {
    if es != [] {
      LessTotal(k, k);
      GetBefore(es[1..], k);
    }
  }

  /** A set key reads back its new value, every other key its old one. */
  lemma {:induction false} GetPut(es: seq<Entry>, k: string, v: Kvp, j: string)
    requires Sorted(es)
    ensures Get(Put(es, k, v), j) == if j == k then v else Get(es, j)
  {
    if es != [] {
      assert ([Entry(k, v)] + es[1..])[1..] == es[1..] && ([Entry(k, v)] + es)[1..] == es;
      LessTotal(k, es[0].key);
      if es[0].key == k {
        GetBefore(es[1..], k);
      } else if Less(k, es[0].key) {
        BeforeLess(k, es[0].key, es[1..]);
        GetBefore(es, k);
      } else {
        GetPut(es[1..], k, v, j);
        assert ([es[0]] + Put(es[1..], k, v))[1..] == Put(es[1..], k, v);
      }
    }
  }

  /** A key after all others goes to the end. */
  lemma {:induction false} PutLast(es: seq<Entry>, k: string, v: Kvp)
    requires forall i :: 0 <= i < |es| ==> Less(es[i].key, k)
    ensures Put(es, k, v) == if v.Null? then es else es + [Entry(k, v)]
  {
    if es != [] {
      LessTotal(k, k);
      if Less(k, es[0].key) {
        LessTransitive(k, es[0].key, k);
      }
      PutLast(es[1..], k, v);
      assert es == [es[0]] + es[1..];
    }
  }

  // ----- reading -----

  /** scm_is_list_of_string_pairs. */
  predicate IsStringPairs(x: Scm) {
    match x
    case Nil => true
    case Pair(a, rest) => a.Pair? && a.car.Str? && IsStringPairs(rest)
    case _ => false
  }

  datatype NumericResult = Amount(num: int, denom: int) | ArgumentError | OverflowError

  /** gnc_scm_to_numeric: the parts of an exact number, if both fit 64 bits. */
  function ScmToNumeric(x: Scm): NumericResult {
    match x
    case Exact(q) => if InInt64(q.num) && InInt64(q.den) then Amount(q.num, q.den) else OverflowError
    case Inexact(_) => OverflowError
    case _ => ArgumentError
  }

  /** The type an exact number gets. */
  function ReadExact(p: Platform, q: Rational): Kvp {
    if q.den == 1 && InInt64(q.num) then Int64(q.num)
    else if InInt64(q.num) && InInt64(q.den) then
      var amount := ScmToNumeric(Exact(q));
      Numeric(amount.num, amount.denom)
    else Double(p.toDouble(q))
  }

  function ReadText(p: Platform, s: string): Kvp {
    match GuidOf(p, s)
    case Some(g) => Guids(g)
    case None => Text(s)
  }

  function Read(p: Platform, x: Scm): (v: Kvp)
    decreases x, 1
  {
    match x
    case Exact(q) => ReadExact(p, q)
    case Inexact(f) => if f.Finite? then Double(f) else Null
    case Str(s) => ReadText(p, s)
    case Pair(_, _) =>
      if IsStringPairs(x) then Frame(ReadFrame(p, x, []))
      else if IsList(x) then List(ReadItems(p, x))
      else Null
    case _ => Null
  }

  function ReadFrame(p: Platform, x: Scm, acc: seq<Entry>): seq<Entry>
    decreases x, 0
  {
    match x
    case Pair(a, rest) =>
      if a.Pair? && a.car.Str? then ReadFrame(p, rest, Put(acc, a.car.text, Read(p, a.cdr))) else acc
    case _ => acc
  }

  function ReadItems(p: Platform, x: Scm): seq<Kvp>
    decreases x, 0
  {
    match x
    case Pair(a, rest) => [Read(p, a)] + ReadItems(p, rest)
    case _ => []
  }

  // ----- printing -----

  /** gnc_numeric_to_scm: the quotient, or #f for a zero denominator. */
  function PrintNumeric(num: int, denom: int): Scm {
    if denom == 0 then Bool(false)
    else if denom > 0 then Exact(Reduce(num, denom))
    else Exact(Reduce(-num, -denom))
  }

  function Print(p: Platform, v: Kvp): Scm
    decreases v
  {
    match v
    case Null => Bool(false)
    case Int64(n) => Whole(n)
    case Double(f) => Inexact(f)
    case Numeric(num, denom) => PrintNumeric(num, denom)
    case Text(s) => Str(s)
    case Guids(g) => Str(p.text(g))
    case Frame(entries) => PrintEntries(p, entries)
    case List(items) => PrintItems(p, items)
    case Other(_) => Bool(false)
  }

  function PrintEntries(p: Platform, es: seq<Entry>): Scm
    decreases es
  {
    if es == [] then Nil else Pair(Pair(Str(es[0].key), Print(p, es[0].value)), PrintEntries(p, es[1..]))
  }

  function PrintItems(p: Platform, items: seq<Kvp>): Scm
    decreases items
  {
    if items == [] then Nil else Pair(Print(p, items[0]), PrintItems(p, items[1..]))
  }

  // ----- which values survive the round trip -----

  /** A list headed by a string or a GUID prints like an association. */
  predicate LooksLikeBinding(v: Kvp) {
    v.List? && v.items != [] && (v.items[0].Text? || v.items[0].Guids?)
  }

  ghost predicate Canonical(p: Platform, v: Kvp)
    decreases v
  {
    match v
    case Null => true
    case Int64(n) => InInt64(n)
    case Double(f) => f.Finite?
    case Numeric(num, denom) => denom > 1 && InInt64(num) && InInt64(denom) && Gcd(Abs(num), denom) == 1
    case Text(s) => GuidOf(p, s).None?
    case Guids(_) => true
    case Frame(es) => es != [] && Sorted(es) && forall i :: 0 <= i < |es| ==> Canonical(p, es[i].value)
    case List(items) =>
      && items != []
      && (exists i :: 0 <= i < |items| && !LooksLikeBinding(items[i]))
      && forall i :: 0 <= i < |items| ==> Canonical(p, items[i])
    case Other(_) => false
  }

  lemma NumericRoundTrip(p: Platform, num: int, denom: int)
    ensures Read(p, PrintNumeric(num, denom)) == Numeric(num, denom)
      <==> denom > 1 && InInt64(num) && InInt64(denom) && Gcd(Abs(num), denom) == 1
  {
    if denom > 0 {
      ReduceReduced(num, denom);
    }
  }

  lemma {:induction false} PrintedPairs(p: Platform, items: seq<Kvp>)
    ensures IsList(PrintItems(p, items))
    ensures IsStringPairs(PrintItems(p, items)) <==> forall i :: 0 <= i < |items| ==> LooksLikeBinding(items[i])
  {
    if items != [] {
      PrintedPairs(p, items[1..]);
      PrintedBinding(p, items[0]);
      assert forall i :: 0 < i < |items| ==> items[i] == items[1..][i - 1];
    }
  }

  lemma PrintedBinding(p: Platform, v: Kvp)
    ensures var x := Print(p, v); (x.Pair? && x.car.Str?) <==> LooksLikeBinding(v)
  {
    match v
    case Frame(es) => assert Print(p, v) == PrintEntries(p, es);
    case List(items) =>
      assert Print(p, v) == PrintItems(p, items);
      if items != [] {
        assert Print(p, items[0]).Str? <==> items[0].Text? || items[0].Guids?;
      }
    case _ =>
  }

  lemma {:induction false} ItemsReread(p: Platform, items: seq<Kvp>)
    ensures var r := ReadItems(p, PrintItems(p, items));
      |r| == |items| && forall i :: 0 <= i < |items| ==> r[i] == Read(p, Print(p, items[i]))
  {
    if items != [] {
      ItemsReread(p, items[1..]);
    }
  }

  ghost predicate Ascending(es: seq<Entry>) {
    forall i, j {:trigger Less(es[i].key, es[j].key)} :: 0 <= i < j < |es| ==> Less(es[i].key, es[j].key)
  }

  lemma {:induction false} BeforeAll(k: string, es: seq<Entry>)
    ensures Before(k, es) <==> forall j :: 0 <= j < |es| ==> Less(k, es[j].key)
  {
    if es != [] {
      BeforeAll(k, es[1..]);
      assert forall j :: 0 < j < |es| ==> es[j] == es[1..][j - 1];
    }
  }

  lemma {:induction false} SortedAscending(es: seq<Entry>)
    ensures Sorted(es) <==> Ascending(es) && forall i :: 0 <= i < |es| ==> !es[i].value.Null?
  {
    if es != [] {
      SortedAscending(es[1..]);
      BeforeAll(es[0].key, es[1..]);
      assert forall j :: 0 < j < |es| ==> es[j] == es[1..][j - 1];
    }
  }

  /** Setting one key after the other. */
  function PutAll(acc: seq<Entry>, es: seq<Entry>): seq<Entry>
    decreases es
  {
    if es == [] then acc else PutAll(Put(acc, es[0].key, es[0].value), es[1..])
  }

  function WithoutNulls(es: seq<Entry>): seq<Entry> {
    if es == [] then [] else (if es[0].value.Null? then [] else [es[0]]) + WithoutNulls(es[1..])
  }

  /** The entries with the values that come back. */
  function Reread(p: Platform, es: seq<Entry>): (r: seq<Entry>)
    ensures |r| == |es|
    ensures forall i :: 0 <= i < |es| ==> r[i] == Entry(es[i].key, Read(p, Print(p, es[i].value)))
  {
    if es == [] then [] else [Entry(es[0].key, Read(p, Print(p, es[0].value)))] + Reread(p, es[1..])
  }

  lemma {:induction false} ReadPrintedEntries(p: Platform, es: seq<Entry>, acc: seq<Entry>)
    ensures ReadFrame(p, PrintEntries(p, es), acc) == PutAll(acc, Reread(p, es))
    decreases es
  {
    if es != [] {
      var next := Put(acc, es[0].key, Read(p, Print(p, es[0].value)));
      ReadPrintedEntries(p, es[1..], next);
      assert Reread(p, es)[1..] == Reread(p, es[1..]);
    }
  }

  /** Every key of `acc` comes before every key of `es`. */
  ghost predicate Below(acc: seq<Entry>, es: seq<Entry>) {
    forall i, j {:trigger Less(acc[i].key, es[j].key)} :: 0 <= i < |acc| && 0 <= j < |es| ==>
      Less(acc[i].key, es[j].key)
  }

  /** Setting ascending keys appends the values that are not null. */
  lemma {:induction false} PutAllAscending(acc: seq<Entry>, es: seq<Entry>)
    requires Ascending(es) && Below(acc, es)
    ensures PutAll(acc, es) == acc + WithoutNulls(es)
    decreases es
  {
    if es != [] {
      var next := if es[0].value.Null? then acc else acc + [es[0]];
      PutAllStep(acc, es);
      PutAllAscending(next, es[1..]);
      AppendWithoutNulls(acc, es);
    }
  }

  lemma AppendWithoutNulls(acc: seq<Entry>, es: seq<Entry>)
    requires es != []
    ensures acc + WithoutNulls(es)
      == (if es[0].value.Null? then acc else acc + [es[0]]) + WithoutNulls(es[1..])
  {
    if es[0].value.Null? {
      assert WithoutNulls(es) == WithoutNulls(es[1..]);
    } else {
      assert WithoutNulls(es) == [es[0]] + WithoutNulls(es[1..]);
    }
  }

  lemma PutAllStep(acc: seq<Entry>, es: seq<Entry>)
    requires es != [] && Below(acc, es)
    ensures PutAll(acc, es) == PutAll(if es[0].value.Null? then acc else acc + [es[0]], es[1..])
  {
    PutLast(acc, es[0].key, es[0].value);
  }

  lemma {:induction false} WithoutNullsSame(es: seq<Entry>)
    ensures |WithoutNulls(es)| <= |es|
    ensures |WithoutNulls(es)| == |es| ==> WithoutNulls(es) == es
    ensures (forall i :: 0 <= i < |es| ==> !es[i].value.Null?) ==> WithoutNulls(es) == es
  {
    if es != [] {
      WithoutNullsSame(es[1..]);
      assert es == [es[0]] + es[1..];
    }
  }

  lemma {:induction false} ReadFrameSorted(p: Platform, x: Scm, acc: seq<Entry>)
    requires Sorted(acc)
    ensures Sorted(ReadFrame(p, x, acc))
  {
    match x
    case Pair(a, rest) =>
      if a.Pair? && a.car.Str? {
        PutSorted(acc, a.car.text, Read(p, a.cdr));
        ReadFrameSorted(p, rest, Put(acc, a.car.text, Read(p, a.cdr)));
      }
    case _ =>
  }

  lemma {:induction false} PrintedEntries(p: Platform, es: seq<Entry>)
    ensures IsStringPairs(PrintEntries(p, es))
  {
    if es != [] {
      PrintedEntries(p, es[1..]);
    }
  }

  lemma FrameRoundTrip(p: Platform, es: seq<Entry>)
    ensures Read(p, Print(p, Frame(es))) == Frame(es)
      <==> es != [] && Sorted(es) && forall i :: 0 <= i < |es| ==> Read(p, Print(p, es[i].value)) == es[i].value
  {
    PrintedEntries(p, es);
    ReadFrameSorted(p, PrintEntries(p, es), []);
    if es != [] && Sorted(es) {
      SortedReread(p, es);
      RereadSame(p, es);
    }
  }

  lemma SortedReread(p: Platform, es: seq<Entry>)
    requires Sorted(es)
    ensures ReadFrame(p, PrintEntries(p, es), []) == WithoutNulls(Reread(p, es))
    ensures forall i :: 0 <= i < |es| ==> !es[i].value.Null?
  {
    SortedAscending(es);
    ReadPrintedEntries(p, es, []);
    PutAllAscending([], Reread(p, es));
    assert [] + WithoutNulls(Reread(p, es)) == WithoutNulls(Reread(p, es));
  }

  lemma RereadSame(p: Platform, es: seq<Entry>)
    requires forall i :: 0 <= i < |es| ==> !es[i].value.Null?
    ensures WithoutNulls(Reread(p, es)) == es
      <==> forall i :: 0 <= i < |es| ==> Read(p, Print(p, es[i].value)) == es[i].value
  {
    WithoutNullsSame(Reread(p, es));
  }

  lemma ListRoundTrip(p: Platform, items: seq<Kvp>)
    ensures Read(p, Print(p, List(items))) == List(items)
      <==> (items != [] && (exists i :: 0 <= i < |items| && !LooksLikeBinding(items[i]))
            && forall i :: 0 <= i < |items| ==> Read(p, Print(p, items[i])) == items[i])
  {
    PrintedPairs(p, items);
    ItemsReread(p, items);
  }

  /** A value comes back from Scheme unchanged exactly when it is canonical. */
  lemma {:induction false} RoundTrip(p: Platform, v: Kvp)
    requires Lawful(p)
    ensures Read(p, Print(p, v)) == v <==> Canonical(p, v)
    decreases v
  {
    match v
    case Numeric(num, denom) => NumericRoundTrip(p, num, denom);
    case Frame(es) =>
      FrameRoundTrip(p, es);
      forall i | 0 <= i < |es|
        ensures Read(p, Print(p, es[i].value)) == es[i].value <==> Canonical(p, es[i].value)
      {
        RoundTrip(p, es[i].value);
      }
    case List(items) =>
      ListRoundTrip(p, items);
      forall i | 0 <= i < |items|
        ensures Read(p, Print(p, items[i])) == items[i] <==> Canonical(p, items[i])
      {
        RoundTrip(p, items[i]);
      }
    case _ =>
  }

  // ----- numbers -----

  /** An amount with a positive denominator prints as the same number in lowest terms, whose parts fit 64 bits again. */
  lemma AmountPrinted(p: Platform, num: int, denom: int)
    requires denom > 0 && InInt64(num) && InInt64(denom)
    ensures var q := Reduce(num, denom);
      && PrintNumeric(num, denom) == Exact(q)
      && LowestTerms(q) && SameNumber(num, denom, q)
      && ScmToNumeric(Exact(q)) == Amount(q.num, q.den)
      && Read(p, Exact(q)) == if q.den == 1 then Int64(q.num) else Numeric(q.num, q.den)
  {
    ReduceSame(num, denom);
  }

  /** Printing an amount and reading it back overflows exactly for a negative denominator that has nothing in common
      with the numerator, one of the two being the smallest 64-bit integer; such an amount becomes a double. */
  lemma AmountOverflowsIff(p: Platform, num: int, denom: int)
    requires denom != 0 && InInt64(num) && InInt64(denom)
    ensures ScmToNumeric(PrintNumeric(num, denom)) == OverflowError
      <==> denom < 0 && Gcd(Abs(num), -denom) == 1 && (num == MIN_INT64 || denom == MIN_INT64)
    ensures Read(p, PrintNumeric(num, denom)).Double? <==> ScmToNumeric(PrintNumeric(num, denom)) == OverflowError
  {
    if denom > 0 {
      ReduceSame(num, denom);
    } else {
      ReduceSame(-num, -denom);
      ReduceReduced(-num, -denom);
      FullSize(-num, -denom);
    }
  }

  /** Only a fraction in lowest terms keeps a part at its size. */
  lemma FullSize(n: int, d: nat)
    requires d > 0
    ensures n != 0 && Reduce(n, d).num == n ==> Gcd(Abs(n), d) == 1
    ensures Reduce(n, d).den == d ==> Gcd(Abs(n), d) == 1
  {
    var g := Gcd(Abs(n), d);
    ReduceLowest(n, d);
    OneTimes(n / g, g, n);
    OneTimes(d / g, g, d);
  }

  lemma OneTimes(q: int, g: int, n: int)
    requires n == q * g && g >= 1
    ensures n != 0 && q == n ==> g == 1
  {
    if n != 0 && q == n {
      assert n * (g - 1) == 0;
    }
  }

  /** A negative denominator can leave the 64-bit range: the smallest integer over -1 comes back as a double. */
  lemma NegativeDenominatorOverflows(p: Platform)
    ensures Read(p, PrintNumeric(MIN_INT64, -1)) == Double(p.toDouble(Reduce(MAX_INT64 + 1, 1)))
    ensures ScmToNumeric(PrintNumeric(MIN_INT64, -1)) == OverflowError
  {
    WholeLowest(MAX_INT64 + 1);
    ReduceReduced(MAX_INT64 + 1, 1);
  }

  // ----- reading normalises -----

  /** No frame is empty and every double is finite, at any depth. */
  ghost predicate Lossless(v: Kvp)
    decreases v
  {
    match v
    case Double(f) => f.Finite?
    case Frame(es) => es != [] && forall i :: 0 <= i < |es| ==> Lossless(es[i].value)
    case List(items) => forall i :: 0 <= i < |items| ==> Lossless(items[i])
    case _ => true
  }

  ghost predicate Normal(p: Platform, v: Kvp) {
    Canonical(p, v) <==> Lossless(v)
  }

  lemma {:induction false} PutNormal(p: Platform, es: seq<Entry>, k: string, v: Kvp)
    requires Normal(p, v) && forall i :: 0 <= i < |es| ==> Normal(p, es[i].value)
    ensures forall i :: 0 <= i < |Put(es, k, v)| ==> Normal(p, Put(es, k, v)[i].value)
  {
    if es != [] {
      PutNormal(p, es[1..], k, v);
      assert Normal(p, es[0].value);
      assert forall i :: 0 <= i < |es[1..]| ==> es[1..][i] == es[i + 1];
    }
  }

  lemma ReadBinding(p: Platform, a: Scm)
    ensures LooksLikeBinding(Read(p, a)) ==> a.Pair? && a.car.Str?
  {
    if a.Pair? && LooksLikeBinding(Read(p, a)) {
      assert ReadItems(p, a)[0] == Read(p, a.car);
    }
  }

  lemma {:induction false} ReadBindings(p: Platform, x: Scm)
    requires IsList(x) && forall v :: v in ReadItems(p, x) ==> LooksLikeBinding(v)
    ensures IsStringPairs(x)
  {
    match x
    case Pair(a, rest) =>
      ReadBinding(p, a);
      assert Read(p, a) in ReadItems(p, x);
      ReadBindings(p, rest);
    case _ =>
  }

  lemma {:induction false} ReadNormal(p: Platform, x: Scm)
    ensures Normal(p, Read(p, x))
    decreases x, 1
  {
    if x.Pair? {
      if IsStringPairs(x) {
        ReadFrameNormal(p, x, []);
        ReadFrameSorted(p, x, []);
      } else if IsList(x) {
        var items := ReadItems(p, x);
        ReadItemsNormal(p, x);
        assert forall i :: 0 <= i < |items| ==> Normal(p, items[i]);
        if forall i :: 0 <= i < |items| ==> LooksLikeBinding(items[i]) {
          ReadBindings(p, x);
          assert false;
        }
      }
    }
  }

  lemma {:induction false} ReadFrameNormal(p: Platform, x: Scm, acc: seq<Entry>)
    requires forall i :: 0 <= i < |acc| ==> Normal(p, acc[i].value)
    ensures forall i :: 0 <= i < |ReadFrame(p, x, acc)| ==> Normal(p, ReadFrame(p, x, acc)[i].value)
    decreases x, 0
  {
    match x
    case Pair(a, rest) =>
      if a.Pair? && a.car.Str? {
        ReadNormal(p, a.cdr);
        PutNormal(p, acc, a.car.text, Read(p, a.cdr));
        ReadFrameNormal(p, rest, Put(acc, a.car.text, Read(p, a.cdr)));
      }
    case _ =>
  }

  lemma {:induction false} ReadItemsNormal(p: Platform, x: Scm)
    ensures forall v :: v in ReadItems(p, x) ==> Normal(p, v)
    decreases x, 0
  {
    match x
    case Pair(a, rest) =>
      ReadNormal(p, a);
      ReadItemsNormal(p, rest);
    case _ =>
  }

  /** Printing and reading again what was read changes nothing, exactly when the first reading
      gave no empty frame and no non-finite double. */
  lemma ReadingNormalises(p: Platform, x: Scm)
    requires Lawful(p)
    ensures Read(p, Print(p, Read(p, x))) == Read(p, x) <==> Lossless(Read(p, x))
  {
    ReadNormal(p, x);
    RoundTrip(p, Read(p, x));
  }

  // ----- duplicate keys -----

  predicate Binds(x: Scm, k: string) {
    match x
    case Pair(a, rest) => (a.Pair? && a.car == Str(k)) || Binds(rest, k)
    case _ => false
  }

  /** The value of the last association of a key. */
  function LastBinding(p: Platform, x: Scm, k: string): Kvp
    requires Binds(x, k)
  {
    if Binds(x.cdr, k) then LastBinding(p, x.cdr, k) else Read(p, x.car.cdr)
  }

  /** In the frame read from an association list, each key has the value of its last association. */
  lemma {:induction false} LastBindingWins(p: Platform, x: Scm, acc: seq<Entry>, k: string)
    requires IsStringPairs(x) && Sorted(acc)
    ensures Get(ReadFrame(p, x, acc), k) == if Binds(x, k) then LastBinding(p, x, k) else Get(acc, k)
  {
    match x
    case Pair(a, rest) =>
      PutSorted(acc, a.car.text, Read(p, a.cdr));
      GetPut(acc, a.car.text, Read(p, a.cdr), k);
      LastBindingWins(p, rest, Put(acc, a.car.text, Read(p, a.cdr)), k);
    case _ =>
  }

  // ----- which data read without loss -----

  /** The data that read as null. */
  predicate ReadsNull(x: Scm) {
    match x
    case Exact(_) => false
    case Inexact(f) => !f.Finite?
    case Str(_) => false
    case Pair(_, _) => !IsList(x)
    case _ => true
  }

  lemma {:induction false} PairsAreList(x: Scm)
    requires IsStringPairs(x)
    ensures IsList(x)
  {
    if x.Pair? {
      PairsAreList(x.cdr);
    }
  }

  lemma ReadsNullIff(p: Platform, x: Scm)
    ensures Read(p, x) == Null <==> ReadsNull(x)
  {
    if x.Pair? && IsStringPairs(x) {
      PairsAreList(x);
    }
  }

  /** Every exact number outside the 64-bit integers and fractions is near a finite double, every association list has
      a key whose last value does not read as null, and the same holds of the last value of every key and of all
      elements of other lists. */
  predicate ReadsLossless(p: Platform, x: Scm)
    decreases x, 1
  {
    match x
    case Exact(q) => (InInt64(q.num) && InInt64(q.den)) || p.toDouble(q).Finite?
    case Pair(_, _) =>
      if IsStringPairs(x) then SomeBinding(x) && BindingsLossless(p, x)
      else if IsList(x) then ItemsLossless(p, x)
      else true
    case _ => true
  }

  /** Some association that is the last of its key does not read as null. */
  predicate SomeBinding(x: Scm) {
    match x
    case Pair(a, rest) =>
      (a.Pair? && a.car.Str? && !Binds(rest, a.car.text) && !ReadsNull(a.cdr)) || SomeBinding(rest)
    case _ => false
  }

  predicate BindingsLossless(p: Platform, x: Scm)
    decreases x, 0
  {
    match x
    case Pair(a, rest) =>
      && (a.Pair? && a.car.Str? && !Binds(rest, a.car.text) ==> ReadsLossless(p, a.cdr))
      && BindingsLossless(p, rest)
    case _ => true
  }

  predicate ItemsLossless(p: Platform, x: Scm)
    decreases x, 0
  {
    match x
    case Pair(a, rest) => ReadsLossless(p, a) && ItemsLossless(p, rest)
    case _ => true
  }

  /** The condition on the data is the one on what they read as. */
  lemma {:induction false} LosslessIff(p: Platform, x: Scm)
    ensures Lossless(Read(p, x)) <==> ReadsLossless(p, x)
    decreases x, 1
  {
    if x.Pair? {
      if IsStringPairs(x) {
        FrameLossless(p, ReadFrame(p, x, []), x);
        SomeBindingIff(p, x);
        BindingsLosslessIff(p, x);
      } else if IsList(x) {
        ItemsLosslessIff(p, x);
        assert Read(p, x) == List(ReadItems(p, x));
        ListLossless(ReadItems(p, x));
      }
    }
  }

  lemma ListLossless(items: seq<Kvp>)
    ensures Lossless(List(items)) <==> forall i :: 0 <= i < |items| ==> Lossless(items[i])
  {
  }

  lemma {:induction false} ItemsLosslessIff(p: Platform, x: Scm)
    ensures ItemsLossless(p, x) <==> forall i :: 0 <= i < |ReadItems(p, x)| ==> Lossless(ReadItems(p, x)[i])
    decreases x, 0
  {
    match x
    case Pair(a, rest) =>
      LosslessIff(p, a);
      ItemsLosslessIff(p, rest);
      assert ReadItems(p, x) == [Read(p, a)] + ReadItems(p, rest);
      HeadOrTail(Read(p, a), ReadItems(p, rest));
    case _ =>
  }

  lemma HeadOrTail(v: Kvp, vs: seq<Kvp>)
    ensures (forall i :: 0 <= i < |[v] + vs| ==> Lossless(([v] + vs)[i]))
      <==> (Lossless(v) && forall i :: 0 <= i < |vs| ==> Lossless(vs[i]))
  {
    assert forall i :: 0 <= i < |vs| ==> vs[i] == ([v] + vs)[i + 1];
    assert ([v] + vs)[0] == v;
  }

  ghost predicate HasValue(p: Platform, x: Scm, k: string) {
    Binds(x, k) && LastBinding(p, x, k) != Null
  }

  ghost predicate SomeValue(p: Platform, x: Scm) {
    exists k :: HasValue(p, x, k)
  }

  ghost predicate LosslessValue(p: Platform, x: Scm, k: string) {
    Binds(x, k) ==> Lossless(LastBinding(p, x, k))
  }

  ghost predicate LosslessValues(p: Platform, x: Scm) {
    forall k :: LosslessValue(p, x, k)
  }

  /** What holds of the value of every key holds of the frame read from an association list. */
  lemma FrameLossless(p: Platform, es: seq<Entry>, x: Scm)
    requires IsStringPairs(x) && es == ReadFrame(p, x, [])
    ensures es != [] <==> SomeValue(p, x)
    ensures (forall i :: 0 <= i < |es| ==> Lossless(es[i].value))
      <==> LosslessValues(p, x)
  {
    ReadFrameSorted(p, x, []);
    forall k: string ensures Get(es, k) == if Binds(x, k) then LastBinding(p, x, k) else Null {
      LastBindingWins(p, x, [], k);
    }
    forall i | 0 <= i < |es| ensures Get(es, es[i].key) == es[i].value && es[i].value != Null {
      GetAt(es, i);
    }
    forall k: string | Get(es, k) != Null ensures exists i :: 0 <= i < |es| && es[i] == Entry(k, Get(es, k)) {
      var i := GetFrom(es, k);
    }
    if es != [] {
      assert HasValue(p, x, es[0].key);
    }
    if k :| HasValue(p, x, k) {
      var i := GetFrom(es, k);
    }
    if forall i :: 0 <= i < |es| ==> Lossless(es[i].value) {
      forall k ensures LosslessValue(p, x, k) {
        if HasValue(p, x, k) {
          var i := GetFrom(es, k);
        }
      }
    } else {
      var i :| 0 <= i < |es| && !Lossless(es[i].value);
      assert !LosslessValue(p, x, es[i].key);
    }
  }

  lemma {:induction false} GetAt(es: seq<Entry>, i: nat)
    requires Sorted(es) && i < |es|
    ensures Get(es, es[i].key) == es[i].value && es[i].value != Null
  {
    if i > 0 {
      GetAt(es[1..], i - 1);
      BeforeAll(es[0].key, es[1..]);
      LessTotal(es[0].key, es[0].key);
      assert es[i] == es[1..][i - 1];
    }
  }

  lemma {:induction false} GetFrom(es: seq<Entry>, k: string) returns (i: nat)
    requires Get(es, k) != Null
    ensures i < |es| && es[i] == Entry(k, Get(es, k))
  {
    if es[0].key == k {
      i := 0;
    } else {
      var j := GetFrom(es[1..], k);
      i := j + 1;
    }
  }

  lemma {:induction false} SomeBindingIff(p: Platform, x: Scm)
    requires IsStringPairs(x)
    ensures SomeBinding(x) <==> SomeValue(p, x)
  {
    match x
    case Pair(a, rest) =>
      SomeBindingIff(p, rest);
      ReadsNullIff(p, a.cdr);
      if SomeBinding(rest) {
        var k :| HasValue(p, rest, k);
        assert HasValue(p, x, k);
      } else {
        forall k ensures HasValue(p, x, k) <==> k == a.car.text && SomeBinding(x) {
          assert !HasValue(p, rest, k);
        }
        assert HasValue(p, x, a.car.text) <==> SomeBinding(x);
      }
    case _ =>
  }

  lemma {:induction false} BindingsLosslessIff(p: Platform, x: Scm)
    requires IsStringPairs(x)
    ensures BindingsLossless(p, x) <==> LosslessValues(p, x)
    decreases x, 0
  {
    match x
    case Pair(a, rest) =>
      LosslessIff(p, a.cdr);
      BindingsLosslessIff(p, rest);
      assert Binds(x, a.car.text);
      forall k ensures LosslessValue(p, x, k) <==>
          LosslessValue(p, rest, k) && (k == a.car.text && !Binds(rest, k) ==> ReadsLossless(p, a.cdr))
      {
      }
      if BindingsLossless(p, x) {
        assert forall k :: LosslessValue(p, rest, k);
      } else if LosslessValues(p, rest) {
        assert !LosslessValue(p, x, a.car.text);
      } else {
        var k :| !LosslessValue(p, rest, k);
        assert !LosslessValue(p, x, k);
      }
    case _ =>
  }

  /** Printing and reading again what was read changes nothing exactly for the data that read without loss. */
  lemma StableIff(p: Platform, x: Scm)
    requires Lawful(p)
    ensures Read(p, Print(p, Read(p, x))) == Read(p, x) <==> ReadsLossless(p, x)
  {
    ReadingNormalises(p, x);
    LosslessIff(p, x);
  }

  // ----- the conversions as the bridge runs them -----

  method IsListOfStringPairs(x: Scm) returns (ok: bool)
    ensures ok <==> IsStringPairs(x)
  {
    var val := x;
    while val != Nil
      invariant IsStringPairs(val) <==> IsStringPairs(x)
      decreases val
    {
      if !(val.Pair? && val.car.Pair? && val.car.car.Str?) {
        return false;
      }
      val := val.cdr;
    }
    return true;
  }

  method ScmToKvp(p: Platform, x: Scm) returns (v: Kvp)
    ensures v == Read(p, x)
    decreases x, 1
  {
    if x.Exact? {
      return ReadExact(p, x.q);
    }
    if x.Inexact? && x.f.Finite? {
      return Double(x.f);
    }
    if x.Str? {
      return ReadText(p, x.text);
    }
    if x != Nil {
      var associations := IsListOfStringPairs(x);
      if associations {
        v := FrameFromScm(p, x);
        return;
      }
      if IsList(x) {
        v := ListFromScm(p, x);
        return;
      }
    }
    return Null;
  }

  method FrameFromScm(p: Platform, x: Scm) returns (v: Kvp)
    requires IsStringPairs(x)
    ensures v == Frame(ReadFrame(p, x, []))
    decreases x, 0
  {
    var frame: seq<Entry> := [];
    var val := x;
    while val != Nil
      invariant IsStringPairs(val) && (val == x || val < x)
      invariant ReadFrame(p, val, frame) == ReadFrame(p, x, [])
      decreases val
    {
      var value := ScmToKvp(p, val.car.cdr);
      frame := Put(frame, val.car.car.text, value);
      val := val.cdr;
    }
    return Frame(frame);
  }

  method ListFromScm(p: Platform, x: Scm) returns (v: Kvp)
    requires IsList(x)
    ensures v == List(ReadItems(p, x))
    decreases x, 0
  {
    var kvplist: seq<Kvp> := [];
    var val := x;
    while val != Nil
      invariant IsList(val) && (val == x || val < x)
      invariant Reversed(kvplist) + ReadItems(p, val) == ReadItems(p, x)
      decreases val
    {
      var elt := ScmToKvp(p, val.car);
      assert ([elt] + kvplist)[1..] == kvplist;
      assert Reversed(kvplist) + ReadItems(p, val) == (Reversed(kvplist) + [elt]) + ReadItems(p, val.cdr);
      kvplist := [elt] + kvplist;
      val := val.cdr;
    }
    assert Reversed(kvplist) + [] == Reversed(kvplist);
    return List(Reversed(kvplist));
  }

  method KvpToScm(p: Platform, v: Kvp) returns (x: Scm)
    ensures x == Print(p, v)
    decreases v, 1
  {
    match v
    case Int64(n) => x := Whole(n);
    case Double(f) => x := Inexact(f);
    case Numeric(num, denom) => x := PrintNumeric(num, denom);
    case Text(s) => x := Str(s);
    case Guids(g) => x := Str(p.text(g));
    case Frame(entries) =>
      x := Nil;
      for i := 0 to |entries|
        invariant ReverseOnto(x, PrintEntries(p, entries[i..])) == PrintEntries(p, entries)
      {
        var value := KvpToScm(p, entries[i].value);
        x := Pair(Pair(Str(entries[i].key), value), x);
      }
      x := ReverseOnto(x, Nil);
    case List(items) =>
      x := Nil;
      for i := 0 to |items|
        invariant ReverseOnto(x, PrintItems(p, items[i..])) == PrintItems(p, items)
      {
        var elt := KvpToScm(p, items[i]);
        x := Pair(elt, x);
      }
      x := ReverseOnto(x, Nil);
    case _ => x := Bool(false);
  }
}
