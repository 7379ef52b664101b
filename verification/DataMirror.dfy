/** Chart.js dataset controllers keep one element per datum. The data array notifies them of
    the five array methods that add or remove values; this is whether they stay aligned. */
module DataMirror {
  import opened Wrappers

  // ----- Array.prototype.splice -----

  /** Where splice starts: negative positions count from the end, positions are clamped. */
  function From(len: nat, start: int): (s: nat)
    ensures s <= len
  {
    if start >= 0 then (if start <= len then start else len)
    else if len + start >= 0 then len + start else 0
  }

  function Deleted(len: nat, start: int, count: int): (d: nat)
    ensures From(len, start) + d <= len
  {
    var room := len - From(len, start);
    if count <= 0 then 0 else if count <= room then count else room
  }

  function Splice<E>(a: seq<E>, start: int, count: int, items: seq<E>): seq<E> {
    var s := From(|a|, start);
    a[..s] + items + a[s + Deleted(|a|, start, count)..]
  }

  /** Inserting elements one by one at `start`, `start + 1`, ... */
  function InsertAll<E>(m: seq<E>, start: int, es: seq<E>): (r: seq<E>)
    ensures |r| == |m| + |es|
    decreases |es|
  {
    if es == [] then m else InsertAll(Splice(m, start, 0, [es[0]]), start + 1, es[1..])
  }

  /** The arguments of a call of splice: none, only a start, or a start, a count and items. */
  datatype Args<T> = NoArguments | Start(start: int) | Full(start: int, count: int, items: seq<T>) {
    function Items(): seq<T> {
      if Full? then items else []
    }

    /** The position and number of the deleted values in an array of `len` values. */
    function Pos(len: nat): (s: nat)
      ensures s <= len
    {
      if NoArguments? then 0 else From(len, start)
    }

    function Cut(len: nat): (d: nat)
      ensures Pos(len) + d <= len
    {
      match this
      case NoArguments => 0
      case Start(start) => len - From(len, start)
      case Full(start, count, _) => Deleted(len, start, count)
    }

    /** What splice makes of an array. */
    function Apply(a: seq<T>): (r: seq<T>)
      ensures |r| == |a| - Cut(|a|) + |Items()|
    {
      a[..Pos(|a|)] + Items() + a[Pos(|a|) + Cut(|a|)..]
    }
  }

  /** What onDataSplice makes of the elements: splice(start, count), in which a missing count
      deletes nothing, then one new element for each argument after the second. */
  function Mirrored<T, E>(args: Args<T>, m: seq<E>, es: seq<E>): seq<E> {
    match args
    case NoArguments => m
    case Start(start) => m
    case Full(start, count, _) => InsertAll(Splice(m, start, count, []), start, es)
  }

  // ----- when the elements follow the data -----

  /** The elements of surviving values are where these values are; `r` has `n` others between. */
  ghost predicate Follows<E>(m: seq<E>, r: seq<E>, s: nat, cut: nat, n: nat)
    requires s + cut <= |m|
  {
    && |r| == |m| - cut + n
    && r[..s] == m[..s]
    && r[s + n..] == m[s + cut..]
  }

  /** `n` insertions into `len` elements from `start` on all land in the block that begins at `s`
      and already holds `k` of them. */
  predicate Land(len: nat, start: int, s: nat, k: nat, n: nat)
    decreases n
  {
    n == 0 || (s <= From(len, start) <= s + k && Land(len + 1, start + 1, s, k + 1, n - 1))
  }

  /** The count may only be missing if nothing is behind the start, and a negative start must not
      lead an insertion away from the deleted range. */
  predicate Safe<T>(args: Args<T>, len: nat) {
    match args
    case NoArguments => true
    case Start(start) => From(len, start) == len
    case Full(start, count, items) => Land(len - Deleted(len, start, count), start, From(len, start), 0, |items|)
  }

  ghost predicate Distinct<E>(a: seq<E>) {
    forall i, j :: 0 <= i < j < |a| ==> a[i] != a[j]
  }

  /** Insertions inside the block leave everything around it in place. */
  lemma {:induction false} BlockStays<E>(m: seq<E>, start: int, s: nat, k: nat, es: seq<E>)
    requires s + k <= |m| && Land(|m|, start, s, k, |es|)
    ensures InsertAll(m, start, es)[..s] == m[..s]
    ensures InsertAll(m, start, es)[s + k + |es|..] == m[s + k..]
    decreases |es|
  {
    if es != [] {
      var m' := Splice(m, start, 0, [es[0]]);
      BlockStays(m', start + 1, s, k + 1, es[1..]);
      assert m'[..s] == m[..s] && m'[s + (k + 1)..] == m[s + k..];
    }
  }

  /** An element moves right by at most the number of insertions, and never left. */
  lemma {:induction false} Drift<E>(m: seq<E>, start: int, es: seq<E>, k: nat) returns (k': nat)
    requires k < |m|
    ensures k <= k' <= k + |es| && InsertAll(m, start, es)[k'] == m[k]
    decreases |es|
  {
    if es == [] {
      k' := k;
    } else {
      var p := From(|m|, start);
      k' := Drift(Splice(m, start, 0, [es[0]]), start + 1, es[1..], if k < p then k else k + 1);
    }
  }

  lemma {:induction false} InsertAllDistinct<E>(m: seq<E>, start: int, es: seq<E>)
    requires Distinct(m + es)
    ensures Distinct(InsertAll(m, start, es))
    decreases |es|
  {
    if es == [] {
      assert m + es == m;
    } else {
      var p := From(|m|, start);
      var m' := Splice(m, start, 0, [es[0]]);
      DistinctMove(m, es, p);
      InsertAllDistinct(m', start + 1, es[1..]);
    }
  }

  /** `r` is `m` with `n` more elements in the block of `k` at `s`. */
  ghost predicate Around<E>(m: seq<E>, r: seq<E>, s: nat, k: nat, n: nat) {
    s + k <= |m| && |r| == |m| + n && r[..s] == m[..s] && r[s + k + n..] == m[s + k..]
  }

  lemma AroundMore<E>(m: seq<E>, m': seq<E>, r: seq<E>, s: nat, k: nat, n: nat)
    requires s + k <= |m| && |m'| == |m| + 1 && n > 0
    requires m'[..s] == m[..s] && m'[s + (k + 1)..] == m[s + k..]
    ensures Around(m, r, s, k, n) <==> Around(m', r, s, k + 1, n - 1)
  {
    assert s + (k + 1) + (n - 1) == s + k + n;
  }

  /** An insertion outside the block displaces a surviving element for good. */
  lemma {:induction false} BlockBroken<E>(m: seq<E>, start: int, s: nat, k: nat, es: seq<E>)
    requires s + k <= |m| && Distinct(m + es) && !Land(|m|, start, s, k, |es|)
    ensures !Around(m, InsertAll(m, start, es), s, k, |es|)
    decreases |es|
  {
    var p := From(|m|, start);
    if p < s {
      FirstBefore(m, start, s, es);
    } else if p > s + k {
      FirstBehind(m, start, s + k, es);
    } else {
      var m' := InsertedInside(m, start, s, k, es);
      BlockBroken(m', start + 1, s, k + 1, es[1..]);
      AroundMore(m, m', InsertAll(m, start, es), s, k, |es|);
    }
  }

  lemma InsertedInside<E>(m: seq<E>, start: int, s: nat, k: nat, es: seq<E>) returns (m': seq<E>)
    requires s <= From(|m|, start) <= s + k <= |m| && es != [] && Distinct(m + es)
    ensures m' == Splice(m, start, 0, [es[0]]) && |m'| == |m| + 1 && Distinct(m' + es[1..])
    ensures m'[..s] == m[..s] && m'[s + (k + 1)..] == m[s + k..]
  {
    var p := From(|m|, start);
    m' := m[..p] + [es[0]] + m[p..];
    assert m' == Splice(m, start, 0, [es[0]]);
    DistinctMove(m, es, p);
  }

  lemma FirstBefore<E>(m: seq<E>, start: int, s: nat, es: seq<E>)
    requires s <= |m| && Distinct(m + es) && es != [] && From(|m|, start) < s
    ensures InsertAll(m, start, es)[..s] != m[..s]
  {
    var p := From(|m|, start);
    InsertAllDistinct(m, start, es);
    var q := Drift(Splice(m, start, 0, [es[0]]), start + 1, es[1..], p + 1);
    DisplacedLeft(m, InsertAll(m, start, es), s, p, q);
  }

  lemma FirstBehind<E>(m: seq<E>, start: int, s: nat, es: seq<E>)
    requires s < |m| && Distinct(m + es) && es != [] && From(|m|, start) > s
    ensures InsertAll(m, start, es)[s + |es|..] != m[s..]
  {
    InsertAllDistinct(m, start, es);
    var q := Drift(Splice(m, start, 0, [es[0]]), start + 1, es[1..], s);
    DisplacedRight(m, InsertAll(m, start, es), s, s + |es|, q);
  }

  lemma DisplacedLeft<E>(m: seq<E>, r: seq<E>, s: nat, p: nat, q: nat)
    requires Distinct(r) && p < s <= |m| && s <= |r| && q < |r| && q != p && r[q] == m[p]
    ensures r[..s] != m[..s]
  {
    assert r[p] != r[q];
    assert r[..s][p] == r[p] && m[..s][p] == m[p];
  }

  lemma DisplacedRight<E>(m: seq<E>, r: seq<E>, a: nat, b: nat, q: nat)
    requires Distinct(r) && a < |m| && q < b < |r| && r[q] == m[a]
    ensures r[b..] != m[a..]
  {
    assert r[b] != r[q];
    assert r[b..][0] == r[b] && m[a..][0] == m[a];
  }

  lemma DistinctMove<E>(m: seq<E>, es: seq<E>, p: nat)
    requires es != [] && p <= |m| && Distinct(m + es)
    ensures Distinct(m[..p] + [es[0]] + m[p..] + es[1..])
  {
    var a, b := m + es, m[..p] + [es[0]] + m[p..] + es[1..];
    forall i, j | 0 <= i < j < |b| ensures b[i] != b[j] {
      var i' := if i < p then i else if i == p then |m| else if i <= |m| then i - 1 else i;
      var j' := if j < p then j else if j == p then |m| else if j <= |m| then j - 1 else j;
      assert b[i] == a[i'] && b[j] == a[j'] && i' != j';
    }
  }

  /** The elements follow a splice of the data exactly when its arguments are safe. */
  lemma SpliceFollowsIff<T, E>(args: Args<T>, m: seq<E>, es: seq<E>)
    requires |es| == |args.Items()| && Distinct(m) && Distinct(es) && forall e :: e in es ==> e !in m
    ensures Follows(m, Mirrored(args, m, es), args.Pos(|m|), args.Cut(|m|), |es|) <==> Safe(args, |m|)
  {
    if args.Full? {
      DistinctBoth(m, es);
      FullFollowsIff(m, args.start, args.Pos(|m|), args.Cut(|m|), Splice(m, args.start, args.count, []), es);
    }
  }

  lemma FullFollowsIff<E>(m: seq<E>, start: int, s: nat, d: nat, m1: seq<E>, es: seq<E>)
    requires s + d <= |m| && m1 == m[..s] + [] + m[s + d..] && Distinct(m + es)
    ensures Follows(m, InsertAll(m1, start, es), s, d, |es|) <==> Land(|m1|, start, s, 0, |es|)
  {
    assert m1[..s] == m[..s] && m1[s..] == m[s + d..];
    if Land(|m1|, start, s, 0, |es|) {
      BlockStays(m1, start, s, 0, es);
    } else {
      DistinctCut(m, es, s, d);
      BlockBroken(m1, start, s, 0, es);
      assert s + 0 + |es| == s + |es|;
    }
  }

  lemma DistinctBoth<E>(m: seq<E>, es: seq<E>)
    requires Distinct(m) && Distinct(es) && forall e :: e in es ==> e !in m
    ensures Distinct(m + es)
  {
    var a := m + es;
    forall i, j | 0 <= i < j < |a| ensures a[i] != a[j] {
      assert j >= |m| ==> a[j] == es[j - |m|] && a[j] in es;
    }
  }

  lemma DistinctCut<E>(m: seq<E>, es: seq<E>, s: nat, d: nat)
    requires s + d <= |m| && Distinct(m + es)
    ensures Distinct(m[..s] + [] + m[s + d..] + es)
  {
    var a, b := m + es, m[..s] + [] + m[s + d..] + es;
    forall i, j | 0 <= i < j < |b| ensures b[i] != b[j] {
      var i', j' := if i < s then i else i + d, if j < s then j else j + d;
      assert b[i] == a[i'] && b[j] == a[j'];
    }
  }

  /** Splices with a count and a non-negative start are safe. */
  lemma NonNegativeStartSafe<T>(args: Args<T>, len: nat)
    requires args.Full? && args.start >= 0
    ensures Safe(args, len)
  {
    LandsForward(len - args.Cut(len), args.start, From(len, args.start), 0, |args.items|);
  }

  lemma {:induction false} LandsForward(len: nat, start: int, s: nat, k: nat, n: nat)
    requires start >= 0 && From(len, start) == s + k
    ensures Land(len, start, s, k, n)
    decreases n
  {
    if n > 0 {
      LandsForward(len + 1, start + 1, s, k + 1, n - 1);
    }
  }

  /** The same in the arguments and the length alone: without a count nothing may be behind the start; with one,
      the start is not negative, or nothing is inserted, or a negative start inside the values deletes nothing and
      inserts one value, or a start before all values leaves few enough of them. */
  predicate SafeCall<T>(args: Args<T>, len: nat) {
    match args
    case NoArguments => true
    case Start(start) => start >= len || len == 0
    case Full(start, count, items) =>
      || start >= 0
      || items == []
      || (len + start > 0 && count <= 0 && |items| == 1)
      || (len + start <= 0 && len - Deleted(len, start, count) + Min(|items| + start, 0) <= 1)
  }

  function Min(a: int, b: int): int {
    if a < b then a else b
  }

  /** The elements follow a splice exactly when the arguments pass this check. */
  lemma SafeIff<T>(args: Args<T>, len: nat)
    ensures Safe(args, len) <==> SafeCall(args, len)
  {
    if args.Full? && args.start < 0 {
      var rest := len - Deleted(len, args.start, args.count);
      if len + args.start <= 0 {
        LandsBefore(rest, args.start, 0, |args.items|);
      } else if args.count <= 0 && |args.items| > 1 {
        assert !Land(rest + 1, args.start + 1, From(len, args.start), 1, |args.items| - 1);
      }
    } else if args.Full? {
      NonNegativeStartSafe(args, len);
    }
  }

  /** Insertions from a negative start into a block at the very beginning that already holds `k` elements. */
  lemma {:induction false} LandsBefore(len: nat, start: int, k: nat, n: nat)
    requires start < 0 && k <= len
    ensures Land(len, start, 0, k, n) <==> n == 0 || len + Min(n + start, 0) <= k + 1
    decreases n
  {
    if n > 0 {
      if start + 1 < 0 {
        LandsBefore(len + 1, start + 1, k + 1, n - 1);
      } else {
        LandsForwardInside(len + 1, 0, k + 1, n - 1);
      }
    }
  }

  lemma {:induction false} LandsForwardInside(len: nat, start: nat, k: nat, n: nat)
    requires start <= k <= len
    ensures Land(len, start, 0, k, n)
    decreases n
  {
    if n > 0 {
      LandsForwardInside(len + 1, start + 1, k + 1, n - 1);
    }
  }

  /** Replacing the last of several values by splice(-1, 1, x) is not: the new element ends up one place too early. */
  lemma ReplaceLastUnsafe<T>(x: T, len: nat)
    requires 2 <= len
    ensures !Safe(Full(-1, 1, [x]), len)
  {
  }

  // ----- controllers and the observed array -----

  /** A data element, as `createMetaData` makes them. */
  class Element {
  }

  class Controller {
    /** The controller's `getMeta().data`. */
    var meta: seq<Element>

    /** Makes `count` new elements at `start`, `start + 1`, ... */
    method InsertElements(start: int, count: int) returns (ghost es: seq<Element>)
      modifies this
      ensures meta == InsertAll(old(meta), start, es)
      ensures |es| == (if count > 0 then count else 0) && Distinct(es) && forall e :: e in es ==> fresh(e)
    {
      es := [];
      var i := 0;
      while i < count
        invariant i == |es| && (i <= count || i == 0)
        invariant meta == InsertAll(old(meta), start, es)
        invariant Distinct(es) && forall e :: e in es ==> fresh(e)
      {
        var element := new Element;
        ghost var before := meta;
        meta := Splice(meta, start + i, 0, [element]);
        InsertOneMore(old(meta), start, es, element);
        es := es + [element];
        i := i + 1;
      }
    }

    method OnDataPush(count: nat, length: nat)
      requires count <= length && |meta| == length - count && Distinct(meta)
      modifies this
      ensures Kept(old(meta), meta, length - count, 0, count)
      ensures forall j :: length - count <= j < |meta| ==> fresh(meta[j])
    {
      ghost var m := meta;
      ghost var es := InsertElements(length - count, count);
      InsertAllForward(m, |m|, es);
      KeptByBlock(m, meta, |m|, 0, es);
      forall j | |m| <= j < |meta| ensures fresh(meta[j]) {
        assert meta[j] == es[j - |m|] && es[j - |m|] in es;
      }
    }

    method OnDataPop()
      requires Distinct(meta)
      modifies this
      ensures old(meta) == [] ==> meta == []
      ensures old(meta) != [] ==> Kept(old(meta), meta, |old(meta)| - 1, 1, 0)
    {
      if |meta| > 0 {
        meta := meta[..|meta| - 1];
        KeptByBlock(old(meta), meta, |meta|, 1, []);
      }
    }

    method OnDataShift()
      requires Distinct(meta)
      modifies this
      ensures old(meta) == [] ==> meta == []
      ensures old(meta) != [] ==> Kept(old(meta), meta, 0, 1, 0)
    {
      if |meta| > 0 {
        meta := meta[1..];
        KeptByBlock(old(meta), meta, 0, 1, []);
      }
    }

    /** The elements follow the splice exactly when its arguments are safe. */
    method OnDataSplice<T>(args: Args<T>)
      requires Distinct(meta)
      modifies this
      ensures Safe(args, |old(meta)|) ==>
        && Kept(old(meta), meta, args.Pos(|old(meta)|), args.Cut(|old(meta)|), |args.Items()|)
        && forall j :: args.Pos(|old(meta)|) <= j < args.Pos(|old(meta)|) + |args.Items()| ==> fresh(meta[j])
      ensures !Safe(args, |old(meta)|) ==>
        !Follows(old(meta), meta, args.Pos(|old(meta)|), args.Cut(|old(meta)|), |args.Items()|)
    {
      ghost var m := meta;
      ghost var es := SpliceElements(args);
      SpliceFollowsIff(args, m, es);
      if Safe(args, |m|) {
        SafeKept(args, m, es);
      }
    }

    method SpliceElements<T>(args: Args<T>) returns (ghost es: seq<Element>)
      modifies this
      ensures meta == Mirrored(args, old(meta), es)
      ensures |es| == |args.Items()| && Distinct(es) && forall e :: e in es ==> fresh(e)
    {
      match args {
        case NoArguments =>
          // splice(undefined, undefined), and no argument to insert an element for
          es := InsertElements(0, -2);
        case Start(start) =>
          // splice(start, undefined) deletes nothing
          es := InsertElements(start, -1);
        case Full(start, count, items) =>
          meta := Splice(meta, start, count, []);
          es := InsertElements(start, |items|);
      }
    }

    method OnDataUnshift(count: nat)
      requires Distinct(meta)
      modifies this
      ensures Kept(old(meta), meta, 0, 0, count)
      ensures forall j :: 0 <= j < count ==> fresh(meta[j])
    {
      ghost var es := InsertElements(0, count);
      InsertAllForward(old(meta), 0, es);
      KeptByBlock(old(meta), meta, 0, 0, es);
      assert forall j :: 0 <= j < count ==> meta[j] == es[j] && meta[j] in es;
    }

    /** Cuts off or adds elements at the end, from whatever state. */
    method ResyncElements(numData: nat)
      modifies this
      ensures |meta| == numData
      ensures numData <= |old(meta)| ==> meta == old(meta)[..numData]
      ensures numData > |old(meta)| ==> meta[..|old(meta)|] == old(meta) && Distinct(meta[|old(meta)|..])
      ensures forall j :: |old(meta)| <= j < numData ==> fresh(meta[j])
    {
      var numMeta := |meta|;
      if numData < numMeta {
        meta := Splice(meta, numData, numMeta - numData, []);
      } else if numData > numMeta {
        ghost var es := InsertElements(numMeta, numData - numMeta);
        InsertAllForward(old(meta), numMeta, es);
        assert meta == old(meta) + es;
        assert forall j :: |old(meta)| <= j < numData ==> meta[j] == es[j - |old(meta)|] && meta[j] in es;
      }
    }
  }

  /** The elements followed a change of the data that put `n` values in place of the `cut` ones at
      `s`: survivors keep their element, and all values have different elements. */
  ghost predicate Kept<E>(m: seq<E>, r: seq<E>, s: nat, cut: nat, n: nat) {
    s + cut <= |m| && Follows(m, r, s, cut, n) && Distinct(r)
  }

  lemma KeptByBlock<E>(m: seq<E>, r: seq<E>, s: nat, cut: nat, es: seq<E>)
    requires s + cut <= |m| && r == m[..s] + es + m[s + cut..]
    requires Distinct(m) && Distinct(es) && forall e :: e in es ==> e !in m
    ensures Kept(m, r, s, cut, |es|) && r[s..s + |es|] == es
  {
    var a := m + es;
    DistinctBoth(m, es);
    forall i, j | 0 <= i < j < |r| ensures r[i] != r[j] {
      var i' := if i < s then i else if i < s + |es| then |m| + i - s else i - |es| + cut;
      var j' := if j < s then j else if j < s + |es| then |m| + j - s else j - |es| + cut;
      assert r[i] == a[i'] && r[j] == a[j'] && i' != j';
    }
  }

  /** Among distinct elements, those between the two parts of `m` are not in `m`. */
  lemma NewBetween<E>(m: seq<E>, r: seq<E>, s: nat, n: nat, k: nat)
    requires s <= |m| && |r| == |m| + n && r[..s] == m[..s] && r[s + n..] == m[s..]
    requires Distinct(r) && s <= k < s + n
    ensures r[k] !in m
  {
    forall j | 0 <= j < |m| ensures m[j] != r[k] {
      if j < s {
        assert m[j] == m[..s][j] == r[..s][j];
      } else {
        assert m[j] == m[s..][j - s] == r[s + n..][j - s];
      }
    }
  }

  /** `r` is `m` with some of the elements `es`, each at most once, in place of the `cut` ones at `s`. */
  ghost predicate NewInside<E>(m: seq<E>, r: seq<E>, s: nat, cut: nat, es: seq<E>) {
    && s + cut <= |m| && s + |es| <= |r|
    && Distinct(r[s..s + |es|])
    && (forall e :: e in r[s..s + |es|] ==> e in es)
    && r == m[..s] + r[s..s + |es|] + m[s + cut..]
  }

  /** What a safe splice puts between the survivors are the new elements, in some order. */
  lemma SafeBlock<T, E>(args: Args<T>, m: seq<E>, es: seq<E>)
    requires |es| == |args.Items()| && Distinct(m) && Distinct(es) && Safe(args, |m|)
    requires forall e :: e in es ==> e !in m
    ensures NewInside(m, Mirrored(args, m, es), args.Pos(|m|), args.Cut(|m|), es)
  {
    SpliceFollowsIff(args, m, es);
    if args.Full? {
      DistinctBoth(m, es);
      FullNewElements(m, args.start, args.Pos(|m|), args.Cut(|m|), Splice(m, args.start, args.count, []), es);
    }
    BlockBetween(m, Mirrored(args, m, es), args.Pos(|m|), args.Cut(|m|), es);
  }

  /** After a safe splice survivors have kept their element, and every new value has a new one. */
  lemma SafeKept<T, E>(args: Args<T>, m: seq<E>, es: seq<E>)
    requires |es| == |args.Items()| && Distinct(m) && Distinct(es) && Safe(args, |m|)
    requires forall e :: e in es ==> e !in m
    ensures var r, s := Mirrored(args, m, es), args.Pos(|m|);
      Kept(m, r, s, args.Cut(|m|), |es|) && forall j :: s <= j < s + |es| ==> r[j] in es
  {
    SafeBlock(args, m, es);
    BlockKept(m, Mirrored(args, m, es), args.Pos(|m|), args.Cut(|m|), es);
  }

  lemma BlockKept<E>(m: seq<E>, r: seq<E>, s: nat, cut: nat, es: seq<E>)
    requires NewInside(m, r, s, cut, es) && Distinct(m) && forall e :: e in es ==> e !in m
    ensures Kept(m, r, s, cut, |es|) && forall j :: s <= j < s + |es| ==> r[j] in es
  {
    var block := r[s..s + |es|];
    KeptByBlock(m, r, s, cut, block);
    forall j | s <= j < s + |es| ensures r[j] in es {
      assert r[j] == block[j - s];
    }
  }

  lemma BlockBetween<E>(m: seq<E>, r: seq<E>, s: nat, d: nat, es: seq<E>)
    requires s + d <= |m| && Follows(m, r, s, d, |es|)
    requires es != [] ==> Distinct(r) && forall k :: s <= k < s + |es| ==> r[k] in es
    ensures NewInside(m, r, s, d, es)
  {
    var block := r[s..s + |es|];
    assert forall k :: 0 <= k < |es| ==> block[k] == r[s + k];
    assert r == r[..s] + block + r[s + |es|..];
  }

  lemma FullNewElements<E>(m: seq<E>, start: int, s: nat, d: nat, m1: seq<E>, es: seq<E>)
    requires s + d <= |m| && m1 == m[..s] + [] + m[s + d..] && Distinct(m + es)
    requires Follows(m, InsertAll(m1, start, es), s, d, |es|)
    ensures var r := InsertAll(m1, start, es); Distinct(r) && forall k :: s <= k < s + |es| ==> r[k] in es
  {
    DistinctCut(m, es, s, d);
    assert m1[..s] == m[..s] && m1[s..] == m[s + d..];
    NewElements(m1, start, es, s);
  }

  lemma NewElements<E>(m: seq<E>, start: int, es: seq<E>, s: nat)
    requires Distinct(m + es) && Around(m, InsertAll(m, start, es), s, 0, |es|)
    ensures var r := InsertAll(m, start, es); Distinct(r) && forall k :: s <= k < s + |es| ==> r[k] in es
  {
    var r := InsertAll(m, start, es);
    InsertAllDistinct(m, start, es);
    forall k | s <= k < s + |es| ensures r[k] in es {
      NewBetween(m, r, s, |es|, k);
      InsertAllFrom(m, start, es, k);
    }
  }

  lemma {:induction false} InsertAllFrom<E>(m: seq<E>, start: int, es: seq<E>, k: nat)
    requires k < |m| + |es|
    ensures InsertAll(m, start, es)[k] in m || InsertAll(m, start, es)[k] in es
    decreases |es|
  {
    if es != [] {
      InsertAllFrom(Splice(m, start, 0, [es[0]]), start + 1, es[1..], k);
    }
  }

  lemma {:induction false} InsertOneMore<E>(m: seq<E>, start: int, es: seq<E>, e: E)
    ensures InsertAll(m, start, es + [e]) == Splice(InsertAll(m, start, es), start + |es|, 0, [e])
    decreases |es|
  {
    if es == [] {
      assert InsertAll(m, start, [e]) == InsertAll(Splice(m, start, 0, [e]), start + 1, [e][1..]);
    } else {
      assert (es + [e])[1..] == es[1..] + [e];
      InsertOneMore(Splice(m, start, 0, [es[0]]), start + 1, es[1..], e);
    }
  }

  /** From a non-negative start the new elements come in one piece. */
  lemma {:induction false} InsertAllForward<E>(m: seq<E>, start: nat, es: seq<E>)
    requires start <= |m|
    ensures InsertAll(m, start, es) == m[..start] + es + m[start..]
    decreases |es|
  {
    if es != [] {
      var a, b := m[..start] + [es[0]], m[start..];
      var m' := a + b;
      assert m' == Splice(m, start, 0, [es[0]]);
      InsertAllForward(m', start + 1, es[1..]);
      assert m'[..start + 1] == a && m'[start + 1..] == b;
      assert es == [es[0]] + es[1..];
      assert a + es[1..] == m[..start] + es;
    } else {
      assert m[..start] + es + m[start..] == m;
    }
  }

  /** A data array that is observed by the controllers in `listeners`. */
  class DataArray<T> {
    var data: seq<T>
    var listeners: seq<Controller>

    /** Every controller has one element for each value. */
    ghost predicate Aligned()
      reads this, listeners
    {
      && (forall i, j :: 0 <= i < j < |listeners| ==> listeners[i] != listeners[j])
      && (forall i :: 0 <= i < |listeners| ==> |listeners[i].meta| == |data| && Distinct(listeners[i].meta))
    }

    /** The result of each method is that of the array's own method. */
    method Push(items: seq<T>) returns (length: nat)
      requires Aligned()
      modifies this`data, listeners
      ensures Aligned() && data == old(data) + items && length == |data|
      ensures forall i :: 0 <= i < |listeners| ==>
        Kept(old(listeners[i].meta), listeners[i].meta, |old(data)|, 0, |items|)
      ensures forall i, j :: 0 <= i < |listeners| && |old(data)| <= j < |data| ==> fresh(listeners[i].meta[j])
    {
      data := data + items;
      for k := 0 to |listeners|
        invariant data == old(data) + items
        invariant forall i :: 0 <= i < k ==> Kept(old(listeners[i].meta), listeners[i].meta, |old(data)|, 0, |items|)
        invariant forall i, j :: 0 <= i < k && |old(data)| <= j < |data| ==> fresh(listeners[i].meta[j])
        invariant forall i :: k <= i < |listeners| ==> listeners[i].meta == old(listeners[i].meta)
      {
        listeners[k].OnDataPush(|items|, |data|);
      }
      length := |data|;
    }

    method Pop() returns (res: Option<T>)
      requires Aligned()
      modifies this`data, listeners
      ensures Aligned()
      ensures old(data) == [] ==> data == [] && res == None
      ensures old(data) != [] ==> res.Some? && old(data) == data + [res.value]
      ensures old(data) != [] ==> forall i :: 0 <= i < |listeners| ==>
        Kept(old(listeners[i].meta), listeners[i].meta, |old(data)| - 1, 1, 0)
    {
      res := None;
      if |data| > 0 {
        res := Some(data[|data| - 1]);
        data := data[..|data| - 1];
      }
      for k := 0 to |listeners|
        invariant data == if old(data) == [] then [] else old(data)[..|old(data)| - 1]
        invariant forall i :: 0 <= i < k ==>
          if old(data) == [] then listeners[i].meta == []
          else Kept(old(listeners[i].meta), listeners[i].meta, |old(data)| - 1, 1, 0)
        invariant forall i :: k <= i < |listeners| ==> listeners[i].meta == old(listeners[i].meta)
      {
        listeners[k].OnDataPop();
      }
    }

    method Shift() returns (res: Option<T>)
      requires Aligned()
      modifies this`data, listeners
      ensures Aligned()
      ensures old(data) == [] ==> data == [] && res == None
      ensures old(data) != [] ==> res.Some? && old(data) == [res.value] + data
      ensures old(data) != [] ==> forall i :: 0 <= i < |listeners| ==>
        Kept(old(listeners[i].meta), listeners[i].meta, 0, 1, 0)
    {
      res := None;
      if |data| > 0 {
        res := Some(data[0]);
        data := data[1..];
      }
      for k := 0 to |listeners|
        invariant data == if old(data) == [] then [] else old(data)[1..]
        invariant forall i :: 0 <= i < k ==>
          if old(data) == [] then listeners[i].meta == [] else Kept(old(listeners[i].meta), listeners[i].meta, 0, 1, 0)
        invariant forall i :: k <= i < |listeners| ==> listeners[i].meta == old(listeners[i].meta)
      {
        listeners[k].OnDataShift();
      }
    }

    method Unshift(items: seq<T>) returns (length: nat)
      requires Aligned()
      modifies this`data, listeners
      ensures Aligned() && data == items + old(data) && length == |data|
      ensures forall i :: 0 <= i < |listeners| ==> Kept(old(listeners[i].meta), listeners[i].meta, 0, 0, |items|)
      ensures forall i, j :: 0 <= i < |listeners| && 0 <= j < |items| ==> fresh(listeners[i].meta[j])
    {
      data := items + data;
      for k := 0 to |listeners|
        invariant data == items + old(data)
        invariant forall i :: 0 <= i < k ==> Kept(old(listeners[i].meta), listeners[i].meta, 0, 0, |items|)
        invariant forall i, j :: 0 <= i < k && 0 <= j < |items| ==> fresh(listeners[i].meta[j])
        invariant forall i :: k <= i < |listeners| ==> listeners[i].meta == old(listeners[i].meta)
      {
        listeners[k].OnDataUnshift(|items|);
      }
      length := |data|;
    }

    /** Tells every controller, after the values were spliced from `was` ones. */
    method NotifySplice(args: Args<T>, ghost was: nat)
      requires forall i, j :: 0 <= i < j < |listeners| ==> listeners[i] != listeners[j]
      requires forall i :: 0 <= i < |listeners| ==> |listeners[i].meta| == was && Distinct(listeners[i].meta)
      modifies listeners
      ensures Safe(args, was) ==> forall i :: 0 <= i < |listeners| ==>
        Kept(old(listeners[i].meta), listeners[i].meta, args.Pos(was), args.Cut(was), |args.Items()|)
      ensures Safe(args, was) ==> forall i, j ::
        0 <= i < |listeners| && 0 <= j < |listeners[i].meta| && 0 <= j - args.Pos(was) < |args.Items()| ==>
          fresh(listeners[i].meta[j])
      ensures !Safe(args, was) ==> forall i :: 0 <= i < |listeners| ==>
        !Follows(old(listeners[i].meta), listeners[i].meta, args.Pos(was), args.Cut(was), |args.Items()|)
    {
      ghost var s, cut, n, safe := args.Pos(was), args.Cut(was), |args.Items()|, Safe(args, was);
      for k := 0 to |listeners|
        invariant forall i :: 0 <= i < k ==>
          if safe then Kept(old(listeners[i].meta), listeners[i].meta, s, cut, n)
          else !Follows(old(listeners[i].meta), listeners[i].meta, s, cut, n)
        invariant safe ==> forall i, j :: 0 <= i < k && 0 <= j - s < n ==> fresh(listeners[i].meta[j])
        invariant forall i :: k <= i < |listeners| ==> listeners[i].meta == old(listeners[i].meta)
      {
        listeners[k].OnDataSplice(args);
      }
    }

    /** The controllers follow exactly when the arguments are safe. */
    method SpliceData(args: Args<T>) returns (deleted: seq<T>)
      requires Aligned()
      modifies this`data, listeners
      ensures data == args.Apply(old(data))
      ensures deleted == old(data)[args.Pos(|old(data)|)..args.Pos(|old(data)|) + args.Cut(|old(data)|)]
      ensures Safe(args, |old(data)|) ==> Aligned()
      ensures Safe(args, |old(data)|) ==> forall i :: 0 <= i < |listeners| ==>
        Kept(old(listeners[i].meta), listeners[i].meta, args.Pos(|old(data)|), args.Cut(|old(data)|), |args.Items()|)
      ensures Safe(args, |old(data)|) ==>
        forall i, j :: 0 <= i < |listeners| && 0 <= j - args.Pos(|old(data)|) < |args.Items()| ==>
          fresh(listeners[i].meta[j])
      ensures !Safe(args, |old(data)|) ==> forall i :: 0 <= i < |listeners| ==>
        !Follows(old(listeners[i].meta), listeners[i].meta, args.Pos(|old(data)|), args.Cut(|old(data)|),
                 |args.Items()|)
    {
      ghost var was := |data|;
      deleted := data[args.Pos(|data|)..args.Pos(|data|) + args.Cut(|data|)];
      data := args.Apply(data);
      NotifySplice(args, was);
    }

    /** Realigns all controllers, whatever they missed. */
    method ResyncAll()
      requires forall i, j :: 0 <= i < j < |listeners| ==> listeners[i] != listeners[j]
      modifies listeners
      ensures forall i :: 0 <= i < |listeners| ==> |listeners[i].meta| == |data|
    {
      for k := 0 to |listeners|
        invariant forall i :: 0 <= i < k ==> |listeners[i].meta| == |data|
      {
        listeners[k].ResyncElements(|data|);
      }
    }
  }
}
