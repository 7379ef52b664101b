/** The filler plugin of Chart.js: which dataset or boundary a line is filled to, when
    hidden datasets pass a fill on to their own target. */
module FillTargets {
  import opened Rounding
  import opened Wrappers

  datatype Fill = Off | Boundary(name: string) | Dataset(index: int)

  /** `model.fill` as the user wrote it; `value` is what parseFloat makes of a text. */
  datatype RawFill =
    | Undefined(hasBackground: bool)
    | Null
    | Bool(on: bool)
    | Number(x: real)
    | Text(text: string, value: Option<real>)

  /** The dataset number that a fill names, counted from the line's own when it has a sign. */
  function Pointed(fill: RawFill, index: nat): Option<int> {
    match fill
    case Number(x) => if Whole(x) then Some(x.Floor) else None
    case Text(text, Some(x)) =>
      if !Whole(x) then None
      else if text != "" && text[0] in {'-', '+'} then Some(index + x.Floor)
      else Some(x.Floor)
    case _ => None
  }

  /** Whether a fill is one of two texts and not read as a number. */
  predicate Reads(fill: RawFill, index: nat, name: string, older: string) {
    fill.Text? && Pointed(fill, index).None? && (fill.text == name || fill.text == older)
  }

  function DecodeIndex(target: int, index: nat, count: nat): Fill {
    if target == index || target < 0 || target >= count then Off else Dataset(target)
  }

  function DecodeFill(fill: RawFill, index: nat, count: nat): (r: Fill)
    ensures forall d :: r == Dataset(d) <==> Pointed(fill, index) == Some(d) && d != index && 0 <= d < count
    ensures r == Boundary("start") <==> Reads(fill, index, "start", "bottom")
    ensures r == Boundary("end") <==> Reads(fill, index, "end", "top")
    ensures r == Boundary("origin") <==>
      fill == Bool(true) || fill == Undefined(true) || Reads(fill, index, "origin", "zero")
    ensures r.Boundary? ==> r.name in {"origin", "start", "end"}
  {
    match fill
    case Undefined(hasBackground) => if hasBackground then Boundary("origin") else Off
    case Null => Off
    case Bool(on) => if on then Boundary("origin") else Off
    case Number(x) => if Whole(x) then DecodeIndex(x.Floor, index, count) else Off
    case Text(text, value) =>
      if value.Some? && Whole(value.value) then
        var relative := |text| > 0 && (text[0] == '-' || text[0] == '+');
        DecodeIndex((if relative then index else 0) + value.value.Floor, index, count)
      else if text == "bottom" || text == "start" then Boundary("start")
      else if text == "top" || text == "end" then Boundary("end")
      else if text == "zero" || text == "origin" then Boundary("origin")
      else Off
  }

  /** Numbers and unsigned texts name a dataset by its index, signed texts by its distance from the line; a text that is
      no whole number is no dataset. */
  lemma NumberFills(k: int, text: string, value: Option<real>, index: nat, count: nat)
    ensures DecodeFill(Number(k as real), index, count) == DecodeIndex(k, index, count)
    ensures value == Some(k as real) && text != "" && text[0] in "+-" ==>
      DecodeFill(Text(text, value), index, count) == DecodeIndex(index + k, index, count)
    ensures value == Some(k as real) && (text == "" || text[0] !in "+-") ==>
      DecodeFill(Text(text, value), index, count) == DecodeIndex(k, index, count)
    ensures value.None? || !Whole(value.value) ==> !DecodeFill(Text(text, value), index, count).Dataset?
  {
    assert Whole(k as real);
  }

  class Source {
    const visible: bool
    var fill: Fill

    constructor (visible: bool, fill: Fill)
      ensures this.visible == visible && this.fill == fill
    {
      this.visible, this.fill := visible, fill;
    }
  }

  /** What the resolver can observe of one source; None for a dataset that is not a line. */
  datatype Seen = Seen(visible: bool, fill: Fill)

  type View = seq<Option<Seen>>

  ghost function ViewOf(sources: seq<Source?>): (v: View)
    reads sources
  {
    seq(|sources|, i requires 0 <= i < |sources| reads sources =>
      if sources[i] == null then None else Some(Seen(sources[i].visible, sources[i].fill)))
  }

  /** A fill that leads to an existing but hidden source is passed on. */
  ghost predicate Through(v: View, f: Fill) {
    f.Dataset? && 0 <= f.index < |v| && v[f.index].Some? && !v[f.index].value.visible
  }

  /** The fill after `k` hops over hidden sources, if the chain from `f` is that long. */
  ghost function Hop(v: View, f: Fill, k: nat): Option<Fill> {
    if k == 0 then Some(f)
    else
      var g := Hop(v, f, k - 1);
      if g.Some? && Through(v, g.value) then Some(v[g.value.index].value.fill) else None
  }

  /** What a fill that is not passed on stands for: a missing dataset stands for no fill. */
  ghost function Stop(v: View, f: Fill): Fill
    requires !Through(v, f)
  {
    if f.Dataset? && !(0 <= f.index < |v| && v[f.index].Some?) then Off else f
  }

  ghost predicate StopsAt(v: View, f: Fill, k: nat, t: Fill) {
    var g := Hop(v, f, k);
    g.Some? && !Through(v, g.value) && t == Stop(v, g.value)
  }

  ghost predicate Endless(v: View, f: Fill) {
    forall k: nat :: Hop(v, f, k).Some?
  }

  /** `t` ends the chain of hidden sources from `f`; a chain that never ends gives no fill. */
  ghost predicate ChainEnd(v: View, f: Fill, t: Fill) {
    (exists k: nat :: StopsAt(v, f, k, t)) || (Endless(v, f) && t == Off)
  }

  /** `r` is the end of the chain of source `i`, or no fill if that end is `i` itself. */
  ghost predicate IsTarget(v: View, i: int, r: Fill)
    requires 0 <= i < |v| && v[i].Some?
  {
    exists t :: ChainEnd(v, v[i].value.fill, t) && r == if t == Dataset(i) then Off else t
  }

  // ----- chains -----

  lemma {:induction false} HopUnfold(v: View, f: Fill, k: nat)
    requires Through(v, f)
    ensures Hop(v, f, k + 1) == Hop(v, v[f.index].value.fill, k)
  {
    if k == 0 {
      assert Hop(v, f, 0) == Some(f);
    } else {
      HopUnfold(v, f, k - 1);
    }
  }

  lemma {:induction false} HopPrefix(v: View, f: Fill, j: nat, k: nat)
    requires j <= k && Hop(v, f, k).Some?
    ensures Hop(v, f, j).Some? && (j < k ==> Through(v, Hop(v, f, j).value))
  {
    if j < k {
      HopPrefix(v, f, j, k - 1);
    }
  }

  lemma ChainEndUnique(v: View, f: Fill, s: Fill, t: Fill)
    requires ChainEnd(v, f, s) && ChainEnd(v, f, t)
    ensures s == t
  {
    if j: nat, k: nat :| StopsAt(v, f, j, s) && StopsAt(v, f, k, t) {
      if j < k {
        HopPrefix(v, f, j, k);
      } else if k < j {
        HopPrefix(v, f, k, j);
      }
    } else if j: nat :| StopsAt(v, f, j, s) {
      HopPrefix(v, f, j, j + 1);
    } else if k: nat :| StopsAt(v, f, k, t) {
      HopPrefix(v, f, k, k + 1);
    }
  }

  /** Every source has at most one target. */
  lemma TargetUnique(v: View, i: int, r: Fill, s: Fill)
    requires 0 <= i < |v| && v[i].Some?
    requires IsTarget(v, i, r) && IsTarget(v, i, s)
    ensures r == s
  {
    var a :| ChainEnd(v, v[i].value.fill, a) && r == if a == Dataset(i) then Off else a;
    var b :| ChainEnd(v, v[i].value.fill, b) && s == if b == Dataset(i) then Off else b;
    ChainEndUnique(v, v[i].value.fill, a, b);
  }

  /** A dataset target exists, is visible, and is another one. */
  lemma TargetDrawable(v: View, i: int, r: Fill)
    requires 0 <= i < |v| && v[i].Some? && IsTarget(v, i, r)
    ensures r.Dataset? ==> 0 <= r.index < |v| && r.index != i && v[r.index].Some? && v[r.index].value.visible
  {
  }

  /** Ending the chain of a passed-on fill is ending the chain of the next one. */
  lemma ChainEndStep(v: View, f: Fill, t: Fill)
    requires Through(v, f)
    ensures ChainEnd(v, f, t) <==> ChainEnd(v, v[f.index].value.fill, t)
  {
    var g := v[f.index].value.fill;
    forall k: nat ensures Hop(v, f, k + 1) == Hop(v, g, k) {
      HopUnfold(v, f, k);
    }
    if k: nat :| StopsAt(v, g, k, t) {
      assert StopsAt(v, f, k + 1, t);
    }
    if k: nat :| StopsAt(v, f, k, t) {
      assert k > 0;
      assert StopsAt(v, g, k - 1, t);
    }
    if Endless(v, f) {
      forall k: nat ensures Hop(v, g, k).Some? {
        assert Hop(v, f, k + 1).Some?;
      }
    }
    if Endless(v, g) {
      forall k: nat ensures Hop(v, f, k).Some? {
        if k > 0 {
          assert Hop(v, g, k - 1) == Hop(v, f, k - 1 + 1);
        }
      }
    }
  }

  /** A chain that comes back to an earlier fill never ends. */
  lemma {:induction false} Cycle(v: View, f: Fill, a: nat, b: nat, k: nat)
    requires a < b && Hop(v, f, b).Some? && Hop(v, f, a) == Hop(v, f, b)
    ensures Hop(v, f, k).Some?
    decreases k
  {
    if k <= b {
      HopPrefix(v, f, k, b);
    } else {
      HopShift(v, f, a, b, k - b);
      Cycle(v, f, a, b, k - (b - a));
    }
  }

  lemma {:induction false} HopShift(v: View, f: Fill, a: nat, b: nat, n: nat)
    requires Hop(v, f, a) == Hop(v, f, b)
    ensures Hop(v, f, a + n) == Hop(v, f, b + n)
  {
    if n > 0 {
      HopShift(v, f, a, b, n - 1);
    }
  }

  lemma CycleIsEndless(v: View, f: Fill, a: nat, b: nat)
    requires a < b && Hop(v, f, b).Some? && Hop(v, f, a) == Hop(v, f, b)
    ensures ChainEnd(v, f, Off)
  {
    forall k: nat ensures Hop(v, f, k).Some? {
      Cycle(v, f, a, b, k);
    }
  }

  // ----- resolution -----

  method ResolveTarget(sources: seq<Source?>, index: nat, propagate: bool) returns (r: Fill)
    requires index < |sources| && sources[index] != null
    ensures !propagate ==> r == sources[index].fill
    ensures propagate ==> IsTarget(ViewOf(sources), index, r)
  {
    var fill := sources[index].fill;
    var visited := [Dataset(index)];
    if !propagate {
      return fill;
    }
    ghost var v := ViewOf(sources);
    ghost var first := v[index].value.fill;
    ghost var k: nat := 0;
    ghost var unvisited := set j {:trigger Dataset(j)} | 0 <= j < |sources| && j != index;
    while fill != Off && fill !in visited
      invariant |visited| == k + 1 && visited[0] == Dataset(index)
      invariant forall j :: 0 <= j < k ==> Some(visited[j + 1]) == Hop(v, first, j)
      invariant Hop(v, first, k) == Some(fill)
      invariant forall j :: 0 <= j < |sources| && j !in unvisited ==> Dataset(j) in visited
      decreases unvisited
    {
      if !fill.Dataset? {
        assert StopsAt(v, first, k, fill) && ChainEnd(v, first, fill);
        return fill;
      }
      if !(0 <= fill.index < |sources|) || sources[fill.index] == null {
        assert StopsAt(v, first, k, Off) && ChainEnd(v, first, Off);
        return Off;
      }
      var target := sources[fill.index];
      if target.visible {
        assert StopsAt(v, first, k, fill) && ChainEnd(v, first, fill);
        return fill;
      }
      visited := visited + [fill];
      unvisited := unvisited - {fill.index};
      k := k + 1;
      assert Hop(v, first, k) == Some(target.fill);
      fill := target.fill;
    }
    if fill == Off {
      assert StopsAt(v, first, k, Off) && ChainEnd(v, first, Off);
    } else {
      var m :| 0 <= m < |visited| && visited[m] == fill;
      if m > 0 {
        CycleIsEndless(v, first, m - 1, k);
      } else if !sources[index].visible {
        assert Hop(v, first, k + 1) == Some(first) == Hop(v, first, 0);
        CycleIsEndless(v, first, 0, k + 1);
      } else {
        assert StopsAt(v, first, k, Dataset(index)) && ChainEnd(v, first, Dataset(index));
      }
    }
    return Off;
  }

  // ----- in-place resolution of all sources -----

  /** `w` is `v` after the fills of some sources were replaced by their targets in `v`. */
  ghost predicate PartlyResolved(v: View, w: View) {
    && |w| == |v|
    && forall j :: 0 <= j < |v| ==>
         && (w[j].Some? <==> v[j].Some?)
         && (v[j].Some? ==> w[j].value.visible == v[j].value.visible)
         && (v[j].Some? ==> w[j].value.fill == v[j].value.fill || IsTarget(v, j, w[j].value.fill))
  }

  /** The chains through a hidden source end alike whether or not its fill was replaced. */
  lemma ReplacedAlike(v: View, w: View, f: Fill, t: Fill)
    requires PartlyResolved(v, w) && Through(v, f)
    requires ChainEnd(v, w[f.index].value.fill, t)
    ensures ChainEnd(v, f, t)
  {
    var old', new' := v[f.index].value.fill, w[f.index].value.fill;
    if new' != old' {
      var u :| ChainEnd(v, old', u) && new' == if u == Dataset(f.index) then Off else u;
      assert u != Dataset(f.index);
      assert StopsAt(v, u, 0, u);
      ChainEndUnique(v, new', u, t);
    }
    ChainEndStep(v, f, t);
  }

  lemma {:induction false} StopsAlike(v: View, w: View, f: Fill, k: nat, t: Fill)
    requires PartlyResolved(v, w) && StopsAt(w, f, k, t)
    ensures ChainEnd(v, f, t)
    decreases k
  {
    if k == 0 {
      assert StopsAt(v, f, 0, t);
    } else {
      HopPrefix(w, f, 0, k);
      HopUnfold(w, f, k - 1);
      StopsAlike(v, w, w[f.index].value.fill, k - 1, t);
      ReplacedAlike(v, w, f, t);
    }
  }

  lemma {:induction false} EndlessAlike(v: View, w: View, f: Fill, k: nat)
    requires PartlyResolved(v, w) && Endless(w, f)
    ensures Hop(v, f, k) == Hop(w, f, k)
  {
    if k > 0 {
      EndlessAlike(v, w, f, k - 1);
      assert Hop(w, f, k).Some? && Hop(w, f, k + 1).Some?;
      var g := Hop(w, f, k - 1).value;
      assert Through(w, g) && Through(w, w[g.index].value.fill);
    }
  }

  /** Resolving against partly resolved sources is resolving against the original ones. */
  lemma OrderIndependent(v: View, w: View, i: int, r: Fill)
    requires PartlyResolved(v, w)
    requires 0 <= i < |v| && v[i].Some? && w[i] == v[i]
    requires IsTarget(w, i, r)
    ensures IsTarget(v, i, r)
  {
    var f := v[i].value.fill;
    var t :| ChainEnd(w, f, t) && r == if t == Dataset(i) then Off else t;
    if k: nat :| StopsAt(w, f, k, t) {
      StopsAlike(v, w, f, k, t);
    } else {
      forall k: nat ensures Hop(v, f, k).Some? {
        EndlessAlike(v, w, f, k);
      }
    }
    assert ChainEnd(v, f, t);
  }

  /** One dataset of the chart: whether it is drawn by a line, shown, and its fill option. */
  datatype LineInfo = LineInfo(isLine: bool, visible: bool, fill: RawFill)

  ghost function Decoded(datasets: seq<LineInfo>): (v: View)
    ensures |v| == |datasets|
  {
    seq(|datasets|, i requires 0 <= i < |datasets| =>
      if datasets[i].isLine then Some(Seen(datasets[i].visible, DecodeFill(datasets[i].fill, i, |datasets|))) else None)
  }

  /** Distinct new source objects. */
  ghost predicate Separate(sources: seq<Source?>) {
    forall j, k :: 0 <= j < k < |sources| && sources[j] != null ==> sources[j] != sources[k]
  }

  method DecodeSources(datasets: seq<LineInfo>) returns (sources: seq<Source?>)
    ensures Separate(sources) && ViewOf(sources) == Decoded(datasets)
    ensures forall j :: 0 <= j < |sources| && sources[j] != null ==> fresh(sources[j])
  {
    sources := [];
    for i := 0 to |datasets|
      invariant |sources| == i && Separate(sources)
      invariant forall j :: 0 <= j < i && sources[j] != null ==> fresh(sources[j])
      invariant forall j :: 0 <= j < i ==> ViewOf(sources)[j] == Decoded(datasets)[j]
    {
      var source: Source? := null;
      if datasets[i].isLine {
        source := new Source(datasets[i].visible, DecodeFill(datasets[i].fill, i, |datasets|));
      }
      sources := sources + [source];
    }
  }

  method ResolveSources(sources: seq<Source?>, propagate: bool)
    requires Separate(sources)
    modifies sources
    ensures PartlyResolved(old(ViewOf(sources)), ViewOf(sources))
    ensures forall i :: 0 <= i < |sources| && sources[i] != null ==>
      if propagate then IsTarget(old(ViewOf(sources)), i, sources[i].fill)
      else sources[i].fill == old(ViewOf(sources))[i].value.fill
  {
    ghost var v := ViewOf(sources);
    for i := 0 to |sources|
      invariant PartlyResolved(v, ViewOf(sources))
      invariant forall j :: i <= j < |sources| ==> ViewOf(sources)[j] == v[j]
      invariant forall j :: 0 <= j < i && sources[j] != null ==>
        if propagate then IsTarget(v, j, sources[j].fill) else sources[j].fill == v[j].value.fill
    {
      var source := sources[i];
      if source != null {
        var target := ResolveTarget(sources, i, propagate);
        ghost var w := ViewOf(sources);
        assert w[i] == v[i];
        if propagate {
          OrderIndependent(v, w, i, target);
        }
        source.fill := target;
        assert forall j :: 0 <= j < |sources| && j != i ==> ViewOf(sources)[j] == w[j];
      }
    }
  }

  /** Every source ends up with its target among the decoded, untouched fills, although the
      loop overwrites them one by one. */
  method AfterDatasetsUpdate(datasets: seq<LineInfo>, propagate: bool) returns (sources: seq<Source?>)
    ensures |sources| == |datasets|
    ensures forall i :: 0 <= i < |datasets| ==>
      if !datasets[i].isLine then sources[i] == null
      else
        && sources[i] != null && sources[i].visible == datasets[i].visible
        && if propagate then IsTarget(Decoded(datasets), i, sources[i].fill)
           else sources[i].fill == Decoded(datasets)[i].value.fill
  {
    sources := DecodeSources(datasets);
    forall i | 0 <= i < |datasets|
      ensures if !datasets[i].isLine then sources[i] == null
              else sources[i] != null && sources[i].visible == datasets[i].visible
    {
      assert ViewOf(sources)[i] == Decoded(datasets)[i];
    }
    ResolveSources(sources, propagate);
  }
}
