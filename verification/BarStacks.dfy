/** Stacked bars in Chart.js: the linear scale sums the values of each stack to find its limits,
    the bar controller sums the bars before a bar to find where it starts. */
module BarStacks {
  import opened Rounding
  import opened Wrappers

  /** A visible dataset on the scale: its chart type, dataset index, stack and values; None in
      `data` is a value that is not a number, None as `stack` is undefined. */
  datatype Meta = Meta(kind: string, index: nat, stack: Option<string>, data: seq<Option<real>>)

  /** The scale option: None is undefined. */
  type Stacked = Option<bool>

  predicate HasValue(m: Meta, i: nat) {
    i < |m.data| && m.data[i].Some?
  }

  /** Whether the scale sums stacks at all. */
  predicate HasStacks(stacked: Stacked, metas: seq<Meta>) {
    stacked == Some(true) || (stacked == None && exists i :: 0 <= i < |metas| && metas[i].stack.Some?)
  }

  function Digits(n: nat): string {
    var d := "0123456789"[n % 10];
    if n < 10 then [d] else Digits(n / 10) + [d]
  }

  function StackText(stack: Option<string>): string {
    if stack.Some? then stack.value else ""
  }

  /** Datasets without a stack get one each, unless the option asks for one for all. */
  function KeyOf(stacked: Stacked, m: Meta): string {
    m.kind + "." + (if stacked == None && m.stack == None then Digits(m.index) else "") + "." + StackText(m.stack)
  }

  type KeyFn = Meta -> string

  function Keys(stacked: Stacked): KeyFn {
    m => KeyOf(stacked, m)
  }

  // ----- what the sums mean -----

  /** The sum of the negative, or of the other, i-th values of one key among the first `k` datasets. */
  ghost function KeySum(keyOf: KeyFn, metas: seq<Meta>, k: nat, key: string, i: nat, neg: bool): real
    requires k <= |metas|
  {
    if k == 0 then 0.0
    else
      KeySum(keyOf, metas, k - 1, key, i, neg) +
      if keyOf(metas[k - 1]) == key then Share(metas[k - 1], i, neg) else 0.0
  }

  /** What the i-th value of a dataset adds to the sum of its sign. */
  function Share(m: Meta, i: nat, neg: bool): real {
    if HasValue(m, i) && (m.data[i].value < 0.0) == neg then m.data[i].value else 0.0
  }

  ghost predicate Occurs(keyOf: KeyFn, metas: seq<Meta>, k: nat, key: string, i: nat)
    requires k <= |metas|
  {
    exists j :: 0 <= j < k && keyOf(metas[j]) == key && HasValue(metas[j], i)
  }

  /** The sparse arrays of one stack. */
  datatype Stack = Stack(pos: map<nat, real>, neg: map<nat, real>)

  ghost predicate Sums(keyOf: KeyFn, metas: seq<Meta>, k: nat, key: string, s: Stack)
    requires k <= |metas|
  {
    && (forall i: nat :: i in s.pos <==> Occurs(keyOf, metas, k, key, i))
    && s.neg.Keys == s.pos.Keys
    && (forall i :: i in s.pos ==>
         && s.pos[i] == KeySum(keyOf, metas, k, key, i, false)
         && s.neg[i] == KeySum(keyOf, metas, k, key, i, true))
  }

  method GetOrCreateStack(stacks: map<string, Stack>, key: string) returns (stacks': map<string, Stack>)
    ensures stacks' == if key in stacks then stacks else stacks[key := Stack(map[], map[])]
  {
    stacks' := stacks;
    if key !in stacks {
      stacks' := stacks[key := Stack(map[], map[])];
    }
  }

  lemma {:induction false} NothingSummed(keyOf: KeyFn, metas: seq<Meta>, k: nat, key: string, i: nat)
    requires k <= |metas| && !Occurs(keyOf, metas, k, key, i)
    ensures KeySum(keyOf, metas, k, key, i, false) == 0.0 == KeySum(keyOf, metas, k, key, i, true)
  {
    if k > 0 {
      NothingSummed(keyOf, metas, k - 1, key, i);
    }
  }

  function At(values: map<nat, real>, i: nat): real {
    if i in values then values[i] else 0.0
  }

  /** `s'` is `s` with the first `n` values of a dataset added, positive and negative ones apart. */
  ghost predicate AddsFirst(meta: Meta, s: Stack, s': Stack, n: nat) {
    && s'.neg.Keys == s'.pos.Keys
    && (forall i: nat :: i in s'.pos <==> i in s.pos || (i < n && HasValue(meta, i)))
    && (forall i :: i in s'.pos ==>
         && s'.pos[i] == At(s.pos, i) + (if i < n then Share(meta, i, false) else 0.0)
         && s'.neg[i] == At(s.neg, i) + (if i < n then Share(meta, i, true) else 0.0))
  }

  /** `s'` is `s` with all values of a dataset added. */
  ghost predicate Adds(meta: Meta, s: Stack, s': Stack) {
    AddsFirst(meta, s, s', |meta.data|)
  }

  lemma ValueAdded(meta: Meta, s: Stack, t: Stack, t': Stack, n: nat)
    requires n < |meta.data| && s.neg.Keys == s.pos.Keys && AddsFirst(meta, s, t, n)
    requires if HasValue(meta, n)
             then t' == Stack(t.pos[n := At(t.pos, n) + Share(meta, n, false)],
                              t.neg[n := At(t.neg, n) + Share(meta, n, true)])
             else t' == t
    ensures AddsFirst(meta, s, t', n + 1)
  {
    assert At(t.pos, n) == At(s.pos, n) && At(t.neg, n) == At(s.neg, n);
    assert !HasValue(meta, n) ==> Share(meta, n, false) == 0.0 == Share(meta, n, true);
    assert forall i: nat :: (i < n + 1 && HasValue(meta, i)) <==>
      (i < n && HasValue(meta, i)) || (i == n && HasValue(meta, n));
  }

  /** Adds the values of a dataset to its stack; every new entry starts with a zero in both arrays. */
  method StackData(meta: Meta, stack: Stack) returns (stack': Stack)
    requires stack.neg.Keys == stack.pos.Keys
    ensures Adds(meta, stack, stack')
  {
    var pos: map<nat, real>, neg: map<nat, real> := stack.pos, stack.neg;
    for i := 0 to |meta.data|
      invariant AddsFirst(meta, stack, Stack(pos, neg), i)
    {
      ghost var before := Stack(pos, neg);
      if meta.data[i].Some? {
        var value := meta.data[i].value;
        pos := pos[i := if i in pos then pos[i] else 0.0];
        neg := neg[i := if i in neg then neg[i] else 0.0];
        if value < 0.0 {
          neg := neg[i := neg[i] + value];
        } else {
          pos := pos[i := pos[i] + value];
        }
      }
      ValueAdded(meta, stack, before, Stack(pos, neg), i);
    }
    stack' := Stack(pos, neg);
  }

  lemma StackedSum(keyOf: KeyFn, metas: seq<Meta>, k: nat, key: string, s: Stack, s': Stack, i: nat)
    requires k < |metas| && Sums(keyOf, metas, k, key, s)
    requires key == keyOf(metas[k]) && Adds(metas[k], s, s')
    ensures i in s'.pos <==> Occurs(keyOf, metas, k + 1, key, i)
    ensures i in s'.pos ==>
      && s'.pos[i] == KeySum(keyOf, metas, k + 1, key, i, false)
      && s'.neg[i] == KeySum(keyOf, metas, k + 1, key, i, true)
  {
    assert i in s.pos <==> Occurs(keyOf, metas, k, key, i);
    if i !in s.pos {
      NothingSummed(keyOf, metas, k, key, i);
    }
  }

  /** Stacking dataset `k` brings the sums of its key up to date and leaves the others right. */
  lemma StackedSums(keyOf: KeyFn, metas: seq<Meta>, k: nat, key: string, s: Stack, s': Stack)
    requires k < |metas| && Sums(keyOf, metas, k, key, s)
    requires if key != keyOf(metas[k]) then s' == s else Adds(metas[k], s, s')
    ensures Sums(keyOf, metas, k + 1, key, s')
  {
    if key == keyOf(metas[k]) {
      forall i: nat ensures i in s'.pos <==> Occurs(keyOf, metas, k + 1, key, i) {
        StackedSum(keyOf, metas, k, key, s, s', i);
      }
      forall i | i in s'.pos
        ensures s'.pos[i] == KeySum(keyOf, metas, k + 1, key, i, false)
        ensures s'.neg[i] == KeySum(keyOf, metas, k + 1, key, i, true)
      {
        StackedSum(keyOf, metas, k, key, s, s', i);
      }
    } else {
      assert forall i: nat :: Occurs(keyOf, metas, k + 1, key, i) <==> Occurs(keyOf, metas, k, key, i);
    }
  }

  /** After `k` datasets: every key met has its stack, and every stack holds the sums of its key. */
  ghost predicate AllStacked(keyOf: KeyFn, metas: seq<Meta>, k: nat, stacks: map<string, Stack>)
    requires k <= |metas|
  {
    && (forall j :: 0 <= j < k ==> keyOf(metas[j]) in stacks)
    && forall key :: key in stacks ==> Sums(keyOf, metas, k, key, stacks[key])
  }

  lemma NewStack(keyOf: KeyFn, metas: seq<Meta>, k: nat, key: string, stacks: map<string, Stack>)
    requires k <= |metas| && AllStacked(keyOf, metas, k, stacks) && key !in stacks
    ensures AllStacked(keyOf, metas, k, stacks[key := Stack(map[], map[])])
  {
    assert forall i: nat :: !Occurs(keyOf, metas, k, key, i);
  }

  lemma AllSums(keyOf: KeyFn, metas: seq<Meta>, k: nat, stacks: map<string, Stack>, stack: Stack)
    requires k < |metas| && keyOf(metas[k]) in stacks && AllStacked(keyOf, metas, k, stacks)
    requires Adds(metas[k], stacks[keyOf(metas[k])], stack)
    ensures AllStacked(keyOf, metas, k + 1, stacks[keyOf(metas[k]) := stack])
  {
    var after := stacks[keyOf(metas[k]) := stack];
    forall key | key in after ensures Sums(keyOf, metas, k + 1, key, after[key]) {
      StackedSums(keyOf, metas, k, key, stacks[key], after[key]);
    }
  }

  /** The smallest and largest value of a sparse array, None standing for the infinities. */
  method MinMax(values: map<nat, real>) returns (lo: Option<real>, hi: Option<real>)
    ensures Bounds(values, values.Keys, lo, hi)
  {
    lo, hi := None, None;
    var rest := values.Keys;
    while rest != {}
      invariant rest <= values.Keys && Bounds(values, values.Keys - rest, lo, hi)
      decreases rest
    {
      var i :| i in rest;
      rest := rest - {i};
      lo := if lo.None? then Some(values[i]) else Some(Min(lo.value, values[i]));
      hi := if hi.None? then Some(values[i]) else Some(Max(hi.value, values[i]));
    }
    assert values.Keys - rest == values.Keys;
  }

  ghost predicate Bounds(values: map<nat, real>, of: set<nat>, lo: Option<real>, hi: Option<real>)
    requires of <= values.Keys
  {
    && (lo.None? <==> of == {}) && (hi.None? <==> of == {})
    && (lo.Some? ==> (exists i :: i in of && values[i] == lo.value) && forall i :: i in of ==> lo.value <= values[i])
    && (hi.Some? ==> (exists i :: i in of && values[i] == hi.value) && forall i :: i in of ==> values[i] <= hi.value)
  }

  function Lower(a: Option<real>, b: Option<real>): Option<real> {
    if a.None? then b else if b.None? then a else Some(Min(a.value, b.value))
  }

  function Upper(a: Option<real>, b: Option<real>): Option<real> {
    if a.None? then b else if b.None? then a else Some(Max(a.value, b.value))
  }

  const DEFAULT_MIN := 0.0
  const DEFAULT_MAX := 1.0

  ghost predicate IsSum(keyOf: KeyFn, metas: seq<Meta>, v: real) {
    exists key, i: nat, neg :: Occurs(keyOf, metas, |metas|, key, i) && v == KeySum(keyOf, metas, |metas|, key, i, neg)
  }

  ghost predicate NoneOrSum(keyOf: KeyFn, metas: seq<Meta>, v: Option<real>) {
    v.Some? ==> IsSum(keyOf, metas, v.value)
  }

  /** `lo` and `hi` bound all sums of the given keys. */
  ghost predicate Bounding(keyOf: KeyFn, metas: seq<Meta>, keys: set<string>, lo: Option<real>, hi: Option<real>) {
    && (forall key, i: nat :: key in keys && Occurs(keyOf, metas, |metas|, key, i) ==> lo.Some? && hi.Some?)
    && (lo.Some? && hi.Some? ==>
         forall key, i: nat, neg :: key in keys && Occurs(keyOf, metas, |metas|, key, i) ==>
           lo.value <= KeySum(keyOf, metas, |metas|, key, i, neg) <= hi.value)
  }

  /** They are such sums themselves. */
  ghost predicate Limits(keyOf: KeyFn, metas: seq<Meta>, keys: set<string>, lo: Option<real>, hi: Option<real>) {
    && NoneOrSum(keyOf, metas, lo) && NoneOrSum(keyOf, metas, hi)
    && Bounding(keyOf, metas, keys, lo, hi)
  }

  method UpdateLimits(keyOf: KeyFn, ghost metas: seq<Meta>, ghost keys: set<string>, ghost key: string, stack: Stack,
                      lo: Option<real>, hi: Option<real>) returns (lo': Option<real>, hi': Option<real>)
    requires Sums(keyOf, metas, |metas|, key, stack) && Limits(keyOf, metas, keys, lo, hi)
    ensures Limits(keyOf, metas, keys + {key}, lo', hi')
  {
    var l, h := MinMax(stack.pos);
    var l', h' := MinMax(stack.neg);
    lo' := Lower(lo, Lower(l, l'));
    hi' := Upper(hi, Upper(h, h'));
    BoundBoth(keyOf, metas, keys, {key}, lo, hi, Lower(l, l'), Upper(h, h'));
  }

  lemma BoundBoth(keyOf: KeyFn, metas: seq<Meta>, keys: set<string>, keys': set<string>,
                  lo: Option<real>, hi: Option<real>, lo': Option<real>, hi': Option<real>)
    requires Bounding(keyOf, metas, keys, lo, hi) && Bounding(keyOf, metas, keys', lo', hi')
    ensures Bounding(keyOf, metas, keys + keys', Lower(lo, lo'), Upper(hi, hi'))
  {
  }

  /** The stacks of all keys. */
  method StackAll(keyOf: KeyFn, metas: seq<Meta>) returns (stacks: map<string, Stack>)
    ensures AllStacked(keyOf, metas, |metas|, stacks)
  {
    stacks := map[];
    for i := 0 to |metas|
      invariant AllStacked(keyOf, metas, i, stacks)
    {
      var key := keyOf(metas[i]);
      if key !in stacks {
        NewStack(keyOf, metas, i, key, stacks);
      }
      stacks := GetOrCreateStack(stacks, key);
      var stack := StackData(metas[i], stacks[key]);
      AllSums(keyOf, metas, i, stacks, stack);
      stacks := stacks[key := stack];
    }
  }

  /** The smallest and largest of all sums, or the defaults. */
  method LimitsBy(keyOf: KeyFn, metas: seq<Meta>) returns (min: real, max: real)
    ensures forall v :: IsSum(keyOf, metas, v) ==> min <= v <= max
    ensures if exists v :: IsSum(keyOf, metas, v) then IsSum(keyOf, metas, min) && IsSum(keyOf, metas, max)
            else min == DEFAULT_MIN && max == DEFAULT_MAX
  {
    var stacks := StackAll(keyOf, metas);
    var lo: Option<real>, hi: Option<real> := None, None;
    var keys := stacks.Keys;
    while keys != {}
      invariant keys <= stacks.Keys && Limits(keyOf, metas, stacks.Keys - keys, lo, hi)
      decreases keys
    {
      var key :| key in keys;
      lo, hi := UpdateLimits(keyOf, metas, stacks.Keys - keys, key, stacks[key], lo, hi);
      assert stacks.Keys - keys + {key} == stacks.Keys - (keys - {key});
      keys := keys - {key};
    }
    assert stacks.Keys - {} == stacks.Keys;
    min := if lo.Some? then lo.value else DEFAULT_MIN;
    max := if hi.Some? then hi.value else DEFAULT_MAX;
  }

  // ----- without stacks -----

  /** The first `n` values of a dataset. */
  ghost function ValuesFirst(m: Meta, n: nat): set<real> {
    set i | 0 <= i < n && HasValue(m, i) :: m.data[i].value
  }

  /** The values of the first `k` datasets. */
  ghost function Values(metas: seq<Meta>, k: nat): set<real>
    requires k <= |metas|
  {
    if k == 0 then {} else Values(metas, k - 1) + ValuesFirst(metas[k - 1], |metas[k - 1].data|)
  }

  lemma {:induction false} IsAmong(metas: seq<Meta>, k: nat, p: nat, i: nat)
    requires p < k <= |metas| && HasValue(metas[p], i)
    ensures metas[p].data[i].value in Values(metas, k)
    decreases k
  {
    if p < k - 1 {
      IsAmong(metas, k - 1, p, i);
    }
  }

  /** The smallest and the largest member of a set; None for the infinities of an empty one. */
  ghost predicate Extremes(values: set<real>, lo: Option<real>, hi: Option<real>) {
    && (lo.None? <==> values == {}) && (hi.None? <==> values == {})
    && (lo.Some? ==> lo.value in values && forall v :: v in values ==> lo.value <= v)
    && (hi.Some? ==> hi.value in values && forall v :: v in values ==> v <= hi.value)
  }

  method UpdateMinMax(ghost before: set<real>, meta: Meta, lo: Option<real>, hi: Option<real>)
    returns (lo': Option<real>, hi': Option<real>)
    requires Extremes(before, lo, hi)
    ensures Extremes(before + ValuesFirst(meta, |meta.data|), lo', hi')
  {
    lo', hi' := lo, hi;
    assert before + ValuesFirst(meta, 0) == before;
    for i := 0 to |meta.data|
      invariant Extremes(before + ValuesFirst(meta, i), lo', hi')
    {
      if meta.data[i].Some? {
        var value := meta.data[i].value;
        assert before + ValuesFirst(meta, i + 1) == before + ValuesFirst(meta, i) + {value};
        lo', hi' := Lower(lo', Some(value)), Upper(hi', Some(value));
      } else {
        assert ValuesFirst(meta, i + 1) == ValuesFirst(meta, i);
      }
    }
  }

  /** The smallest and largest of all values, or the defaults. */
  method PlainLimits(metas: seq<Meta>) returns (min: real, max: real)
    ensures forall v :: v in Values(metas, |metas|) ==> min <= v <= max
    ensures if Values(metas, |metas|) == {} then min == DEFAULT_MIN && max == DEFAULT_MAX
            else min in Values(metas, |metas|) && max in Values(metas, |metas|)
  {
    var lo: Option<real>, hi: Option<real> := None, None;
    for i := 0 to |metas|
      invariant Extremes(Values(metas, i), lo, hi)
    {
      lo, hi := UpdateMinMax(Values(metas, i), metas[i], lo, hi);
    }
    min := if lo.Some? then lo.value else DEFAULT_MIN;
    max := if hi.Some? then hi.value else DEFAULT_MAX;
  }

  // ----- the limits of the scale -----

  method FindStacks(stacked: Stacked, metas: seq<Meta>) returns (hasStacks: bool)
    ensures hasStacks <==> HasStacks(stacked, metas)
  {
    hasStacks := stacked == Some(true);
    if stacked == None {
      var i := 0;
      while !hasStacks && i < |metas|
        invariant i <= |metas| && (hasStacks <==> exists j :: 0 <= j < i && metas[j].stack.Some?)
      {
        hasStacks := metas[i].stack.Some?;
        i := i + 1;
      }
    }
  }

  /** What the scale has to reach: the sums of the stacks, or without stacks the values. */
  ghost predicate Reached(stacked: Stacked, metas: seq<Meta>, v: real) {
    if HasStacks(stacked, metas) then IsSum(Keys(stacked), metas, v) else v in Values(metas, |metas|)
  }

  ghost predicate AnyReached(stacked: Stacked, metas: seq<Meta>) {
    exists v :: Reached(stacked, metas, v)
  }

  /** The tightest limits around all that the scale has to reach. */
  ghost predicate LimitsOf(stacked: Stacked, metas: seq<Meta>, min: real, max: real) {
    && (forall v :: Reached(stacked, metas, v) ==> min <= v <= max)
    && if AnyReached(stacked, metas) then Reached(stacked, metas, min) && Reached(stacked, metas, max)
       else min == DEFAULT_MIN && max == DEFAULT_MAX
  }

  /** The limits of the scale before the user's tick options. */
  method DetermineDataLimits(stacked: Stacked, metas: seq<Meta>) returns (min: real, max: real)
    ensures LimitsOf(stacked, metas, min, max)
  {
    var hasStacks := FindStacks(stacked, metas);
    if hasStacks {
      min, max := LimitsBy(Keys(stacked), metas);
      assert forall v :: Reached(stacked, metas, v) <==> IsSum(Keys(stacked), metas, v);
    } else {
      min, max := PlainLimits(metas);
      assert forall v :: Reached(stacked, metas, v) <==> v in Values(metas, |metas|);
    }
  }

  // ----- which datasets are summed together -----

  /** Two datasets share a stack of the scale: they are of one type and one stack. Where the option is undefined a
      dataset without a stack stands alone, otherwise it belongs to the stack with the empty name. */
  predicate Together(stacked: Stacked, a: Meta, b: Meta) {
    a.kind == b.kind &&
    if stacked == None then a.stack == b.stack && (a.stack == None ==> a.index == b.index)
    else a.stack == b.stack || {a.stack, b.stack} == {None, Some("")}
  }

  /** Chart types are names without a dot. */
  predicate Plain(m: Meta) {
    '.' !in m.kind
  }

  lemma {:induction false} DigitsPlain(n: nat)
    ensures Digits(n) != "" && '.' !in Digits(n)
  {
    if n >= 10 {
      DigitsPlain(n / 10);
    }
  }

  lemma {:induction false} DigitsDiffer(a: nat, b: nat)
    requires Digits(a) == Digits(b)
    ensures a == b
    decreases a
  {
    var s, t := Digits(a), Digits(b);
    assert s[|s| - 1] == "0123456789"[a % 10] && t[|t| - 1] == "0123456789"[b % 10];
    if a >= 10 {
      DigitsPlain(a / 10);
    }
    if b >= 10 {
      DigitsPlain(b / 10);
    }
    if a >= 10 && b >= 10 {
      assert s[..|s| - 1] == Digits(a / 10) && t[..|t| - 1] == Digits(b / 10);
      DigitsDiffer(a / 10, b / 10);
    }
  }

  lemma DotEarlier(a: string, b: string, x: string, y: string)
    requires '.' !in b && |a| < |b|
    ensures a + "." + x != b + "." + y
  {
    assert (a + "." + x)[|a|] == '.' && (b + "." + y)[|a|] == b[|a|];
  }

  /** Texts before the first dot are equal where the whole texts are, and so is what follows. */
  lemma SameParts(a: string, b: string, x: string, y: string)
    requires '.' !in a && '.' !in b && a + "." + x == b + "." + y
    ensures a == b && x == y
  {
    var s, t := a + "." + x, b + "." + y;
    if |a| < |b| {
      DotEarlier(a, b, x, y);
    } else if |b| < |a| {
      DotEarlier(b, a, y, x);
    }
    assert a == s[..|a|] && b == t[..|b|];
    assert x == s[|a| + 1..] && y == t[|b| + 1..];
  }

  function Middle(stacked: Stacked, m: Meta): string {
    if stacked == None && m.stack == None then Digits(m.index) else ""
  }

  /** The keys of the scale's stacks keep apart exactly what does not belong together. */
  lemma SameKeyIff(stacked: Stacked, a: Meta, b: Meta)
    requires Plain(a) && Plain(b)
    ensures KeyOf(stacked, a) == KeyOf(stacked, b) <==> Together(stacked, a, b)
  {
    DigitsPlain(a.index);
    DigitsPlain(b.index);
    var m, n := Middle(stacked, a), Middle(stacked, b);
    var x, y := StackText(a.stack), StackText(b.stack);
    assert KeyOf(stacked, a) == a.kind + "." + (m + "." + x);
    assert KeyOf(stacked, b) == b.kind + "." + (n + "." + y);
    if KeyOf(stacked, a) == KeyOf(stacked, b) {
      SameParts(a.kind, b.kind, m + "." + x, n + "." + y);
      SameParts(m, n, x, y);
      if stacked == None && a.stack == None && b.stack == None {
        DigitsDiffer(a.index, b.index);
      }
    }
  }

  /** The sum of the negative, or of the other, i-th values of what belongs together with `m`, among the first `k`. */
  ghost function GroupSum(stacked: Stacked, metas: seq<Meta>, k: nat, m: Meta, i: nat, neg: bool): real
    requires k <= |metas|
  {
    if k == 0 then 0.0
    else
      GroupSum(stacked, metas, k - 1, m, i, neg) +
      if Together(stacked, metas[k - 1], m) then Share(metas[k - 1], i, neg) else 0.0
  }

  /** A sum of the i-th values of what belongs together with a dataset that has one. */
  ghost predicate IsGroupSum(stacked: Stacked, metas: seq<Meta>, v: real) {
    exists p: nat, i: nat, neg ::
      p < |metas| && HasValue(metas[p], i) && v == GroupSum(stacked, metas, |metas|, metas[p], i, neg)
  }

  lemma {:induction false} GroupIsKey(stacked: Stacked, metas: seq<Meta>, k: nat, m: Meta, i: nat, neg: bool)
    requires k <= |metas| && Plain(m) && forall a :: a in metas ==> Plain(a)
    ensures GroupSum(stacked, metas, k, m, i, neg) == KeySum(Keys(stacked), metas, k, KeyOf(stacked, m), i, neg)
  {
    if k > 0 {
      GroupIsKey(stacked, metas, k - 1, m, i, neg);
      SameKeyIff(stacked, metas[k - 1], m);
    }
  }

  lemma SumsAreGroupSums(stacked: Stacked, metas: seq<Meta>, v: real)
    requires forall a :: a in metas ==> Plain(a)
    ensures IsSum(Keys(stacked), metas, v) <==> IsGroupSum(stacked, metas, v)
  {
    if IsSum(Keys(stacked), metas, v) {
      var key, i: nat, neg :| Occurs(Keys(stacked), metas, |metas|, key, i)
        && v == KeySum(Keys(stacked), metas, |metas|, key, i, neg);
      var j :| 0 <= j < |metas| && Keys(stacked)(metas[j]) == key && HasValue(metas[j], i);
      GroupIsKey(stacked, metas, |metas|, metas[j], i, neg);
    }
    if IsGroupSum(stacked, metas, v) {
      var p: nat, i: nat, neg :| p < |metas| && HasValue(metas[p], i)
        && v == GroupSum(stacked, metas, |metas|, metas[p], i, neg);
      GroupIsKey(stacked, metas, |metas|, metas[p], i, neg);
      assert Keys(stacked)(metas[p]) == KeyOf(stacked, metas[p]);
      assert Occurs(Keys(stacked), metas, |metas|, KeyOf(stacked, metas[p]), i);
    }
  }

  /** What the scale has to reach, without its keys: the sums of what belongs together if the option asks for stacks
      or some dataset names one, and else the values themselves. */
  ghost predicate ToReach(stacked: Stacked, metas: seq<Meta>, v: real) {
    if stacked == Some(true) || (stacked == None && exists m :: m in metas && m.stack.Some?)
    then IsGroupSum(stacked, metas, v)
    else exists m, i: nat :: m in metas && HasValue(m, i) && v == m.data[i].value
  }

  lemma {:induction false} ValuesAre(metas: seq<Meta>, k: nat, v: real)
    requires k <= |metas|
    ensures v in Values(metas, k)
      <==> exists p, i: nat :: 0 <= p < k && HasValue(metas[p], i) && v == metas[p].data[i].value
  {
    if k > 0 {
      ValuesAre(metas, k - 1, v);
    }
  }

  lemma ReachedIff(stacked: Stacked, metas: seq<Meta>, v: real)
    requires forall a :: a in metas ==> Plain(a)
    ensures Reached(stacked, metas, v) <==> ToReach(stacked, metas, v)
  {
    if HasStacks(stacked, metas) {
      SumsAreGroupSums(stacked, metas, v);
    } else {
      ValuesAre(metas, |metas|, v);
    }
  }

  /** The limits of the scale are the extremes of what it has to reach, or the defaults 0 and 1. */
  lemma LimitsMeaning(stacked: Stacked, metas: seq<Meta>, min: real, max: real)
    requires (forall a :: a in metas ==> Plain(a)) && LimitsOf(stacked, metas, min, max)
    ensures forall v :: ToReach(stacked, metas, v) ==> min <= v <= max
    ensures if exists v :: ToReach(stacked, metas, v) then ToReach(stacked, metas, min) && ToReach(stacked, metas, max)
            else min == 0.0 && max == 1.0
  {
    forall v ensures Reached(stacked, metas, v) <==> ToReach(stacked, metas, v) {
      ReachedIff(stacked, metas, v);
    }
  }

  // ----- bars -----

  /** Whether a bar of this dataset stands on the bars before it. */
  predicate StacksBar(stacked: Stacked, m: Meta) {
    stacked == Some(true) || (stacked == None && m.stack.Some?)
  }

  predicate SameStack(a: Meta, b: Meta) {
    a.kind == b.kind && a.stack == b.stack
  }

  /** The sum of the i-th values of the given sign in the stack of `m`, among the first `k` datasets. */
  ghost function Below(metas: seq<Meta>, k: nat, m: Meta, i: nat, neg: bool): real
    requires k <= |metas|
  {
    if k == 0 then 0.0
    else Below(metas, k - 1, m, i, neg) + if SameStack(metas[k - 1], m) then Share(metas[k - 1], i, neg) else 0.0
  }

  /** Where the bar of dataset `p` at index `i` starts. */
  ghost function StartOf(stacked: Stacked, metas: seq<Meta>, p: nat, i: nat): real
    requires p < |metas| && HasValue(metas[p], i)
  {
    if StacksBar(stacked, metas[p]) then Below(metas, p, metas[p], i, metas[p].data[i].value < 0.0) else 0.0
  }

  method CalculateBarValues(stacked: Stacked, metas: seq<Meta>, p: nat, i: nat) returns (start: real, length: real)
    requires p < |metas| && HasValue(metas[p], i)
    requires forall j, k :: 0 <= j < k < |metas| ==> metas[j].index != metas[k].index
    ensures start == StartOf(stacked, metas, p, i) && length == metas[p].data[i].value
  {
    var meta := metas[p];
    var value := meta.data[i].value;
    start, length := 0.0, value;
    if stacked == Some(true) || (stacked == None && meta.stack.Some?) {
      for j := 0 to |metas|
        invariant j <= p && start == Below(metas, j, meta, i, value < 0.0)
      {
        var imeta := metas[j];
        if imeta.kind != meta.kind {
          // not among the metasets of the controller's type
          continue;
        }
        if imeta.index == meta.index {
          break;
        }
        if imeta.stack == meta.stack && HasValue(imeta, i) {
          var ivalue := imeta.data[i].value;
          if (value < 0.0 && ivalue < 0.0) || (value >= 0.0 && ivalue > 0.0) {
            start := start + ivalue;
          }
        }
      }
    }
  }

  lemma {:induction false} KeySumGrows(keyOf: KeyFn, metas: seq<Meta>, j: nat, k: nat, key: string, i: nat)
    requires j <= k <= |metas|
    ensures 0.0 <= KeySum(keyOf, metas, j, key, i, false) <= KeySum(keyOf, metas, k, key, i, false)
    ensures KeySum(keyOf, metas, k, key, i, true) <= KeySum(keyOf, metas, j, key, i, true) <= 0.0
    decreases k
  {
    if j < k {
      KeySumGrows(keyOf, metas, j, k - 1, key, i);
    } else if k > 0 {
      KeySumGrows(keyOf, metas, k - 1, k - 1, key, i);
    }
  }

  /** The bars of a stack are summed under one key. */
  lemma {:induction false} BelowWithinKey(keyOf: KeyFn, metas: seq<Meta>, k: nat, m: Meta, i: nat)
    requires k <= |metas| && forall j :: 0 <= j < |metas| && SameStack(metas[j], m) ==> keyOf(metas[j]) == keyOf(m)
    ensures 0.0 <= Below(metas, k, m, i, false) <= KeySum(keyOf, metas, k, keyOf(m), i, false)
    ensures KeySum(keyOf, metas, k, keyOf(m), i, true) <= Below(metas, k, m, i, true) <= 0.0
  {
    if k > 0 {
      BelowWithinKey(keyOf, metas, k - 1, m, i);
    }
  }

  /** A bar reaches at most to the sum of its key and sign. */
  lemma BarWithinSums(keyOf: KeyFn, metas: seq<Meta>, p: nat, i: nat, start: real)
    requires p < |metas| && HasValue(metas[p], i)
    requires var neg := metas[p].data[i].value < 0.0; var b := Below(metas, p, metas[p], i, neg);
      || start == 0.0
      || (start == b && forall j :: 0 <= j < |metas| && SameStack(metas[j], metas[p]) ==>
            keyOf(metas[j]) == keyOf(metas[p]))
    ensures var key, end := keyOf(metas[p]), start + metas[p].data[i].value;
      var lo, hi := KeySum(keyOf, metas, |metas|, key, i, true), KeySum(keyOf, metas, |metas|, key, i, false);
      lo <= start <= hi && lo <= end <= hi
  {
    var key := keyOf(metas[p]);
    KeySumGrows(keyOf, metas, p, p + 1, key, i);
    KeySumGrows(keyOf, metas, p + 1, |metas|, key, i);
    if start != 0.0 {
      BelowWithinKey(keyOf, metas, p, metas[p], i);
    }
  }

  ghost predicate Within(stacked: Stacked, metas: seq<Meta>, min: real, max: real, p: nat, i: nat)
    requires p < |metas| && HasValue(metas[p], i)
  {
    var start := StartOf(stacked, metas, p, i);
    min <= start <= max && min <= start + metas[p].data[i].value <= max
  }

  /** With stacks every bar lies within the limits of the scale. */
  lemma BarsFit(stacked: Stacked, metas: seq<Meta>, min: real, max: real, p: nat, i: nat)
    requires HasStacks(stacked, metas) && LimitsOf(stacked, metas, min, max)
    requires p < |metas| && HasValue(metas[p], i)
    ensures Within(stacked, metas, min, max, p, i)
  {
    var keyOf := Keys(stacked);
    var key := keyOf(metas[p]);
    var lo, hi := KeySum(keyOf, metas, |metas|, key, i, true), KeySum(keyOf, metas, |metas|, key, i, false);
    BarWithinSums(keyOf, metas, p, i, StartOf(stacked, metas, p, i));
    assert Occurs(keyOf, metas, |metas|, key, i);
    assert Reached(stacked, metas, lo) && Reached(stacked, metas, hi);
  }

  /** Some value is at most zero and some value is at least zero. */
  ghost predicate BothSidesOfZero(metas: seq<Meta>) {
    (exists v :: v in Values(metas, |metas|) && v <= 0.0) && (exists v :: v in Values(metas, |metas|) && v >= 0.0)
  }

  /** Without stacks bars start at zero, and the limits do not reach for it: bars stick out unless the values lie on
      both sides of zero. */
  lemma BarsFitIff(stacked: Stacked, metas: seq<Meta>, min: real, max: real, p: nat, i: nat)
    requires LimitsOf(stacked, metas, min, max) && p < |metas| && HasValue(metas[p], i)
    ensures Within(stacked, metas, min, max, p, i) <==> HasStacks(stacked, metas) || BothSidesOfZero(metas)
  {
    if HasStacks(stacked, metas) {
      BarsFit(stacked, metas, min, max, p, i);
    } else {
      IsAmong(metas, |metas|, p, i);
      assert Reached(stacked, metas, metas[p].data[i].value);
      forall v | v in Values(metas, |metas|) ensures min <= v <= max {
        assert Reached(stacked, metas, v);
      }
      assert Reached(stacked, metas, min) && Reached(stacked, metas, max);
      assert StartOf(stacked, metas, p, i) == 0.0;
    }
  }

  /** A dataset of the type and stack of `m` with an i-th value of the given sign. */
  predicate Shares(a: Meta, m: Meta, i: nat, neg: bool) {
    a.kind == m.kind && a.stack == m.stack && HasValue(a, i) && (a.data[i].value < 0.0) == neg
  }

  /** A stacked bar starts where the previous one of its stack and sign ends. */
  lemma BarsTouch(stacked: Stacked, metas: seq<Meta>, p: nat, q: nat, i: nat)
    requires p < q < |metas| && HasValue(metas[q], i)
    requires stacked == Some(true) || (stacked == None && metas[q].stack.Some?)
    requires var neg := metas[q].data[i].value < 0.0;
      Shares(metas[p], metas[q], i, neg) && forall j :: p < j < q ==> !Shares(metas[j], metas[q], i, neg)
    ensures StartOf(stacked, metas, q, i) == StartOf(stacked, metas, p, i) + metas[p].data[i].value
  {
    var neg := metas[q].data[i].value < 0.0;
    BelowAlike(metas, p, metas[p], metas[q], i, neg);
    BelowAcross(metas, p + 1, q, metas[q], i, neg);
  }

  /** A bar starts at zero where it is not stacked or the first one of its stack and sign. */
  lemma FirstBar(stacked: Stacked, metas: seq<Meta>, q: nat, i: nat)
    requires q < |metas| && HasValue(metas[q], i)
    requires stacked == Some(true) || (stacked == None && metas[q].stack.Some?) ==>
      forall j :: 0 <= j < q ==> !Shares(metas[j], metas[q], i, metas[q].data[i].value < 0.0)
    ensures StartOf(stacked, metas, q, i) == 0.0
  {
    if StacksBar(stacked, metas[q]) {
      BelowAcross(metas, 0, q, metas[q], i, metas[q].data[i].value < 0.0);
    }
  }

  lemma {:induction false} BelowAlike(metas: seq<Meta>, k: nat, a: Meta, b: Meta, i: nat, neg: bool)
    requires k <= |metas| && SameStack(a, b)
    ensures Below(metas, k, a, i, neg) == Below(metas, k, b, i, neg)
  {
    if k > 0 {
      BelowAlike(metas, k - 1, a, b, i, neg);
    }
  }

  lemma {:induction false} BelowAcross(metas: seq<Meta>, j: nat, k: nat, m: Meta, i: nat, neg: bool)
    requires j <= k <= |metas|
    requires forall l :: j <= l < k && SameStack(metas[l], m) && HasValue(metas[l], i) ==>
      (metas[l].data[i].value < 0.0) != neg
    ensures Below(metas, k, m, i, neg) == Below(metas, j, m, i, neg)
    decreases k
  {
    if j < k {
      BelowAcross(metas, j, k - 1, m, i, neg);
    }
  }
}
