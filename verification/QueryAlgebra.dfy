/** Queries in disjunctive normal form: the operations that build them, and what they mean. */
module QueryAlgebra {
  import opened Scheme
  import opened Wrappers

  // ----- queries -----

  const COMPARE_LTE := 2
  const COMPARE_EQUAL := 3
  const COMPARE_GTE := 5
  const COMPARE_NEQ := 6
  const COMPARE_CONTAINS := 7
  const COMPARE_NCONTAINS := 8

  const STRING_MATCH_NORMAL := 1
  const STRING_MATCH_CASEINSENSITIVE := 2
  const DATE_MATCH_NORMAL := 1
  const NUMERIC_MATCH_ANY := 3
  const GUID_MATCH_ANY := 1
  const GUID_MATCH_NONE := 2
  const GUID_MATCH_NULL := 3
  const GUID_MATCH_ALL := 4
  const CHAR_MATCH_ANY := 1

  /** A predicate; OtherPred stands for the core types the bridge does not support. */
  datatype Pred =
    | StringPred(how: Int32, options: Int32, isRegex: bool, pattern: Option<string>)
    | DatePred(how: Int32, options: Int32, date: Int64)
    | NumericPred(how: Int32, options: Int32, num: Int64, denom: Int64)
    | GuidPred(how: Int32, options: Int32, guids: seq<Guid>)
    | Int64Pred(how: Int32, val: Int64)
    | DoublePred(how: Int32, number: Flonum)
    | BooleanPred(how: Int32, flag: bool)
    | CharPred(how: Int32, options: Int32, chars: Option<string>)
    | OtherPred(how: Int32)

  type Path = seq<string>

  datatype Term = Term(path: Path, inverted: bool, pred: Pred)

  type Group = seq<Term>

  /** An OR of groups, each an AND of terms. */
  type Dnf = seq<Group>

  datatype Sort = Sort(path: Path, options: Int32, increasing: bool)

  datatype Query =
    Query(terms: Dnf, searchFor: string, primary: Sort, secondary: Sort, tertiary: Sort, maxResults: Int32)

  // ----- the algebra of disjunctive normal forms -----

  function Row(g: Group, b: Dnf): Dnf {
    if b == [] then [] else [g + b[0]] + Row(g, b[1..])
  }

  function Cross(a: Dnf, b: Dnf): Dnf {
    if a == [] then [] else Row(a[0], b) + Cross(a[1..], b)
  }

  /** qof_query_merge with AND; an empty query is neutral. */
  function MergeAnd(a: Dnf, b: Dnf): Dnf {
    if a == [] || b == [] then a + b else Cross(a, b)
  }

  function Negated(g: Group): Dnf {
    if g == [] then [] else [[g[0].(inverted := !g[0].inverted)]] + Negated(g[1..])
  }

  /** qof_query_invert. */
  function Invert(d: Dnf): Dnf {
    if d == [] then []
    else if |d| == 1 then Negated(d[0])
    else MergeAnd(Invert(d[1..]), Negated(d[0]))
  }

  /** qof_query_add_term with OR: nothing is added without a path or a predicate. */
  function AddTerm(d: Dnf, path: Path, pred: Option<Pred>): Dnf {
    if path == [] || pred.None? then d else d + [[Term(path, false, pred.value)]]
  }

  // ----- meaning -----

  /** Whether the record under test satisfies a predicate at a path. */
  type Valuation = (Path, Pred) -> bool

  predicate SatTerm(h: Valuation, t: Term) {
    h(t.path, t.pred) != t.inverted
  }

  ghost predicate SatGroup(h: Valuation, g: Group) {
    forall t :: t in g ==> SatTerm(h, t)
  }

  ghost predicate Sat(h: Valuation, d: Dnf) {
    exists g :: g in d && SatGroup(h, g)
  }

  /** A query without terms matches every record. */
  ghost predicate Matches(h: Valuation, d: Dnf) {
    d == [] || Sat(h, d)
  }

  ghost predicate Proper(d: Dnf) {
    d != [] && forall g :: g in d ==> g != []
  }

  lemma SatOr(h: Valuation, a: Dnf, b: Dnf)
    ensures Sat(h, a + b) <==> Sat(h, a) || Sat(h, b)
  {
    if Sat(h, a) {
      var g :| g in a && SatGroup(h, g);
      assert g in a + b;
    }
    if Sat(h, b) {
      var g :| g in b && SatGroup(h, g);
      assert g in a + b;
    }
  }

  lemma SatSplit(h: Valuation, d: Dnf)
    requires d != []
    ensures Sat(h, d) <==> SatGroup(h, d[0]) || Sat(h, d[1..])
  {
    assert d == [d[0]] + d[1..];
    SatOr(h, [d[0]], d[1..]);
    assert d[0] in [d[0]];
  }

  lemma SatConcat(h: Valuation, g: Group, k: Group)
    ensures SatGroup(h, g + k) <==> SatGroup(h, g) && SatGroup(h, k)
  {
    if SatGroup(h, g + k) {
      assert forall t :: t in g || t in k ==> t in g + k;
    }
  }

  lemma {:induction false} SatRow(h: Valuation, g: Group, b: Dnf)
    ensures Sat(h, Row(g, b)) <==> SatGroup(h, g) && Sat(h, b)
  {
    if b != [] {
      SatRow(h, g, b[1..]);
      SatConcat(h, g, b[0]);
      SatSplit(h, b);
      SatSplit(h, Row(g, b));
      assert Row(g, b)[1..] == Row(g, b[1..]);
    }
  }

  /** The cross product of the groups is the conjunction. */
  lemma {:induction false} SatCross(h: Valuation, a: Dnf, b: Dnf)
    ensures Sat(h, Cross(a, b)) <==> Sat(h, a) && Sat(h, b)
    ensures a != [] && b != [] ==> Cross(a, b) != []
  {
    if a != [] {
      SatCross(h, a[1..], b);
      SatRow(h, a[0], b);
      SatSplit(h, a);
      SatOr(h, Row(a[0], b), Cross(a[1..], b));
      RowGroups(a[0], b);
    }
  }

  lemma {:induction false} CrossGroups(a: Dnf, b: Dnf)
    requires forall g :: g in a ==> g != []
    ensures forall g :: g in Cross(a, b) ==> g != []
  {
    if a != [] {
      assert a[0] in a && forall g :: g in a[1..] ==> g in a;
      RowGroups(a[0], b);
      CrossGroups(a[1..], b);
      forall g | g in Cross(a, b)
        ensures g != []
      {
        assert g in Row(a[0], b) || g in Cross(a[1..], b);
      }
    }
  }

  lemma {:induction false} RowGroups(g: Group, b: Dnf)
    ensures |Row(g, b)| == |b| && forall k :: k in Row(g, b) ==> |k| >= |g|
  {
    if b != [] {
      RowGroups(g, b[1..]);
    }
  }

  lemma {:induction false} SatNegated(h: Valuation, g: Group)
    ensures Sat(h, Negated(g)) <==> !SatGroup(h, g)
    ensures g != [] ==> Proper(Negated(g))
  {
    if g != [] {
      var t := g[0].(inverted := !g[0].inverted);
      SatNegated(h, g[1..]);
      SatConcat(h, [g[0]], g[1..]);
      assert g == [g[0]] + g[1..];
      SatSplit(h, Negated(g));
      assert Negated(g)[1..] == Negated(g[1..]);
      assert SatGroup(h, [t]) <==> SatTerm(h, t);
      assert SatGroup(h, [g[0]]) <==> SatTerm(h, g[0]);
    }
  }

  /** Inverting a query that has terms negates its meaning. */
  lemma {:induction false} SatInvert(h: Valuation, d: Dnf)
    requires Proper(d)
    ensures Proper(Invert(d)) && (Sat(h, Invert(d)) <==> !Sat(h, d))
  {
    SatNegated(h, d[0]);
    SatSplit(h, d);
    if |d| == 1 {
      assert d[1..] == [];
    } else {
      assert forall g :: g in d[1..] ==> g in d;
      SatInvert(h, d[1..]);
      SatCross(h, Invert(d[1..]), Negated(d[0]));
      CrossGroups(Invert(d[1..]), Negated(d[0]));
    }
  }
}
