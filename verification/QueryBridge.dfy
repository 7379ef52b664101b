/** Whole queries: the version-2 printer, the readers of both versions, and the round trip. */
module QueryBridge {
  import opened Scheme
  import opened QueryAlgebra
  import opened QueryTerms
  import opened QueryTermsV1
  import opened QueryFolds
  import opened Wrappers

  datatype Version = V1 | V2

  /** gnc_scm2query_term_query. */
  function TermReader(p: Platform, version: Version): Reader {
    match version
    case V1 => x => ReadTermV1(p, x)
    case V2 => x => ReadTermV2(p, x)
  }

  // ----- what one term means -----

  /** A version-2 term demands its predicate, or its failure if it is inverted. */
  lemma TermMeaningV2(p: Platform, h: Valuation, x: Scm)
    requires Effective(TermReader(p, V2), x)
    ensures var head := ReadHead(Elements(x)).value;
      var pred := ReadPred(p, head.name, head.how, Elements(x)[4..]).value;
      Holds(TermReader(p, V2), h, x) <==> h(head.path, pred) != head.inverted
  {
    var head := ReadHead(Elements(x)).value;
    var pred := ReadPred(p, head.name, head.how, Elements(x)[4..]).value;
    SingleTerm(head.path, head.inverted, pred);
    SatSingle(h, Term(head.path, head.inverted, pred));
  }

  /** A version-1 term demands its match, or its failure if its sense is false. */
  lemma TermMeaning(p: Platform, h: Valuation, x: Scm)
    requires Effective(TermReader(p, V1), x)
    ensures var s := ReadSensed(p, x).value;
      Holds(TermReader(p, V1), h, x) <==> (Sat(h, s.terms) <==> s.sense)
  {
    TermMeaningV1(p, h, x);
  }

  // ----- the terms that come back -----

  function TermPrinter(p: Platform): Printer {
    t => TermToScm(p, t)
  }

  /** A term is built again if its predicate can be constructed and its path is not empty. */
  function NormTerm(p: Platform, t: Term): Group {
    if Constructible(p, t.pred) && t.path != [] then [t.(pred := Rebuilt(t.pred))] else []
  }

  function TermRebuilder(p: Platform): Rebuilder {
    t => NormTerm(p, t)
  }

  function NormTerms(p: Platform, d: Dnf): Dnf {
    RebuiltDnf(TermRebuilder(p), d)
  }

  lemma TermsBack(p: Platform, d: Dnf)
    requires Lawful(p)
    ensures ReadTerms(TermReader(p, V2), PrintDnf(TermPrinter(p), d)) == Done(NormTerms(p, d))
  {
    forall t: Term
      ensures var r := TermReader(p, V2)(TermPrinter(p)(t)); !r.Fault? && Terms(r) == AsDnf(TermRebuilder(p)(t))
    {
      TermBack(p, t);
    }
    DnfBack(TermReader(p, V2), TermPrinter(p), TermRebuilder(p), d);
  }

  // ----- sorts -----

  /** gnc_query_sort2scm; a sort without a path prints as #f. */
  function SortToScm(s: Sort): Scm {
    if s.path == [] then Bool(false) else ListOf([PathToScm(s.path), Whole(s.options), Bool(s.increasing)])
  }

  function IsNumber(x: Scm): bool {
    x.Exact? || x.Inexact?
  }

  /** gnc_query_scm2sort into a sort that may already be set. */
  function ScmToSort(current: Sort, x: Scm): Outcome<Sort> {
    if current.path != [] then Skip
    else if x.Bool? then Done(current)
    else if !IsList(x) then Skip
    else
      var xs := Elements(x);
      var path :- ListAt(xs, 0);
      var n :- At(xs, 1);
      if !IsNumber(n) then Skip
      else
        var options :- ToInt32(n);
        var increasing :- BoolAt(xs, 2);
        if |xs| != 3 then Skip else Done(Sort(ScmToPath(path), options, increasing))
  }

  const NO_SORT := Sort([], 0, true)

  function NormSort(s: Sort): Sort {
    if s.path == [] then NO_SORT else s
  }

  lemma SortBack(s: Sort)
    ensures ScmToSort(NO_SORT, SortToScm(s)) == Done(NormSort(s))
  {
    var xs := [PathToScm(s.path), Whole(s.options), Bool(s.increasing)];
    ElementsOfList(xs);
    PathBack(s.path);
    assert ListOf(xs).Pair?;
  }

  // ----- whole queries -----

  function Labelled(key: string, value: Scm): Scm {
    Pair(Symbol(key), Pair(value, Nil))
  }

  function QueryEntries(p: Platform, q: Query): seq<Scm> {
    [Labelled("terms", PrintDnf(TermPrinter(p), q.terms)),
     Labelled("search-for", Symbol(q.searchFor)),
     Labelled("primary-sort", SortToScm(q.primary)),
     Labelled("secondary-sort", SortToScm(q.secondary)),
     Labelled("tertiary-sort", SortToScm(q.tertiary)),
     Labelled("max-results", Whole(q.maxResults))]
  }

  /** gnc_query2scm. */
  function QueryToScm(p: Platform, q: Query): Scm {
    Pair(Symbol("query-v2"), ListOf(QueryEntries(p, q)))
  }

  /** What the reader has gathered so far. */
  datatype Draft = Draft(terms: Option<Dnf>, searchFor: Option<string>,
                         primary: Sort, secondary: Sort, tertiary: Sort, maxResults: Int32)

  const EMPTY_DRAFT := Draft(None, None, NO_SORT, NO_SORT, NO_SORT, -1)

  function StepV2(p: Platform, d: Draft, key: string, value: Scm): Outcome<Draft> {
    if key == "terms" then
      var terms :- ReadTerms(TermReader(p, V2), value);
      Done(d.(terms := Some(terms)))
    else if key == "search-for" then
      if value.Symbol? then Done(d.(searchFor := Some(value.name))) else Skip
    else if key == "primary-sort" then
      var sort :- ScmToSort(d.primary, value);
      Done(d.(primary := sort))
    else if key == "secondary-sort" then
      var sort :- ScmToSort(d.secondary, value);
      Done(d.(secondary := sort))
    else if key == "tertiary-sort" then
      var sort :- ScmToSort(d.tertiary, value);
      Done(d.(tertiary := sort))
    else if key == "max-results" then
      if !IsNumber(value) then Skip
      else
        var n :- ToInt32(value);
        Done(d.(maxResults := n))
    else Skip
  }

  /** gnc_query_sort_to_list. */
  function SortPath(symbol: string): Path {
    if symbol == "by-standard" then ["QofQueryDefaultSort"]
    else if symbol == "by-date" || symbol == "by-date-rounded" then ["trans", "date-posted"]
    else if symbol == "by-date-entered" || symbol == "by-date-entered-rounded" then ["trans", "date-entered"]
    else if symbol == "by-date-reconciled" || symbol == "by-date-reconciled-rounded" then ["date-reconciled"]
    else if symbol == "by-num" then ["trans", "num"]
    else if symbol == "by-amount" then ["value"]
    else if symbol == "by-memo" then ["memo"]
    else if symbol == "by-desc" then ["trans", "desc"]
    else if symbol == "by-reconcile" then ["reconcile-flag"]
    else if symbol == "by-account-full-name" then ["acct-fullname"]
    else if symbol == "by-account-code" then ["account", "code"]
    else if symbol == "by-corr-account-full-name" then ["corr-acct-fullname"]
    else if symbol == "by-corr-account-code" then ["corr-acct-code"]
    else []
  }

  function StepV1(p: Platform, d: Draft, key: string, value: Scm): Outcome<Draft> {
    if key == "terms" then
      var terms :- ReadTerms(TermReader(p, V1), value);
      Done(d.(terms := Some(terms)))
    else if key == "primary-sort" then
      if value.Symbol? then Done(d.(primary := d.primary.(path := SortPath(value.name)))) else Skip
    else if key == "secondary-sort" then
      if value.Symbol? then Done(d.(secondary := d.secondary.(path := SortPath(value.name)))) else Skip
    else if key == "tertiary-sort" then
      if value.Symbol? then Done(d.(tertiary := d.tertiary.(path := SortPath(value.name)))) else Skip
    else if key == "primary-increasing" then Done(d.(primary := d.primary.(increasing := value != Bool(false))))
    else if key == "secondary-increasing" then Done(d.(secondary := d.secondary.(increasing := value != Bool(false))))
    else if key == "tertiary-increasing" then Done(d.(tertiary := d.tertiary.(increasing := value != Bool(false))))
    else if key == "max-splits" then
      if !IsNumber(value) then Skip
      else
        var n :- ToInt32(value);
        Done(d.(maxResults := n))
    else Skip
  }

  function Step(p: Platform, version: Version, d: Draft, entry: Scm): Outcome<Draft> {
    if !entry.Pair? then Skip
    else if !entry.cdr.Pair? then Fault
    else if !entry.car.Symbol? then Skip
    else match version
      case V1 => StepV1(p, d, entry.car.name, entry.cdr.car)
      case V2 => StepV2(p, d, entry.car.name, entry.cdr.car)
  }

  function EntryFold(p: Platform, version: Version, xs: seq<Scm>, d: Draft): Outcome<Draft>
    decreases xs
  {
    if xs == [] then Done(d)
    else
      var next :- Step(p, version, d, xs[0]);
      EntryFold(p, version, xs[1..], next)
  }

  /** A version-1 query is always about splits; a version-2 query has to say what it searches for. */
  function Finish(version: Version, d: Draft): Outcome<Query> {
    if d.terms.None? || (version.V2? && d.searchFor.None?) then Skip
    else
      var searchFor := if version.V2? then d.searchFor.value else "Split";
      Done(Query(d.terms.value, searchFor, d.primary, d.secondary, d.tertiary, d.maxResults))
  }

  function ReadQuery(p: Platform, version: Version, x: Scm): Outcome<Query> {
    var d :- EntryFold(p, version, Elements(x), EMPTY_DRAFT);
    Finish(version, d)
  }

  /** gnc_scm2query_v1 and gnc_scm2query_v2: a loop over the labelled entries. */
  method EntriesToQuery(p: Platform, version: Version, queryScm: Scm) returns (q: Outcome<Query>)
    requires IsList(queryScm)
    ensures q == ReadQuery(p, version, queryScm)
  {
    var d := EMPTY_DRAFT;
    var rest := queryScm;
    while rest != Nil
      invariant IsList(rest)
      invariant EntryFold(p, version, Elements(rest), d) == EntryFold(p, version, Elements(queryScm), EMPTY_DRAFT)
      decreases rest
    {
      assert Elements(rest)[0] == rest.car && Elements(rest)[1..] == Elements(rest.cdr);
      var next := Step(p, version, d, rest.car);
      rest := rest.cdr;
      if !next.Done? {
        return next.PropagateFailure();
      }
      d := next.value;
    }
    return Finish(version, d);
  }

  /** gnc_scm2query: a list that starts with a pair is a version-1 query, one that starts with the tag is version 2. */
  function ScmToQuery(p: Platform, x: Scm): Outcome<Query> {
    if !IsList(x) || x == Nil then Skip
    else if x.car.Pair? then ReadQuery(p, V1, x)
    else if x.car == Symbol("query-v2") then ReadQuery(p, V2, x.cdr)
    else Skip
  }

  // ----- the round trip -----

  function NormQuery(p: Platform, q: Query): Query {
    Query(NormTerms(p, q.terms), q.searchFor,
          NormSort(q.primary), NormSort(q.secondary), NormSort(q.tertiary), q.maxResults)
  }

  lemma EntryStep(p: Platform, xs: seq<Scm>, i: nat, d: Draft, next: Draft)
    requires i < |xs| && Step(p, V2, d, xs[i]) == Done(next)
    ensures EntryFold(p, V2, xs[i..], d) == EntryFold(p, V2, xs[i + 1..], next)
  {
    assert xs[i..][1..] == xs[i + 1..];
  }

  lemma SortsRead(p: Platform, q: Query, d: Draft)
    requires d.primary == d.secondary == d.tertiary == NO_SORT
    ensures var xs := QueryEntries(p, q);
      EntryFold(p, V2, xs[2..], d) == EntryFold(p, V2, xs[5..],
        d.(primary := NormSort(q.primary), secondary := NormSort(q.secondary), tertiary := NormSort(q.tertiary)))
  {
    var xs := QueryEntries(p, q);
    SortBack(q.primary);
    SortBack(q.secondary);
    SortBack(q.tertiary);
    var d1 := d.(primary := NormSort(q.primary));
    var d2 := d1.(secondary := NormSort(q.secondary));
    EntryStep(p, xs, 2, d, d1);
    EntryStep(p, xs, 3, d1, d2);
    EntryStep(p, xs, 4, d2, d2.(tertiary := NormSort(q.tertiary)));
  }

  lemma HeadRead(p: Platform, q: Query)
    requires Lawful(p)
    ensures var xs := QueryEntries(p, q);
      EntryFold(p, V2, xs, EMPTY_DRAFT) == EntryFold(p, V2, xs[2..],
        EMPTY_DRAFT.(terms := Some(NormTerms(p, q.terms)), searchFor := Some(q.searchFor)))
  {
    var xs := QueryEntries(p, q);
    TermsBack(p, q.terms);
    var d := EMPTY_DRAFT.(terms := Some(NormTerms(p, q.terms)));
    EntryStep(p, xs, 0, EMPTY_DRAFT, d);
    EntryStep(p, xs, 1, d, d.(searchFor := Some(q.searchFor)));
    assert xs[0..] == xs;
  }

  lemma LimitRead(p: Platform, q: Query, d: Draft)
    ensures EntryFold(p, V2, QueryEntries(p, q)[5..], d) == Done(d.(maxResults := q.maxResults))
  {
    var xs := QueryEntries(p, q);
    EntryStep(p, xs, 5, d, d.(maxResults := q.maxResults));
    assert xs[6..] == [];
  }

  /** The entries fill the draft. */
  lemma EntriesRead(p: Platform, q: Query)
    requires Lawful(p)
    ensures var n := NormQuery(p, q);
      EntryFold(p, V2, QueryEntries(p, q), EMPTY_DRAFT) ==
        Done(Draft(Some(n.terms), Some(n.searchFor), n.primary, n.secondary, n.tertiary, n.maxResults))
  {
    var d := EMPTY_DRAFT.(terms := Some(NormTerms(p, q.terms)), searchFor := Some(q.searchFor));
    HeadRead(p, q);
    SortsRead(p, q, d);
    LimitRead(p, q, d.(primary := NormSort(q.primary), secondary := NormSort(q.secondary),
                       tertiary := NormSort(q.tertiary)));
  }

  /** A printed query reads back with the same search type and limit, its terms less those that cannot be
      built, and its sorts, where a sort without a path comes back as the default. */
  lemma QueryRoundTrip(p: Platform, q: Query)
    requires Lawful(p)
    ensures ScmToQuery(p, QueryToScm(p, q)) == Done(NormQuery(p, q))
  {
    ElementsOfList(QueryEntries(p, q));
    EntriesRead(p, q);
  }

  /** The constructors give the term back as it is. */
  predicate Survives(p: Platform, t: Term) {
    && t.path != []
    && Constructible(p, t.pred)
    && (t.pred.GuidPred? || t.pred.CharPred? ==> t.pred.how == COMPARE_EQUAL)
  }

  lemma SurvivesRebuilt(p: Platform, t: Term)
    ensures Survives(p, t) <==> NormTerm(p, t) == [t]
  {
    var u := t.(pred := Rebuilt(t.pred));
    assert u == t <==> (t.pred.GuidPred? || t.pred.CharPred? ==> t.pred.how == COMPARE_EQUAL);
    assert [u] == [t] <==> u == t by {
      ConsSame(u, [], t, []);
      assert [u] + [] == [u] && [t] + [] == [t];
    }
  }

  /** A query comes back unchanged exactly when no group is empty, every term survives, and every sort
      without a path is the default one. */
  lemma QueryUnchanged(p: Platform, q: Query)
    requires Lawful(p)
    ensures ScmToQuery(p, QueryToScm(p, q)) == Done(q)
      <==> ((forall g :: g in q.terms ==> g != [] && forall t :: t in g ==> Survives(p, t))
            && forall s :: s in [q.primary, q.secondary, q.tertiary] && s.path == [] ==> s == NO_SORT)
  {
    QueryRoundTrip(p, q);
    DnfUnchanged(TermRebuilder(p), q.terms);
    forall t: Term
      ensures Survives(p, t) <==> TermRebuilder(p)(t) == [t]
    {
      SurvivesRebuilt(p, t);
    }
    var sorts := [q.primary, q.secondary, q.tertiary];
    assert sorts[0] in sorts && sorts[1] in sorts && sorts[2] in sorts;
  }
}
