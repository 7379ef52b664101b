/** What the labelled entries of a version-1 query set. */
module QueryLabels {
  import opened Scheme
  import opened QueryAlgebra
  import opened QueryTerms
  import opened QueryFolds
  import opened QueryBridge
  import opened Wrappers

  /** An entry (key value ...). */
  predicate Labels(entry: Scm, key: string) {
    entry.Pair? && entry.cdr.Pair? && entry.car == Symbol(key)
  }

  /** The value of the last entry with a label. */
  function LastValue(xs: seq<Scm>, key: string): Option<Scm> {
    if xs == [] then None
    else
      var later := LastValue(xs[1..], key);
      if later.Some? then later
      else if Labels(xs[0], key) then Some(xs[0].cdr.car) else None
  }

  /** What the entries make of a setting that only one label changes. */
  function Setting<T>(xs: seq<Scm>, key: string, before: T, read: Scm -> T): T {
    match LastValue(xs, key)
    case Some(v) => read(v)
    case None => before
  }

  lemma SettingNext<T>(xs: seq<Scm>, key: string, before: T, read: Scm -> T)
    requires xs != []
    ensures Setting(xs, key, before, read) ==
      Setting(xs[1..], key, if Labels(xs[0], key) then read(xs[0].cdr.car) else before, read)
  {
  }

  /** The sort that each symbol asks for; an unknown one asks for none. */
  const SORT_PATHS: map<string, Path> := map[
    "by-standard" := ["QofQueryDefaultSort"],
    "by-date" := ["trans", "date-posted"],
    "by-date-rounded" := ["trans", "date-posted"],
    "by-date-entered" := ["trans", "date-entered"],
    "by-date-entered-rounded" := ["trans", "date-entered"],
    "by-date-reconciled" := ["date-reconciled"],
    "by-date-reconciled-rounded" := ["date-reconciled"],
    "by-num" := ["trans", "num"],
    "by-amount" := ["value"],
    "by-memo" := ["memo"],
    "by-desc" := ["trans", "desc"],
    "by-reconcile" := ["reconcile-flag"],
    "by-account-full-name" := ["acct-fullname"],
    "by-account-code" := ["account", "code"],
    "by-corr-account-full-name" := ["corr-acct-fullname"],
    "by-corr-account-code" := ["corr-acct-code"]]

  function SortKey(v: Scm): Path {
    if v.Symbol? && v.name in SORT_PATHS then SORT_PATHS[v.name] else []
  }

  lemma SortPathIs(symbol: string)
    ensures SortPath(symbol) == if symbol in SORT_PATHS then SORT_PATHS[symbol] else []
  {
  }

  function Flag(v: Scm): bool {
    v != Bool(false)
  }

  /** The labels are different texts. */
  lemma LabelsDiffer(key: string)
    ensures key == "terms" ==> |key| == 5
    ensures key == "max-splits" ==> |key| == 10
    ensures key == "primary-sort" ==> |key| == 12
    ensures key == "tertiary-sort" ==> |key| == 13
    ensures key == "secondary-sort" ==> |key| == 14
    ensures key == "primary-increasing" ==> |key| == 18
    ensures key == "tertiary-increasing" ==> |key| == 19
    ensures key == "secondary-increasing" ==> |key| == 20
  {
  }

  lemma StepPaths(p: Platform, d: Draft, key: string, value: Scm)
    requires StepV1(p, d, key, value).Done?
    ensures var n := StepV1(p, d, key, value).value;
      && n.primary.path == (if key == "primary-sort" then SortKey(value) else d.primary.path)
      && n.secondary.path == (if key == "secondary-sort" then SortKey(value) else d.secondary.path)
      && n.tertiary.path == (if key == "tertiary-sort" then SortKey(value) else d.tertiary.path)
  {
    LabelsDiffer(key);
    if value.Symbol? {
      SortPathIs(value.name);
    }
  }

  lemma StepFlags(p: Platform, d: Draft, key: string, value: Scm)
    requires StepV1(p, d, key, value).Done?
    ensures var n := StepV1(p, d, key, value).value;
      && n.primary.increasing == (if key == "primary-increasing" then Flag(value) else d.primary.increasing)
      && n.secondary.increasing == (if key == "secondary-increasing" then Flag(value) else d.secondary.increasing)
      && n.tertiary.increasing == (if key == "tertiary-increasing" then Flag(value) else d.tertiary.increasing)
  {
    LabelsDiffer(key);
  }

  /** The terms that a value is read as, where it is read. */
  function TermsIn(p: Platform, v: Scm): Option<Dnf> {
    var r := ReadTerms(TermReader(p, V1), v);
    if r.Done? then Some(r.value) else None
  }

  function Limit(v: Scm): int {
    var r := ToInt32(v);
    if r.Done? then r.value else 0
  }

  lemma StepOthers(p: Platform, d: Draft, key: string, value: Scm)
    requires StepV1(p, d, key, value).Done?
    ensures var n := StepV1(p, d, key, value).value;
      && n.terms == (if key == "terms" then TermsIn(p, value) else d.terms)
      && n.maxResults == (if key == "max-splits" then Limit(value) else d.maxResults)
      && n.searchFor == d.searchFor && n.primary.options == d.primary.options
      && n.secondary.options == d.secondary.options && n.tertiary.options == d.tertiary.options
  {
    LabelsDiffer(key);
  }

  /** A sort has the key and the direction of the last entries with its labels. */
  predicate SortSettles(xs: seq<Scm>, name: string, direction: string, before: Sort, after: Sort) {
    && after.path == Setting(xs, name, before.path, SortKey)
    && after.increasing == Setting(xs, direction, before.increasing, Flag)
    && after.options == before.options
  }

  /** What entries make of a draft: each setting is that of the last entry with its label. */
  ghost predicate Settles(p: Platform, xs: seq<Scm>, d: Draft, n: Draft) {
    && n.terms == Setting(xs, "terms", d.terms, v => TermsIn(p, v))
    && n.searchFor == d.searchFor
    && SortSettles(xs, "primary-sort", "primary-increasing", d.primary, n.primary)
    && SortSettles(xs, "secondary-sort", "secondary-increasing", d.secondary, n.secondary)
    && SortSettles(xs, "tertiary-sort", "tertiary-increasing", d.tertiary, n.tertiary)
    && n.maxResults == Setting(xs, "max-splits", d.maxResults, Limit)
  }

  lemma SortNext(xs: seq<Scm>, name: string, direction: string, before: Sort, next: Sort, after: Sort)
    requires xs != [] && SortSettles(xs[1..], name, direction, next, after) && next.options == before.options
    requires next.path == if Labels(xs[0], name) then SortKey(xs[0].cdr.car) else before.path
    requires next.increasing == if Labels(xs[0], direction) then Flag(xs[0].cdr.car) else before.increasing
    ensures SortSettles(xs, name, direction, before, after)
  {
    SettingNext(xs, name, before.path, SortKey);
    SettingNext(xs, direction, before.increasing, Flag);
  }

  lemma SettlesNext(p: Platform, xs: seq<Scm>, d: Draft, next: Draft, n: Draft)
    requires xs != [] && Step(p, V1, d, xs[0]) == Done(next) && Settles(p, xs[1..], next, n)
    ensures Settles(p, xs, d, n)
  {
    var key, value := xs[0].car.name, xs[0].cdr.car;
    assert forall name :: Labels(xs[0], name) <==> key == name;
    StepPaths(p, d, key, value);
    StepFlags(p, d, key, value);
    StepOthers(p, d, key, value);
    SettingNext(xs, "terms", d.terms, v => TermsIn(p, v));
    SettingNext(xs, "max-splits", d.maxResults, Limit);
    SortNext(xs, "primary-sort", "primary-increasing", d.primary, next.primary, n.primary);
    SortNext(xs, "secondary-sort", "secondary-increasing", d.secondary, next.secondary, n.secondary);
    SortNext(xs, "tertiary-sort", "tertiary-increasing", d.tertiary, next.tertiary, n.tertiary);
  }

  lemma {:induction false} EntriesSettle(p: Platform, xs: seq<Scm>, d: Draft)
    requires EntryFold(p, V1, xs, d).Done?
    ensures Settles(p, xs, d, EntryFold(p, V1, xs, d).value)
  {
    if xs != [] {
      var next := Step(p, V1, d, xs[0]).value;
      EntriesSettle(p, xs[1..], next);
      SettlesNext(p, xs, d, next, EntryFold(p, V1, xs, d).value);
    }
  }

  /** An entry that the reader takes: terms that it reads, a sort by a symbol, any direction, or a limit that is a
      32-bit integer. */
  ghost predicate Accepted(p: Platform, entry: Scm) {
    && entry.Pair? && entry.cdr.Pair? && entry.car.Symbol?
    && var key, value := entry.car.name, entry.cdr.car;
       || (key == "terms" && ReadTerms(TermReader(p, V1), value).Done?)
       || (key in {"primary-sort", "secondary-sort", "tertiary-sort"} && value.Symbol?)
       || key in {"primary-increasing", "secondary-increasing", "tertiary-increasing"}
       || (key == "max-splits" && value.Exact? && ToInt32(value).Done?)
  }

  lemma StepAccepted(p: Platform, d: Draft, entry: Scm)
    ensures Step(p, V1, d, entry).Done? <==> Accepted(p, entry)
  {
    if entry.Pair? && entry.cdr.Pair? && entry.car.Symbol? {
      LabelsDiffer(entry.car.name);
    }
  }

  lemma {:induction false} EntriesAccepted(p: Platform, xs: seq<Scm>, d: Draft)
    ensures EntryFold(p, V1, xs, d).Done? <==> forall x :: x in xs ==> Accepted(p, x)
  {
    if xs != [] {
      assert xs == [xs[0]] + xs[1..];
      StepAccepted(p, d, xs[0]);
      if Accepted(p, xs[0]) {
        EntriesAccepted(p, xs[1..], Step(p, V1, d, xs[0]).value);
      }
    }
  }

  /** A list that begins with a pair is read as a version-1 query exactly when all its entries are accepted and one of
      them has terms. */
  lemma QueryV1Accepted(p: Platform, x: Scm)
    requires IsList(x) && x.Pair? && x.car.Pair?
    ensures ScmToQuery(p, x).Done?
      <==> (forall y :: y in Elements(x) ==> Accepted(p, y)) && exists y :: y in Elements(x) && Labels(y, "terms")
  {
    EntriesAccepted(p, Elements(x), EMPTY_DRAFT);
    if EntryFold(p, V1, Elements(x), EMPTY_DRAFT).Done? {
      TermsSet(p, Elements(x), EntryFold(p, V1, Elements(x), EMPTY_DRAFT).value);
    }
  }

  /** Accepted entries set the terms exactly if one of them has terms. */
  lemma TermsSet(p: Platform, xs: seq<Scm>, d: Draft)
    requires EntryFold(p, V1, xs, EMPTY_DRAFT) == Done(d) && forall y :: y in xs ==> Accepted(p, y)
    ensures d.terms.Some? <==> exists y :: y in xs && Labels(y, "terms")
  {
    EntriesSettle(p, xs, EMPTY_DRAFT);
    ValueIff(xs, "terms");
    if LastValue(xs, "terms").Some? {
      var y :| y in xs && Labels(y, "terms") && y.cdr.car == LastValue(xs, "terms").value;
      TermsAccepted(p, y);
    }
  }

  lemma TermsAccepted(p: Platform, entry: Scm)
    requires Accepted(p, entry) && Labels(entry, "terms")
    ensures TermsIn(p, entry.cdr.car).Some?
  {
    LabelsDiffer(entry.car.name);
  }

  lemma {:induction false} ValueIff(xs: seq<Scm>, key: string)
    ensures LastValue(xs, key).Some? <==> exists y :: y in xs && Labels(y, key)
    ensures forall v :: LastValue(xs, key) == Some(v) ==> exists y :: y in xs && Labels(y, key) && y.cdr.car == v
  {
    if xs != [] {
      assert xs == [xs[0]] + xs[1..];
      ValueIff(xs[1..], key);
    }
  }

  /** A version-1 query is about splits, has the terms of its last terms entry, sorts by what the last entries of its
      labels say, increasing unless they say otherwise, and has the limit of the last limit entry. */
  lemma QueryV1Settings(p: Platform, x: Scm)
    requires IsList(x) && x.Pair? && x.car.Pair? && ScmToQuery(p, x).Done?
    ensures var q, xs := ScmToQuery(p, x).value, Elements(x);
      && q.searchFor == "Split"
      && Some(q.terms) == Setting(xs, "terms", None, v => TermsIn(p, v))
      && SortSettles(xs, "primary-sort", "primary-increasing", Sort([], 0, true), q.primary)
      && SortSettles(xs, "secondary-sort", "secondary-increasing", Sort([], 0, true), q.secondary)
      && SortSettles(xs, "tertiary-sort", "tertiary-increasing", Sort([], 0, true), q.tertiary)
      && q.maxResults == Setting(xs, "max-splits", -1, Limit)
  {
    EntriesSettle(p, Elements(x), EMPTY_DRAFT);
  }

  // ----- version 2: what is printed under which label -----

  /** The printed form of a sort: its key, its options and its direction, or #f without a key. */
  function SortForm(s: Sort): Scm {
    if s.path == [] then Bool(false)
    else Pair(PathToScm(s.path), Pair(Whole(s.options), Pair(Bool(s.increasing), Nil)))
  }

  /** A printed query is tagged and has one entry for each of its six parts. */
  lemma PrintedQuery(p: Platform, q: Query)
    ensures var x := QueryToScm(p, q);
      && x.Pair? && x.car == Symbol("query-v2") && IsList(x.cdr)
      && var xs := Elements(x.cdr);
         && |xs| == 6
         && LastValue(xs, "terms") == Some(PrintDnf(TermPrinter(p), q.terms))
         && LastValue(xs, "search-for") == Some(Symbol(q.searchFor))
         && LastValue(xs, "primary-sort") == Some(SortForm(q.primary))
         && LastValue(xs, "secondary-sort") == Some(SortForm(q.secondary))
         && LastValue(xs, "tertiary-sort") == Some(SortForm(q.tertiary))
         && LastValue(xs, "max-results") == Some(Whole(q.maxResults))
  {
    var xs := QueryEntries(p, q);
    ElementsOfList(xs);
    SortPrinted(q.primary);
    SortPrinted(q.secondary);
    SortPrinted(q.tertiary);
    LastOf(xs, 0, "terms");
    LastOf(xs, 1, "search-for");
    LastOf(xs, 2, "primary-sort");
    LastOf(xs, 3, "secondary-sort");
    LastOf(xs, 4, "tertiary-sort");
    LastOf(xs, 5, "max-results");
  }

  lemma SortPrinted(s: Sort)
    ensures SortToScm(s) == SortForm(s)
  {
    ListOfThree(PathToScm(s.path), Whole(s.options), Bool(s.increasing));
  }

  lemma ListOfThree(a: Scm, b: Scm, c: Scm)
    ensures ListOf([a, b, c]) == Pair(a, Pair(b, Pair(c, Nil)))
  {
    assert [a, b, c][1..] == [b, c] && [b, c][1..] == [c] && [c][1..] == [];
    assert ListOf([c]) == Pair(c, Nil);
    assert ListOf([b, c]) == Pair(b, Pair(c, Nil));
  }

  /** Printed terms are a list of groups, each the list of its printed terms. */
  lemma PrintedTerms(p: Platform, d: Dnf)
    ensures var x := PrintDnf(TermPrinter(p), d);
      && IsList(x) && |Elements(x)| == |d|
      && forall i :: 0 <= i < |d| ==>
           && IsList(Elements(x)[i]) && |Elements(Elements(x)[i])| == |d[i]|
           && forall j :: 0 <= j < |d[i]| ==> Elements(Elements(x)[i])[j] == TermToScm(p, d[i][j])
  {
    var show := TermPrinter(p);
    ElementsOfList(DnfScms(show, d));
    DnfScmsAt(show, d);
    forall i | 0 <= i < |d|
      ensures var y := Elements(PrintDnf(show, d))[i];
        && IsList(y) && |Elements(y)| == |d[i]|
        && forall j :: 0 <= j < |d[i]| ==> Elements(y)[j] == TermToScm(p, d[i][j])
    {
      ElementsOfList(GroupScms(show, d[i]));
      GroupScmsAt(show, d[i]);
    }
  }

  lemma {:induction false} DnfScmsAt(show: Printer, d: Dnf)
    ensures |DnfScms(show, d)| == |d|
    ensures forall i :: 0 <= i < |d| ==> DnfScms(show, d)[i] == ListOf(GroupScms(show, d[i]))
  {
    if d != [] {
      DnfScmsAt(show, d[1..]);
    }
  }

  lemma {:induction false} GroupScmsAt(show: Printer, g: Group)
    ensures |GroupScms(show, g)| == |g| && forall j :: 0 <= j < |g| ==> GroupScms(show, g)[j] == show(g[j])
  {
    if g != [] {
      GroupScmsAt(show, g[1..]);
    }
  }

  /** An entry is the last one of its label if no later one has it. */
  lemma {:induction false} LastOf(xs: seq<Scm>, i: nat, key: string)
    requires i < |xs| && Labels(xs[i], key) && forall j :: i < j < |xs| ==> !Labels(xs[j], key)
    ensures LastValue(xs, key) == Some(xs[i].cdr.car)
  {
    if i > 0 {
      LastOf(xs[1..], i - 1, key);
    } else {
      NoneBehind(xs[1..], key);
    }
  }

  lemma {:induction false} NoneBehind(xs: seq<Scm>, key: string)
    requires forall j :: 0 <= j < |xs| ==> !Labels(xs[j], key)
    ensures LastValue(xs, key) == None
  {
    if xs != [] {
      NoneBehind(xs[1..], key);
    }
  }
}
