/** Folding the nested term lists of a query into one query. The folds are the same for both versions of
    the term lists; the reader of a single term is a parameter. */
module QueryFolds {
  import opened Scheme
  import opened QueryAlgebra
  import opened QueryTerms

  type Reader = Scm -> Outcome<Dnf>

  // ----- folding the lists -----

  /** ANDs one more term onto the query so far; a term that reads as null is passed over. */
  function Joined(acc: Outcome<Dnf>, term: Outcome<Dnf>): Outcome<Dnf> {
    if term.Fault? || acc.Skip? then term
    else if term.Skip? then acc
    else if acc.Done? then Done(MergeAnd(acc.value, term.value))
    else Fault
  }

  function AndFold(read: Reader, xs: seq<Scm>, acc: Outcome<Dnf>): Outcome<Dnf>
    decreases xs
  {
    if xs == [] || acc.Fault? then acc else AndFold(read, xs[1..], Joined(acc, read(xs[0])))
  }

  function ReadGroup(read: Reader, x: Scm): Outcome<Dnf> {
    if IsList(x) then AndFold(read, Elements(x), Skip) else Skip
  }

  function OrFold(read: Reader, xs: seq<Scm>, q: Dnf): Outcome<Dnf>
    decreases xs
  {
    if xs == [] then Done(q)
    else match ReadGroup(read, xs[0])
      case Fault => Fault
      case Skip => OrFold(read, xs[1..], q)
      case Done(d) => OrFold(read, xs[1..], q + d)
  }

  function ReadTerms(read: Reader, x: Scm): Outcome<Dnf> {
    if IsList(x) then OrFold(read, Elements(x), []) else Skip
  }

  /** gnc_scm2query_and_terms. */
  method ScmToAndTerms(read: Reader, andTerms: Scm) returns (r: Outcome<Dnf>)
    ensures r == ReadGroup(read, andTerms)
  {
    if !IsList(andTerms) {
      return Skip;
    }
    var q: Outcome<Dnf> := Skip;
    var rest := andTerms;
    while rest != Nil
      invariant IsList(rest) && !q.Fault?
      invariant AndFold(read, Elements(rest), q) == AndFold(read, Elements(andTerms), Skip)
      decreases rest
    {
      assert Elements(rest)[0] == rest.car && Elements(rest)[1..] == Elements(rest.cdr);
      var term := read(rest.car);
      rest := rest.cdr;
      if term.Fault? {
        return Fault;
      }
      if q.Skip? {
        q := term;
      } else if term.Done? {
        q := Done(MergeAnd(q.value, term.value));
      }
    }
    return q;
  }

  /** gnc_scm2query_or_terms. */
  method ScmToOrTerms(read: Reader, orTerms: Scm) returns (r: Outcome<Dnf>)
    ensures r == ReadTerms(read, orTerms)
  {
    if !IsList(orTerms) {
      return Skip;
    }
    var q: Dnf := [];
    var rest := orTerms;
    while rest != Nil
      invariant IsList(rest)
      invariant OrFold(read, Elements(rest), q) == OrFold(read, Elements(orTerms), [])
      decreases rest
    {
      assert Elements(rest)[0] == rest.car && Elements(rest)[1..] == Elements(rest.cdr);
      var group := ScmToAndTerms(read, rest.car);
      rest := rest.cdr;
      if group.Fault? {
        return Fault;
      }
      if group.Done? {
        q := q + group.value;
      }
    }
    return Done(q);
  }

  // ----- the folds keep the meaning -----

  function Terms(r: Outcome<Dnf>): Dnf {
    if r.Done? then r.value else []
  }

  /** The term adds something to the query. */
  predicate Effective(read: Reader, x: Scm) {
    Terms(read(x)) != []
  }

  ghost predicate Holds(read: Reader, h: Valuation, x: Scm) {
    Sat(h, Terms(read(x)))
  }

  predicate EffectiveGroup(read: Reader, g: Scm) {
    IsList(g) && exists x :: x in Elements(g) && Effective(read, x)
  }

  ghost predicate GroupHolds(read: Reader, h: Valuation, g: Scm) {
    forall x :: x in Elements(g) && Effective(read, x) ==> Holds(read, h, x)
  }

  lemma HeadOrRest<T>(xs: seq<T>)
    requires xs != []
    ensures forall x :: x in xs <==> x == xs[0] || x in xs[1..]
  {
  }

  lemma MergeMeaning(h: Valuation, a: Dnf, b: Dnf)
    ensures MergeAnd(a, b) == [] <==> a == [] && b == []
    ensures MergeAnd(a, b) != []
      ==> (Sat(h, MergeAnd(a, b)) <==> (a == [] || Sat(h, a)) && (b == [] || Sat(h, b)))
  {
    assert [] + b == b && a + [] == a;
    SatCross(h, a, b);
  }

  lemma JoinedMeaning(h: Valuation, acc: Outcome<Dnf>, t: Outcome<Dnf>)
    requires !acc.Fault? && !t.Fault?
    ensures var d := Terms(Joined(acc, t));
      && (d == [] <==> Terms(acc) == [] && Terms(t) == [])
      && (d != [] ==> (Sat(h, d) <==> (Terms(acc) == [] || Sat(h, Terms(acc))) && (Terms(t) == [] || Sat(h, Terms(t)))))
  {
    MergeMeaning(h, Terms(acc), Terms(t));
  }

  /** After an error the fold stays at it. */
  lemma NoFault(read: Reader, xs: seq<Scm>, acc: Outcome<Dnf>)
    requires xs != [] && !AndFold(read, xs, acc).Fault?
    ensures !acc.Fault? && !read(xs[0]).Fault?
  {
  }

  lemma {:induction false} AndMeaning(read: Reader, h: Valuation, xs: seq<Scm>, acc: Outcome<Dnf>)
    requires !acc.Fault? && !AndFold(read, xs, acc).Fault?
    ensures var d := Terms(AndFold(read, xs, acc));
      && (d == [] <==> Terms(acc) == [] && forall x :: x in xs ==> !Effective(read, x))
      && (d != [] ==>
        (Sat(h, d) <==>
          ((Terms(acc) == [] || Sat(h, Terms(acc)))
          && forall x :: x in xs && Effective(read, x) ==> Holds(read, h, x))))
    decreases xs
  {
    if xs != [] {
      HeadOrRest(xs);
      var t := read(xs[0]);
      NoFault(read, xs, acc);
      JoinedMeaning(h, acc, t);
      AndMeaning(read, h, xs[1..], Joined(acc, t));
      assert Effective(read, xs[0]) <==> Terms(t) != [];
    }
  }

  lemma GroupMeaning(read: Reader, h: Valuation, g: Scm)
    requires !ReadGroup(read, g).Fault?
    ensures var d := Terms(ReadGroup(read, g));
      && (d != [] <==> EffectiveGroup(read, g))
      && (Sat(h, d) <==> EffectiveGroup(read, g) && GroupHolds(read, h, g))
  {
    if IsList(g) {
      AndMeaning(read, h, Elements(g), Skip);
    }
  }

  lemma {:induction false} OrMeaning(read: Reader, h: Valuation, xs: seq<Scm>, q: Dnf)
    requires OrFold(read, xs, q).Done?
    ensures var d := OrFold(read, xs, q).value;
      && (d == [] <==> q == [] && forall g :: g in xs ==> !EffectiveGroup(read, g))
      && (Sat(h, d) <==>
        (Sat(h, q) || exists g :: g in xs && EffectiveGroup(read, g) && GroupHolds(read, h, g)))
    decreases xs
  {
    if xs != [] {
      HeadOrRest(xs);
      var d := Terms(ReadGroup(read, xs[0]));
      GroupMeaning(read, h, xs[0]);
      assert q + [] == q;
      SatOr(h, q, d);
      OrMeaning(read, h, xs[1..], q + d);
    }
  }

  /** The query built from nested term lists matches a record exactly when the terms of some group that
      adds anything all hold, or when no group adds anything. */
  lemma ReadMeaning(read: Reader, h: Valuation, x: Scm)
    requires ReadTerms(read, x).Done?
    ensures Matches(h, ReadTerms(read, x).value)
      <==> ((exists g :: g in Elements(x) && EffectiveGroup(read, g) && GroupHolds(read, h, g))
            || forall g :: g in Elements(x) ==> !EffectiveGroup(read, g))
  {
    OrMeaning(read, h, Elements(x), []);
  }

  // ----- folding printed terms -----

  type Printer = Term -> Scm

  /** What a printed term is rebuilt as: itself in some form, or nothing. */
  type Rebuilder = Term -> Group

  function GroupScms(show: Printer, g: Group): seq<Scm> {
    if g == [] then [] else [show(g[0])] + GroupScms(show, g[1..])
  }

  function DnfScms(show: Printer, d: Dnf): seq<Scm> {
    if d == [] then [] else [ListOf(GroupScms(show, d[0]))] + DnfScms(show, d[1..])
  }

  function PrintDnf(show: Printer, d: Dnf): Scm {
    ListOf(DnfScms(show, d))
  }

  /** gnc_query_terms2scm: both lists are consed up backwards and reversed. */
  method TermsToScm(show: Printer, d: Dnf) returns (orTerms: Scm)
    ensures orTerms == PrintDnf(show, d)
  {
    orTerms := Nil;
    for i := 0 to |d|
      invariant ReverseOnto(orTerms, ListOf(DnfScms(show, d[i..]))) == PrintDnf(show, d)
    {
      var andTerms := Nil;
      for j := 0 to |d[i]|
        invariant ReverseOnto(andTerms, ListOf(GroupScms(show, d[i][j..]))) == ListOf(GroupScms(show, d[i]))
      {
        assert GroupScms(show, d[i][j..])[1..] == GroupScms(show, d[i][j + 1..]);
        andTerms := Pair(show(d[i][j]), andTerms);
      }
      andTerms := ReverseOnto(andTerms, Nil);
      assert DnfScms(show, d[i..])[1..] == DnfScms(show, d[i + 1..]);
      orTerms := Pair(andTerms, orTerms);
    }
    orTerms := ReverseOnto(orTerms, Nil);
  }

  function AsDnf(g: Group): Dnf {
    if g == [] then [] else [g]
  }

  function RebuiltGroup(rebuild: Rebuilder, g: Group): Group {
    if g == [] then [] else rebuild(g[0]) + RebuiltGroup(rebuild, g[1..])
  }

  /** The rebuilt terms, group by group, without the groups that lost all of theirs. */
  function RebuiltDnf(rebuild: Rebuilder, d: Dnf): Dnf {
    if d == [] then [] else AsDnf(RebuiltGroup(rebuild, d[0])) + RebuiltDnf(rebuild, d[1..])
  }

  ghost predicate TermsComeBack(read: Reader, show: Printer, rebuild: Rebuilder) {
    forall t :: var r := read(show(t)); !r.Fault? && Terms(r) == AsDnf(rebuild(t))
  }

  lemma JoinedGroups(acc: Outcome<Dnf>, t: Outcome<Dnf>, k: Group, n: Group)
    requires !acc.Fault? && !t.Fault? && Terms(acc) == AsDnf(k) && Terms(t) == AsDnf(n)
    ensures !Joined(acc, t).Fault? && Terms(Joined(acc, t)) == AsDnf(k + n)
  {
    assert k + [] == k && [] + n == n;
    if k != [] && n != [] {
      assert Row(k, [n]) == [k + n];
      assert Cross([k], [n]) == [k + n];
    }
  }

  lemma Associative<T>(a: seq<T>, b: seq<T>, c: seq<T>)
    ensures (a + b) + c == a + (b + c) && a + [] == a && [] + a == a
  {
  }

  lemma {:induction false} GroupBack(read: Reader, show: Printer, rebuild: Rebuilder, g: Group, acc: Outcome<Dnf>,
                                     k: Group)
    requires TermsComeBack(read, show, rebuild) && !acc.Fault? && Terms(acc) == AsDnf(k)
    ensures var r := AndFold(read, GroupScms(show, g), acc);
      !r.Fault? && Terms(r) == AsDnf(k + RebuiltGroup(rebuild, g))
    decreases g
  {
    if g == [] {
      Associative(k, [], []);
    } else {
      var t := read(show(g[0]));
      JoinedGroups(acc, t, k, rebuild(g[0]));
      assert GroupScms(show, g)[1..] == GroupScms(show, g[1..]);
      GroupBack(read, show, rebuild, g[1..], Joined(acc, t), k + rebuild(g[0]));
      Associative(k, rebuild(g[0]), RebuiltGroup(rebuild, g[1..]));
    }
  }

  lemma {:induction false} OrBack(read: Reader, show: Printer, rebuild: Rebuilder, d: Dnf, q: Dnf)
    requires TermsComeBack(read, show, rebuild)
    ensures OrFold(read, DnfScms(show, d), q) == Done(q + RebuiltDnf(rebuild, d))
    decreases d
  {
    Associative(q, [], []);
    if d != [] {
      var group := ReadGroup(read, ListOf(GroupScms(show, d[0])));
      ElementsOfList(GroupScms(show, d[0]));
      GroupBack(read, show, rebuild, d[0], Skip, []);
      Associative(RebuiltGroup(rebuild, d[0]), [], []);
      assert DnfScms(show, d)[1..] == DnfScms(show, d[1..]);
      OrBack(read, show, rebuild, d[1..], q + Terms(group));
      Associative(q, Terms(group), RebuiltDnf(rebuild, d[1..]));
    }
  }

  /** Printed terms read back as the same OR of ANDs, in order, less the terms that are not rebuilt. */
  lemma DnfBack(read: Reader, show: Printer, rebuild: Rebuilder, d: Dnf)
    requires TermsComeBack(read, show, rebuild)
    ensures ReadTerms(read, PrintDnf(show, d)) == Done(RebuiltDnf(rebuild, d))
  {
    ElementsOfList(DnfScms(show, d));
    OrBack(read, show, rebuild, d, []);
    Associative(RebuiltDnf(rebuild, d), [], []);
  }

  lemma ConsSame<T>(a: T, s: seq<T>, b: T, t: seq<T>)
    ensures [a] + s == [b] + t <==> a == b && s == t
  {
    if [a] + s == [b] + t {
      assert a == ([a] + s)[0] && s == ([a] + s)[1..];
      assert b == ([b] + t)[0] && t == ([b] + t)[1..];
    }
  }

  lemma {:induction false} GroupUnchanged(rebuild: Rebuilder, g: Group)
    requires forall t :: |rebuild(t)| <= 1
    ensures |RebuiltGroup(rebuild, g)| <= |g|
    ensures RebuiltGroup(rebuild, g) == g <==> forall t :: t in g ==> rebuild(t) == [t]
  {
    if g != [] {
      GroupUnchanged(rebuild, g[1..]);
      HeadOrRest(g);
      assert g == [g[0]] + g[1..];
      if rebuild(g[0]) != [] {
        assert rebuild(g[0]) == [rebuild(g[0])[0]];
        ConsSame(rebuild(g[0])[0], RebuiltGroup(rebuild, g[1..]), g[0], g[1..]);
      }
    }
  }

  /** Nothing changes exactly when no group is empty and every term is rebuilt as it was. */
  lemma {:induction false} DnfUnchanged(rebuild: Rebuilder, d: Dnf)
    requires forall t :: |rebuild(t)| <= 1
    ensures |RebuiltDnf(rebuild, d)| <= |d|
    ensures RebuiltDnf(rebuild, d) == d <==> forall g :: g in d ==> g != [] && forall t :: t in g ==> rebuild(t) == [t]
  {
    if d != [] {
      var r := RebuiltGroup(rebuild, d[0]);
      DnfUnchanged(rebuild, d[1..]);
      GroupUnchanged(rebuild, d[0]);
      HeadOrRest(d);
      assert d == [d[0]] + d[1..];
      ConsSame(r, RebuiltDnf(rebuild, d[1..]), d[0], d[1..]);
      if r == [] {
        assert d[0] in d;
      }
    }
  }
}
