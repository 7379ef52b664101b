/** The version-1 reader of a query term. A term of this version can stand for more than one predicate,
    and its sense flag says whether the whole of it is to be negated. */
module QueryTermsV1 {
  import opened Scheme
  import opened QueryAlgebra
  import opened QueryTerms
  import opened Wrappers

  // ----- fields: a missing one ends the term, one of the wrong type is an error -----

  function In(xs: seq<Scm>, i: nat): (r: Outcome<Scm>)
    ensures r.Done? ==> i < |xs|
  {
    if i < |xs| then Done(xs[i]) else Skip
  }

  function SymbolIn(xs: seq<Scm>, i: nat): Outcome<string> {
    var x :- In(xs, i);
    if x.Symbol? then Done(x.name) else Fault
  }

  /** scm_is_true: everything but #f. */
  function FlagIn(xs: seq<Scm>, i: nat): (r: Outcome<bool>)
    ensures r.Done? ==> i < |xs|
  {
    var x :- In(xs, i);
    Done(x != Bool(false))
  }

  function Int32In(xs: seq<Scm>, i: nat): Outcome<Int32> {
    var x :- In(xs, i);
    ToInt32(x)
  }

  function Int64In(xs: seq<Scm>, i: nat): Outcome<Int64> {
    var x :- In(xs, i);
    ToInt64(x)
  }

  function TextOf(x: Scm): Outcome<string> {
    if x.Str? then Done(x.text) else Fault
  }

  datatype Amount = Amount(num: Int64, denom: Int64)

  function AmountIn(xs: seq<Scm>, i: nat): Outcome<Amount> {
    var x :- In(xs, i);
    if x.Exact? && InInt64(x.q.num) && InInt64(x.q.den) then Done(Amount(x.q.num, x.q.den)) else Fault
  }

  // ----- the match functions -----

  const DATE_PATH: Path := ["trans", "date-posted"]

  function AddTermAnd(d: Dnf, path: Path, pred: Pred): Dnf {
    if path == [] then d else MergeAnd(d, [[Term(path, false, pred)]])
  }

  /** xaccQueryAddDateMatchTT on an empty query: one group that bounds the date on the sides in use. */
  function DateMatch(useStart: bool, start: Int64, useEnd: bool, end: Int64): Dnf {
    if !useStart && !useEnd then []
    else
      var lower := if useStart then AddTermAnd([], DATE_PATH, DatePred(COMPARE_GTE, DATE_MATCH_NORMAL, start)) else [];
      if useEnd then AddTermAnd(lower, DATE_PATH, DatePred(COMPARE_LTE, DATE_MATCH_NORMAL, end)) else lower
  }

  function AmountHow(name: string): Int32 {
    if name == "amt-match-atleast" then COMPARE_GTE
    else if name == "amt-match-atmost" then COMPARE_LTE
    else COMPARE_EQUAL
  }

  function AmountMatch(prType: string, how: Int32, sign: Int32, amount: Amount): Outcome<Dnf> {
    if prType == "pr-price" then
      Done(AddTerm([], ["share-price"], Some(NumericPred(how, NUMERIC_MATCH_ANY, amount.num, amount.denom))))
    else if prType == "pr-shares" then
      Done(AddTerm([], ["amount"], Some(NumericPred(how, NUMERIC_MATCH_ANY, amount.num, amount.denom))))
    else if prType == "pr-value" then
      Done(AddTerm([], ["value"], Some(NumericPred(how, sign, amount.num, amount.denom))))
    else Skip
  }

  function AccountHow(name: string): Int32 {
    if name == "acct-match-all" then GUID_MATCH_ALL
    else if name == "acct-match-any" then GUID_MATCH_ANY
    else if name == "acct-match-none" then GUID_MATCH_NONE
    else GUID_MATCH_NULL
  }

  /** xaccQueryAddAccountGUIDMatch; without accounts, or with an unknown match, nothing is added. */
  function AccountMatch(guids: seq<Guid>, how: Int32): Dnf {
    var path :=
      if how == GUID_MATCH_ANY || how == GUID_MATCH_NONE then ["account", "guid"]
      else if how == GUID_MATCH_ALL then ["trans", "split-list", "account-guid"]
      else [];
    AddTerm([], path, GuidPredicate(how, guids))
  }

  function StringPath(prType: string): Path {
    if prType == "pr-action" then ["action"]
    else if prType == "pr-desc" then ["trans", "desc"]
    else if prType == "pr-memo" then ["memo"]
    else if prType == "pr-num" then ["trans", "num"]
    else []
  }

  function StringMatch(p: Platform, prType: string, caseSensitive: bool, isRegex: bool, pattern: string): Outcome<Dnf> {
    var options := if caseSensitive then STRING_MATCH_NORMAL else STRING_MATCH_CASEINSENSITIVE;
    if StringPath(prType) == [] then Skip
    else Done(AddTerm([], StringPath(prType), StringPredicate(p, COMPARE_CONTAINS, pattern, options, isRegex)))
  }

  function Bit(n: int, weight: int): bool
    requires weight > 0
  {
    (n / weight) % 2 == 1
  }

  /** gnc_scm2bitfield: whether a bit is set in any number of the list. */
  function AnyBit(xs: seq<Scm>, weight: int): Outcome<bool>
    requires weight > 0
  {
    if xs == [] then Done(false)
    else
      var n :- ToInt32(xs[0]);
      var rest :- AnyBit(xs[1..], weight);
      Done(Bit(n, weight) || rest)
  }

  function Flagged(on: bool, c: char): string {
    if on then [c] else []
  }

  /** xaccQueryAddClearedMatch on the bits of the list. */
  function ClearedMatch(x: Scm): Outcome<Dnf> {
    var bits := if IsList(x) then Elements(x) else [];
    var unreconciled :- AnyBit(bits, 1);
    var cleared :- AnyBit(bits, 2);
    var reconciled :- AnyBit(bits, 4);
    var frozen :- AnyBit(bits, 8);
    var voided :- AnyBit(bits, 16);
    var chars := Flagged(cleared, 'c') + Flagged(reconciled, 'y') + Flagged(frozen, 'f')
      + Flagged(unreconciled, 'n') + Flagged(voided, 'v');
    Done(AddTerm([], ["reconcile-flag"], CharPredicate(CHAR_MATCH_ANY, chars)))
  }

  function BalanceMatch(x: Scm): Outcome<Dnf> {
    if !x.Pair? || x.cdr != Nil then Skip
    else if !x.car.Symbol? then Fault
    else
      var how := if x.car.name == "balance-match-balanced" then COMPARE_EQUAL else COMPARE_NEQ;
      Done(AddTerm([], ["trans", "trans-imbalance"], Some(NumericPred(how, NUMERIC_MATCH_ANY, 0, 1))))
  }

  function GuidMatch(guid: Guid, idType: string): Dnf {
    var path :=
      if idType == "Split" then ["guid"]
      else if idType == "Trans" then ["trans", "guid"]
      else if idType == "Account" then ["account", "guid"]
      else [];
    AddTerm([], path, GuidPredicate(GUID_MATCH_ANY, [guid]))
  }

  // ----- the term -----

  function ReadMatch(p: Platform, pdType: string, prType: string, xs: seq<Scm>): Outcome<Dnf> {
    if pdType == "pd-date" then
      var useStart :- FlagIn(xs, 0);
      var start :- Int64In(xs, 1);
      var useEnd :- FlagIn(xs, 2);
      var end :- Int64In(xs, 3);
      Done(DateMatch(useStart, start, useEnd, end))
    else if pdType == "pd-amount" then
      var how :- SymbolIn(xs, 0);
      var sign :- Int32In(xs, 1);
      var amount :- AmountIn(xs, 2);
      AmountMatch(prType, AmountHow(how), sign, amount)
    else if pdType == "pd-account" then
      var how :- SymbolIn(xs, 0);
      var accounts :- In(xs, 1);
      var guids :- ScmToGuids(p, if IsList(accounts) then Elements(accounts) else []);
      Done(AccountMatch(guids, AccountHow(how)))
    else if pdType == "pd-string" then
      var caseSensitive :- FlagIn(xs, 0);
      var isRegex :- FlagIn(xs, 1);
      var x :- In(xs, 2);
      var pattern :- TextOf(x);
      StringMatch(p, prType, caseSensitive, isRegex, pattern)
    else if pdType == "pd-cleared" then
      var x :- In(xs, 0);
      ClearedMatch(x)
    else if pdType == "pd-balance" then
      var x :- In(xs, 0);
      BalanceMatch(x)
    else if pdType == "pd-guid" then
      var x :- In(xs, 0);
      var guid :- ScmToGuid(p, x);
      var y :- At(xs, 1);
      var idType :- TextOf(y);
      Done(GuidMatch(guid, idType))
    else Skip
  }

  datatype Sensed = Sensed(sense: bool, terms: Dnf)

  /** The fields of a term: what it matches, and whether it is to hold or to fail. */
  function ReadSensed(p: Platform, x: Scm): Outcome<Sensed> {
    if !IsList(x) || x == Nil then Skip
    else
      var xs := Elements(x);
      var pdType :- SymbolIn(xs, 0);
      var prType :- SymbolIn(xs, 1);
      var sense :- FlagIn(xs, 2);
      var m :- ReadMatch(p, pdType, prType, xs[3..]);
      Done(Sensed(sense, m))
  }

  /** gnc_scm2query_term_query_v1. */
  function ReadTermV1(p: Platform, x: Scm): Outcome<Dnf> {
    var s :- ReadSensed(p, x);
    Done(if s.sense then s.terms else Invert(s.terms))
  }

  // ----- meaning -----

  /** A date term without bounds adds nothing; otherwise it demands the bounds in use. */
  lemma DateMeaning(h: Valuation, useStart: bool, start: Int64, useEnd: bool, end: Int64)
    ensures DateMatch(useStart, start, useEnd, end) == [] <==> !useStart && !useEnd
    ensures useStart || useEnd ==> Proper(DateMatch(useStart, start, useEnd, end))
    ensures useStart || useEnd ==> (Sat(h, DateMatch(useStart, start, useEnd, end)) <==>
      ((useStart ==> h(DATE_PATH, DatePred(COMPARE_GTE, DATE_MATCH_NORMAL, start)))
      && (useEnd ==> h(DATE_PATH, DatePred(COMPARE_LTE, DATE_MATCH_NORMAL, end)))))
  {
    var a := Term(DATE_PATH, false, DatePred(COMPARE_GTE, DATE_MATCH_NORMAL, start));
    var b := Term(DATE_PATH, false, DatePred(COMPARE_LTE, DATE_MATCH_NORMAL, end));
    SatSingle(h, a);
    SatSingle(h, b);
    SatCross(h, [[a]], [[b]]);
    CrossGroups([[a]], [[b]]);
  }

  /** An account term adds something exactly for a known match and at least one account, and then demands that match. */
  lemma AccountMeaning(h: Valuation, guids: seq<Guid>, how: Int32)
    ensures AccountMatch(guids, how) != [] <==> guids != [] && how in {GUID_MATCH_ANY, GUID_MATCH_NONE, GUID_MATCH_ALL}
    ensures AccountMatch(guids, how) != [] ==> (Sat(h, AccountMatch(guids, how)) <==>
      h(if how == GUID_MATCH_ALL then ["trans", "split-list", "account-guid"] else ["account", "guid"],
        GuidPred(COMPARE_EQUAL, how, guids)))
  {
    if guids != [] {
      SatSingle(h, Term(["account", "guid"], false, GuidPred(COMPARE_EQUAL, how, guids)));
      SatSingle(h, Term(["trans", "split-list", "account-guid"], false, GuidPred(COMPARE_EQUAL, how, guids)));
    }
  }

  /** A bit is set in the field exactly when a number of the list has it. */
  lemma {:induction false} AnyBitMeaning(xs: seq<Scm>, weight: int)
    requires weight > 0 && AnyBit(xs, weight).Done?
    ensures AnyBit(xs, weight).value <==> exists x :: x in xs && x.Exact? && Bit(x.q.num, weight)
  {
    if xs != [] {
      AnyBitMeaning(xs[1..], weight);
      assert xs == [xs[0]] + xs[1..];
    }
  }

  lemma SatSingle(h: Valuation, t: Term)
    ensures Sat(h, [[t]]) <==> SatTerm(h, t)
    ensures [] + [[t]] == [[t]] && Proper([[t]])
  {
    assert [t] in [[t]];
    assert SatGroup(h, [t]) <==> SatTerm(h, t);
  }

  lemma MatchProper(p: Platform, pdType: string, prType: string, xs: seq<Scm>)
    ensures var m := ReadMatch(p, pdType, prType, xs); m.Done? && m.value != [] ==> Proper(m.value)
  {
    var m := ReadMatch(p, pdType, prType, xs);
    if m.Done? && pdType == "pd-date" {
      DateMeaning((path, pd) => true,
                  FlagIn(xs, 0).value, Int64In(xs, 1).value, FlagIn(xs, 2).value, Int64In(xs, 3).value);
    }
  }

  /** A read term holds exactly when its match agrees with its sense; a term whose match adds nothing
      adds nothing negated either. */
  lemma TermMeaningV1(p: Platform, h: Valuation, x: Scm)
    requires ReadTermV1(p, x).Done?
    ensures var s, d := ReadSensed(p, x).value, ReadTermV1(p, x).value;
      && (d == [] <==> s.terms == [])
      && (d != [] ==> (Sat(h, d) <==> (Sat(h, s.terms) == s.sense)))
  {
    var xs := Elements(x);
    var s := ReadSensed(p, x).value;
    MatchProper(p, xs[0].name, xs[1].name, xs[3..]);
    if s.terms != [] {
      SatInvert(h, s.terms);
    }
  }
}
