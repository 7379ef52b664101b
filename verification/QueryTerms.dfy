/** Single query terms: the version-2 printer and the readers of both versions. */
module QueryTerms {
  import opened Scheme
  import opened QueryAlgebra
  import opened Wrappers

  /** What reading gives: a value, the null pointer, or a Scheme error or an access outside a list. */
  datatype Outcome<+T> = Done(value: T) | Skip | Fault {
    predicate IsFailure() {
      !Done?
    }

    function PropagateFailure<U>(): Outcome<U>
      requires IsFailure()
    {
      if Skip? then Skip else Fault
    }

    function Extract(): T
      requires Done?
    {
      value
    }
  }

  // ----- numbers, paths and GUID lists -----

  function ToInt32(x: Scm): Outcome<Int32> {
    if x.Exact? && x.q.den == 1 && -0x8000_0000 <= x.q.num <= 0x7FFF_FFFF then Done(x.q.num) else Fault
  }

  function ToInt64(x: Scm): Outcome<Int64> {
    if x.Exact? && x.q.den == 1 && InInt64(x.q.num) then Done(x.q.num) else Fault
  }

  function Strs(path: Path): seq<Scm> {
    if path == [] then [] else [Str(path[0])] + Strs(path[1..])
  }

  /** gnc_query_path2scm. */
  function PathToScm(path: Path): Scm {
    ListOf(Strs(path))
  }

  function LeadingStrings(xs: seq<Scm>): Path {
    if xs == [] || !xs[0].Str? then [] else [xs[0].text] + LeadingStrings(xs[1..])
  }

  /** gnc_query_scm2path: the keys up to the first element that is not a string. */
  function ScmToPath(x: Scm): Path {
    if IsList(x) then LeadingStrings(Elements(x)) else []
  }

  lemma {:induction false} PathBack(path: Path)
    ensures ScmToPath(PathToScm(path)) == path
  {
    ElementsOfList(Strs(path));
    LeadingStrs(path);
  }

  lemma {:induction false} LeadingStrs(path: Path)
    ensures LeadingStrings(Strs(path)) == path
  {
    if path != [] {
      LeadingStrs(path[1..]);
    }
  }

  function GuidTexts(p: Platform, guids: seq<Guid>): seq<Scm> {
    if guids == [] then [] else [Str(p.text(guids[0]))] + GuidTexts(p, guids[1..])
  }

  /** gnc_guid_glist2scm. */
  function GuidsToScm(p: Platform, guids: seq<Guid>): Scm {
    ListOf(GuidTexts(p, guids))
  }

  const NULL_GUID := Guid(0)

  /** gnc_scm2guid: text of the wrong length gives the null GUID, text that does not parse is undefined. */
  function ScmToGuid(p: Platform, x: Scm): Outcome<Guid> {
    if !x.Str? || |x.text| != GUID_ENCODING_LENGTH then Done(NULL_GUID)
    else match p.parse(x.text)
      case Some(g) => Done(g)
      case None => Fault
  }

  /** gnc_scm2guid_glist; #f becomes a null pointer, which the predicate constructor follows. */
  function ScmToGuids(p: Platform, xs: seq<Scm>): Outcome<seq<Guid>> {
    if xs == [] then Done([])
    else if xs[0] == Bool(false) then Fault
    else
      var g :- ScmToGuid(p, xs[0]);
      var rest :- ScmToGuids(p, xs[1..]);
      Done([g] + rest)
  }

  lemma {:induction false} GuidsBack(p: Platform, guids: seq<Guid>)
    requires Lawful(p)
    ensures ScmToGuids(p, GuidTexts(p, guids)) == Done(guids)
  {
    if guids != [] {
      GuidsBack(p, guids[1..]);
      assert GuidTexts(p, guids)[1..] == GuidTexts(p, guids[1..]);
      assert ScmToGuid(p, GuidTexts(p, guids)[0]) == Done(guids[0]);
      assert guids == [guids[0]] + guids[1..];
    }
  }

  // ----- predicate constructors -----

  function StringPredicate(p: Platform, how: Int32, pattern: string, options: Int32, isRegex: bool): Option<Pred> {
    if how !in {COMPARE_CONTAINS, COMPARE_NCONTAINS, COMPARE_EQUAL, COMPARE_NEQ} then None
    else if isRegex && !p.regexCompiles(pattern, options == STRING_MATCH_CASEINSENSITIVE) then None
    else Some(StringPred(how, options, isRegex, Some(pattern)))
  }

  function GuidPredicate(options: Int32, guids: seq<Guid>): Option<Pred> {
    if guids == [] && options != GUID_MATCH_NULL then None else Some(GuidPred(COMPARE_EQUAL, options, guids))
  }

  function BooleanPredicate(how: Int32, flag: bool): Option<Pred> {
    if how == COMPARE_EQUAL || how == COMPARE_NEQ then Some(BooleanPred(how, flag)) else None
  }

  function CharPredicate(options: Int32, chars: string): Option<Pred> {
    Some(CharPred(COMPARE_EQUAL, options, Some(chars)))
  }

  // ----- version 2: printing -----

  function TypeName(pd: Pred): string
    requires !pd.OtherPred?
  {
    match pd
    case StringPred(_, _, _, _) => "string"
    case DatePred(_, _, _) => "date"
    case NumericPred(_, _, _, _) => "numeric"
    case GuidPred(_, _, _) => "guid"
    case Int64Pred(_, _) => "gint64"
    case DoublePred(_, _) => "double"
    case BooleanPred(_, _) => "boolean"
    case CharPred(_, _, _) => "character"
  }

  function OptionalText(s: Option<string>): Scm {
    match s
    case Some(text) => Str(text)
    case None => Bool(false)
  }

  /** What a predicate prints behind its comparison. */
  function Payload(p: Platform, pd: Pred): seq<Scm>
    requires !pd.OtherPred?
  {
    match pd
    case StringPred(_, options, isRegex, pattern) => [Whole(options), Bool(isRegex), OptionalText(pattern)]
    case DatePred(_, options, date) => [Whole(options), Whole(date)]
    case NumericPred(_, options, num, denom) => [Whole(options), Pair(Whole(num), Whole(denom))]
    case GuidPred(_, options, guids) => [Whole(options), GuidsToScm(p, guids)]
    case Int64Pred(_, val) => [Whole(val)]
    case DoublePred(_, number) => [Inexact(number)]
    case BooleanPred(_, flag) => [Bool(flag)]
    case CharPred(_, options, chars) => [Whole(options), OptionalText(chars)]
  }

  function HeadFields(t: Term): seq<Scm>
    requires !t.pred.OtherPred?
  {
    [PathToScm(t.path), Bool(t.inverted), Symbol(TypeName(t.pred)), Whole(t.pred.how)]
  }

  /** gnc_queryterm2scm; an unsupported type prints as #f. */
  function TermToScm(p: Platform, t: Term): Scm {
    if t.pred.OtherPred? then Bool(false)
    else ListOf(HeadFields(t) + Payload(p, t.pred))
  }

  // ----- version 2: reading -----

  function At(xs: seq<Scm>, i: nat): (r: Outcome<Scm>)
    ensures r.Done? ==> i < |xs|
  {
    if i < |xs| then Done(xs[i]) else Fault
  }

  function ListAt(xs: seq<Scm>, i: nat): Outcome<Scm> {
    var x :- At(xs, i);
    if IsList(x) then Done(x) else Skip
  }

  function BoolAt(xs: seq<Scm>, i: nat): Outcome<bool> {
    var x :- At(xs, i);
    if x.Bool? then Done(x.value) else Skip
  }

  function SymbolAt(xs: seq<Scm>, i: nat): Outcome<string> {
    var x :- At(xs, i);
    if x.Symbol? then Done(x.name) else Skip
  }

  function StringAt(xs: seq<Scm>, i: nat): Outcome<string> {
    var x :- At(xs, i);
    if x.Str? then Done(x.text) else Skip
  }

  function Int32At(xs: seq<Scm>, i: nat): Outcome<Int32> {
    var x :- At(xs, i);
    if x == Nil then Skip else ToInt32(x)
  }

  function Int64At(xs: seq<Scm>, i: nat): Outcome<Int64> {
    var x :- At(xs, i);
    if x == Nil then Skip else ToInt64(x)
  }

  function DoubleAt(p: Platform, xs: seq<Scm>, i: nat): Outcome<Flonum> {
    var x :- At(xs, i);
    match x
    case Exact(q) => Done(p.toDouble(q))
    case Inexact(f) => Done(f)
    case _ => Skip
  }

  function FromOption<T>(o: Option<T>): Outcome<T> {
    match o
    case Some(v) => Done(v)
    case None => Skip
  }

  function ReadPred(p: Platform, name: string, how: Int32, xs: seq<Scm>): Outcome<Pred> {
    if name == "string" then
      var options :- Int32At(xs, 0);
      var isRegex :- BoolAt(xs, 1);
      var pattern :- StringAt(xs, 2);
      FromOption(StringPredicate(p, how, pattern, options, isRegex))
    else if name == "date" then
      var options :- Int32At(xs, 0);
      var date :- Int64At(xs, 1);
      Done(DatePred(how, options, date))
    else if name == "numeric" then
      var options :- Int32At(xs, 0);
      var amount :- At(xs, 1);
      if !amount.Pair? then Skip
      else
        var num :- ToInt64(amount.car);
        var denom :- ToInt64(amount.cdr);
        Done(NumericPred(how, options, num, denom))
    else if name == "guid" then
      var options :- Int32At(xs, 0);
      var list :- ListAt(xs, 1);
      var guids :- ScmToGuids(p, Elements(list));
      FromOption(GuidPredicate(options, guids))
    else if name == "gint64" then
      var val :- Int64At(xs, 0);
      Done(Int64Pred(how, val))
    else if name == "double" then
      var number :- DoubleAt(p, xs, 0);
      Done(DoublePred(how, number))
    else if name == "boolean" then
      var flag :- BoolAt(xs, 0);
      FromOption(BooleanPredicate(how, flag))
    else if name == "character" then
      var options :- Int32At(xs, 0);
      var chars :- StringAt(xs, 1);
      FromOption(CharPredicate(options, chars))
    else Skip
  }

  datatype Head = Head(path: Path, inverted: bool, name: string, how: Int32)

  function ReadHead(xs: seq<Scm>): (r: Outcome<Head>)
    ensures r.Done? ==> |xs| >= 4
  {
    var path :- ListAt(xs, 0);
    var inverted :- BoolAt(xs, 1);
    var name :- SymbolAt(xs, 2);
    var how :- Int32At(xs, 3);
    Done(Head(ScmToPath(path), inverted, name, how))
  }

  /** gnc_scm2query_term_query_v2: a query of one term, inverted if the term says so. */
  function ReadTermV2(p: Platform, x: Scm): Outcome<Dnf> {
    if !IsList(x) || x == Nil then Skip
    else
      var xs := Elements(x);
      var head :- ReadHead(xs);
      var pred :- ReadPred(p, head.name, head.how, xs[4..]);
      var q := AddTerm([], head.path, Some(pred));
      Done(if head.inverted then Invert(q) else q)
  }

  // ----- version 2: what comes back -----

  /** The constructors accept the predicate's parts. */
  predicate Constructible(p: Platform, pd: Pred) {
    match pd
    case StringPred(how, options, isRegex, pattern) =>
      && pattern.Some?
      && how in {COMPARE_CONTAINS, COMPARE_NCONTAINS, COMPARE_EQUAL, COMPARE_NEQ}
      && (isRegex ==> p.regexCompiles(pattern.value, options == STRING_MATCH_CASEINSENSITIVE))
    case GuidPred(_, options, guids) => guids != [] || options == GUID_MATCH_NULL
    case BooleanPred(how, _) => how == COMPARE_EQUAL || how == COMPARE_NEQ
    case CharPred(_, _, chars) => chars.Some?
    case OtherPred(_) => false
    case _ => true
  }

  /** GUID and character predicates are always built with the default comparison. */
  function Rebuilt(pd: Pred): Pred {
    if pd.GuidPred? || pd.CharPred? then pd.(how := COMPARE_EQUAL) else pd
  }

  lemma PredBack(p: Platform, pd: Pred)
    requires Lawful(p) && !pd.OtherPred?
    ensures ReadPred(p, TypeName(pd), pd.how, Payload(p, pd))
      == if Constructible(p, pd) then Done(Rebuilt(pd)) else Skip
  {
    if pd.GuidPred? {
      GuidsBack(p, pd.guids);
      ElementsOfList(GuidTexts(p, pd.guids));
    }
  }

  lemma SingleTerm(path: Path, inverted: bool, pd: Pred)
    ensures var q := AddTerm([], path, Some(pd));
      (if inverted then Invert(q) else q) == if path == [] then [] else [[Term(path, inverted, pd)]]
  {
    var u := Term(path, false, pd);
    if path != [] {
      assert AddTerm([], path, Some(pd)) == [[u]];
      assert Negated([u]) == [[u.(inverted := true)]];
    }
  }

  lemma HeadBack(t: Term, rest: seq<Scm>)
    requires !t.pred.OtherPred?
    ensures ReadHead(HeadFields(t) + rest) == Done(Head(t.path, t.inverted, TypeName(t.pred), t.pred.how))
  {
    PathBack(t.path);
  }

  /** A printed term reads back as the query of that one term, or is skipped. */
  lemma TermBack(p: Platform, t: Term)
    requires Lawful(p)
    ensures ReadTermV2(p, TermToScm(p, t))
      == if !Constructible(p, t.pred) then Skip
         else Done(if t.path == [] then [] else [[t.(pred := Rebuilt(t.pred))]])
  {
    if !t.pred.OtherPred? {
      var rest := Payload(p, t.pred);
      var xs := HeadFields(t) + rest;
      ElementsOfList(xs);
      HeadBack(t, rest);
      assert xs[4..] == rest;
      PredBack(p, t.pred);
      SingleTerm(t.path, t.inverted, Rebuilt(t.pred));
    }
  }
}
