/** Query terms written out as Scheme lists, and what each of them demands of a record. */
module QueryForms {
  import opened Scheme
  import opened QueryAlgebra
  import opened QueryTerms
  import opened QueryTermsV1
  import opened Wrappers

  /** Reading gave a query that holds exactly when `demand` does. */
  ghost predicate Holds(h: Valuation, d: Outcome<Dnf>, demand: bool) {
    d.Done? && d.value != [] && (Sat(h, d.value) <==> demand)
  }

  lemma SingleHolds(h: Valuation, path: Path, pred: Pred, sense: bool)
    requires path != []
    ensures var q := AddTerm([], path, Some(pred));
      Holds(h, Done(if sense then q else Invert(q)), h(path, pred) == sense)
  {
    SingleTerm(path, !sense, pred);
    SatSingle(h, Term(path, !sense, pred));
  }

  // ----- version 1 -----

  /** A version-1 term: its type, its parameter, its sense, and the fields of its type. */
  function TermV1(pdType: string, prType: string, sense: Scm, fields: seq<Scm>): Scm {
    ListOf([Symbol(pdType), Symbol(prType), sense] + fields)
  }

  /** Everything but #f is true. */
  function True(x: Scm): bool {
    x != Bool(false)
  }

  lemma ReadFields(p: Platform, pdType: string, prType: string, sense: Scm, fields: seq<Scm>)
    ensures var m := ReadMatch(p, pdType, prType, fields);
      ReadTermV1(p, TermV1(pdType, prType, sense, fields)) ==
        if m.Done? then Done(if True(sense) then m.value else Invert(m.value)) else m
  {
    var xs := [Symbol(pdType), Symbol(prType), sense] + fields;
    ElementsOfList(xs);
    assert xs[3..] == fields;
    assert ListOf(xs).Pair?;
  }

  /** An amount term compares the share price, the shares or the value with the amount: 5 is at least, 2 at most and 3,
      which also stands for unknown symbols, exactly. Only a value is compared with the given sign. */
  lemma AmountTerm(p: Platform, h: Valuation, sense: Scm, prType: string, how: string, sign: Int32, amount: Rational,
                   path: Path, options: Int32, code: Int32)
    requires InInt64(amount.num) && InInt64(amount.den)
    requires (prType, path, options) in
      {("pr-price", ["share-price"], 3), ("pr-shares", ["amount"], 3), ("pr-value", ["value"], sign)}
    requires (how, code) in {("amt-match-atleast", 5), ("amt-match-atmost", 2), ("amt-match-exactly", 3)}
      || (how !in {"amt-match-atleast", "amt-match-atmost"} && code == 3)
    ensures Holds(h, ReadTermV1(p, TermV1("pd-amount", prType, sense, [Symbol(how), Whole(sign), Exact(amount)])),
                  h(path, NumericPred(code, options, amount.num, amount.den)) == True(sense))
  {
    ReadFields(p, "pd-amount", prType, sense, [Symbol(how), Whole(sign), Exact(amount)]);
    SingleHolds(h, path, NumericPred(code, options, amount.num, amount.den), True(sense));
  }

  lemma UnknownAmount(p: Platform, sense: Scm, prType: string, how: string, sign: Int32, amount: Rational)
    requires InInt64(amount.num) && InInt64(amount.den) && prType !in {"pr-price", "pr-shares", "pr-value"}
    ensures ReadTermV1(p, TermV1("pd-amount", prType, sense, [Symbol(how), Whole(sign), Exact(amount)])) == Skip
  {
    ReadFields(p, "pd-amount", prType, sense, [Symbol(how), Whole(sign), Exact(amount)]);
  }

  /** A string term asks a text to contain (7) the pattern, with (1) or without (2) regard to case; a regular expression
      that does not compile adds nothing. */
  lemma StringTerm(p: Platform, h: Valuation, sense: Scm, prType: string, caseSensitive: Scm, isRegex: Scm,
                   pattern: string, path: Path)
    requires (prType, path) in
      {("pr-action", ["action"]), ("pr-desc", ["trans", "desc"]), ("pr-memo", ["memo"]), ("pr-num", ["trans", "num"])}
    ensures var d := ReadTermV1(p, TermV1("pd-string", prType, sense, [caseSensitive, isRegex, Str(pattern)]));
      if True(isRegex) && !p.regexCompiles(pattern, !True(caseSensitive)) then d == Done([])
      else Holds(h, d, h(path, StringPred(7, if True(caseSensitive) then 1 else 2, True(isRegex), Some(pattern)))
                       == True(sense))
  {
    ReadFields(p, "pd-string", prType, sense, [caseSensitive, isRegex, Str(pattern)]);
    SingleHolds(h, path, StringPred(7, if True(caseSensitive) then 1 else 2, True(isRegex), Some(pattern)),
                True(sense));
  }

  /** An account term compares the account (1 is any of the list, 2 none) or all accounts of the transaction (4) with a
      list; without accounts, or with an unknown symbol, it adds nothing. */
  lemma AccountTerm(p: Platform, h: Valuation, sense: Scm, prType: string, how: string, guids: seq<Guid>,
                    path: Path, code: Int32)
    requires Lawful(p)
    requires (how, path, code) in
      {("acct-match-all", ["trans", "split-list", "account-guid"], 4), ("acct-match-any", ["account", "guid"], 1),
       ("acct-match-none", ["account", "guid"], 2)}
      || (how !in {"acct-match-all", "acct-match-any", "acct-match-none"} && path == [])
    ensures var d := ReadTermV1(p, TermV1("pd-account", prType, sense, [Symbol(how), ListOf(GuidTexts(p, guids))]));
      if guids == [] || path == [] then d == Done([])
      else Holds(h, d, h(path, GuidPred(3, code, guids)) == True(sense))
  {
    ReadFields(p, "pd-account", prType, sense, [Symbol(how), ListOf(GuidTexts(p, guids))]);
    ElementsOfList(GuidTexts(p, guids));
    GuidsBack(p, guids);
    if path != [] {
      SingleHolds(h, path, GuidPred(3, code, guids), True(sense));
    }
  }

  /** An account list with #f in it becomes a list with a null pointer, which the query follows. */
  lemma MissingAccount(p: Platform, sense: Scm, prType: string, how: string, guids: seq<Guid>, rest: seq<Scm>)
    requires Lawful(p)
    ensures ReadTermV1(p, TermV1("pd-account", prType, sense,
                                 [Symbol(how), ListOf(GuidTexts(p, guids) + [Bool(false)] + rest)])) == Fault
  {
    var xs := GuidTexts(p, guids) + [Bool(false)] + rest;
    ReadFields(p, "pd-account", prType, sense, [Symbol(how), ListOf(xs)]);
    ElementsOfList(xs);
    FalseAmongGuids(p, guids, rest);
  }

  lemma {:induction false} FalseAmongGuids(p: Platform, guids: seq<Guid>, rest: seq<Scm>)
    requires Lawful(p)
    ensures ScmToGuids(p, GuidTexts(p, guids) + [Bool(false)] + rest) == Fault
  {
    var xs := GuidTexts(p, guids) + [Bool(false)] + rest;
    if guids == [] {
      assert xs[0] == Bool(false);
    } else {
      FalseAmongGuids(p, guids[1..], rest);
      assert xs[0] == Str(p.text(guids[0]));
      assert xs[1..] == GuidTexts(p, guids[1..]) + [Bool(false)] + rest;
    }
  }

  /** A cleared term asks the reconcile flag to be any (1) of the letters whose bits are in the list: 1 for n, 2 for c,
      4 for y, 8 for f and 16 for v. */
  lemma ClearedTerm(p: Platform, h: Valuation, sense: Scm, prType: string, bits: seq<Scm>, chars: string)
    requires forall x :: x in bits ==> ToInt32(x).Done?
    requires chars == Letter(bits, 2, 'c') + Letter(bits, 4, 'y') + Letter(bits, 8, 'f') + Letter(bits, 1, 'n')
      + Letter(bits, 16, 'v')
    ensures Holds(h, ReadTermV1(p, TermV1("pd-cleared", prType, sense, [ListOf(bits)])),
                  h(["reconcile-flag"], CharPred(3, 1, Some(chars))) == True(sense))
  {
    ReadFields(p, "pd-cleared", prType, sense, [ListOf(bits)]);
    ElementsOfList(bits);
    BitRead(bits, 1);
    BitRead(bits, 2);
    BitRead(bits, 4);
    BitRead(bits, 8);
    BitRead(bits, 16);
    SingleHolds(h, ["reconcile-flag"], CharPred(3, 1, Some(chars)), True(sense));
  }

  /** A letter if some number of the list has its bit. */
  ghost function Letter(bits: seq<Scm>, weight: int, c: char): string
    requires weight > 0
  {
    if exists x :: x in bits && x.Exact? && (x.q.num / weight) % 2 == 1 then [c] else ""
  }

  lemma {:induction false} BitRead(bits: seq<Scm>, weight: int)
    requires weight > 0 && forall x :: x in bits ==> ToInt32(x).Done?
    ensures AnyBit(bits, weight).Done?
    ensures forall c :: Flagged(AnyBit(bits, weight).value, c) == Letter(bits, weight, c)
  {
    BitsDone(bits, weight);
    AnyBitMeaning(bits, weight);
  }

  lemma {:induction false} BitsDone(bits: seq<Scm>, weight: int)
    requires weight > 0 && forall x :: x in bits ==> ToInt32(x).Done?
    ensures AnyBit(bits, weight).Done?
  {
    if bits != [] {
      BitsDone(bits[1..], weight);
    }
  }

  /** A balance term asks the imbalance of the transaction to be zero (3), or for any other symbol not to be (6). */
  lemma BalanceTerm(p: Platform, h: Valuation, sense: Scm, prType: string, how: string)
    ensures Holds(h, ReadTermV1(p, TermV1("pd-balance", prType, sense, [Pair(Symbol(how), Nil)])),
                  h(["trans", "trans-imbalance"],
                    NumericPred(if how == "balance-match-balanced" then 3 else 6, 3, 0, 1)) == True(sense))
  {
    ReadFields(p, "pd-balance", prType, sense, [Pair(Symbol(how), Nil)]);
    SingleHolds(h, ["trans", "trans-imbalance"],
                NumericPred(if how == "balance-match-balanced" then 3 else 6, 3, 0, 1), True(sense));
  }

  /** A GUID term asks the split, its transaction or its account to have the GUID; for another kind it adds nothing. */
  lemma GuidTerm(p: Platform, h: Valuation, sense: Scm, prType: string, guid: Guid, kind: string, path: Path)
    requires Lawful(p)
    requires (kind, path) in {("Split", ["guid"]), ("Trans", ["trans", "guid"]), ("Account", ["account", "guid"])}
      || (kind !in {"Split", "Trans", "Account"} && path == [])
    ensures var d := ReadTermV1(p, TermV1("pd-guid", prType, sense, [Str(p.text(guid)), Str(kind)]));
      if path == [] then d == Done([]) else Holds(h, d, h(path, GuidPred(3, 1, [guid])) == True(sense))
  {
    ReadFields(p, "pd-guid", prType, sense, [Str(p.text(guid)), Str(kind)]);
    if path != [] {
      SingleHolds(h, path, GuidPred(3, 1, [guid]), True(sense));
    }
  }

  /** A date term asks the posting date to be at least (5) the start and at most (2) the end, as far as they are in use;
      without either it adds nothing. */
  lemma DateTerm(p: Platform, h: Valuation, sense: Scm, prType: string, useStart: Scm, start: Int64, useEnd: Scm,
                 end: Int64)
    ensures var d := ReadTermV1(p, TermV1("pd-date", prType, sense, [useStart, Whole(start), useEnd, Whole(end)]));
      var path := ["trans", "date-posted"];
      if !True(useStart) && !True(useEnd) then d == Done([])
      else Holds(h, d, ((True(useStart) ==> h(path, DatePred(5, 1, start)))
                        && (True(useEnd) ==> h(path, DatePred(2, 1, end)))) == True(sense))
  {
    ReadFields(p, "pd-date", prType, sense, [useStart, Whole(start), useEnd, Whole(end)]);
    DateMeaning(h, True(useStart), start, True(useEnd), end);
    if True(useStart) || True(useEnd) {
      SatInvert(h, DateMatch(True(useStart), start, True(useEnd), end));
    }
  }

  // ----- version 2 -----

  /** A version-2 term: its path, whether it is inverted, the name of its predicate's type, and the parts of that. */
  function TermV2(path: Path, inverted: bool, name: string, parts: seq<Scm>): Scm {
    ListOf([ListOf(Strs(path)), Bool(inverted), Symbol(name)] + parts)
  }

  lemma ReadParts(p: Platform, h: Valuation, path: Path, inverted: bool, name: string, how: Int32, parts: seq<Scm>,
                  pred: Pred)
    requires path != [] && ReadPred(p, name, how, parts) == Done(pred)
    ensures Holds(h, ReadTermV2(p, TermV2(path, inverted, name, [Whole(how)] + parts)), h(path, pred) != inverted)
  {
    var xs := [ListOf(Strs(path)), Bool(inverted), Symbol(name)] + ([Whole(how)] + parts);
    ElementsOfList(xs);
    PathBack(path);
    assert xs[4..] == parts;
    assert ListOf(xs).Pair?;
    assert ReadHead(xs) == Done(Head(path, inverted, name, how));
    SingleHolds(h, path, pred, !inverted);
  }

  /** A predicate is printed as the list `parts` behind the name of its type, and read from it. */
  ghost predicate Written(p: Platform, h: Valuation, path: Path, inverted: bool, pred: Pred, name: string,
                          parts: seq<Scm>) {
    && TermToScm(p, Term(path, inverted, pred)) == TermV2(path, inverted, name, parts)
    && Holds(h, ReadTermV2(p, TermV2(path, inverted, name, parts)), h(path, pred) != inverted)
  }

  lemma WrittenAs(p: Platform, h: Valuation, path: Path, inverted: bool, pred: Pred, name: string, parts: seq<Scm>)
    requires path != [] && !pred.OtherPred? && TypeName(pred) == name && parts == [Whole(pred.how)] + Payload(p, pred)
    requires ReadPred(p, name, pred.how, Payload(p, pred)) == Done(pred)
    ensures Written(p, h, path, inverted, pred, name, parts)
  {
    ReadParts(p, h, path, inverted, name, pred.how, Payload(p, pred), pred);
    assert HeadFields(Term(path, inverted, pred)) + Payload(p, pred)
      == [ListOf(Strs(path)), Bool(inverted), Symbol(name)] + parts;
  }

  lemma StringWritten(p: Platform, h: Valuation, path: Path, inverted: bool, how: Int32, options: Int32, isRegex: bool,
                      text: string)
    requires path != [] && how in {3, 6, 7, 8} && (isRegex ==> p.regexCompiles(text, options == 2))
    ensures Written(p, h, path, inverted, StringPred(how, options, isRegex, Some(text)), "string",
                    [Whole(how), Whole(options), Bool(isRegex), Str(text)])
  {
    WrittenAs(p, h, path, inverted, StringPred(how, options, isRegex, Some(text)), "string",
              [Whole(how), Whole(options), Bool(isRegex), Str(text)]);
  }

  lemma DateWritten(p: Platform, h: Valuation, path: Path, inverted: bool, how: Int32, options: Int32, date: Int64)
    requires path != []
    ensures Written(p, h, path, inverted, DatePred(how, options, date), "date",
                    [Whole(how), Whole(options), Whole(date)])
  {
    WrittenAs(p, h, path, inverted, DatePred(how, options, date), "date", [Whole(how), Whole(options), Whole(date)]);
  }

  lemma NumericWritten(p: Platform, h: Valuation, path: Path, inverted: bool, how: Int32, options: Int32, num: Int64,
                       denom: Int64)
    requires path != []
    ensures Written(p, h, path, inverted, NumericPred(how, options, num, denom), "numeric",
                    [Whole(how), Whole(options), Pair(Whole(num), Whole(denom))])
  {
    WrittenAs(p, h, path, inverted, NumericPred(how, options, num, denom), "numeric",
              [Whole(how), Whole(options), Pair(Whole(num), Whole(denom))]);
  }

  lemma GuidWritten(p: Platform, h: Valuation, path: Path, inverted: bool, options: Int32, guids: seq<Guid>)
    requires Lawful(p) && path != [] && (guids != [] || options == 3)
    ensures Written(p, h, path, inverted, GuidPred(3, options, guids), "guid",
                    [Whole(3), Whole(options), ListOf(GuidTexts(p, guids))])
  {
    PredBack(p, GuidPred(3, options, guids));
    WrittenAs(p, h, path, inverted, GuidPred(3, options, guids), "guid",
              [Whole(3), Whole(options), ListOf(GuidTexts(p, guids))]);
  }

  lemma Int64Written(p: Platform, h: Valuation, path: Path, inverted: bool, how: Int32, n: Int64)
    requires path != []
    ensures Written(p, h, path, inverted, Int64Pred(how, n), "gint64", [Whole(how), Whole(n)])
  {
    WrittenAs(p, h, path, inverted, Int64Pred(how, n), "gint64", [Whole(how), Whole(n)]);
  }

  lemma DoubleWritten(p: Platform, h: Valuation, path: Path, inverted: bool, how: Int32, number: Flonum)
    requires path != []
    ensures Written(p, h, path, inverted, DoublePred(how, number), "double", [Whole(how), Inexact(number)])
  {
    WrittenAs(p, h, path, inverted, DoublePred(how, number), "double", [Whole(how), Inexact(number)]);
  }

  lemma BooleanWritten(p: Platform, h: Valuation, path: Path, inverted: bool, how: Int32, flag: bool)
    requires path != [] && how in {3, 6}
    ensures Written(p, h, path, inverted, BooleanPred(how, flag), "boolean", [Whole(how), Bool(flag)])
  {
    WrittenAs(p, h, path, inverted, BooleanPred(how, flag), "boolean", [Whole(how), Bool(flag)]);
  }

  lemma CharWritten(p: Platform, h: Valuation, path: Path, inverted: bool, options: Int32, chars: string)
    requires path != []
    ensures Written(p, h, path, inverted, CharPred(3, options, Some(chars)), "character",
                    [Whole(3), Whole(options), Str(chars)])
  {
    WrittenAs(p, h, path, inverted, CharPred(3, options, Some(chars)), "character",
              [Whole(3), Whole(options), Str(chars)]);
  }

  /** A missing text is printed as #f, and so is a term of a type that the bridge does not know. */
  lemma NothingWritten(p: Platform, path: Path, inverted: bool, how: Int32, options: Int32, isRegex: bool)
    ensures TermToScm(p, Term(path, inverted, StringPred(how, options, isRegex, None))) ==
      TermV2(path, inverted, "string", [Whole(how), Whole(options), Bool(isRegex), Bool(false)])
    ensures TermToScm(p, Term(path, inverted, CharPred(how, options, None))) ==
      TermV2(path, inverted, "character", [Whole(how), Whole(options), Bool(false)])
    ensures TermToScm(p, Term(path, inverted, OtherPred(how))) == Bool(false)
  {
    var text, chars := StringPred(how, options, isRegex, None), CharPred(how, options, None);
    assert HeadFields(Term(path, inverted, text)) + Payload(p, text) ==
      [ListOf(Strs(path)), Bool(inverted), Symbol("string")] + [Whole(how), Whole(options), Bool(isRegex), Bool(false)];
    assert HeadFields(Term(path, inverted, chars)) + Payload(p, chars) ==
      [ListOf(Strs(path)), Bool(inverted), Symbol("character")] + [Whole(how), Whole(options), Bool(false)];
  }
}
