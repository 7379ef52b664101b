/** The SAX content handler that turns a GnuCash file into account, transaction and split rows. */
module SaxImport {
  import opened Histories
  import opened Wrappers

  datatype Event = Start(name: string) | End(name: string) | Chars(content: string)

  datatype Row =
    | AccountRow(name: string, id: string, kind: string, description: string, parent: string)
    | TrnRow(id: string, num: string, description: string, dateYm: string, dateD: string)
    | SplitRow(id: string, trnId: string, value: real, quantity: real, account: string)

  /** Which characters rstrip removes, and what a fraction like "100/3" is worth; None stands for the exception. */
  datatype Env = Env(space: char -> bool, fraction: string -> Option<real>)

  type Record = map<string, string>

  const ACCOUNT_KEYS := {"name", "id", "type", "description", "parent"}
  const TRN_KEYS := {"id", "num", "description", "date_ym", "date_d"}
  const SPLIT_KEYS := {"id", "trn_id", "value", "quantity", "account"}

  function Blank(keys: set<string>): (r: Record)
    ensures r.Keys == keys
  {
    map k | k in keys :: ""
  }

  datatype State = State(account: Record, trn: Record, split: Record, tbl: string, key: string,
                         statusDatePosted: bool, datePosted: string, statusTemplateTrns: bool, aborted: bool)

  const INITIAL := State(Blank(ACCOUNT_KEYS), Blank(TRN_KEYS), Blank(SPLIT_KEYS), "", "", false, "", false, false)

  function Get(r: Record, key: string): string {
    if key in r then r[key] else ""
  }

  // ----- strings -----

  function RStrip(space: char -> bool, s: string): string {
    if s != [] && space(s[|s| - 1]) then RStrip(space, s[..|s| - 1]) else s
  }

  function StripAll(space: char -> bool, r: Record): (t: Record)
    ensures t.Keys == r.Keys
    ensures forall k :: k in r ==> t[k] == RStrip(space, r[k])
  {
    map k | k in r :: RStrip(space, r[k])
  }

  /** name.split(':')[0]. */
  function BeforeColon(s: string): string {
    if s == [] || s[0] == ':' then [] else [s[0]] + BeforeColon(s[1..])
  }

  /** name.split(':')[1]. */
  function AfterColon(s: string): string
    requires ':' in s
  {
    if s[0] == ':' then BeforeColon(s[1..]) else AfterColon(s[1..])
  }

  /** s[from:to]. */
  function Slice(s: string, from: nat, to: nat): string
    requires from <= to
  {
    if |s| <= from then [] else if |s| <= to then s[from..] else s[from..to]
  }

  // ----- one event -----

  function OnStart(s: State, name: string): State {
    if ':' in name then s.(tbl := BeforeColon(name), key := AfterColon(name)) else s
  }

  function Append(r: Record, key: string, content: string): (t: Record)
    ensures t.Keys == r.Keys
  {
    if key in r then r[key := r[key] + content] else r
  }

  function OnChars(s: State, content: string): State {
    if s.tbl == "act" then s.(account := Append(s.account, s.key, content))
    else if s.tbl == "trn" then
      if s.key in s.trn then s.(trn := Append(s.trn, s.key, content))
      else if s.key == "date-posted" then s.(statusDatePosted := true)
      else s
    else if s.tbl == "ts" then
      if s.key == "date" && s.statusDatePosted then s.(datePosted := s.datePosted + content) else s
    else if s.tbl == "split" then s.(split := Append(s.split, s.key, content))
    else if s.tbl == "gnc" && s.key == "template-transactions" then s.(statusTemplateTrns := true)
    else s
  }

  function AccountRowOf(r: Record): Row
  {
    AccountRow(Get(r, "name"), Get(r, "id"), Get(r, "type"), Get(r, "description"), Get(r, "parent"))
  }

  function TrnRowOf(r: Record): Row
  {
    TrnRow(Get(r, "id"), Get(r, "num"), Get(r, "description"), Get(r, "date_ym"), Get(r, "date_d"))
  }

  /** The row of a stripped split, if both of its fractions evaluate. */
  function SplitRowOf(e: Env, r: Record): Option<Row>
  {
    var value, quantity := e.fraction(Get(r, "value")), e.fraction(Get(r, "quantity"));
    if value.None? || quantity.None? then None
    else Some(SplitRow(Get(r, "id"), Get(r, "trn_id"), value.value, quantity.value, Get(r, "account")))
  }

  /** The split gets the id the transaction has at this moment; then both are stripped. */
  function LinkedSplit(e: Env, s: State): Record
  {
    StripAll(e.space, s.split["trn_id" := Get(s.trn, "id")])
  }

  function EndAccount(s: State): State {
    s.(account := Blank(ACCOUNT_KEYS), tbl := "", key := "")
  }

  function EndDatePosted(s: State): State {
    s.(trn := s.trn["date_ym" := Slice(s.datePosted, 0, 7)]["date_d" := Slice(s.datePosted, 8, 10)],
       statusDatePosted := false, datePosted := "")
  }

  function EndSplit(e: Env, s: State): State
  {
    if SplitRowOf(e, LinkedSplit(e, s)).None? then s.(aborted := true)
    else s.(split := Blank(SPLIT_KEYS), tbl := "", key := "")
  }

  function EndTransaction(s: State): State {
    s.(trn := Blank(TRN_KEYS), tbl := "", key := "")
  }

  function OnEnd(e: Env, s: State, name: string): State
  {
    if name == "gnc:account" then EndAccount(s)
    else if name == "trn:date-posted" then EndDatePosted(s)
    else if name == "trn:split" then EndSplit(e, s)
    else if name == "gnc:transaction" then EndTransaction(s)
    else if name == "gnc:template-transactions" then s.(statusTemplateTrns := false)
    else s
  }

  function Step(e: Env, s: State, event: Event): State
  {
    if s.aborted then s
    else match event
      case Start(name) => OnStart(s, name)
      case End(name) => OnEnd(e, s, name)
      case Chars(content) => OnChars(s, content)
  }

  function AccountEmits(e: Env, s: State): seq<Row>
  {
    if s.statusTemplateTrns then [] else [AccountRowOf(StripAll(e.space, s.account))]
  }

  function SplitEmits(e: Env, s: State): seq<Row>
  {
    var row := SplitRowOf(e, LinkedSplit(e, s));
    if row.None? || s.statusTemplateTrns then [] else [row.value]
  }

  function TrnEmits(e: Env, s: State): seq<Row>
  {
    if s.statusTemplateTrns then [] else [TrnRowOf(StripAll(e.space, s.trn))]
  }

  /** The row an event inserts, if any. */
  function Emits(e: Env, s: State, event: Event): seq<Row>
  {
    if s.aborted || !event.End? then []
    else if event.name == "gnc:account" then AccountEmits(e, s)
    else if event.name == "trn:split" then SplitEmits(e, s)
    else if event.name == "gnc:transaction" then TrnEmits(e, s)
    else []
  }

  // ----- runs -----

  function Steps(e: Env): (State, Event) -> State {
    (s: State, event: Event) => Step(e, s, event)
  }

  function Writes(e: Env): (State, Event) -> seq<Row> {
    (s: State, event: Event) => Emits(e, s, event)
  }

  /** The rows that a list of events writes. */
  function Rows(e: Env, s: State, es: seq<Event>): seq<Row> {
    Output(Steps(e), Writes(e), s, es)
  }

  // ----- the handler object -----

  class GCContent {
    const env: Env
    var account: Record
    var trn: Record
    var split: Record
    var tbl: string
    var key: string
    var statusDatePosted: bool
    var datePosted: string
    var statusTemplateTrns: bool
    var aborted: bool
    var rows: seq<Row>

    function Abstract(): State
      reads this
    {
      State(account, trn, split, tbl, key, statusDatePosted, datePosted, statusTemplateTrns, aborted)
    }

    constructor (env: Env)
      ensures this.env == env && Abstract() == INITIAL && rows == []
    {
      this.env := env;
      account, trn, split := Blank(ACCOUNT_KEYS), Blank(TRN_KEYS), Blank(SPLIT_KEYS);
      tbl, key, statusDatePosted, datePosted, statusTemplateTrns := "", "", false, "", false;
      aborted, rows := false, [];
    }

    method StartElement(name: string)
      requires !aborted
      modifies this
      ensures Abstract() == Step(env, old(Abstract()), Start(name)) && rows == old(rows)
    {
      if ':' in name {
        tbl := BeforeColon(name);
        key := AfterColon(name);
      }
    }

    method Characters(content: string)
      requires !aborted
      modifies this
      ensures Abstract() == Step(env, old(Abstract()), Chars(content)) && rows == old(rows)
    {
      if tbl == "act" {
        if key in account {
          account := account[key := account[key] + content];
        }
      } else if tbl == "trn" {
        if key in trn {
          trn := trn[key := trn[key] + content];
        } else if key == "date-posted" {
          statusDatePosted := true;
        }
      } else if tbl == "ts" {
        if key == "date" && statusDatePosted {
          datePosted := datePosted + content;
        }
      } else if tbl == "split" {
        if key in split {
          split := split[key := split[key] + content];
        }
      } else if tbl == "gnc" {
        if key == "template-transactions" {
          statusTemplateTrns := true;
        }
      }
    }

    method EndElement(name: string)
      requires !aborted
      modifies this
      ensures Abstract() == Step(env, old(Abstract()), End(name))
      ensures rows == old(rows) + Emits(env, old(Abstract()), End(name))
    {
      if name == "gnc:account" {
        AccountEnded();
      } else if name == "trn:date-posted" {
        trn := trn["date_ym" := Slice(datePosted, 0, 7)];
        trn := trn["date_d" := Slice(datePosted, 8, 10)];
        statusDatePosted := false;
        datePosted := "";
      } else if name == "trn:split" {
        SplitEnded();
      } else if name == "gnc:transaction" {
        TransactionEnded();
      } else if name == "gnc:template-transactions" {
        statusTemplateTrns := false;
      }
    }

    /** The parser's callback for one event. */
    method Handle(event: Event)
      requires !aborted
      modifies this
      ensures Abstract() == Step(env, old(Abstract()), event)
      ensures rows == old(rows) + Emits(env, old(Abstract()), event)
    {
      match event
      case Start(name) => StartElement(name);
      case End(name) => EndElement(name);
      case Chars(content) => Characters(content);
    }

    method AccountEnded()
      modifies this
      ensures Abstract() == EndAccount(old(Abstract())) && rows == old(rows) + AccountEmits(env, old(Abstract()))
    {
      account := StripAll(env.space, account);
      if !statusTemplateTrns {
        rows := rows + [AccountRowOf(account)];
      }
      account := Blank(ACCOUNT_KEYS);
      tbl, key := "", "";
    }

    method SplitEnded()
      modifies this
      ensures Abstract() == EndSplit(env, old(Abstract())) && rows == old(rows) + SplitEmits(env, old(Abstract()))
    {
      var linked := LinkedSplit(env, Abstract());
      var row := SplitRowOf(env, linked);
      if row.None? {
        aborted := true;
        return;
      }
      if !statusTemplateTrns {
        rows := rows + [row.value];
      }
      split := Blank(SPLIT_KEYS);
      tbl, key := "", "";
    }

    method TransactionEnded()
      modifies this
      ensures Abstract() == EndTransaction(old(Abstract())) && rows == old(rows) + TrnEmits(env, old(Abstract()))
    {
      trn := StripAll(env.space, trn);
      if !statusTemplateTrns {
        rows := rows + [TrnRowOf(trn)];
      }
      trn := Blank(TRN_KEYS);
      tbl, key := "", "";
    }
  }

  /** A whole parse: the handler is fed every event until it raises an exception. */
  method Parse(env: Env, es: seq<Event>) returns (rows: seq<Row>)
    ensures rows == Rows(env, INITIAL, es)
  {
    var handler := new GCContent(env);
    assert es[0..] == es;
    for i := 0 to |es|
      invariant handler.env == env && !handler.aborted
      invariant fresh(handler)
      invariant handler.rows + Rows(env, handler.Abstract(), es[i..]) == Rows(env, INITIAL, es)
    {
      ghost var before, written := handler.Abstract(), handler.rows;
      handler.Handle(es[i]);
      RowsStep(env, before, es, i, written);
      if handler.aborted {
        AbortedRows(env, handler.Abstract(), es[i + 1..]);
        return handler.rows;
      }
    }
    return handler.rows;
  }

  lemma RowsStep(e: Env, s: State, es: seq<Event>, i: nat, written: seq<Row>)
    requires i < |es|
    ensures written + Rows(e, s, es[i..]) == (written + Emits(e, s, es[i])) + Rows(e, Step(e, s, es[i]), es[i + 1..])
  {
    assert es[i..][1..] == es[i + 1..];
  }

  lemma {:induction false} AbortedRows(e: Env, s: State, es: seq<Event>)
    requires s.aborted
    ensures Rows(e, s, es) == []
    decreases es
  {
    if es != [] {
      AbortedRows(e, s, es[1..]);
    }
  }

  // ----- chunks of character data -----

  /** The same events with neighbouring chunks of text joined. */
  function Coalesce(es: seq<Event>): seq<Event>
    decreases |es|
  {
    if |es| <= 1 then es
    else if es[0].Chars? && es[1].Chars? then Coalesce([Chars(es[0].content + es[1].content)] + es[2..])
    else [es[0]] + Coalesce(es[1..])
  }

  lemma AppendTwice(r: Record, key: string, a: string, b: string)
    ensures Append(Append(r, key, a), key, b) == Append(r, key, a + b)
  {
    if key in r {
      assert (r[key] + a) + b == r[key] + (a + b);
    }
  }

  lemma RecordChunks(s: State, a: string, b: string)
    requires s.tbl == "act" || s.tbl == "trn" || s.tbl == "split"
    ensures OnChars(OnChars(s, a), b) == OnChars(s, a + b)
  {
    if s.tbl == "act" {
      AppendTwice(s.account, s.key, a, b);
    } else if s.tbl == "trn" {
      AppendTwice(s.trn, s.key, a, b);
    } else {
      AppendTwice(s.split, s.key, a, b);
    }
  }

  lemma OtherChunks(s: State, a: string, b: string)
    requires s.tbl != "act" && s.tbl != "trn" && s.tbl != "split"
    ensures OnChars(OnChars(s, a), b) == OnChars(s, a + b)
  {
    if s.tbl == "ts" {
      assert (s.datePosted + a) + b == s.datePosted + (a + b);
    }
  }

  lemma TwoChunks(e: Env, s: State, a: string, b: string)
    ensures Step(e, Step(e, s, Chars(a)), Chars(b)) == Step(e, s, Chars(a + b))
  {
    if s.tbl == "act" || s.tbl == "trn" || s.tbl == "split" {
      RecordChunks(s, a, b);
    } else {
      OtherChunks(s, a, b);
    }
    assert !s.aborted ==> Step(e, s, Chars(a)) == OnChars(s, a) && !OnChars(s, a).aborted;
  }

  /** However the parser cuts up character data, the handler ends in the same state and writes the same rows. */
  lemma {:induction false} ChunkIndependence(e: Env, s: State, es: seq<Event>)
    ensures Run(Steps(e), s, Coalesce(es)) == Run(Steps(e), s, es) && Rows(e, s, Coalesce(es)) == Rows(e, s, es)
    decreases |es|
  {
    if |es| > 1 {
      if es[0].Chars? && es[1].Chars? {
        var joined := Chars(es[0].content + es[1].content);
        ChunkIndependence(e, s, [joined] + es[2..]);
        TwoChunks(e, s, es[0].content, es[1].content);
        OneForTwo(Steps(e), Writes(e), s, es[0], es[1], joined, es[2..]);
        assert es == [es[0], es[1]] + es[2..];
      } else {
        var rest := Coalesce(es[1..]);
        ChunkIndependence(e, Step(e, s, es[0]), es[1..]);
        assert ([es[0]] + rest)[1..] == rest;
      }
    }
  }

  lemma OneForTwo<S, E, R>(step: (S, E) -> S, out: (S, E) -> seq<R>, s: S, a: E, b: E, c: E, rest: seq<E>)
    requires step(step(s, a), b) == step(s, c)
    requires out(s, a) == out(s, c) == out(step(s, a), b) == []
    ensures Run(step, s, [c] + rest) == Run(step, s, [a, b] + rest)
    ensures Output(step, out, s, [c] + rest) == Output(step, out, s, [a, b] + rest)
  {
    assert ([c] + rest)[1..] == rest && ([a, b] + rest)[1..] == [b] + rest && ([b] + rest)[1..] == rest;
  }

  // ----- the states along a run -----

  function States(e: Env, start: State, es: seq<Event>): seq<State> {
    Trace(Steps(e), start, es)
  }

  lemma Next(e: Env, start: State, es: seq<Event>, k: nat)
    requires k < |es|
    ensures States(e, start, es)[k + 1] == Step(e, States(e, start, es)[k], es[k])
  {
    TraceStep(Steps(e), start, es, k);
  }

  /** An exception is final. */
  lemma Alive(e: Env, start: State, es: seq<Event>, i: nat, j: nat)
    requires i <= j <= |es| && !States(e, start, es)[j].aborted
    ensures !States(e, start, es)[i].aborted
  {
    forall k, n | i <= k < j && n == k + 1 && States(e, start, es)[k].aborted
      ensures States(e, start, es)[n].aborted
    {
      Next(e, start, es, k);
    }
    if States(e, start, es)[i].aborted {
      Kept(Steps(e), (s: State) => s.aborted, start, es, i, j);
    }
  }

  // ----- the dictionaries -----

  predicate FullDictionaries(s: State) {
    s.account.Keys == ACCOUNT_KEYS && s.trn.Keys == TRN_KEYS && s.split.Keys == SPLIT_KEYS
  }

  /** No event adds a key to a dictionary or removes one, so no lookup of a column fails. */
  lemma KeysKept(e: Env, s: State, event: Event)
    requires FullDictionaries(s)
    ensures FullDictionaries(Step(e, s, event))
  {
    match event
    case End(name) => EndKeepsKeys(e, s, name);
    case _ =>
  }

  lemma EndKeepsKeys(e: Env, s: State, name: string)
    requires FullDictionaries(s)
    ensures FullDictionaries(OnEnd(e, s, name))
  {
    if name == "gnc:account" {
      assert FullDictionaries(EndAccount(s));
    } else if name == "trn:date-posted" {
      assert "date_ym" in TRN_KEYS && "date_d" in TRN_KEYS;
      assert FullDictionaries(EndDatePosted(s));
    } else if name == "trn:split" {
      assert FullDictionaries(EndSplit(e, s));
    } else if name == "gnc:transaction" {
      assert FullDictionaries(EndTransaction(s));
    }
  }

  /** Along every run of a new handler. */
  lemma AlwaysFull(e: Env, es: seq<Event>, i: nat)
    requires i <= |es|
    ensures FullDictionaries(States(e, INITIAL, es)[i])
  {
    var ss := States(e, INITIAL, es);
    forall k, n | 0 <= k < i && n == k + 1 && FullDictionaries(ss[k])
      ensures FullDictionaries(ss[n])
    {
      Next(e, INITIAL, es, k);
      KeysKept(e, ss[k], es[k]);
    }
    Kept(Steps(e), (s: State) => FullDictionaries(s), INITIAL, es, 0, i);
  }

  // ----- the posting date -----

  /** At the end of its element a posting date like 2024-05-31 is split into its month and its day,
      and the handler is ready for the next one. */
  lemma DatePostedColumns(e: Env, s: State)
    requires !s.aborted && |s.datePosted| >= 10 && s.datePosted[7] == '-'
    ensures var t := Step(e, s, End("trn:date-posted"));
      && Get(t.trn, "date_ym") + "-" + Get(t.trn, "date_d") == s.datePosted[..10]
      && t.datePosted == "" && !t.statusDatePosted && Id(t) == Id(s)
  {
    assert |"date_ym"| == 7 && |"date_d"| == 6 && |"id"| == 2 && |"gnc:account"| == 11 && |"trn:date-posted"| == 15;
    assert Step(e, s, End("trn:date-posted")) == EndDatePosted(s);
    assert Get(EndDatePosted(s).trn, "date_ym") == s.datePosted[..7];
    assert Get(EndDatePosted(s).trn, "date_d") == s.datePosted[8..10];
  }

  // ----- template transactions -----

  /** The last element that was opened is `tbl`:`key`. */
  predicate In(s: State, tbl: string, key: string) {
    s.tbl == tbl && s.key == key
  }

  predicate InTemplates(s: State) {
    In(s, "gnc", "template-transactions")
  }

  predicate Raises(s: State, event: Event) {
    event.Chars? && InTemplates(s)
  }

  predicate Lowers(event: Event) {
    event == End("gnc:template-transactions")
  }

  lemma FlagStep(e: Env, s: State, event: Event)
    requires !s.aborted
    ensures Step(e, s, event).statusTemplateTrns <==> Raises(s, event) || (s.statusTemplateTrns && !Lowers(event))
  {
    match event
    case End(name) =>
      FlagEnd(e, s, name);
      assert Lowers(event) <==> name == "gnc:template-transactions";
    case _ =>
  }

  lemma FlagEnd(e: Env, s: State, name: string)
    ensures OnEnd(e, s, name).statusTemplateTrns <==> s.statusTemplateTrns && name != "gnc:template-transactions"
  {
    assert |"gnc:template-transactions"| == 25 && |"gnc:account"| == 11 && |"trn:date-posted"| == 15;
    assert |"trn:split"| == 9 && |"gnc:transaction"| == 15;
  }

  /** Text arrived right inside a templates element that is still open at event i. */
  ghost predicate TemplateText(ss: seq<State>, es: seq<Event>, i: nat)
    requires i <= |es| < |ss|
  {
    exists m :: 0 <= m < i && Raises(ss[m], es[m]) && forall k :: m < k < i ==> !Lowers(es[k])
  }

  lemma FlagNext(e: Env, start: State, es: seq<Event>, k: nat, i: nat)
    requires k < i <= |es| && !States(e, start, es)[i].aborted
    ensures var ss := States(e, start, es);
      ss[k + 1].statusTemplateTrns <==> Raises(ss[k], es[k]) || (ss[k].statusTemplateTrns && !Lowers(es[k]))
  {
    Alive(e, start, es, k, i);
    Next(e, start, es, k);
    FlagStep(e, States(e, start, es)[k], es[k]);
  }

  lemma TemplateFlag(e: Env, start: State, es: seq<Event>, i: nat)
    requires i <= |es| && !start.statusTemplateTrns && !States(e, start, es)[i].aborted
    ensures States(e, start, es)[i].statusTemplateTrns <==> TemplateText(States(e, start, es), es, i)
  {
    var ss := States(e, start, es);
    var flag := seq(|es| + 1, k requires 0 <= k <= |es| => ss[k].statusTemplateTrns);
    var raises := seq(|es|, k requires 0 <= k < |es| => Raises(ss[k], es[k]));
    var lowers := seq(|es|, k requires 0 <= k < |es| => Lowers(es[k]));
    forall k, n | 0 <= k < i && n == k + 1
      ensures flag[n] <==> raises[k] || (flag[k] && !lowers[k])
    {
      FlagNext(e, start, es, k, i);
    }
    FlagHistory(flag, raises, lowers, i);
    assert forall k :: 0 <= k < |es| ==> raises[k] == Raises(ss[k], es[k]) && lowers[k] == Lowers(es[k]);
  }

  lemma EmitsNothing(e: Env, s: State, event: Event)
    requires !s.aborted
    ensures s.statusTemplateTrns ==> Emits(e, s, event) == []
    ensures event == End("gnc:transaction") && !s.statusTemplateTrns ==> Emits(e, s, event) != []
  {
  }

  /** While text inside an open templates element is pending, no event writes a row; the end of a transaction writes
      its row exactly when none is. */
  lemma TemplateRows(e: Env, start: State, es: seq<Event>, i: nat)
    requires i < |es| && !start.statusTemplateTrns && !States(e, start, es)[i].aborted
    ensures var ss := States(e, start, es);
      && (TemplateText(ss, es, i) ==> Emits(e, ss[i], es[i]) == [])
      && (es[i] == End("gnc:transaction") ==> (Emits(e, ss[i], es[i]) == [] <==> TemplateText(ss, es, i)))
  {
    TemplateFlag(e, start, es, i);
    EmitsNothing(e, States(e, start, es)[i], es[i]);
  }

  // ----- references from splits to transactions -----

  predicate EndsTransaction(event: Event) {
    event == End("gnc:transaction")
  }

  predicate EndsSplit(event: Event) {
    event == End("trn:split")
  }

  predicate InTrnId(s: State) {
    In(s, "trn", "id")
  }

  function IdPart(s: State, event: Event): string {
    if event.Chars? && InTrnId(s) && s.key in s.trn then event.content else ""
  }

  function IdParts(ss: seq<State>, es: seq<Event>): (parts: seq<string>)
    requires |ss| == |es| + 1
    ensures |parts| == |es| && forall k :: 0 <= k < |es| ==> parts[k] == IdPart(ss[k], es[k])
  {
    seq(|es|, k requires 0 <= k < |es| => IdPart(ss[k], es[k]))
  }

  function Id(s: State): string {
    Get(s.trn, "id")
  }

  function Ids(ss: seq<State>): (ids: seq<string>)
    ensures |ids| == |ss| && forall k :: 0 <= k < |ss| ==> ids[k] == Id(ss[k])
  {
    seq(|ss|, k requires 0 <= k < |ss| => Id(ss[k]))
  }

  lemma IdStep(e: Env, s: State, event: Event)
    requires !s.aborted && !EndsTransaction(event)
    ensures Id(Step(e, s, event)) == Id(s) + IdPart(s, event)
  {
    assert Id(s) + "" == Id(s);
    assert |"id"| == 2 && |"date_ym"| == 7 && |"date_d"| == 6;
    if event.End? && event.name == "trn:date-posted" {
      assert Step(e, s, event).trn == EndDatePosted(s).trn;
    }
  }

  lemma IdNext(e: Env, start: State, es: seq<Event>, k: nat, j: nat)
    requires k < j <= |es| && !States(e, start, es)[j].aborted && !EndsTransaction(es[k])
    ensures var ss := States(e, start, es);
      Id(ss[k + 1]) == Id(ss[k]) + IdPart(ss[k], es[k])
  {
    Alive(e, start, es, k, j);
    Next(e, start, es, k);
    IdStep(e, States(e, start, es)[k], es[k]);
  }

  lemma IdGrows(e: Env, start: State, es: seq<Event>, i: nat, j: nat)
    requires i <= j <= |es| && !States(e, start, es)[j].aborted && forall k :: i <= k < j ==> !EndsTransaction(es[k])
    ensures var ss := States(e, start, es);
      Id(ss[j]) == Id(ss[i]) + Added(IdParts(ss, es), i, j)
  {
    var ss := States(e, start, es);
    forall k, n | i <= k < j && n == k + 1
      ensures Ids(ss)[n] == Ids(ss)[k] + IdParts(ss, es)[k]
    {
      IdNext(e, start, es, k, j);
    }
    TextHistory(Ids(ss), IdParts(ss, es), i, j);
  }

  /** Stripping hides an appended text exactly when it is all blank. */
  lemma {:induction false} StripConcat(space: char -> bool, a: string, b: string)
    ensures |RStrip(space, a)| <= |a|
    ensures RStrip(space, a + b) == RStrip(space, a) <==> forall c :: c in b ==> space(c)
    decreases |a| + |b|
  {
    if b != [] {
      var n := |b| - 1;
      StripConcat(space, a, b[..n]);
      assert (a + b)[..|a + b| - 1] == a + b[..n];
      assert b == b[..n] + [b[n]];
    } else {
      assert a + b == a;
      if a != [] && space(a[|a| - 1]) {
        StripConcat(space, a[..|a| - 1], []);
      }
    }
  }

  /** A split ends at event i, the transaction around it at event j, and both write their row. */
  ghost predicate SplitInTransaction(e: Env, start: State, es: seq<Event>, i: nat, j: nat) {
    && i < j < |es|
    && EndsSplit(es[i]) && EndsTransaction(es[j]) && (forall k :: i <= k < j ==> !EndsTransaction(es[k]))
    && !States(e, start, es)[j].aborted
    && Emits(e, States(e, start, es)[i], es[i]) != [] && Emits(e, States(e, start, es)[j], es[j]) != []
  }

  lemma RowIds(e: Env, s: State, event: Event)
    requires Emits(e, s, event) != []
    ensures EndsSplit(event) ==>
      Emits(e, s, event)[0].SplitRow? && Emits(e, s, event)[0].trnId == RStrip(e.space, Id(s))
    ensures EndsTransaction(event) ==>
      Emits(e, s, event)[0].TrnRow? && Emits(e, s, event)[0].id == RStrip(e.space, Id(s))
  {
  }

  /** A split row refers to the row of its transaction exactly when only blanks are added to the transaction's id
      behind the split. */
  lemma SplitReference(e: Env, start: State, es: seq<Event>, i: nat, j: nat)
    requires SplitInTransaction(e, start, es, i, j)
    ensures var ss := States(e, start, es);
      var split, trn := Emits(e, ss[i], es[i])[0], Emits(e, ss[j], es[j])[0];
      && split.SplitRow? && trn.TrnRow?
      && (split.trnId == trn.id <==> forall c :: c in Added(IdParts(ss, es), i, j) ==> e.space(c))
  {
    var ss := States(e, start, es);
    RowIds(e, ss[i], es[i]);
    RowIds(e, ss[j], es[j]);
    IdGrows(e, start, es, i, j);
    StripConcat(e.space, Id(ss[i]), Added(IdParts(ss, es), i, j));
  }

  predicate Opens(event: Event, tbl: string, key: string) {
    event.Start? && ':' in event.name && BeforeColon(event.name) == tbl && AfterColon(event.name) == key
  }

  predicate OpensTrnId(event: Event) {
    Opens(event, "trn", "id")
  }

  predicate OpensTemplates(event: Event) {
    Opens(event, "gnc", "template-transactions")
  }

  /** An element is entered only by its start. */
  lemma StaysOutside(e: Env, s: State, event: Event, tbl: string, key: string)
    requires !s.aborted && |tbl| > 0 && !In(s, tbl, key) && !Opens(event, tbl, key)
    ensures !In(Step(e, s, event), tbl, key)
  {
    match event
    case End(name) => EndOutside(e, s, name, tbl, key);
    case _ =>
  }

  lemma NoTable(s: State, tbl: string, key: string)
    requires |s.tbl| == 0 < |tbl|
    ensures !In(s, tbl, key)
  {
  }

  lemma SameTable(s: State, t: State, tbl: string, key: string)
    requires t.tbl == s.tbl && t.key == s.key
    ensures In(t, tbl, key) <==> In(s, tbl, key)
  {
  }

  lemma EndOutside(e: Env, s: State, name: string, tbl: string, key: string)
    requires |tbl| > 0 && !In(s, tbl, key)
    ensures !In(OnEnd(e, s, name), tbl, key)
  {
    if name == "gnc:account" {
      NoTable(EndAccount(s), tbl, key);
    } else if name == "trn:date-posted" {
      SameTable(s, EndDatePosted(s), tbl, key);
    } else if name == "trn:split" {
      EndSplitOutside(e, s, tbl, key);
    } else if name == "gnc:transaction" {
      NoTable(EndTransaction(s), tbl, key);
    }
  }

  lemma EndSplitOutside(e: Env, s: State, tbl: string, key: string)
    requires |tbl| > 0 && (!In(s, tbl, key) || !EndSplit(e, s).aborted)
    ensures !In(EndSplit(e, s), tbl, key)
  {
    if EndSplit(e, s).aborted {
      SameTable(s, s.(aborted := true), tbl, key);
    } else {
      NoTable(s.(split := Blank(SPLIT_KEYS), tbl := "", key := ""), tbl, key);
    }
  }

  lemma SplitEndLeaves(e: Env, s: State, event: Event, tbl: string, key: string)
    requires !s.aborted && EndsSplit(event) && !Step(e, s, event).aborted && |tbl| > 0
    ensures !In(Step(e, s, event), tbl, key)
  {
    assert |"gnc:account"| == 11 && |"trn:date-posted"| == 15 && |"trn:split"| == 9;
    assert Step(e, s, event) == EndSplit(e, s);
    EndSplitOutside(e, s, tbl, key);
  }

  /** From the end of a split on an element is not entered before its next start. */
  lemma Outside(e: Env, start: State, es: seq<Event>, i: nat, j: nat, tbl: string, key: string)
    requires i < j <= |es| && EndsSplit(es[i]) && !States(e, start, es)[j].aborted && |tbl| > 0
    requires forall k :: i < k < j ==> !Opens(es[k], tbl, key)
    ensures !In(States(e, start, es)[j], tbl, key)
  {
    var ss := States(e, start, es);
    forall k, n | i + 1 <= k < j && n == k + 1 && !In(ss[k], tbl, key)
      ensures !In(ss[n], tbl, key)
    {
      OutsideNext(e, start, es, k, j, tbl, key);
    }
    Alive(e, start, es, i, j);
    Alive(e, start, es, i + 1, j);
    Next(e, start, es, i);
    SplitEndLeaves(e, ss[i], es[i], tbl, key);
    Kept(Steps(e), (s: State) => !In(s, tbl, key), start, es, i + 1, j);
  }

  lemma OutsideNext(e: Env, start: State, es: seq<Event>, k: nat, j: nat, tbl: string, key: string)
    requires k < j <= |es| && !States(e, start, es)[j].aborted && |tbl| > 0
    requires !In(States(e, start, es)[k], tbl, key) && !Opens(es[k], tbl, key)
    ensures !In(States(e, start, es)[k + 1], tbl, key)
  {
    Alive(e, start, es, k, j);
    Next(e, start, es, k);
    StaysOutside(e, States(e, start, es)[k], es[k], tbl, key);
  }

  /** If the transaction's id is not opened again behind a split, the split row refers to the row of its transaction. */
  lemma ReferenceIntact(e: Env, start: State, es: seq<Event>, i: nat, j: nat)
    requires SplitInTransaction(e, start, es, i, j)
    requires forall k :: i < k < j ==> !OpensTrnId(es[k])
    ensures var ss := States(e, start, es);
      var split, trn := Emits(e, ss[i], es[i])[0], Emits(e, ss[j], es[j])[0];
      split.SplitRow? && trn.TrnRow? && split.trnId == trn.id
  {
    var ss := States(e, start, es);
    SplitReference(e, start, es, i, j);
    forall k | i <= k < j
      ensures IdParts(ss, es)[k] == ""
    {
      if k > i {
        Alive(e, start, es, k, j);
        Outside(e, start, es, i, k, "trn", "id");
      }
    }
    NothingAdded(IdParts(ss, es), i, j);
  }

  // ----- the rows of a whole run -----

  /** Between the end of a split and the end of its transaction neither the transaction's id nor the template
      transactions are opened. */
  ghost predicate Nested(es: seq<Event>) {
    forall i, k :: 0 <= i < k < |es| && EndsSplit(es[i]) && (OpensTrnId(es[k]) || OpensTemplates(es[k]))
      ==> exists m :: i < m < k && EndsTransaction(es[m])
  }

  lemma {:induction false} FirstTransactionEnd(es: seq<Event>, i: nat, j: nat) returns (m: nat)
    requires i < j < |es| && EndsTransaction(es[j])
    ensures i < m <= j && EndsTransaction(es[m]) && forall k :: i < k < m ==> !EndsTransaction(es[k])
    decreases j - i
  {
    if EndsTransaction(es[i + 1]) {
      m := i + 1;
    } else {
      m := FirstTransactionEnd(es, i + 1, j);
    }
  }

  lemma RowEvents(e: Env, s: State, event: Event)
    ensures |Emits(e, s, event)| <= 1
    ensures Emits(e, s, event) != [] ==> !s.aborted && !s.statusTemplateTrns
    ensures Emits(e, s, event) != [] && Emits(e, s, event)[0].SplitRow? ==> EndsSplit(event)
    ensures Emits(e, s, event) != [] && Emits(e, s, event)[0].TrnRow? ==> EndsTransaction(event)
    ensures !s.aborted && !s.statusTemplateTrns && EndsTransaction(event) ==>
      Emits(e, s, event) != [] && Emits(e, s, event)[0].TrnRow?
    ensures EndsSplit(event) ==> !EndsTransaction(event)
  {
    assert |"gnc:account"| == 11 && |"trn:split"| == 9 && |"gnc:transaction"| == 15;
  }

  /** Once a split row is written, the template flag stays down until the transaction ends. */
  lemma FlagStaysDown(e: Env, start: State, es: seq<Event>, i: nat, j: nat)
    requires i < j <= |es| && EndsSplit(es[i]) && !States(e, start, es)[j].aborted
    requires !States(e, start, es)[i].statusTemplateTrns
    requires forall k :: i < k < j ==> !OpensTemplates(es[k])
    ensures !States(e, start, es)[j].statusTemplateTrns
  {
    var ss := States(e, start, es);
    forall k, n | i <= k < j && n == k + 1 && !ss[k].statusTemplateTrns
      ensures !ss[n].statusTemplateTrns
    {
      FlagNext(e, start, es, k, j);
      if k > i {
        Alive(e, start, es, k, j);
        Outside(e, start, es, i, k, "gnc", "template-transactions");
      }
    }
    Kept(Steps(e), (s: State) => !s.statusTemplateTrns, start, es, i, j);
  }

  /** Where the run writes a split row and later reaches the end of the transaction, it writes the transaction's row
      there, and the two ids are the same. */
  lemma TransactionFollows(e: Env, start: State, es: seq<Event>, i: nat, j: nat)
    requires Nested(es) && i < j < |es| && EndsSplit(es[i]) && EndsTransaction(es[j])
    requires forall k :: i < k < j ==> !EndsTransaction(es[k])
    requires !States(e, start, es)[j].aborted && Emits(e, States(e, start, es)[i], es[i]) != []
    ensures var ss := States(e, start, es);
      && Emits(e, ss[i], es[i])[0].SplitRow?
      && Emits(e, ss[j], es[j]) != [] && Emits(e, ss[j], es[j])[0].TrnRow?
      && Emits(e, ss[i], es[i])[0].trnId == Emits(e, ss[j], es[j])[0].id
  {
    var ss := States(e, start, es);
    forall k | i < k < j ensures !OpensTrnId(es[k]) && !OpensTemplates(es[k]) {
    }
    RowEvents(e, ss[i], es[i]);
    FlagStaysDown(e, start, es, i, j);
    RowEvents(e, ss[j], es[j]);
    ReferenceIntact(e, start, es, i, j);
  }

  /** The rows of a run, event by event. */
  ghost function RowParts(e: Env, start: State, es: seq<Event>): seq<seq<Row>> {
    Parts(Steps(e), Writes(e), start, es)
  }

  lemma RowPartsFlat(e: Env, start: State, es: seq<Event>)
    ensures |RowParts(e, start, es)| == |es| && Flatten(RowParts(e, start, es)) == Rows(e, start, es)
    ensures forall k :: 0 <= k < |es| ==>
      RowParts(e, start, es)[k] == Emits(e, States(e, start, es)[k], es[k]) && |RowParts(e, start, es)[k]| <= 1
  {
    TraceRun(Steps(e), Writes(e), start, es);
    forall k | 0 <= k < |es| ensures |RowParts(e, start, es)[k]| <= 1 {
      RowEvents(e, States(e, start, es)[k], es[k]);
    }
  }

  /** The event that writes a row. */
  lemma Writer(e: Env, start: State, es: seq<Event>, a: nat) returns (i: nat)
    requires a < |Rows(e, start, es)|
    ensures i < |es| && Place(RowParts(e, start, es), i) == a
    ensures Emits(e, States(e, start, es)[i], es[i]) == [Rows(e, start, es)[a]]
  {
    RowPartsFlat(e, start, es);
    i := EventOf(RowParts(e, start, es), a);
  }

  /** A row written between two others stands between them. */
  lemma Between(e: Env, start: State, es: seq<Event>, i: nat, m: nat, j: nat)
    requires i < m < j < |es|
    requires Emits(e, States(e, start, es)[i], es[i]) != [] && Emits(e, States(e, start, es)[m], es[m]) != []
    ensures var parts := RowParts(e, start, es);
      && Place(parts, i) < Place(parts, m) < Place(parts, j) <= |Rows(e, start, es)|
      && Rows(e, start, es)[Place(parts, m)] == Emits(e, States(e, start, es)[m], es[m])[0]
  {
    RowPartsFlat(e, start, es);
    var parts := RowParts(e, start, es);
    PlacesGrow(parts, i, m);
    PlacesGrow(parts, m, j);
    PlaceNext(parts, m);
    PlaceNext(parts, j);
    assert parts[m][0] == Flatten(parts)[Place(parts, m)..Place(parts, m + 1)][0];
  }

  lemma WritersInOrder(e: Env, start: State, es: seq<Event>, i: nat, j: nat)
    requires i < |es| && j < |es| && Place(RowParts(e, start, es), i) < Place(RowParts(e, start, es), j)
    ensures i < j
  {
    if j < i {
      PlacesGrow(RowParts(e, start, es), j, i);
    }
  }

  /** A split row and a later row have between them the row of every transaction that ends between the two. */
  lemma TransactionBetween(e: Env, start: State, es: seq<Event>, i: nat, m: nat, j: nat) returns (c: nat)
    requires Nested(es) && i < m < j < |es| && EndsSplit(es[i]) && EndsTransaction(es[m])
    requires forall k :: i < k < m ==> !EndsTransaction(es[k])
    requires !States(e, start, es)[j].aborted && Emits(e, States(e, start, es)[i], es[i]) != []
    ensures var parts := RowParts(e, start, es); Place(parts, i) < c < Place(parts, j) <= |Rows(e, start, es)|
    ensures Rows(e, start, es)[c].TrnRow?
  {
    Alive(e, start, es, m, j);
    TransactionFollows(e, start, es, i, m);
    Between(e, start, es, i, m, j);
    c := Place(RowParts(e, start, es), m);
  }

  /** Among the rows of a parse, a split row carries the id of the first transaction row behind it. */
  lemma RowsIntact(e: Env, start: State, es: seq<Event>, a: nat, b: nat)
    requires Nested(es) && a < b < |Rows(e, start, es)|
    requires Rows(e, start, es)[a].SplitRow? && Rows(e, start, es)[b].TrnRow?
    requires forall c :: a < c < b ==> !Rows(e, start, es)[c].TrnRow?
    ensures Rows(e, start, es)[a].trnId == Rows(e, start, es)[b].id
  {
    var i := Writer(e, start, es, a);
    var j := Writer(e, start, es, b);
    RowEvents(e, States(e, start, es)[i], es[i]);
    RowEvents(e, States(e, start, es)[j], es[j]);
    WritersInOrder(e, start, es, i, j);
    var m := FirstTransactionEnd(es, i, j);
    if m < j {
      var c := TransactionBetween(e, start, es, i, m, j);
      assert false;
    }
    TransactionFollows(e, start, es, i, j);
  }
}
