/** Which text of a GnuCash file ends up in which column. */
module SaxColumns {
  import opened Histories
  import opened SaxImport
  import opened Wrappers

  /** The prefix of a tag name is its table, what follows up to another colon its key. */
  lemma {:induction false} ColonParts(table: string, key: string, rest: string)
    requires ':' !in table && ':' !in key && (rest == "" || rest[0] == ':')
    ensures var name := table + ":" + key + rest;
      ':' in name && BeforeColon(name) == table && AfterColon(name) == key
  {
    var name := table + ":" + key + rest;
    if table == "" {
      assert name[0] == ':' && name[1..] == key + rest;
      UpToColon(key, rest);
    } else {
      ColonParts(table[1..], key, rest);
      assert name[0] == table[0] && name[1..] == table[1..] + ":" + key + rest;
      assert ':' in name[1..];
      assert table == [table[0]] + table[1..];
    }
  }

  lemma {:induction false} UpToColon(key: string, rest: string)
    requires ':' !in key && (rest == "" || rest[0] == ':')
    ensures BeforeColon(key + rest) == key
  {
    if key == "" {
      assert key + rest == rest;
    } else {
      assert (key + rest)[0] == key[0] && (key + rest)[1..] == key[1..] + rest;
      UpToColon(key[1..], rest);
      assert key == [key[0]] + key[1..];
    }
  }

  /** The end of an account, a split or a transaction. */
  predicate EndsRecord(name: string) {
    name == "gnc:account" || name == "trn:split" || name == "gnc:transaction"
  }

  /** The table and the key of the element in which text arrives after the events. */
  ghost function Tag(es: seq<Event>): (string, string) {
    if es == [] then ("", "")
    else
      var before := Tag(es[..|es| - 1]);
      match es[|es| - 1]
      case Start(name) => if ':' in name then (BeforeColon(name), AfterColon(name)) else before
      case End(name) => if EndsRecord(name) then ("", "") else before
      case Chars(_) => before
  }

  /** The text that arrived in an element since the last end of its table's record. */
  ghost function Gathered(es: seq<Event>, record: string, table: string, key: string): string {
    if es == [] then ""
    else
      var front := es[..|es| - 1];
      var before := Gathered(front, record, table, key);
      match es[|es| - 1]
      case End(name) => if name == record then "" else before
      case Chars(content) => if Tag(front) == (table, key) then before + content else before
      case Start(_) => before
  }

  const TRN_TEXTS := {"id", "num", "description"}

  /** A dictionary holds the texts gathered for its record. */
  ghost predicate Holds(r: Record, keys: set<string>, es: seq<Event>, record: string, table: string) {
    keys <= r.Keys && forall k :: k in keys ==> r[k] == Gathered(es, record, table, k)
  }

  /** The state after the events that were read from the start, as far as texts are concerned. */
  ghost predicate Texts(s: State, es: seq<Event>) {
    && (s.tbl, s.key) == Tag(es)
    && Holds(s.account, ACCOUNT_KEYS, es, "gnc:account", "act")
    && Holds(s.split, SPLIT_KEYS, es, "trn:split", "split")
    && Holds(s.trn, TRN_TEXTS, es, "gnc:transaction", "trn")
  }

  lemma GatheredNext(es: seq<Event>, event: Event, record: string, table: string, key: string)
    ensures var before := Gathered(es, record, table, key);
      Gathered(es + [event], record, table, key) ==
        if event == End(record) then ""
        else if event.Chars? && Tag(es) == (table, key) then before + event.content else before
  {
    assert (es + [event])[..|es|] == es;
  }

  lemma TagNext(es: seq<Event>, event: Event)
    ensures Tag(es + [event]) ==
      if event.Start? && ':' in event.name then (BeforeColon(event.name), AfterColon(event.name))
      else if event.End? && EndsRecord(event.name) then ("", "")
      else Tag(es)
  {
    assert (es + [event])[..|es|] == es;
  }

  /** An event leaves a record alone, or ends it, or adds text to one of its elements. */
  lemma HoldsNext(r: Record, r': Record, keys: set<string>, es: seq<Event>, event: Event, record: string, table: string)
    requires Holds(r, keys, es, record, table) && keys <= r'.Keys
    requires forall k :: k in keys ==>
      r'[k] == if event == End(record) then ""
               else if event.Chars? && Tag(es) == (table, k) then r[k] + event.content else r[k]
    ensures Holds(r', keys, es + [event], record, table)
  {
    forall k | k in keys ensures r'[k] == Gathered(es + [event], record, table, k) {
      GatheredNext(es, event, record, table, k);
    }
  }

  /** The same for text and one dictionary. */
  lemma CharsNext(r: Record, keys: set<string>, es: seq<Event>, tag: (string, string), content: string,
                  record: string, table: string)
    requires Holds(r, keys, es, record, table) && Tag(es) == tag
    ensures Holds(if tag.0 == table then Append(r, tag.1, content) else r, keys, es + [Chars(content)], record, table)
  {
    HoldsNext(r, if tag.0 == table then Append(r, tag.1, content) else r, keys, es, Chars(content), record, table);
  }

  lemma TextsStart(s: State, es: seq<Event>, name: string)
    requires Texts(s, es)
    ensures Texts(OnStart(s, name), es + [Start(name)])
  {
    TagNext(es, Start(name));
    HoldsNext(s.account, s.account, ACCOUNT_KEYS, es, Start(name), "gnc:account", "act");
    HoldsNext(s.split, s.split, SPLIT_KEYS, es, Start(name), "trn:split", "split");
    HoldsNext(s.trn, s.trn, TRN_TEXTS, es, Start(name), "gnc:transaction", "trn");
  }

  lemma TablesDiffer(tbl: string)
    ensures tbl == "act" ==> |tbl| == 3 && tbl[0] == 'a'
    ensures tbl == "trn" ==> |tbl| == 3 && tbl[0] == 't'
    ensures tbl == "split" ==> |tbl| == 5
    ensures tbl == "ts" ==> |tbl| == 2
  {
  }

  lemma CharsOfAccount(s: State, content: string)
    ensures OnChars(s, content).account == if s.tbl == "act" then Append(s.account, s.key, content) else s.account
  {
    TablesDiffer(s.tbl);
  }

  lemma CharsOfSplit(s: State, content: string)
    ensures OnChars(s, content).split == if s.tbl == "split" then Append(s.split, s.key, content) else s.split
  {
    TablesDiffer(s.tbl);
  }

  lemma CharsOfTrn(s: State, content: string)
    ensures OnChars(s, content).trn == if s.tbl == "trn" then Append(s.trn, s.key, content) else s.trn
  {
    TablesDiffer(s.tbl);
    if s.tbl == "trn" {
      assert s.key !in s.trn ==> Append(s.trn, s.key, content) == s.trn;
    }
  }

  lemma CharsOfTag(s: State, content: string)
    ensures OnChars(s, content).tbl == s.tbl && OnChars(s, content).key == s.key
  {
    if s.tbl == "act" || s.tbl == "split" {
    } else if s.tbl == "trn" {
      TablesDiffer(s.tbl);
    } else {
      assert OnChars(s, content).account == s.account;
    }
  }

  lemma TextsChars(s: State, t: State, es: seq<Event>, content: string)
    requires Texts(s, es) && t == OnChars(s, content)
    ensures Texts(t, es + [Chars(content)])
  {
    CharsOfAccount(s, content);
    CharsOfSplit(s, content);
    CharsOfTrn(s, content);
    CharsOfTag(s, content);
    TagNext(es, Chars(content));
    CharsNext(s.account, ACCOUNT_KEYS, es, (s.tbl, s.key), content, "gnc:account", "act");
    CharsNext(s.split, SPLIT_KEYS, es, (s.tbl, s.key), content, "trn:split", "split");
    CharsNext(s.trn, TRN_TEXTS, es, (s.tbl, s.key), content, "gnc:transaction", "trn");
  }

  /** The names of the elements whose end changes something are different texts. */
  lemma NamesDiffer(name: string)
    ensures name == "gnc:account" ==> |name| == 11
    ensures name == "trn:split" ==> |name| == 9
    ensures name == "trn:date-posted" ==> |name| == 15 && name[0] == 't'
    ensures name == "gnc:transaction" ==> |name| == 15 && name[0] == 'g'
    ensures name == "gnc:template-transactions" ==> |name| == 25
  {
  }

  /** What the end of an element does to the dictionaries and the tag. */
  lemma EndOfAccount(e: Env, s: State, name: string)
    ensures OnEnd(e, s, name).account == if name == "gnc:account" then Blank(ACCOUNT_KEYS) else s.account
  {
    NamesDiffer(name);
  }

  lemma EndOfSplit(e: Env, s: State, name: string)
    requires !OnEnd(e, s, name).aborted
    ensures OnEnd(e, s, name).split == if name == "trn:split" then Blank(SPLIT_KEYS) else s.split
  {
    NamesDiffer(name);
  }

  lemma EndOfTag(e: Env, s: State, name: string)
    requires !OnEnd(e, s, name).aborted
    ensures var t := OnEnd(e, s, name);
      if EndsRecord(name) then t.tbl == "" && t.key == "" else t.tbl == s.tbl && t.key == s.key
  {
    NamesDiffer(name);
  }

  lemma EndOfTrn(e: Env, s: State, name: string)
    requires !OnEnd(e, s, name).aborted
    ensures OnEnd(e, s, name).trn ==
      if name == "gnc:transaction" then Blank(TRN_KEYS)
      else if name == "trn:date-posted" then EndDatePosted(s).trn else s.trn
  {
    NamesDiffer(name);
  }

  lemma DateKeepsTexts(s: State)
    ensures var after := EndDatePosted(s).trn;
      forall k :: k in TRN_TEXTS && k in s.trn ==> k in after && after[k] == s.trn[k]
  {
    assert |"id"| == 2 && |"num"| == 3 && |"description"| == 11 && |"date_ym"| == 7 && |"date_d"| == 6;
  }

  lemma TextsEnd(e: Env, s: State, t: State, es: seq<Event>, name: string)
    requires Texts(s, es) && t == OnEnd(e, s, name) && !t.aborted
    ensures Texts(t, es + [End(name)])
  {
    EndOfAccount(e, s, name);
    EndOfSplit(e, s, name);
    EndOfTrn(e, s, name);
    EndOfTag(e, s, name);
    DateKeepsTexts(s);
    TagNext(es, End(name));
    HoldsNext(s.account, t.account, ACCOUNT_KEYS, es, End(name), "gnc:account", "act");
    HoldsNext(s.split, t.split, SPLIT_KEYS, es, End(name), "trn:split", "split");
    HoldsNext(s.trn, t.trn, TRN_TEXTS, es, End(name), "gnc:transaction", "trn");
  }

  lemma TextsStep(e: Env, s: State, es: seq<Event>, event: Event)
    requires Texts(s, es) && !s.aborted && !Step(e, s, event).aborted
    ensures Texts(Step(e, s, event), es + [event])
  {
    match event
    case Start(name) => TextsStart(s, es, name);
    case End(name) => TextsEnd(e, s, OnEnd(e, s, name), es, name);
    case Chars(content) => TextsChars(s, OnChars(s, content), es, content);
  }

  lemma TextsNext(e: Env, es: seq<Event>, i: nat)
    requires i < |es| && !States(e, INITIAL, es)[i].aborted && !States(e, INITIAL, es)[i + 1].aborted
    requires Texts(States(e, INITIAL, es)[i], es[..i])
    ensures Texts(States(e, INITIAL, es)[i + 1], es[..i + 1])
  {
    Next(e, INITIAL, es, i);
    assert es[..i + 1] == es[..i] + [es[i]];
    TextsStep(e, States(e, INITIAL, es)[i], es[..i], es[i]);
  }

  /** Along every run the dictionaries hold the gathered texts. */
  lemma {:induction false} TextsKept(e: Env, es: seq<Event>, i: nat)
    requires i <= |es| && !States(e, INITIAL, es)[i].aborted
    ensures Texts(States(e, INITIAL, es)[i], es[..i])
  {
    if i == 0 {
      assert States(e, INITIAL, es)[0] == INITIAL;
    } else {
      Alive(e, INITIAL, es, i - 1, i);
      TextsKept(e, es, i - 1);
      TextsNext(e, es, i - 1);
    }
  }

  // ----- the posting date -----

  /** Text arrived right inside a posting date that has not ended since. */
  ghost predicate Dating(es: seq<Event>) {
    es != [] &&
    var front, last := es[..|es| - 1], es[|es| - 1];
    last != End("trn:date-posted") && (Dating(front) || (last.Chars? && Tag(front) == ("trn", "date-posted")))
  }

  /** The text of the date elements in a posting date, from its last end on. */
  ghost function DateText(es: seq<Event>): string {
    if es == [] then ""
    else
      var front, last := es[..|es| - 1], es[|es| - 1];
      if last == End("trn:date-posted") then ""
      else if last.Chars? && Tag(front) == ("ts", "date") && Dating(front) then DateText(front) + last.content
      else DateText(front)
  }

  /** The part of the last posting date from `from` to before `to`, with what text arrives in the column itself. */
  ghost function DatePart(es: seq<Event>, key: string, from: nat, to: nat): string
    requires from <= to
  {
    if es == [] then ""
    else
      var front, last := es[..|es| - 1], es[|es| - 1];
      match last
      case Start(_) => DatePart(front, key, from, to)
      case Chars(content) =>
        if Tag(front) == ("trn", key) then DatePart(front, key, from, to) + content else DatePart(front, key, from, to)
      case End(name) =>
        if name == "gnc:transaction" then ""
        else if name == "trn:date-posted" then Slice(DateText(front), from, to)
        else DatePart(front, key, from, to)
  }

  ghost predicate Dates(s: State, es: seq<Event>) {
    && (s.tbl, s.key) == Tag(es) && s.trn.Keys == TRN_KEYS
    && s.statusDatePosted == Dating(es) && s.datePosted == DateText(es)
    && s.trn["date_ym"] == DatePart(es, "date_ym", 0, 7) && s.trn["date_d"] == DatePart(es, "date_d", 8, 10)
  }

  lemma DatesStart(s: State, es: seq<Event>, name: string)
    requires Dates(s, es)
    ensures Dates(OnStart(s, name), es + [Start(name)])
  {
    TagNext(es, Start(name));
    assert (es + [Start(name)])[..|es|] == es;
  }

  /** What text does to the date and its flag. */
  lemma CharsOfDate(s: State, content: string)
    requires s.trn.Keys == TRN_KEYS
    ensures var t := OnChars(s, content);
      && t.statusDatePosted == (s.statusDatePosted || (s.tbl == "trn" && s.key == "date-posted"))
      && t.datePosted == s.datePosted + if s.tbl == "ts" && s.key == "date" && s.statusDatePosted then content else ""
  {
    TablesDiffer(s.tbl);
    assert |"date-posted"| == 11 && |"date_ym"| == 7 && |"date_d"| == 6 && |"id"| == 2 && |"num"| == 3;
    assert "date-posted"[1] == 'a' && "description"[1] == 'e';
    assert s.datePosted + "" == s.datePosted;
  }

  lemma DatesChars(s: State, t: State, es: seq<Event>, content: string)
    requires Dates(s, es) && t == OnChars(s, content)
    ensures Dates(t, es + [Chars(content)])
  {
    TagNext(es, Chars(content));
    assert (es + [Chars(content)])[..|es|] == es;
    CharsOfTag(s, content);
    CharsOfTrn(s, content);
    CharsOfDate(s, content);
    assert s.datePosted + "" == s.datePosted;
  }

  lemma EndOfDate(e: Env, s: State, name: string)
    requires !OnEnd(e, s, name).aborted
    ensures var t := OnEnd(e, s, name);
      && t.statusDatePosted == (s.statusDatePosted && name != "trn:date-posted")
      && t.datePosted == if name == "trn:date-posted" then "" else s.datePosted
  {
    NamesDiffer(name);
  }

  lemma DatesEnd(e: Env, s: State, t: State, es: seq<Event>, name: string)
    requires Dates(s, es) && t == OnEnd(e, s, name) && !t.aborted
    ensures Dates(t, es + [End(name)])
  {
    TagNext(es, End(name));
    assert (es + [End(name)])[..|es|] == es;
    EndOfTag(e, s, name);
    EndOfTrn(e, s, name);
    EndOfDate(e, s, name);
    NamesDiffer(name);
    DateColumns(s);
  }

  lemma DateColumns(s: State)
    requires s.trn.Keys == TRN_KEYS
    ensures var after := EndDatePosted(s).trn;
      && after.Keys == TRN_KEYS && after["date_ym"] == Slice(s.datePosted, 0, 7)
      && after["date_d"] == Slice(s.datePosted, 8, 10)
  {
    assert |"date_ym"| == 7 && |"date_d"| == 6;
  }

  lemma {:induction false} DatesKept(e: Env, es: seq<Event>, i: nat)
    requires i <= |es| && !States(e, INITIAL, es)[i].aborted
    ensures Dates(States(e, INITIAL, es)[i], es[..i])
  {
    if i == 0 {
      assert States(e, INITIAL, es)[0] == INITIAL;
    } else {
      Alive(e, INITIAL, es, i - 1, i);
      DatesKept(e, es, i - 1);
      Next(e, INITIAL, es, i - 1);
      assert es[..i] == es[..i - 1] + [es[i - 1]];
      DatesStep(e, States(e, INITIAL, es)[i - 1], es[..i - 1], es[i - 1]);
    }
  }

  lemma DatesStep(e: Env, s: State, es: seq<Event>, event: Event)
    requires Dates(s, es) && !s.aborted && !Step(e, s, event).aborted
    ensures Dates(Step(e, s, event), es + [event])
  {
    match event
    case Start(name) => DatesStart(s, es, name);
    case End(name) => DatesEnd(e, s, OnEnd(e, s, name), es, name);
    case Chars(content) => DatesChars(s, OnChars(s, content), es, content);
  }

  // ----- the rows -----

  /** A text without the blanks at its end. */
  ghost function Column(e: Env, es: seq<Event>, record: string, table: string, key: string): string {
    RStrip(e.space, Gathered(es, record, table, key))
  }

  /** At the end of an account its row is written from the texts of the account. */
  lemma AccountColumns(e: Env, es: seq<Event>, i: nat)
    requires i < |es| && es[i] == End("gnc:account")
    requires var s := States(e, INITIAL, es)[i]; !s.aborted && !s.statusTemplateTrns
    ensures var column := key => Column(e, es[..i], "gnc:account", "act", key);
      Emits(e, States(e, INITIAL, es)[i], es[i]) ==
        [AccountRow(column("name"), column("id"), column("type"), column("description"), column("parent"))]
  {
    TextsKept(e, es, i);
  }

  /** At the end of a split its row is written from the texts of the split and from the transaction's id so far, if the
      fractions in it have values. */
  lemma SplitColumns(e: Env, es: seq<Event>, i: nat)
    requires i < |es| && es[i] == End("trn:split")
    requires var s := States(e, INITIAL, es)[i]; !s.aborted && !s.statusTemplateTrns
    ensures var column := key => Column(e, es[..i], "trn:split", "split", key);
      var value, quantity := e.fraction(column("value")), e.fraction(column("quantity"));
      Emits(e, States(e, INITIAL, es)[i], es[i]) ==
        if value.None? || quantity.None? then []
        else [SplitRow(column("id"), Column(e, es[..i], "gnc:transaction", "trn", "id"),
                       value.value, quantity.value, column("account"))]
  {
    TextsKept(e, es, i);
  }

  /** At the end of a transaction its row is written from the texts of the transaction and the month and the day of its
      posting date. */
  lemma TransactionColumns(e: Env, es: seq<Event>, i: nat)
    requires i < |es| && es[i] == End("gnc:transaction")
    requires var s := States(e, INITIAL, es)[i]; !s.aborted && !s.statusTemplateTrns
    ensures var column := key => Column(e, es[..i], "gnc:transaction", "trn", key);
      Emits(e, States(e, INITIAL, es)[i], es[i]) ==
        [TrnRow(column("id"), column("num"), column("description"),
                RStrip(e.space, DatePart(es[..i], "date_ym", 0, 7)),
                RStrip(e.space, DatePart(es[..i], "date_d", 8, 10)))]
  {
    TextsKept(e, es, i);
    DatesKept(e, es, i);
  }
}
