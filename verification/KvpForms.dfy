/** Which Scheme datum stands for a KVP value. */
module KvpForms {
  import opened Scheme
  import opened KvpBridge
  import opened Wrappers

  /** The datum that stands for a value: an exact number of the same worth, a float, a string, a list of pairs of keys
      and data, a list of data; #f where there is nothing to print. */
  ghost predicate StandsFor(p: Platform, x: Scm, v: Kvp)
    decreases v
  {
    match v
    case Null => x == Bool(false)
    case Int64(n) => x.Exact? && x.q.num == n && x.q.den == 1
    case Double(f) => x == Inexact(f)
    case Numeric(num, denom) =>
      if denom == 0 then x == Bool(false) else x.Exact? && num * x.q.den == x.q.num * denom
    case Text(s) => x == Str(s)
    case Guids(g) => x == Str(p.text(g))
    case Frame(es) =>
      IsList(x) && |Elements(x)| == |es| && forall i :: 0 <= i < |es| ==>
        var a := Elements(x)[i]; a.Pair? && a.car == Str(es[i].key) && StandsFor(p, a.cdr, es[i].value)
    case List(items) =>
      IsList(x) && |Elements(x)| == |items| &&
      forall i :: 0 <= i < |items| ==> StandsFor(p, Elements(x)[i], items[i])
    case Other(_) => x == Bool(false)
  }

  /** A value prints as the datum that stands for it. */
  lemma {:induction false} PrintStands(p: Platform, v: Kvp)
    ensures StandsFor(p, Print(p, v), v)
    decreases v, 1
  {
    match v
    case Numeric(num, denom) =>
      if denom > 0 {
        ReduceSame(num, denom);
      } else if denom < 0 {
        ReduceSame(-num, -denom);
      }
    case Frame(es) => EntriesStand(p, es);
    case List(items) => ItemsStand(p, items);
    case _ =>
  }

  lemma {:induction false} EntriesStand(p: Platform, es: seq<Entry>)
    ensures var x := PrintEntries(p, es);
      IsList(x) && |Elements(x)| == |es| && forall i :: 0 <= i < |es| ==>
        var a := Elements(x)[i]; a.Pair? && a.car == Str(es[i].key) && StandsFor(p, a.cdr, es[i].value)
    decreases es, 0
  {
    if es != [] {
      PrintStands(p, es[0].value);
      EntriesStand(p, es[1..]);
      var x, rest := PrintEntries(p, es), PrintEntries(p, es[1..]);
      assert Elements(x) == [Pair(Str(es[0].key), Print(p, es[0].value))] + Elements(rest);
      forall i | 0 <= i < |es|
        ensures var a := Elements(x)[i]; a.Pair? && a.car == Str(es[i].key) && StandsFor(p, a.cdr, es[i].value)
      {
        if i > 0 {
          assert Elements(x)[i] == Elements(rest)[i - 1] && es[1..][i - 1] == es[i];
        }
      }
    }
  }

  lemma {:induction false} ItemsStand(p: Platform, items: seq<Kvp>)
    ensures var x := PrintItems(p, items);
      IsList(x) && |Elements(x)| == |items| &&
      forall i :: 0 <= i < |items| ==> StandsFor(p, Elements(x)[i], items[i])
    decreases items, 0
  {
    if items != [] {
      PrintStands(p, items[0]);
      ItemsStand(p, items[1..]);
      var x, rest := PrintItems(p, items), PrintItems(p, items[1..]);
      assert Elements(x) == [Print(p, items[0])] + Elements(rest);
      forall i | 0 <= i < |items| ensures StandsFor(p, Elements(x)[i], items[i]) {
        if i > 0 {
          assert Elements(x)[i] == Elements(rest)[i - 1] && items[1..][i - 1] == items[i];
        }
      }
    }
  }
}
