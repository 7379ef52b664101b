/** Runs of a state machine over a list of events: the states it goes through and what it puts out. */
module Histories {

  function Run<S, E>(step: (S, E) -> S, s: S, es: seq<E>): S
    decreases es
  {
    if es == [] then s else Run(step, step(s, es[0]), es[1..])
  }

  function Output<S, E, R>(step: (S, E) -> S, out: (S, E) -> seq<R>, s: S, es: seq<E>): seq<R>
    decreases es
  {
    if es == [] then [] else out(s, es[0]) + Output(step, out, step(s, es[0]), es[1..])
  }

  /** The state before each event, and the last one. */
  function Trace<S, E>(step: (S, E) -> S, s: S, es: seq<E>): (ss: seq<S>)
    ensures |ss| == |es| + 1 && ss[0] == s
    decreases es
  {
    [s] + if es == [] then [] else Trace(step, step(s, es[0]), es[1..])
  }

  lemma {:induction false} TraceStep<S, E>(step: (S, E) -> S, s: S, es: seq<E>, k: nat)
    requires k < |es|
    ensures Trace(step, s, es)[k + 1] == step(Trace(step, s, es)[k], es[k])
    decreases es
  {
    if k > 0 {
      TraceStep(step, step(s, es[0]), es[1..], k - 1);
    }
  }

  /** What the events put out, one part for each. */
  function Parts<S, E, R>(step: (S, E) -> S, out: (S, E) -> seq<R>, s: S, es: seq<E>): (parts: seq<seq<R>>)
    ensures |parts| == |es|
    ensures forall k :: 0 <= k < |es| ==> parts[k] == out(Trace(step, s, es)[k], es[k])
  {
    seq(|es|, k requires 0 <= k < |es| => out(Trace(step, s, es)[k], es[k]))
  }

  function Flatten<R>(parts: seq<seq<R>>): seq<R> {
    if parts == [] then [] else parts[0] + Flatten(parts[1..])
  }

  /** A run ends in the last state of its trace, and its output is what the events put out along the trace. */
  lemma {:induction false} TraceRun<S, E, R>(step: (S, E) -> S, out: (S, E) -> seq<R>, s: S, es: seq<E>)
    ensures Trace(step, s, es)[|es|] == Run(step, s, es)
    ensures Output(step, out, s, es) == Flatten(Parts(step, out, s, es))
    decreases es
  {
    if es != [] {
      var next := step(s, es[0]);
      TraceRun(step, out, next, es[1..]);
      var all, rest := Parts(step, out, s, es), Parts(step, out, next, es[1..]);
      assert Trace(step, s, es) == [s] + Trace(step, next, es[1..]);
      assert all[1..] == rest by {
        forall k | 0 <= k < |rest|
          ensures all[1..][k] == rest[k]
        {
          assert Trace(step, s, es)[k + 1] == Trace(step, next, es[1..])[k];
        }
      }
    }
  }

  // ----- from the output back to the events -----

  lemma {:induction false} FlattenSplit<R>(parts: seq<seq<R>>, i: nat)
    requires i <= |parts|
    ensures Flatten(parts) == Flatten(parts[..i]) + Flatten(parts[i..])
  {
    if i == 0 {
      assert parts[0..] == parts;
    } else {
      FlattenSplit(parts[1..], i - 1);
      assert parts[1..][..i - 1] == parts[..i][1..] && parts[1..][i - 1..] == parts[i..];
    }
  }

  /** Where the output of event `i` begins. */
  function Place<R>(parts: seq<seq<R>>, i: nat): nat
    requires i <= |parts|
  {
    |Flatten(parts[..i])|
  }

  lemma PlaceNext<R>(parts: seq<seq<R>>, i: nat)
    requires i < |parts|
    ensures Place(parts, i + 1) == Place(parts, i) + |parts[i]| <= |Flatten(parts)|
    ensures Flatten(parts)[Place(parts, i)..Place(parts, i + 1)] == parts[i]
  {
    FlattenSplit(parts, i);
    FlattenSplit(parts, i + 1);
    FlattenSplit(parts[..i + 1], i);
    assert parts[..i + 1][..i] == parts[..i] && parts[..i + 1][i..] == [parts[i]];
    assert Flatten([parts[i]]) == parts[i] + Flatten([]);
  }

  lemma {:induction false} PlacesGrow<R>(parts: seq<seq<R>>, i: nat, j: nat)
    requires i < j <= |parts|
    ensures Place(parts, i) + |parts[i]| <= Place(parts, j)
    decreases j
  {
    PlaceNext(parts, j - 1);
    if i < j - 1 {
      PlacesGrow(parts, i, j - 1);
    }
  }

  /** Every piece of output comes from an event. */
  lemma {:induction false} EventOf<R>(parts: seq<seq<R>>, a: nat) returns (i: nat)
    requires a < |Flatten(parts)| && forall k :: 0 <= k < |parts| ==> |parts[k]| <= 1
    ensures i < |parts| && parts[i] == [Flatten(parts)[a]] && Place(parts, i) == a
  {
    if a < |parts[0]| {
      i := 0;
    } else {
      var j := EventOf(parts[1..], a - |parts[0]|);
      i := j + 1;
      assert parts[..i][1..] == parts[1..][..j];
    }
  }

  /** A property the steps keep holds from its first state on. */
  lemma {:induction false} Kept<S, E>(step: (S, E) -> S, keeps: S -> bool, s: S, es: seq<E>, i: nat, j: nat)
    requires i <= j <= |es| && keeps(Trace(step, s, es)[i])
    requires forall k, n :: i <= k < j && n == k + 1 && keeps(Trace(step, s, es)[k]) ==> keeps(Trace(step, s, es)[n])
    ensures keeps(Trace(step, s, es)[j])
    decreases j
  {
    if i < j {
      Kept(step, keeps, s, es, i, j - 1);
    }
  }

  /** A flag that some events raise and others lower. */
  lemma {:induction false} FlagHistory(flag: seq<bool>, raises: seq<bool>, lowers: seq<bool>, i: nat)
    requires i < |flag| == |raises| + 1 == |lowers| + 1 && !flag[0]
    requires forall k, n :: 0 <= k < i && n == k + 1 ==> (flag[n] <==> raises[k] || (flag[k] && !lowers[k]))
    ensures flag[i] <==> exists m :: 0 <= m < i && raises[m] && forall k :: m < k < i ==> !lowers[k]
  {
    if i > 0 {
      FlagHistory(flag, raises, lowers, i - 1);
      if !raises[i - 1] {
        if flag[i - 1] && !lowers[i - 1] {
          var m :| 0 <= m < i - 1 && raises[m] && forall k :: m < k < i - 1 ==> !lowers[k];
          assert forall k :: m < k < i ==> !lowers[k];
        } else {
          forall m | 0 <= m < i && raises[m]
            ensures exists k :: m < k < i && lowers[k]
          {
            assert flag[i - 1] ==> lowers[i - 1];
          }
        }
      }
    }
  }

  /** The text that events i to j add. */
  function Added(parts: seq<string>, i: nat, j: nat): string
    requires i <= j <= |parts|
    decreases j
  {
    if i == j then "" else Added(parts, i, j - 1) + parts[j - 1]
  }

  /** A text to which every event adds its part. */
  lemma {:induction false} TextHistory(text: seq<string>, parts: seq<string>, i: nat, j: nat)
    requires i <= j < |text| == |parts| + 1
    requires forall k, n :: i <= k < j && n == k + 1 ==> text[n] == text[k] + parts[k]
    ensures text[j] == text[i] + Added(parts, i, j)
    decreases j
  {
    if i == j {
      assert text[i] + "" == text[i];
    } else {
      TextHistory(text, parts, i, j - 1);
      assert (text[i] + Added(parts, i, j - 1)) + parts[j - 1] == text[i] + (Added(parts, i, j - 1) + parts[j - 1]);
    }
  }

  lemma {:induction false} NothingAdded(parts: seq<string>, i: nat, j: nat)
    requires i <= j <= |parts| && forall k :: i <= k < j ==> parts[k] == ""
    ensures Added(parts, i, j) == ""
    decreases j
  {
    if i < j {
      NothingAdded(parts, i, j - 1);
    }
  }
}
