/** Counting dictionaries `{ [key: string]: number }` filled with
    `dist[k] = (dist[k] || 0) + 1`, and the fact that their counts add up to
    the number of things counted. */
module Tally {

  /** How many times `k` occurs in `xs`. */
  function Occurrences(xs: seq<string>, k: string): (n: nat)
    ensures n <= |xs|
    ensures n > 0 <==> k in xs
  {
    if xs == [] then 0
    else
      var pre := xs[..|xs| - 1];
      assert xs == pre + [xs[|xs| - 1]];
      Occurrences(pre, k) + if xs[|xs| - 1] == k then 1 else 0
  }

  /** `xs.forEach(k => { m[k] = (m[k] || 0) + 1; })`, in order. */
  function Counted(m: map<string, nat>, xs: seq<string>): map<string, nat> {
    if xs == [] then m
    else
      var c := Counted(m, xs[..|xs| - 1]);
      var k := xs[|xs| - 1];
      c[k := (if k in c then c[k] else 0) + 1]
  }

  /** The keys of a tally are the keys it started with and the values
      counted. */
  lemma {:induction false} CountedKeys(m: map<string, nat>, xs: seq<string>)
    ensures forall k :: k in Counted(m, xs) <==> k in m || k in xs
  {
    if xs != [] {
      var pre := xs[..|xs| - 1];
      assert xs == pre + [xs[|xs| - 1]];
      CountedKeys(m, pre);
    }
  }

  /** Started from counters at 0, each key of a tally holds the number of
      times it was counted. */
  lemma {:induction false} CountedOccurrences(m: map<string, nat>, xs: seq<string>)
    requires forall k :: k in m ==> m[k] == 0
    ensures forall k :: k in Counted(m, xs) ==> Counted(m, xs)[k] == Occurrences(xs, k)
  {
    if xs != [] {
      var pre := xs[..|xs| - 1];
      CountedOccurrences(m, pre);
      CountedKeys(m, pre);
    }
  }

  predicate Distinct(keys: seq<string>) {
    forall i, j :: 0 <= i < j < |keys| ==> keys[i] != keys[j]
  }

  /** The sum of the values a map gives the listed keys. */
  function SumAt(m: map<string, nat>, keys: seq<string>): nat
    requires forall i :: 0 <= i < |keys| ==> keys[i] in m
  {
    if keys == [] then 0 else SumAt(m, keys[..|keys| - 1]) + m[keys[|keys| - 1]]
  }

  /** The occurrences of all the listed keys. */
  function SumOccurrences(xs: seq<string>, keys: seq<string>): nat {
    if keys == [] then 0
    else SumOccurrences(xs, keys[..|keys| - 1]) + Occurrences(xs, keys[|keys| - 1])
  }

  /** When a tally's keys are listed without repetition and every counted
      value is among them, the counts add up to the number of values. */
  lemma TallyTotal(m: map<string, nat>, xs: seq<string>, keys: seq<string>)
    requires Distinct(keys)
    requires forall i :: 0 <= i < |keys| ==> keys[i] in m
    requires forall k :: k in m ==> m[k] == Occurrences(xs, k)
    requires forall i :: 0 <= i < |xs| ==> xs[i] in keys
    ensures SumAt(m, keys) == |xs|
  {
    SumAtIsOccurrences(m, xs, keys);
    SumOccurrencesTotal(xs, keys);
  }

  lemma {:induction false} SumAtIsOccurrences(m: map<string, nat>, xs: seq<string>, keys: seq<string>)
    requires forall i :: 0 <= i < |keys| ==> keys[i] in m
    requires forall k :: k in m ==> m[k] == Occurrences(xs, k)
    ensures SumAt(m, keys) == SumOccurrences(xs, keys)
  {
    if keys != [] {
      SumAtIsOccurrences(m, xs, keys[..|keys| - 1]);
    }
  }

  lemma {:induction false} SumOccurrencesTotal(xs: seq<string>, keys: seq<string>)
    requires Distinct(keys)
    requires forall i :: 0 <= i < |xs| ==> xs[i] in keys
    ensures SumOccurrences(xs, keys) == |xs|
  {
    if xs != [] {
      var pre, x := xs[..|xs| - 1], xs[|xs| - 1];
      assert xs == pre + [x];
      assert forall i :: 0 <= i < |pre| ==> pre[i] == xs[i];
      assert x in keys;
      SumOccurrencesTotal(pre, keys);
      SumOccurrencesSnoc(pre, x, keys);
      OneKeyMatches(x, keys);
    } else {
      NothingOccurs(keys);
    }
  }

  lemma {:induction false} NothingOccurs(keys: seq<string>)
    ensures SumOccurrences([], keys) == 0
  {
    if keys != [] {
      NothingOccurs(keys[..|keys| - 1]);
    }
  }

  /** The number of listed keys equal to `x`. */
  function Matches(x: string, keys: seq<string>): nat {
    if keys == [] then 0 else Matches(x, keys[..|keys| - 1]) + if keys[|keys| - 1] == x then 1 else 0
  }

  lemma {:induction false} SumOccurrencesSnoc(xs: seq<string>, x: string, keys: seq<string>)
    ensures SumOccurrences(xs + [x], keys) == SumOccurrences(xs, keys) + Matches(x, keys)
  {
    if keys != [] {
      SumOccurrencesSnoc(xs, x, keys[..|keys| - 1]);
      assert (xs + [x])[..|xs + [x]| - 1] == xs;
    }
  }

  lemma {:induction false} OneKeyMatches(x: string, keys: seq<string>)
    requires Distinct(keys)
    ensures Matches(x, keys) == if x in keys then 1 else 0
  {
    if keys != [] {
      var pre := keys[..|keys| - 1];
      assert keys == pre + [keys[|keys| - 1]];
      OneKeyMatches(x, pre);
    }
  }
}
