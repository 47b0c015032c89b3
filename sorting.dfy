/** The descending sorts the application performs with
    `array.sort((a, b) => key(b) - key(a))`: JavaScript's sort is stable, so
    entries with equal keys keep their input order. */
module Sorting {

  predicate SortedDesc<T>(s: seq<T>, key: T -> real) {
    forall i, j :: 0 <= i < j < |s| ==> key(s[i]) >= key(s[j])
  }

  /** Places `x` in front of the first entry whose key is not above `x`'s. */
  function Insert<T>(x: T, s: seq<T>, key: T -> real): (r: seq<T>)
    requires SortedDesc(s, key)
    ensures SortedDesc(r, key)
    ensures multiset(r) == multiset(s) + multiset{x}
    ensures |r| == |s| + 1
    ensures r[0] == x || (s != [] && r[0] == s[0])
  {
    if s == [] || key(x) >= key(s[0]) then
      SortedCons(x, s, key);
      assert multiset([x] + s) == multiset(s) + multiset{x};
      [x] + s
    else
      var t := Insert(x, s[1..], key);
      InsertBehind(x, s, t, key);
      [s[0]] + t
  }

  /** Inserting behind the first entry keeps the order and adds `x`. */
  lemma InsertBehind<T>(x: T, s: seq<T>, t: seq<T>, key: T -> real)
    requires SortedDesc(s, key) && s != [] && key(x) < key(s[0])
    requires SortedDesc(t, key) && multiset(t) == multiset(s[1..]) + multiset{x}
    requires |t| == |s| && (t[0] == x || (|s| > 1 && t[0] == s[1]))
    ensures SortedDesc([s[0]] + t, key)
    ensures multiset([s[0]] + t) == multiset(s) + multiset{x}
  {
    assert s == [s[0]] + s[1..];
    assert key(t[0]) <= key(s[0]);
    SortedCons(s[0], t, key);
  }

  /** An entry whose key is not below the first key of a descending
      sequence may go in front of it. */
  lemma SortedCons<T>(x: T, s: seq<T>, key: T -> real)
    requires SortedDesc(s, key) && (s == [] || key(x) >= key(s[0]))
    ensures SortedDesc([x] + s, key)
  {
    var r := [x] + s;
    forall i, j | 0 <= i < j < |r| ensures key(r[i]) >= key(r[j]) {
      if i > 0 {
        assert r[i] == s[i - 1] && r[j] == s[j - 1];
      } else {
        assert r[j] == s[j - 1];
      }
    }
  }

  /** Stable descending sort: `[...s].sort((a, b) => key(b) - key(a))`. */
  function SortDesc<T>(s: seq<T>, key: T -> real): (r: seq<T>)
    ensures SortedDesc(r, key)
    ensures multiset(r) == multiset(s)
    ensures |r| == |s|
  {
    if s == [] then []
    else
      assert s == [s[0]] + s[1..];
      Insert(s[0], SortDesc(s[1..], key), key)
  }

  // ---------------------------------------------------------------------------
  // Stability

  /** The entries whose key is `k`, in order. */
  function KeyRun<T>(s: seq<T>, key: T -> real, k: real): (r: seq<T>)
    ensures |r| <= |s|
  {
    if s == [] then [] else (if key(s[0]) == k then [s[0]] else []) + KeyRun(s[1..], key, k)
  }

  lemma KeyRunCons<T>(a: T, t: seq<T>, key: T -> real, k: real)
    ensures KeyRun([a] + t, key, k) == (if key(a) == k then [a] else []) + KeyRun(t, key, k)
  {
    assert ([a] + t)[1..] == t;
  }

  /** `Insert` puts `x` in front of every entry with the same key. */
  lemma {:induction false} InsertKeyRun<T>(x: T, s: seq<T>, key: T -> real, k: real)
    requires SortedDesc(s, key)
    ensures KeyRun(Insert(x, s, key), key, k) == (if key(x) == k then [x] else []) + KeyRun(s, key, k)
  {
    if s == [] || key(x) >= key(s[0]) {
      assert Insert(x, s, key) == [x] + s;
      KeyRunCons(x, s, key, k);
    } else {
      var t := Insert(x, s[1..], key);
      assert Insert(x, s, key) == [s[0]] + t;
      InsertKeyRun(x, s[1..], key, k);
      KeyRunCons(s[0], t, key, k);
      assert s == [s[0]] + s[1..];
      KeyRunCons(s[0], s[1..], key, k);
    }
  }

  /** The sort is stable: for every key, the entries with that key come out
      in the order they went in. */
  lemma {:induction false} SortDescStable<T>(s: seq<T>, key: T -> real, k: real)
    ensures KeyRun(SortDesc(s, key), key, k) == KeyRun(s, key, k)
  {
    if s != [] {
      SortDescStable(s[1..], key, k);
      InsertKeyRun(s[0], SortDesc(s[1..], key), key, k);
    }
  }

  // ---------------------------------------------------------------------------
  // How many entries lie strictly above a key

  function CountAbove<T>(s: seq<T>, key: T -> real, p: real): (n: nat)
    ensures n <= |s|
  {
    if s == [] then 0
    else CountAbove(s[..|s| - 1], key, p) + if key(s[|s| - 1]) > p then 1 else 0
  }

  lemma {:induction false} CountAboveAppend<T>(a: seq<T>, b: seq<T>, key: T -> real, p: real)
    ensures CountAbove(a + b, key, p) == CountAbove(a, key, p) + CountAbove(b, key, p)
  {
    if b == [] {
      assert a + b == a;
    } else {
      assert (a + b)[..|a + b| - 1] == a + b[..|b| - 1];
      CountAboveAppend(a, b[..|b| - 1], key, p);
    }
  }

  /** The count depends only on which entries there are, not on their order. */
  lemma {:induction false} CountAbovePermutation<T>(a: seq<T>, b: seq<T>, key: T -> real, p: real)
    requires multiset(a) == multiset(b)
    ensures CountAbove(a, key, p) == CountAbove(b, key, p)
    decreases |a|
  {
    if a == [] {
      assert |b| == |multiset(b)| == 0;
    } else {
      var a' := a[..|a| - 1];
      var k := MatchLast(a, b);
      CountAbovePermutation(a', RemoveAt(b, k), key, p);
      assert a == a' + [b[k]];
      CountAboveAppend(a', [b[k]], key, p);
      CountAboveRemoveAt(b, k, key, p);
    }
  }

  /** The last entry of `a` sits somewhere in a reordering `b` of `a`, and
      the rest of `a` is a reordering of the rest of `b`. */
  lemma MatchLast<T>(a: seq<T>, b: seq<T>) returns (k: nat)
    requires a != [] && multiset(a) == multiset(b)
    ensures k < |b| && b[k] == a[|a| - 1]
    ensures multiset(a[..|a| - 1]) == multiset(RemoveAt(b, k))
  {
    var x := a[|a| - 1];
    assert a == a[..|a| - 1] + [x];
    assert x in multiset(b);
    k :| 0 <= k < |b| && b[k] == x;
  }

  function RemoveAt<T>(s: seq<T>, k: nat): (r: seq<T>)
    requires k < |s|
    ensures multiset(r) == multiset(s) - multiset{s[k]}
  {
    assert s == s[..k] + [s[k]] + s[k + 1..];
    s[..k] + s[k + 1..]
  }

  lemma CountAboveRemoveAt<T>(s: seq<T>, k: nat, key: T -> real, p: real)
    requires k < |s|
    ensures CountAbove(s, key, p) == CountAbove(RemoveAt(s, k), key, p) + CountAbove([s[k]], key, p)
  {
    var front, back := s[..k], s[k + 1..];
    assert s == front + ([s[k]] + back);
    CountAboveAppend(front, [s[k]] + back, key, p);
    CountAboveAppend([s[k]], back, key, p);
    CountAboveAppend(front, back, key, p);
  }

  lemma {:induction false} CountAboveAll<T>(s: seq<T>, key: T -> real, p: real)
    requires forall i :: 0 <= i < |s| ==> key(s[i]) > p
    ensures CountAbove(s, key, p) == |s|
  {
    if s != [] {
      CountAboveAll(s[..|s| - 1], key, p);
    }
  }

  lemma {:induction false} CountAboveNone<T>(s: seq<T>, key: T -> real, p: real)
    requires forall i :: 0 <= i < |s| ==> key(s[i]) <= p
    ensures CountAbove(s, key, p) == 0
  {
    if s != [] {
      CountAboveNone(s[..|s| - 1], key, p);
    }
  }

  /** In a descending sequence, the entries above entry `i` all come before it;
      when `i` starts a new key (`i == 0` or a strictly smaller key than its
      predecessor) they are exactly the first `i` entries. */
  lemma CountAboveSorted<T>(s: seq<T>, key: T -> real, i: nat)
    requires SortedDesc(s, key) && i < |s|
    ensures CountAbove(s, key, key(s[i])) <= i
    ensures i == 0 || key(s[i]) < key(s[i - 1]) ==> CountAbove(s, key, key(s[i])) == i
  {
    var p := key(s[i]);
    assert s == s[..i] + s[i..];
    CountAboveAppend(s[..i], s[i..], key, p);
    NoneAboveAfter(s, key, i);
    if i == 0 || key(s[i]) < key(s[i - 1]) {
      AllAboveBefore(s, key, i);
    }
  }

  /** Entry `i` of a descending reordering of `s` has at most `i` entries of
      `s` above it, and exactly `i` when it starts a new key. */
  lemma RankInReordering<T>(s: seq<T>, sorted: seq<T>, key: T -> real, i: nat)
    requires SortedDesc(sorted, key) && multiset(sorted) == multiset(s) && i < |sorted|
    ensures CountAbove(s, key, key(sorted[i])) <= i
    ensures i == 0 || key(sorted[i]) < key(sorted[i - 1]) ==> CountAbove(s, key, key(sorted[i])) == i
  {
    CountAboveSorted(sorted, key, i);
    CountAbovePermutation(sorted, s, key, key(sorted[i]));
  }

  lemma NoneAboveAfter<T>(s: seq<T>, key: T -> real, i: nat)
    requires SortedDesc(s, key) && i < |s|
    ensures CountAbove(s[i..], key, key(s[i])) == 0
  {
    var back := s[i..];
    forall j | 0 <= j < |back| ensures key(back[j]) <= key(s[i]) {
      assert back[j] == s[i + j];
    }
    CountAboveNone(back, key, key(s[i]));
  }

  lemma AllAboveBefore<T>(s: seq<T>, key: T -> real, i: nat)
    requires SortedDesc(s, key) && i < |s|
    requires i == 0 || key(s[i]) < key(s[i - 1])
    ensures CountAbove(s[..i], key, key(s[i])) == i
  {
    var front := s[..i];
    forall j | 0 <= j < |front| ensures key(front[j]) > key(s[i]) {
      assert front[j] == s[j];
      assert key(s[j]) >= key(s[i - 1]);
    }
    CountAboveAll(front, key, key(s[i]));
  }
}
