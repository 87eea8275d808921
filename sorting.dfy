/**
 * Ordering of strings by character code, as JavaScript's default
 * `Array.prototype.sort` compares them, and a sort by a string key.
 */
module Sorting {

  /** `a` comes no later than `b` in lexicographic order of character codes. */
  predicate LessEq(a: string, b: string)
  {
    |a| == 0 || (|b| > 0 && (a[0] < b[0] || (a[0] == b[0] && LessEq(a[1..], b[1..]))))
  }

  lemma {:induction false} LessEqTotal(a: string, b: string)
    ensures LessEq(a, b) || LessEq(b, a)
  {
    if |a| > 0 && |b| > 0 && a[0] == b[0] {
      LessEqTotal(a[1..], b[1..]);
    }
  }

  lemma {:induction false} LessEqTransitive(a: string, b: string, c: string)
    requires LessEq(a, b) && LessEq(b, c)
    ensures LessEq(a, c)
  {
    if |a| > 0 && |b| > 0 && |c| > 0 && a[0] == b[0] == c[0] {
      LessEqTransitive(a[1..], b[1..], c[1..]);
    }
  }

  lemma {:induction false} LessEqAntisymmetric(a: string, b: string)
    requires LessEq(a, b) && LessEq(b, a)
    ensures a == b
  {
    if |a| > 0 && |b| > 0 {
      LessEqAntisymmetric(a[1..], b[1..]);
      assert a == [a[0]] + a[1..] && b == [b[0]] + b[1..];
    }
  }

  ghost predicate SortedBy<T>(s: seq<T>, key: T -> string)
  {
    forall i, j :: 0 <= i < j < |s| ==> LessEq(key(s[i]), key(s[j]))
  }

  /**
   * Places `x` into the sorted `s` after every element whose key is no
   * larger, so that elements with equal keys keep their order.
   */
  function Insert<T>(x: T, s: seq<T>, key: T -> string): (r: seq<T>)
    requires SortedBy(s, key)
    ensures SortedBy(r, key)
    ensures multiset(r) == multiset(s) + multiset{x}
  {
    if |s| == 0 then [x]
    else if LessEq(key(s[0]), key(x)) then
      var rest := Insert(x, s[1..], key);
      FirstBelowRest(x, s, rest, key);
      assert s == [s[0]] + s[1..];
      [s[0]] + rest
    else
      LessEqTotal(key(x), key(s[0]));
      BelowFirst(x, s, key);
      [x] + s
  }

  /** What is inserted behind the first element has no smaller key than it. */
  lemma FirstBelowRest<T>(x: T, s: seq<T>, rest: seq<T>, key: T -> string)
    requires SortedBy(s, key) && |s| > 0 && LessEq(key(s[0]), key(x))
    requires multiset(rest) == multiset(s[1..]) + multiset{x}
    ensures forall j :: 0 <= j < |rest| ==> LessEq(key(s[0]), key(rest[j]))
  {
    forall j | 0 <= j < |rest| ensures LessEq(key(s[0]), key(rest[j])) {
      var e := rest[j];
      assert e in multiset(rest);
      assert e == x || e in multiset(s[1..]);
      if e != x {
        var i :| 0 <= i < |s[1..]| && s[1..][i] == e;
        assert s[i + 1] == e;
      }
    }
  }

  /** An element no later than the first of a sorted sequence is no later than any. */
  lemma BelowFirst<T>(x: T, s: seq<T>, key: T -> string)
    requires SortedBy(s, key) && |s| > 0 && LessEq(key(x), key(s[0]))
    ensures forall j :: 0 <= j < |s| ==> LessEq(key(x), key(s[j]))
  {
    forall j | 0 <= j < |s| ensures LessEq(key(x), key(s[j])) {
      if j > 0 { LessEqTransitive(key(x), key(s[0]), key(s[j])); }
    }
  }

  /** Sorts `s` by `key`: the result is ordered and a permutation of `s`. */
  function SortBy<T>(s: seq<T>, key: T -> string): (r: seq<T>)
    ensures SortedBy(r, key)
    ensures multiset(r) == multiset(s)
  {
    if |s| == 0 then []
    else
      assert s == s[..|s| - 1] + [s[|s| - 1]];
      Insert(s[|s| - 1], SortBy(s[..|s| - 1], key), key)
  }

  /** Every string comes no later than itself. */
  lemma {:induction false} LessEqReflexive(a: string)
    ensures LessEq(a, a)
    decreases |a|
  {
    if |a| > 0 {
      LessEqReflexive(a[1..]);
    }
  }

  /** An element whose key is no smaller than any in `s` goes at the end. */
  lemma {:induction false} InsertLast<T>(x: T, s: seq<T>, key: T -> string)
    requires SortedBy(s, key)
    requires forall j :: 0 <= j < |s| ==> LessEq(key(s[j]), key(x))
    ensures Insert(x, s, key) == s + [x]
    decreases |s|
  {
    if |s| > 0 {
      InsertLast(x, s[1..], key);
      assert [s[0]] + (s[1..] + [x]) == s + [x];
    }
  }

  /** Sorting a sequence that is already sorted changes nothing. */
  lemma {:induction false} SortedUnchanged<T>(s: seq<T>, key: T -> string)
    requires SortedBy(s, key)
    ensures SortBy(s, key) == s
    decreases |s|
  {
    if |s| > 0 {
      var init := s[..|s| - 1];
      SortedUnchanged(init, key);
      InsertLast(s[|s| - 1], init, key);
      assert init + [s[|s| - 1]] == s;
    }
  }

  /** The sort is stable: two elements with equal keys stay in their order. */
  lemma TiesKeepOrder<T>(a: T, b: T, key: T -> string)
    requires key(a) == key(b)
    ensures SortBy([a, b], key) == [a, b]
  {
    LessEqReflexive(key(a));
    SortedUnchanged([a, b], key);
  }
}
