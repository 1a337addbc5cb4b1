/** A stable sort by a "may come first" comparator. JavaScript's
    `Array.prototype.sort` is stable, and an SQL `ORDER BY` returns rows in
    an order that satisfies its keys; both are modelled by `SortBy`. */
module Sorting {

  /** `le` relates every pair one way or the other. */
  ghost predicate Total<T(!new)>(le: (T, T) -> bool) {
    forall a, b :: le(a, b) || le(b, a)
  }

  ghost predicate Transitive<T(!new)>(le: (T, T) -> bool) {
    forall a, b, c :: le(a, b) && le(b, c) ==> le(a, c)
  }

  /** Every element may come before the one after it. */
  ghost predicate Sorted<T>(s: seq<T>, le: (T, T) -> bool) {
    forall i :: 0 <= i < |s| - 1 ==> le(s[i], s[i + 1])
  }

  /** Every element may come before every later one. */
  ghost predicate SortedAll<T>(s: seq<T>, le: (T, T) -> bool) {
    forall i, j :: 0 <= i < j < |s| ==> le(s[i], s[j])
  }

  /** Inserts `x` before the first element it may come before; elements equal
      under `le` keep `x` first, which makes the sort stable. */
  function Insert<T>(x: T, s: seq<T>, le: (T, T) -> bool): (r: seq<T>)
    ensures multiset(r) == multiset(s) + multiset{x}
    ensures |r| == |s| + 1
  {
    if s == [] then [x]
    else if le(x, s[0]) then [x] + s
    else
      assert s == [s[0]] + s[1..];
      [s[0]] + Insert(x, s[1..], le)
  }

  /** Stable insertion sort. */
  function SortBy<T>(s: seq<T>, le: (T, T) -> bool): (r: seq<T>)
    ensures multiset(r) == multiset(s)
    ensures |r| == |s|
  {
    if s == [] then []
    else
      assert s == [s[0]] + s[1..];
      Insert(s[0], SortBy(s[1..], le), le)
  }

  lemma {:induction false} InsertSorted<T(!new)>(x: T, s: seq<T>, le: (T, T) -> bool)
    requires Total(le)
    requires Sorted(s, le)
    ensures Sorted(Insert(x, s, le), le)
    ensures s != [] ==> Insert(x, s, le)[0] == x || Insert(x, s, le)[0] == s[0]
  {
    if s != [] && !le(x, s[0]) {
      InsertSorted(x, s[1..], le);
    }
  }

  /** The result of `SortBy` is sorted whenever the comparator is total. */
  lemma {:induction false} SortBySorted<T(!new)>(s: seq<T>, le: (T, T) -> bool)
    requires Total(le)
    ensures Sorted(SortBy(s, le), le)
  {
    if s != [] {
      SortBySorted(s[1..], le);
      InsertSorted(s[0], SortBy(s[1..], le), le);
    }
  }

  /** With a transitive comparator, neighbour order gives order between any two. */
  lemma {:induction false} SortedToAll<T(!new)>(s: seq<T>, le: (T, T) -> bool)
    requires Transitive(le)
    requires Sorted(s, le)
    ensures SortedAll(s, le)
  {
    if |s| > 1 {
      SortedToAll(s[1..], le);
      forall j | 1 < j < |s|
        ensures le(s[0], s[j])
      {
        assert le(s[1], s[j]) by { assert s[1..][0] == s[1] && s[1..][j - 1] == s[j]; }
      }
    }
  }

  lemma SortByAll<T(!new)>(s: seq<T>, le: (T, T) -> bool)
    requires Total(le) && Transitive(le)
    ensures SortedAll(SortBy(s, le), le)
  {
    SortBySorted(s, le);
    SortedToAll(SortBy(s, le), le);
  }

  /** The first `n` elements, or all of them when there are fewer (`slice(0, n)`
      in JavaScript, `LIMIT n` in SQL). */
  function Take<T>(s: seq<T>, n: nat): (r: seq<T>)
    ensures |r| == if n < |s| then n else |s|
    ensures r == s[..|r|]
  {
    if n < |s| then s[..n] else s
  }

  /** Taking a prefix of a sorted sequence keeps it sorted, and every element
      kept may come before every element dropped. */
  lemma TakeOfSorted<T>(s: seq<T>, n: nat, le: (T, T) -> bool)
    requires SortedAll(s, le)
    ensures SortedAll(Take(s, n), le)
    ensures forall i, j :: 0 <= i < |Take(s, n)| <= j < |s| ==> le(s[i], s[j])
  {
  }

  /** Python's and JavaScript's string order: lexicographic by code point,
      a proper prefix first. */
  predicate StrLe(a: string, b: string) {
    if a == [] then true
    else if b == [] then false
    else if a[0] != b[0] then a[0] < b[0]
    else StrLe(a[1..], b[1..])
  }

  lemma {:induction false} StrLeTotalAt(a: string, b: string)
    ensures StrLe(a, b) || StrLe(b, a)
  {
    if a != [] && b != [] && a[0] == b[0] {
      StrLeTotalAt(a[1..], b[1..]);
    }
  }

  lemma {:induction false} StrLeTransitiveAt(a: string, b: string, c: string)
    requires StrLe(a, b) && StrLe(b, c)
    ensures StrLe(a, c)
  {
    if a != [] && b != [] && c != [] && a[0] == b[0] && b[0] == c[0] {
      StrLeTransitiveAt(a[1..], b[1..], c[1..]);
    }
  }

  lemma {:induction false} StrLeAntisymmetricAt(a: string, b: string)
    requires StrLe(a, b) && StrLe(b, a)
    ensures a == b
  {
    if a != [] && b != [] {
      StrLeAntisymmetricAt(a[1..], b[1..]);
      assert a == [a[0]] + a[1..] && b == [b[0]] + b[1..];
    }
  }

  /** The string order is a total order, so `SortBy` with it sorts. */
  lemma StrLeTotalOrder()
    ensures Total(StrLe) && Transitive(StrLe)
  {
    forall a, b ensures StrLe(a, b) || StrLe(b, a) {
      StrLeTotalAt(a, b);
    }
    forall a, b, c | StrLe(a, b) && StrLe(b, c) ensures StrLe(a, c) {
      StrLeTransitiveAt(a, b, c);
    }
  }
}
