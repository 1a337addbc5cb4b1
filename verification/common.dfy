/** Shared vocabulary: optional values, ASCII character classes, and the
    string and list helpers (trim, split, prefix and suffix tests,
    order-preserving de-duplication) that the services and pages share. */
module Common {

  datatype Option<T> = None | Some(value: T)

  // ---------------------------------------------------------------
  // Character classes (ASCII only; see README "Left out")
  // ---------------------------------------------------------------

  /** Whitespace as JavaScript's `trim` and `\s` see it, restricted to ASCII. */
  predicate IsJsSpace(c: char) {
    c == ' ' || c == '\t' || c == '\n' || c == '\r' || c == 11 as char || c == 12 as char
  }

  /** Whitespace as Python's `str.strip` and `re`'s `\s` see it, restricted to
      ASCII: JavaScript's set plus the four separators U+001C..U+001F. */
  predicate IsPySpace(c: char) {
    IsJsSpace(c) || (28 as char <= c <= 31 as char)
  }

  predicate IsAsciiDigit(c: char) { '0' <= c <= '9' }
  predicate IsAsciiUpper(c: char) { 'A' <= c <= 'Z' }
  predicate IsAsciiLower(c: char) { 'a' <= c <= 'z' }
  predicate IsAsciiAlnum(c: char) { IsAsciiDigit(c) || IsAsciiUpper(c) || IsAsciiLower(c) }

  function LowerChar(c: char): (r: char)
    ensures !IsAsciiUpper(r)
    ensures IsAsciiUpper(c) ==> IsAsciiLower(r)
    ensures !IsAsciiUpper(c) ==> r == c
  {
    if IsAsciiUpper(c) then (c as int - 'A' as int + 'a' as int) as char else c
  }

  /** ASCII lower-casing of a whole string, character by character. */
  function Lower(s: string): (r: string)
    ensures |r| == |s|
    ensures forall i :: 0 <= i < |s| ==> r[i] == LowerChar(s[i])
  {
    seq(|s|, i requires 0 <= i < |s| => LowerChar(s[i]))
  }

  lemma LowerIdempotent(s: string)
    ensures Lower(Lower(s)) == Lower(s)
  {
  }

  // ---------------------------------------------------------------
  // Prefixes, suffixes, substrings
  // ---------------------------------------------------------------

  predicate StartsWith(s: string, p: string) {
    |p| <= |s| && s[..|p|] == p
  }

  predicate EndsWith(s: string, suffix: string) {
    |suffix| <= |s| && s[|s| - |suffix|..] == suffix
  }

  /** Python's `needle in haystack` and JavaScript's `includes` on strings. */
  predicate IsSubstring(needle: string, haystack: string) {
    exists i :: 0 <= i <= |haystack| - |needle| && OccursAt(needle, haystack, i)
  }

  predicate OccursAt(needle: string, haystack: string, i: int)
    requires 0 <= i <= |haystack| - |needle|
  {
    haystack[i..i + |needle|] == needle
  }

  /** `s.endswith(t)` for a tuple `t` of suffixes. */
  predicate EndsWithAny(s: string, suffixes: seq<string>) {
    exists k :: 0 <= k < |suffixes| && EndsWith(s, suffixes[k])
  }

  // ---------------------------------------------------------------
  // Trimming
  // ---------------------------------------------------------------

  function TrimStart(s: string, isSpace: char -> bool): (r: string)
    ensures |r| <= |s|
    ensures r == s[|s| - |r|..]
    ensures r != [] ==> !isSpace(r[0])
    ensures forall i :: 0 <= i < |s| - |r| ==> isSpace(s[i])
  {
    if s != [] && isSpace(s[0]) then TrimStart(s[1..], isSpace) else s
  }

  function TrimEnd(s: string, isSpace: char -> bool): (r: string)
    ensures |r| <= |s|
    ensures r == s[..|r|]
    ensures r != [] ==> !isSpace(r[|r| - 1])
    ensures forall i :: |r| <= i < |s| ==> isSpace(s[i])
  {
    if s != [] && isSpace(s[|s| - 1]) then TrimEnd(s[..|s| - 1], isSpace) else s
  }

  /** Removes leading and trailing characters that satisfy `isSpace`. */
  function Trim(s: string, isSpace: char -> bool): (r: string)
    ensures r != [] ==> !isSpace(r[0]) && !isSpace(r[|r| - 1])
    ensures IsSubstring(r, s)
  {
    var t := TrimEnd(TrimStart(s, isSpace), isSpace);
    var a := |s| - |TrimStart(s, isSpace)|;
    assert OccursAt(t, s, a);
    t
  }

  /** JavaScript's `String.prototype.trim`. */
  function JsTrim(s: string): string { Trim(s, IsJsSpace) }

  /** A string with no space at either end is its own trim. */
  lemma TrimNoEdgeSpace(s: string, isSpace: char -> bool)
    requires s != [] ==> !isSpace(s[0]) && !isSpace(s[|s| - 1])
    ensures Trim(s, isSpace) == s
  {
    assert TrimStart(s, isSpace) == s;
    assert TrimEnd(s, isSpace) == s;
  }

  /** Python's `str.strip()`. */
  function PyStrip(s: string): string { Trim(s, IsPySpace) }

  lemma {:induction false} TrimEmptyIffAllSpace(s: string, isSpace: char -> bool)
    ensures Trim(s, isSpace) == [] <==> forall i :: 0 <= i < |s| ==> isSpace(s[i])
  {
    var u := TrimStart(s, isSpace);
    if u == [] {
    } else {
      assert !isSpace(u[0]);
      assert u[0] == s[|s| - |u|];
      assert TrimEnd(u, isSpace) != [];
    }
  }

  // ---------------------------------------------------------------
  // Split and join on a single separator character
  // ---------------------------------------------------------------

  /** `s.split(sep)` in JavaScript and Python for a one-character separator:
      always at least one piece, and an empty string gives [""]. */
  function Split(s: string, sep: char): (r: seq<string>)
    ensures |r| >= 1
    ensures forall i :: 0 <= i < |r| ==> sep !in r[i]
  {
    if s == [] then [""]
    else
      var rest := Split(s[1..], sep);
      if s[0] == sep then [""] + rest
      else [[s[0]] + rest[0]] + rest[1..]
  }

  function Join(parts: seq<string>, sep: char): (r: string)
    requires |parts| >= 1
  {
    if |parts| == 1 then parts[0] else parts[0] + [sep] + Join(parts[1..], sep)
  }

  function CountChar(s: string, c: char): nat {
    if s == [] then 0 else (if s[0] == c then 1 else 0) + CountChar(s[1..], c)
  }

  /** Splitting loses nothing: joining the pieces back gives the input. */
  lemma {:induction false} JoinSplit(s: string, sep: char)
    ensures Join(Split(s, sep), sep) == s
  {
    if s != [] {
      JoinSplit(s[1..], sep);
      var rest := Split(s[1..], sep);
      if s[0] != sep {
        if |rest| == 1 {
        } else {
          assert Join(rest, sep) == rest[0] + [sep] + Join(rest[1..], sep);
          assert rest[1..][1..] == rest[2..];
        }
      }
    }
  }

  /** A string without the separator is one piece. */
  lemma {:induction false} SplitNone(s: string, sep: char)
    requires sep !in s
    ensures Split(s, sep) == [s]
  {
    if s != [] {
      assert sep !in s[1..];
      SplitNone(s[1..], sep);
      assert [s[0]] + s[1..] == s;
    }
  }

  /** A leading piece without the separator comes off whole. */
  lemma {:induction false} SplitFirst(w: string, rest: string, sep: char)
    requires sep !in w
    ensures Split(w + [sep] + rest, sep) == [w] + Split(rest, sep)
  {
    var s := w + [sep] + rest;
    if w == [] {
      assert s[1..] == rest;
    } else {
      assert sep !in w[1..];
      SplitFirst(w[1..], rest, sep);
      assert s[1..] == w[1..] + [sep] + rest;
      assert [w[0]] + w[1..] == w;
    }
  }

  /** There is exactly one piece more than there are separators. */
  lemma {:induction false} SplitCount(s: string, sep: char)
    ensures |Split(s, sep)| == CountChar(s, sep) + 1
  {
    if s != [] {
      SplitCount(s[1..], sep);
    }
  }

  // ---------------------------------------------------------------
  // Lists
  // ---------------------------------------------------------------

  predicate NoDuplicates<T(==)>(s: seq<T>) {
    forall i, j :: 0 <= i < j < |s| ==> s[i] != s[j]
  }

  /** Index of the first occurrence of `x` in `s`. */
  function FirstIndex<T(==)>(s: seq<T>, x: T): (k: nat)
    requires x in s
    ensures k < |s| && s[k] == x && x !in s[..k]
  {
    if s[0] == x then 0 else
      var k := FirstIndex(s[1..], x);
      assert s[..k + 1] == [s[0]] + s[1..][..k];
      k + 1
  }

  /** The elements of `s`, each once, in order of first occurrence: what the
      "seen set plus output list" loops compute. Defined from the back so that
      each loop step appends one element. */
  function Dedup<T(==)>(s: seq<T>): (r: seq<T>)
    ensures forall i :: 0 <= i < |r| ==> r[i] in s
    ensures forall i :: 0 <= i < |s| ==> s[i] in r
    ensures NoDuplicates(r)
    ensures |r| <= |s|
  {
    if s == [] then []
    else
      var init := Dedup(s[..|s| - 1]);
      var last := s[|s| - 1];
      assert s == s[..|s| - 1] + [last];
      if last in s[..|s| - 1] then init
      else
        init + [last]
  }

  /** A prefix one element longer. */
  lemma PrefixSnoc<T>(s: seq<T>, i: nat)
    requires i < |s|
    ensures s[..i + 1] == s[..i] + [s[i]]
  {
  }

  /** A non-empty sequence is its front followed by its last element. */
  lemma InitLast<T>(s: seq<T>)
    requires s != []
    ensures s == s[..|s| - 1] + [s[|s| - 1]]
  {
  }

  lemma DedupMembers<T>(s: seq<T>)
    ensures forall x :: x in Dedup(s) <==> x in s
  {
    var d := Dedup(s);
    forall x | x in s ensures x in d {
      var k :| 0 <= k < |s| && s[k] == x;
    }
  }

  /** One more element joins the de-duplicated list exactly when it is new. */
  lemma DedupSnoc<T>(s: seq<T>, x: T)
    ensures Dedup(s + [x]) == if x in Dedup(s) then Dedup(s) else Dedup(s) + [x]
  {
    DedupMembers(s);
    assert (s + [x])[..|s|] == s;
  }

  /** `DedupSnoc` on the prefixes of one list, as loops over it use it. */
  lemma DedupPrefixStep<T>(s: seq<T>, i: nat)
    requires i < |s|
    ensures Dedup(s[..i + 1]) == if s[i] in Dedup(s[..i]) then Dedup(s[..i]) else Dedup(s[..i]) + [s[i]]
  {
    assert s[..i + 1] == s[..i] + [s[i]];
    DedupSnoc(s[..i], s[i]);
  }

  lemma {:induction false} FirstIndexPrefix<T>(s: seq<T>, n: nat, x: T)
    requires n <= |s| && x in s[..n]
    ensures FirstIndex(s, x) == FirstIndex(s[..n], x)
  {
    var k := FirstIndex(s[..n], x);
    var j := FirstIndex(s, x);
    assert s[..n][..k] == s[..k];
  }

  /** `Dedup` keeps first-occurrence order. */
  lemma {:induction false} DedupOrder<T>(s: seq<T>)
    ensures forall i, j :: 0 <= i < j < |Dedup(s)| ==>
      FirstIndex(s, Dedup(s)[i]) < FirstIndex(s, Dedup(s)[j])
  {
    if s != [] {
      var n := |s| - 1;
      var init := s[..n];
      DedupOrder(init);
      var d := Dedup(s);
      var di := Dedup(init);
      forall k | 0 <= k < |di|
        ensures FirstIndex(s, di[k]) == FirstIndex(init, di[k])
      {
        FirstIndexPrefix(s, n, di[k]);
      }
      forall i, j | 0 <= i < j < |d|
        ensures FirstIndex(s, d[i]) < FirstIndex(s, d[j])
      {
        assert d[i] == di[i];
        if j < |di| {
          assert d[j] == di[j];
        } else {
          assert d[j] == s[n] && s[n] !in init;
          assert FirstIndex(s, d[j]) == n;
        }
      }
    }
  }

  /** The number of elements of `s` satisfying `p`. */
  function CountIf<T>(s: seq<T>, p: T -> bool): (n: nat)
    ensures n <= |s|
  {
    if s == [] then 0 else (if p(s[0]) then 1 else 0) + CountIf(s[1..], p)
  }

  function Filter<T>(s: seq<T>, p: T -> bool): (r: seq<T>)
    ensures |r| == CountIf(s, p)
    ensures forall i :: 0 <= i < |r| ==> r[i] in s && p(r[i])
  {
    if s == [] then []
    else if p(s[0]) then [s[0]] + Filter(s[1..], p)
    else Filter(s[1..], p)
  }

  lemma {:induction false} CountIfAppend<T>(a: seq<T>, b: seq<T>, p: T -> bool)
    ensures CountIf(a + b, p) == CountIf(a, p) + CountIf(b, p)
  {
    if a == [] {
      assert a + b == b;
    } else {
      assert (a + b)[1..] == a[1..] + b;
      CountIfAppend(a[1..], b, p);
    }
  }

  lemma {:induction false} FilterAppend<T>(a: seq<T>, b: seq<T>, p: T -> bool)
    ensures Filter(a + b, p) == Filter(a, p) + Filter(b, p)
  {
    if a == [] {
      assert a + b == b;
    } else {
      assert (a + b)[1..] == a[1..] + b;
      FilterAppend(a[1..], b, p);
    }
  }

  /** Every element of the filtered list is an element of the input that
      passes the test, and conversely. */
  lemma {:induction false} FilterMembers<T>(s: seq<T>, p: T -> bool)
    ensures forall x :: x in Filter(s, p) <==> x in s && p(x)
  {
    if s != [] {
      FilterMembers(s[1..], p);
      assert forall x :: x in s <==> x == s[0] || x in s[1..];
    }
  }

  /** `a` is `b` with some elements left out, the rest in the same order. */
  predicate IsSubsequence<T(==)>(a: seq<T>, b: seq<T>)
    decreases |b|
  {
    a == [] || (b != [] && ((a[0] == b[0] && IsSubsequence(a[1..], b[1..])) || IsSubsequence(a, b[1..])))
  }

  /** Filtering keeps the order of the elements it keeps. */
  lemma {:induction false} FilterSubsequence<T>(s: seq<T>, p: T -> bool)
    ensures IsSubsequence(Filter(s, p), s)
  {
    if s != [] {
      FilterSubsequence(s[1..], p);
    }
  }

  lemma {:induction false} CountIfSame<T>(s: seq<T>, p: T -> bool, q: T -> bool)
    requires forall k :: 0 <= k < |s| ==> p(s[k]) == q(s[k])
    ensures CountIf(s, p) == CountIf(s, q)
  {
    if s != [] {
      CountIfSame(s[1..], p, q);
    }
  }

  /** Two tests that agree on every element filter alike. */
  lemma {:induction false} FilterSame<T>(s: seq<T>, p: T -> bool, q: T -> bool)
    requires forall k :: 0 <= k < |s| ==> p(s[k]) == q(s[k])
    ensures Filter(s, p) == Filter(s, q)
  {
    if s != [] {
      FilterSame(s[1..], p, q);
    }
  }

  /** Counting a weaker test counts at least as many. */
  lemma {:induction false} CountIfMono<T>(s: seq<T>, p: T -> bool, q: T -> bool)
    requires forall k :: 0 <= k < |s| ==> p(s[k]) ==> q(s[k])
    ensures CountIf(s, p) <= CountIf(s, q)
  {
    if s != [] {
      CountIfMono(s[1..], p, q);
    }
  }

  /** ... and strictly more when some element passes only the weaker test. */
  lemma {:induction false} CountIfStrict<T>(s: seq<T>, p: T -> bool, q: T -> bool, k: nat)
    requires forall i :: 0 <= i < |s| ==> p(s[i]) ==> q(s[i])
    requires k < |s| && q(s[k]) && !p(s[k])
    ensures CountIf(s, p) < CountIf(s, q)
  {
    if k == 0 {
      CountIfMono(s[1..], p, q);
    } else {
      CountIfStrict(s[1..], p, q, k - 1);
    }
  }

  lemma {:induction false} CountIfZero<T>(s: seq<T>, p: T -> bool)
    ensures CountIf(s, p) == 0 <==> forall i :: 0 <= i < |s| ==> !p(s[i])
  {
    if s != [] {
      CountIfZero(s[1..], p);
      assert forall i :: 1 <= i < |s| ==> s[1..][i - 1] == s[i];
    }
  }

  /** The distinct elements of `s`. */
  function Elems<T>(s: seq<T>): set<T> {
    set x | x in s
  }

  /** A list has at most as many distinct elements as entries, and exactly
      as many when it has no repeats. */
  lemma {:induction false} DistinctCard<T>(s: seq<T>)
    ensures |Elems(s)| <= |s|
    ensures |Elems(s)| == |s| <==> NoDuplicates(s)
  {
    if s != [] {
      var t := s[1..];
      DistinctCard(t);
      assert Elems(s) == {s[0]} + Elems(t);
      if s[0] in t {
        assert Elems(s) == Elems(t);
        assert !NoDuplicates(s) by {
          var j :| 0 <= j < |t| && t[j] == s[0];
          assert s[j + 1] == s[0];
        }
      } else {
        assert NoDuplicates(s) <==> NoDuplicates(t) by {
          if NoDuplicates(t) {
            forall i, j | 0 <= i < j < |s| ensures s[i] != s[j] {
              if i > 0 { assert s[i] == t[i - 1] && s[j] == t[j - 1]; }
              else { assert s[j] == t[j - 1]; }
            }
          }
          if NoDuplicates(s) {
            forall i, j | 0 <= i < j < |t| ensures t[i] != t[j] {
              assert t[i] == s[i + 1] && t[j] == s[j + 1];
            }
          }
        }
      }
    }
  }

  /** The distinct elements of `s` that satisfy `p`. */
  function ElemsIf<T>(s: seq<T>, p: T -> bool): set<T> {
    set x | x in s && p(x)
  }

  /** On a list without repeats, counting entries is counting elements. */
  lemma {:induction false} CountIfDistinct<T>(s: seq<T>, p: T -> bool)
    requires NoDuplicates(s)
    ensures CountIf(s, p) == |ElemsIf(s, p)|
  {
    if s == [] {
      assert ElemsIf(s, p) == {};
    } else {
      var t := s[1..];
      assert NoDuplicates(t) by {
        forall i, j | 0 <= i < j < |t| ensures t[i] != t[j] {
          assert t[i] == s[i + 1] && t[j] == s[j + 1];
        }
      }
      CountIfDistinct(t, p);
      assert s[0] !in t by {
        forall j | 0 <= j < |t| ensures t[j] != s[0] { assert t[j] == s[j + 1]; }
      }
      var rest := ElemsIf(t, p);
      if p(s[0]) {
        assert ElemsIf(s, p) == {s[0]} + rest;
      } else {
        assert ElemsIf(s, p) == rest;
      }
    }
  }

  /** A list has no repeats exactly when no element occurs twice in its
      multiset. */
  lemma {:induction false} NoDuplicatesMultiset<T>(s: seq<T>)
    ensures NoDuplicates(s) <==> forall x :: multiset(s)[x] <= 1
  {
    if s != [] {
      var t := s[1..];
      NoDuplicatesMultiset(t);
      assert s == [s[0]] + t;
      assert multiset(s) == multiset{s[0]} + multiset(t);
      if NoDuplicates(s) {
        forall j | 0 <= j < |t| ensures t[j] != s[0] { assert t[j] == s[j + 1]; }
        forall i, j | 0 <= i < j < |t| ensures t[i] != t[j] { assert t[i] == s[i + 1] && t[j] == s[j + 1]; }
        assert multiset(t)[s[0]] == 0;
      }
      if forall x :: multiset(s)[x] <= 1 {
        assert multiset(t)[s[0]] == 0;
        assert forall x :: multiset(t)[x] <= multiset(s)[x];
        forall i, j | 0 <= i < j < |s| ensures s[i] != s[j] {
          if i == 0 {
            assert s[j] == t[j - 1];
          } else {
            assert s[i] == t[i - 1] && s[j] == t[j - 1];
          }
        }
      }
    }
  }

  /** Reordering keeps the absence of repeats. */
  lemma PermutationKeepsNoDuplicates<T>(a: seq<T>, b: seq<T>)
    requires multiset(a) == multiset(b) && NoDuplicates(a)
    ensures NoDuplicates(b)
  {
    NoDuplicatesMultiset(a);
    NoDuplicatesMultiset(b);
  }
}
