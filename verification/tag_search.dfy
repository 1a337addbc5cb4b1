/** Tag search within one tag group: with no query, the most used tags; with
    a query, the tags ranked by prefix match, then by edit distance to the
    query, then by use. Both are single SQL queries with an `ORDER BY` and a
    `LIMIT`; the model states the ranking as comparators, sorts the group's
    rows by them, and proves what the ranking promises. */
module TagSearch {
  import opened Common
  import opened Sorting
  import opened Tables

  // ---------------------------------------------------------------
  // SQL building blocks: LIKE and editdist3
  // ---------------------------------------------------------------

  /** SQL `s LIKE p` with no escape character: `%` matches any run of
      characters, `_` any single character, everything else itself. */
  predicate Like(s: string, p: string)
    decreases |s| + |p|
  {
    if p == [] then s == []
    else if p[0] == '%' then Like(s, p[1..]) || (s != [] && Like(s[1..], p))
    else s != [] && (p[0] == '_' || s[0] == p[0]) && Like(s[1..], p[1..])
  }

  predicate HasWildcard(q: string) { '%' in q || '_' in q }

  /** A trailing `%` matches any rest. */
  lemma {:induction false} LikeAnyRest(s: string)
    ensures Like(s, "%")
    decreases |s|
  {
    if s != [] {
      LikeAnyRest(s[1..]);
    }
  }

  /** For a query without wildcards, `lower(label) LIKE q || '%'` is exactly
      "the lowered label starts with the query". */
  lemma {:induction false} LikePrefix(s: string, q: string)
    requires !HasWildcard(q)
    ensures Like(s, q + "%") <==> StartsWith(s, q)
    decreases |q|
  {
    if q == [] {
      assert q + "%" == "%";
      LikeAnyRest(s);
    } else {
      assert (q + "%")[1..] == q[1..] + "%";
      assert !HasWildcard(q[1..]) by {
        assert forall c :: c in q[1..] ==> c in q;
      }
      if s != [] {
        LikePrefix(s[1..], q[1..]);
        if StartsWith(s, q) {
          assert s[1..][..|q| - 1] == s[..|q|][1..];
        }
        if StartsWith(s[1..], q[1..]) && s[0] == q[0] {
          assert s[..|q|] == [s[0]] + s[1..][..|q| - 1];
        }
      }
    }
  }

  /** An `_` typed in the query is a wildcard, so "a_" is a prefix match of
      the label "a b" as well as of "a_b". */
  lemma UnderscoreMatchesSpace()
    ensures Like("a b", "a_%")
  {
    LikeAnyRest("b");
    assert "a b"[1..] == " b" && " b"[1..] == "b";
    assert "a_%"[1..] == "_%" && "_%"[1..] == "%";
  }

  function Min3(x: nat, y: nat, z: nat): nat {
    if x <= y && x <= z then x else if y <= z then y else z
  }

  /** `editdist3`, which DuckDB provides as the Levenshtein distance: the
      fewest single-character insertions, deletions and substitutions that
      turn `a` into `b`. */
  function EditDistance(a: string, b: string): nat
    decreases |a| + |b|
  {
    if a == [] then |b|
    else if b == [] then |a|
    else Min3(EditDistance(a[1..], b) + 1, EditDistance(a, b[1..]) + 1,
              EditDistance(a[1..], b[1..]) + if a[0] == b[0] then 0 else 1)
  }

  /** The distance is the length difference at least and the longer length
      at most. */
  lemma {:induction false} EditDistanceBounds(a: string, b: string)
    ensures EditDistance(a, b) <= if |a| <= |b| then |b| else |a|
    ensures EditDistance(a, b) >= if |a| <= |b| then |b| - |a| else |a| - |b|
    decreases |a| + |b|
  {
    if a != [] && b != [] {
      EditDistanceBounds(a[1..], b);
      EditDistanceBounds(a, b[1..]);
      EditDistanceBounds(a[1..], b[1..]);
    }
  }

  /** Distance zero means equal strings, and only that. */
  lemma {:induction false} EditDistanceZero(a: string, b: string)
    ensures EditDistance(a, b) == 0 <==> a == b
    decreases |a| + |b|
  {
    if a != [] && b != [] {
      EditDistanceBounds(a[1..], b);
      EditDistanceBounds(a, b[1..]);
      EditDistanceZero(a[1..], b[1..]);
      if a == b {
        assert a[1..] == b[1..];
      }
      if EditDistance(a, b) == 0 {
        assert a == [a[0]] + a[1..] && b == [b[0]] + b[1..];
      }
    }
  }

  /** The distance is symmetric. */
  lemma {:induction false} EditDistanceSymmetric(a: string, b: string)
    ensures EditDistance(a, b) == EditDistance(b, a)
    decreases |a| + |b|
  {
    if a != [] && b != [] {
      EditDistanceSymmetric(a[1..], b);
      EditDistanceSymmetric(a, b[1..]);
      EditDistanceSymmetric(a[1..], b[1..]);
    }
  }

  /** `replace(s, ' ', '_')`. */
  function SpacesToUnderscores(s: string): (r: string)
    ensures |r| == |s| && ' ' !in r
    ensures forall i :: 0 <= i < |s| ==> r[i] == (if s[i] == ' ' then '_' else s[i])
  {
    if s == [] then [] else [if s[0] == ' ' then '_' else s[0]] + SpacesToUnderscores(s[1..])
  }

  // ---------------------------------------------------------------
  // The ranking
  // ---------------------------------------------------------------

  /** One row of the tag table with its id, as the query scans it. */
  datatype TagEntry = TagEntry(id: string, row: TagRow)

  /** A row of the group with its ranking columns; `prefixMatch` and
      `distance` are computed only by the query branch. */
  datatype Candidate = Candidate(
    id: string, name: string, usageCount: int, lastUsed: Option<int>,
    prefixMatch: bool, distance: Option<nat>)

  /** One entry of the returned list; `distance` is present only for a query. */
  datatype Hit = Hit(id: string, name: string, usageCount: int, lastUsed: Option<int>, distance: Option<nat>)

  function InGroup(g: string): TagEntry -> bool {
    (e: TagEntry) => e.row.groupId == g
  }

  /** `not query`: Python treats both `None` and "" as no query. */
  predicate NoQuery(query: Option<string>) { query.None? || query.value == "" }

  /** The candidate of row `e`, without ranking columns (no query) or with
      them, for the lowered query `q`. */
  function Candidates(rows: seq<TagEntry>, query: Option<string>): (cs: seq<Candidate>)
    ensures |cs| == |rows|
    ensures forall k :: 0 <= k < |rows| ==>
      cs[k].id == rows[k].id && cs[k].name == rows[k].row.name
      && cs[k].usageCount == rows[k].row.usageCount && cs[k].lastUsed == rows[k].row.lastUsed
      && (cs[k].distance.Some? <==> !NoQuery(query))
  {
    if NoQuery(query) then
      seq(|rows|, k requires 0 <= k < |rows| =>
        Candidate(rows[k].id, rows[k].row.name, rows[k].row.usageCount, rows[k].row.lastUsed, false, None))
    else
      var q := Lower(query.value);
      seq(|rows|, k requires 0 <= k < |rows| =>
        var name := rows[k].row.name;
        Candidate(rows[k].id, name, rows[k].row.usageCount, rows[k].row.lastUsed,
                  Like(Lower(name), q + "%"), Some(EditDistance(SpacesToUnderscores(Lower(name)), q))))
  }

  /** `ORDER BY usage_count DESC, last_used DESC`: `a` may come before `b`. */
  predicate MoreUsed(a: Candidate, b: Candidate) {
    if a.usageCount != b.usageCount then a.usageCount > b.usageCount
    else LaterFirst(a.lastUsed, b.lastUsed)
  }

  function DistanceOf(c: Candidate): nat {
    if c.distance.Some? then c.distance.value else 0
  }

  /** `ORDER BY prefix_match DESC, distance ASC, usage_count DESC,
      last_used DESC`: `a` may come before `b`. */
  predicate BetterMatch(a: Candidate, b: Candidate) {
    if a.prefixMatch != b.prefixMatch then a.prefixMatch
    else if DistanceOf(a) != DistanceOf(b) then DistanceOf(a) < DistanceOf(b)
    else MoreUsed(a, b)
  }

  function RankOrder(query: Option<string>): (Candidate, Candidate) -> bool {
    if NoQuery(query) then MoreUsed else BetterMatch
  }

  /** Both orders rank every pair and are transitive, so sorting by them
      gives a sequence ordered between every two positions. */
  lemma RankOrdersAreTotal()
    ensures Total(MoreUsed) && Transitive(MoreUsed)
    ensures Total(BetterMatch) && Transitive(BetterMatch)
  {
    forall a, b, c | MoreUsed(a, b) && MoreUsed(b, c) ensures MoreUsed(a, c) {
    }
    forall a, b, c | BetterMatch(a, b) && BetterMatch(b, c) ensures BetterMatch(a, c) {
    }
  }

  /** Every row of the group, in rank order. */
  function Ranked(table: seq<TagEntry>, groupId: string, query: Option<string>): (r: seq<Candidate>)
    ensures multiset(r) == multiset(Candidates(Filter(table, InGroup(groupId)), query))
    ensures forall k :: 0 <= k < |r| ==> (r[k].distance.Some? <==> !NoQuery(query))
  {
    var cs := Candidates(Filter(table, InGroup(groupId)), query);
    var r := SortBy(cs, RankOrder(query));
    forall k | 0 <= k < |r| ensures r[k].distance.Some? <==> !NoQuery(query) {
      assert r[k] in multiset(cs);
    }
    r
  }

  function ToHit(c: Candidate): Hit {
    Hit(c.id, c.name, c.usageCount, c.lastUsed, c.distance)
  }

  /** `search_tags`: the first `limit` rows of the group in rank order. */
  function SearchTags(table: seq<TagEntry>, groupId: string, query: Option<string>, limit: nat): (hits: seq<Hit>)
    ensures |hits| == if limit < CountIf(table, InGroup(groupId)) then limit else CountIf(table, InGroup(groupId))
    ensures forall k :: 0 <= k < |hits| ==> (hits[k].distance.Some? <==> !NoQuery(query))
  {
    var top := Take(Ranked(table, groupId, query), limit);
    seq(|top|, k requires 0 <= k < |top| => ToHit(top[k]))
  }

  /** The default `limit`. */
  const DefaultLimit: nat := 10

  // ---------------------------------------------------------------
  // What the search promises
  // ---------------------------------------------------------------

  /** Every hit is a row of the requested group, echoing its id, label, use
      count and last use. */
  lemma HitsComeFromGroup(table: seq<TagEntry>, groupId: string, query: Option<string>, limit: nat, k: nat)
    requires k < |SearchTags(table, groupId, query, limit)|
    ensures var h := SearchTags(table, groupId, query, limit)[k];
      exists e :: e in table && e.row.groupId == groupId && h.id == e.id && h.name == e.row.name
        && h.usageCount == e.row.usageCount && h.lastUsed == e.row.lastUsed
  {
    var rows := Filter(table, InGroup(groupId));
    var ranked := Ranked(table, groupId, query);
    var c := ranked[k];
    assert c in multiset(Candidates(rows, query));
    var j :| 0 <= j < |rows| && Candidates(rows, query)[j] == c;
    assert rows[j] in table && InGroup(groupId)(rows[j]);
  }

  /** The hits are in rank order, and every row of the group left out by
      the limit ranks no better than every hit. */
  lemma HitsAreTheBestRanked(table: seq<TagEntry>, groupId: string, query: Option<string>, limit: nat)
    ensures var ranked, le := Ranked(table, groupId, query), RankOrder(query);
      && SortedAll(Take(ranked, limit), le)
      && forall i, j :: 0 <= i < |Take(ranked, limit)| <= j < |ranked| ==> le(ranked[i], ranked[j])
    ensures forall k :: 0 <= k < |SearchTags(table, groupId, query, limit)| ==>
      SearchTags(table, groupId, query, limit)[k] == ToHit(Ranked(table, groupId, query)[k])
  {
    RankOrdersAreTotal();
    SortByAll(Candidates(Filter(table, InGroup(groupId)), query), RankOrder(query));
    TakeOfSorted(Ranked(table, groupId, query), limit, RankOrder(query));
  }

  /** With a query, a prefix match is never cut by the limit while a
      non-matching row is kept: if any hit fails to match, every row left
      out fails too. */
  lemma PrefixMatchesFirst(table: seq<TagEntry>, groupId: string, query: Option<string>, limit: nat, i: nat, j: nat)
    requires !NoQuery(query)
    requires var ranked := Ranked(table, groupId, query);
      i < |Take(ranked, limit)| <= j < |ranked| && !ranked[i].prefixMatch
    ensures !Ranked(table, groupId, query)[j].prefixMatch
  {
    HitsAreTheBestRanked(table, groupId, query, limit);
  }

  /** With no query the hits are ordered by use, most used first. */
  lemma TopUsedOrder(table: seq<TagEntry>, groupId: string, query: Option<string>, limit: nat, i: nat, j: nat)
    requires NoQuery(query)
    requires i < j < |SearchTags(table, groupId, query, limit)|
    ensures var hits := SearchTags(table, groupId, query, limit);
      hits[i].usageCount >= hits[j].usageCount
  {
    HitsAreTheBestRanked(table, groupId, query, limit);
    var ranked := Ranked(table, groupId, query);
    assert ranked[i] == Take(ranked, limit)[i] && ranked[j] == Take(ranked, limit)[j];
  }

  /** A group with no more rows than the limit is returned whole: every
      row of the group is among the hits. */
  lemma SmallGroupReturnedWhole(table: seq<TagEntry>, groupId: string, query: Option<string>, limit: nat, e: TagEntry)
    requires CountIf(table, InGroup(groupId)) <= limit
    requires e in table && e.row.groupId == groupId
    ensures var hits := SearchTags(table, groupId, query, limit);
      exists k :: 0 <= k < |hits| && hits[k].id == e.id
  {
    var rows := Filter(table, InGroup(groupId));
    FilterMembers(table, InGroup(groupId));
    var j :| 0 <= j < |rows| && rows[j] == e;
    var k := PositionAfterPermuting(Candidates(rows, query), Ranked(table, groupId, query), j);
    HitAt(table, groupId, query, limit, k);
  }

  /** An element of `xs` is found again, somewhere, in a permutation of it. */
  lemma PositionAfterPermuting<T>(xs: seq<T>, ys: seq<T>, j: nat) returns (k: nat)
    requires multiset(ys) == multiset(xs) && j < |xs|
    ensures k < |ys| == |xs| && ys[k] == xs[j]
  {
    assert xs[j] in multiset(ys);
    k :| 0 <= k < |ys| && ys[k] == xs[j];
    assert |ys| == |multiset(ys)|;
  }

  /** The hit at position `k` is the row ranked `k`-th. */
  lemma HitAt(table: seq<TagEntry>, groupId: string, query: Option<string>, limit: nat, k: nat)
    requires k < |SearchTags(table, groupId, query, limit)|
    ensures SearchTags(table, groupId, query, limit)[k] == ToHit(Ranked(table, groupId, query)[k])
  {
  }
}
