/** The assignment pre-check run before tags are attached to a content item:
    every requested tag must exist, and adding the requested tags must keep
    every tag group within its min/max counts. The tag table and the two
    query results are inputs. */
module TagValidation {
  import opened Common
  import opened GroupRules

  /** The tag table as the pre-check sees it: tag id to group id. */
  type TagGroups = map<string, string>

  /** One row of the per-group count query: a group, its limits, and how many
      of its tags the content item already carries. */
  datatype GroupCountRow = GroupCountRow(groupId: string, min: int, max: StoredMax, current: nat)

  /** "group '…' requires at least …" and "group '…' allows at most …". */
  datatype Violation = TooFew(groupId: string, min: int) | TooMany(groupId: string, max: int)

  /** Returning normally, or one of the two raised errors. */
  datatype Check = Passed | UnknownTags(missing: seq<string>) | Violated(violations: seq<Violation>)

  /** `found` is what the `WHERE id IN (…)` lookup returns: each requested tag
      that exists, once, in whatever order the database chooses. */
  ghost predicate LookupResult(found: seq<string>, tagIds: seq<string>, tags: TagGroups) {
    NoDuplicates(found) && forall t :: t in found <==> t in tagIds && t in tags
  }

  /** Test for membership of a tag in group `g`. */
  function InGroup(tags: TagGroups, g: string): string -> bool {
    t => t in tags && tags[t] == g
  }

  function Incoming(counts: map<string, nat>, g: string): nat {
    if g in counts then counts[g] else 0
  }

  /** The violations one group row contributes once `total` tags would be in
      it. Both checks are independent, so one row can give both. */
  function RowViolations(r: GroupCountRow, total: int): seq<Violation> {
    (if total < r.min then [TooFew(r.groupId, r.min)] else [])
    + (if r.max.IntMax? && total > r.max.n then [TooMany(r.groupId, r.max.n)] else [])
  }

  /** The violations of the first `|rows|` rows, in row order, when the
      incoming counts are those of the tags in `found`. */
  function AllViolations(rows: seq<GroupCountRow>, found: seq<string>, tags: TagGroups): seq<Violation> {
    if rows == [] then []
    else
      var r := rows[|rows| - 1];
      AllViolations(rows[..|rows| - 1], found, tags)
        + RowViolations(r, r.current + CountIf(found, InGroup(tags, r.groupId)))
  }

  /** `validate_tag_assignment`. */
  method ValidateTagAssignment(
    tagIds: seq<string>, tags: TagGroups, found: seq<string>, rows: seq<GroupCountRow>)
    returns (c: Check)
    requires LookupResult(found, tagIds, tags)
    ensures c.UnknownTags? <==> !(NoDuplicates(tagIds) && forall k :: 0 <= k < |tagIds| ==> tagIds[k] in tags)
    ensures c.UnknownTags? ==>
      c.missing == Filter(tagIds, t => t !in tags)
      && (forall t :: t in c.missing <==> t in tagIds && t !in tags)
    ensures c.Violated? ==> c.violations == AllViolations(rows, found, tags) && c.violations != []
    ensures c.Passed? <==> !c.UnknownTags? && AllViolations(rows, found, tags) == []
  {
    KnownAndDistinct(tagIds, tags, found);
    if |found| != |tagIds| {
      var missing := Filter(tagIds, t => t !in found);
      assert forall t :: t in missing <==> t in tagIds && t !in tags by {
        FilterMembers(tagIds, t => t !in found);
      }
      FilterSame(tagIds, t => t !in found, t => t !in tags);
      return UnknownTags(missing);
    }

    var incoming := CountIncoming(found, tags);
    var violations := CollectViolations(rows, incoming, found, tags);
    if violations != [] {
      return Violated(violations);
    }
    return Passed;
  }

  /** The `incoming_counts` loop: one more for the group of each found tag. */
  method CountIncoming(found: seq<string>, tags: TagGroups) returns (incoming: map<string, nat>)
    requires forall k :: 0 <= k < |found| ==> found[k] in tags
    ensures forall g :: Incoming(incoming, g) == CountIf(found, InGroup(tags, g))
  {
    incoming := map[];
    var i := 0;
    while i < |found|
      invariant 0 <= i <= |found|
      invariant forall g :: Incoming(incoming, g) == CountIf(found[..i], InGroup(tags, g))
    {
      var t := found[i];
      var g0 := tags[t];
      assert found[..i + 1] == found[..i] + [t];
      forall g
        ensures CountIf(found[..i + 1], InGroup(tags, g))
             == CountIf(found[..i], InGroup(tags, g)) + (if g == g0 then 1 else 0)
      {
        CountIfAppend(found[..i], [t], InGroup(tags, g));
      }
      incoming := incoming[g0 := Incoming(incoming, g0) + 1];
      i := i + 1;
    }
    assert found[..i] == found;
  }

  /** The `violations` loop over the group rows. */
  method CollectViolations(
    rows: seq<GroupCountRow>, incoming: map<string, nat>, found: seq<string>, tags: TagGroups)
    returns (violations: seq<Violation>)
    requires forall g :: Incoming(incoming, g) == CountIf(found, InGroup(tags, g))
    ensures violations == AllViolations(rows, found, tags)
  {
    violations := [];
    var j := 0;
    while j < |rows|
      invariant 0 <= j <= |rows|
      invariant violations == AllViolations(rows[..j], found, tags)
    {
      var r := rows[j];
      var total := r.current + Incoming(incoming, r.groupId);
      var rowViolations := CheckGroupRow(r, total);
      violations := violations + rowViolations;
      AllViolationsStep(rows, j, found, tags, total);
      j := j + 1;
    }
    assert rows[..j] == rows;
  }

  /** The body of the `violations` loop for one row: the minimum check,
      then the maximum check, each appending its message. */
  method CheckGroupRow(r: GroupCountRow, total: int) returns (violations: seq<Violation>)
    ensures violations == RowViolations(r, total)
    ensures |violations| <= 2
  {
    violations := [];
    if total < r.min {
      violations := violations + [TooFew(r.groupId, r.min)];
    }
    if r.max.IntMax? && total > r.max.n {
      violations := violations + [TooMany(r.groupId, r.max.n)];
    }
  }

  lemma AllViolationsStep(rows: seq<GroupCountRow>, j: nat, found: seq<string>, tags: TagGroups, total: int)
    requires j < |rows| && total == rows[j].current + CountIf(found, InGroup(tags, rows[j].groupId))
    ensures AllViolations(rows[..j + 1], found, tags) == AllViolations(rows[..j], found, tags) + RowViolations(rows[j], total)
  {
    assert rows[..j + 1][..j] == rows[..j];
  }

  /** The lookup returns as many rows as there are requested ids exactly when
      every requested id exists and none is repeated. */
  lemma KnownAndDistinct(tagIds: seq<string>, tags: TagGroups, found: seq<string>)
    requires LookupResult(found, tagIds, tags)
    ensures |found| == |tagIds| <==> NoDuplicates(tagIds) && forall k :: 0 <= k < |tagIds| ==> tagIds[k] in tags
  {
    DistinctCard(found);
    DistinctCard(tagIds);
    var f, a := Elems(found), Elems(tagIds);
    assert f == a * tags.Keys;
    assert f <= a;
    assert |f| <= |a| by { SubsetCard(f, a); }
    if |found| == |tagIds| {
      assert |f| == |a|;
      forall k | 0 <= k < |tagIds| ensures tagIds[k] in tags {
        if tagIds[k] !in tags {
          assert |a - {tagIds[k]}| == |a| - 1;
          SubsetCard(f, a - {tagIds[k]});
        }
      }
      assert |a| == |tagIds|;
    }
    if NoDuplicates(tagIds) && forall k :: 0 <= k < |tagIds| ==> tagIds[k] in tags {
      assert f == a;
    }
  }

  lemma {:induction false} SubsetCard<T>(a: set<T>, b: set<T>)
    requires a <= b
    ensures |a| <= |b|
  {
    if a != {} {
      var x :| x in a;
      SubsetCard(a - {x}, b - {x});
    }
  }

  /** The incoming count of a group is the number of distinct requested tags
      that belong to it. */
  lemma IncomingIsDistinctCount(tagIds: seq<string>, tags: TagGroups, found: seq<string>, g: string)
    requires LookupResult(found, tagIds, tags)
    ensures CountIf(found, InGroup(tags, g)) == |set t | t in tagIds && t in tags && tags[t] == g|
  {
    var p := InGroup(tags, g);
    CountIfDistinct(found, p);
    var lhs := ElemsIf(found, p);
    var rhs := set t | t in tagIds && t in tags && tags[t] == g;
    forall x | x in lhs ensures x in rhs { }
    forall x | x in rhs ensures x in lhs { }
    assert lhs == rhs;
  }

  /** A row gives no violation exactly when the shared rule calls the group
      ok under the pre-check's reading of the stored maximum. It gives the
      "at least" violation exactly when the rule calls it missing, and the
      "at most" one exactly when the total exceeds that maximum, even for a
      group that is also missing. */
  lemma RowViolationsMatchStatus(r: GroupCountRow, total: int)
    ensures RowViolations(r, total) == [] <==> Status(total, r.min, AssignmentBound(r.max)) == Ok
    ensures TooFew(r.groupId, r.min) in RowViolations(r, total)
        <==> Status(total, r.min, AssignmentBound(r.max)) == Missing
    ensures (exists m :: TooMany(r.groupId, m) in RowViolations(r, total))
        <==> !Within(total, AssignmentBound(r.max))
  {
    if !Within(total, AssignmentBound(r.max)) {
      assert TooMany(r.groupId, r.max.n) in RowViolations(r, total);
    }
  }

  /** Group row `r` is ok under the shared rule once the found tags are added. */
  predicate RowOk(r: GroupCountRow, found: seq<string>, tags: TagGroups) {
    Status(r.current + CountIf(found, InGroup(tags, r.groupId)), r.min, AssignmentBound(r.max)) == Ok
  }

  lemma RowEmptyIffOk(r: GroupCountRow, found: seq<string>, tags: TagGroups)
    ensures RowViolations(r, r.current + CountIf(found, InGroup(tags, r.groupId))) == [] <==> RowOk(r, found, tags)
  {
    RowViolationsMatchStatus(r, r.current + CountIf(found, InGroup(tags, r.groupId)));
  }

  /** The pre-check finds no violation exactly when every group row, with the
      incoming tags added, is ok under the shared rule. */
  lemma {:induction false} NoViolationsIffAllOk(rows: seq<GroupCountRow>, found: seq<string>, tags: TagGroups)
    ensures AllViolations(rows, found, tags) == [] <==>
      forall k :: 0 <= k < |rows| ==> RowOk(rows[k], found, tags)
  {
    if rows != [] {
      var n := |rows| - 1;
      var r := rows[n];
      NoViolationsIffAllOk(rows[..n], found, tags);
      var total := r.current + CountIf(found, InGroup(tags, r.groupId));
      var before, last := AllViolations(rows[..n], found, tags), RowViolations(r, total);
      assert AllViolations(rows, found, tags) == before + last;
      assert |before + last| == |before| + |last|;
      RowEmptyIffOk(r, found, tags);
      if before + last == [] {
        forall k | 0 <= k < |rows| ensures RowOk(rows[k], found, tags) {
          if k < n {
            assert rows[..n][k] == rows[k];
          }
        }
      } else if before != [] {
        var k :| 0 <= k < n && !RowOk(rows[..n][k], found, tags);
        assert rows[..n][k] == rows[k];
      }
    }
  }

  /** Two species tags on an item with none, under `max = 1`: the pre-check
      raises the "allows at most 1" violation. */
  lemma TwoSpeciesViolateMaxOne()
    ensures
      var tags := map["species:human" := "species", "species:alien" := "species"];
      var found := ["species:human", "species:alien"];
      var rows := [GroupCountRow("species", 0, IntMax(1), 0)];
      AllViolations(rows, found, tags) == [TooMany("species", 1)]
  {
    var tags := map["species:human" := "species", "species:alien" := "species"];
    var found := ["species:human", "species:alien"];
    var rows := [GroupCountRow("species", 0, IntMax(1), 0)];
    assert CountIf(found, InGroup(tags, "species")) == 2 by {
      assert found[1..][1..] == [];
    }
    assert rows[..0] == [];
  }
}
