/** The tag routes that write: creating a tag, and assigning tags to a
    content item after the existence check and the group pre-check, inside
    one transaction. The pre-check's two query results, the current time and
    the point at which the database fails, if it does, are parameters. */
module TagRoutes {
  import opened Common
  import opened Sorting
  import opened Tables
  import opened TagValidation
  import opened GroupRules

  // ---------------------------------------------------------------
  // POST /tags/
  // ---------------------------------------------------------------

  /** `create_tag`: `INSERT OR IGNORE` a row with usage count 0 and no last
      use; an existing id keeps its row. */
  method CreateTag(db: Db, id: string, name: string, category: string, groupId: string)
    modifies db
    ensures id in old(db.tags) ==> db.tags == old(db.tags)
    ensures id !in old(db.tags) ==> db.tags == old(db.tags)[id := TagRow(name, category, groupId, 0, None)]
    ensures db.content == old(db.content) && db.groups == old(db.groups)
    ensures db.contentTags == old(db.contentTags) && db.previews == old(db.previews)
  {
    if id !in db.tags {
      db.tags := db.tags[id := TagRow(name, category, groupId, 0, None)];
    }
  }

  // ---------------------------------------------------------------
  // POST /tags/assign
  // ---------------------------------------------------------------

  /** The tag table as the pre-check reads it: tag id to group id. */
  function GroupOf(tags: map<string, TagRow>): (m: TagGroups)
    ensures m.Keys == tags.Keys
    ensures forall t :: t in m ==> m[t] == tags[t].groupId
  {
    map t | t in tags :: tags[t].groupId
  }

  /** One `UPDATE tag SET usage_count = usage_count + 1, last_used = ?`. */
  function Bump(tags: map<string, TagRow>, t: string, now: int): map<string, TagRow> {
    if t in tags then tags[t := tags[t].(usageCount := tags[t].usageCount + 1, lastUsed := Some(now))]
    else tags
  }

  /** The tag table after one update per entry of `ts`, in order. */
  function BumpAll(tags: map<string, TagRow>, ts: seq<string>, now: int): (r: map<string, TagRow>)
    ensures r.Keys == tags.Keys
  {
    if ts == [] then tags else Bump(BumpAll(tags, ts[..|ts| - 1], now), ts[|ts| - 1], now)
  }

  /** 500 from the existence lookup of an empty request, whose `IN ()` list
      the SQL parser rejects; 400 listing unknown ids; 400 from the group
      pre-check; 500 after a rollback; or success echoing the requested ids. */
  datatype AssignResult =
    | LookupFailed
    | UnknownIds(sortedMissing: seq<string>)
    | Rejected(check: Check)
    | RolledBack
    | Assigned(contentId: string, tagIds: seq<string>)

  predicate Known(tags: map<string, TagRow>, tagIds: seq<string>) {
    forall k :: 0 <= k < |tagIds| ==> tagIds[k] in tags
  }

  /** The unknown ids of a request, each once, in string order: Python's
      `sorted(set(tag_ids) - existing_ids)`. */
  function SortedMissing(tagIds: seq<string>, tags: map<string, TagRow>): (r: seq<string>)
    ensures forall t :: t in r <==> t in tagIds && t !in tags
    ensures NoDuplicates(r) && SortedAll(r, StrLe)
  {
    var missing := Filter(tagIds, t => t !in tags);
    FilterMembers(tagIds, t => t !in tags);
    var distinct := Dedup(missing);
    var sorted := SortBy(distinct, StrLe);
    StrLeTotalOrder();
    SortByAll(distinct, StrLe);
    PermutationKeepsNoDuplicates(distinct, sorted);
    assert forall t :: t in sorted <==> t in distinct by {
      forall t ensures t in sorted <==> t in distinct {
        assert t in sorted <==> t in multiset(sorted);
        assert t in distinct <==> t in multiset(distinct);
      }
    }
    sorted
  }

  /** What the pre-check's per-group count query returns for item
      `contentId`: one row per tag group, in no particular order, carrying the
      group's limits and the number of the item's stored links to tags of
      that group. */
  ghost predicate CountRows(
    rows: seq<GroupCountRow>, tags: map<string, TagRow>, groups: map<string, GroupRow>,
    contentTags: set<(string, string)>, contentId: string)
  {
    && (forall k :: 0 <= k < |rows| ==>
          rows[k].groupId in groups
          && rows[k].min == groups[rows[k].groupId].min && rows[k].max == groups[rows[k].groupId].max
          && rows[k].current == |LinksInGroup(contentTags, tags, contentId, rows[k].groupId)|)
    && (forall g :: g in groups ==> exists k :: 0 <= k < |rows| && rows[k].groupId == g)
    && (forall i, j :: 0 <= i < j < |rows| ==> rows[i].groupId != rows[j].groupId)
  }

  /** `assign_tags`. `found` and `rows` are the pre-check's query results;
      `failAt` is the index of the tag whose insert or update raises, if any. */
  method AssignTags(
    db: Db, contentId: string, tagIds: seq<string>,
    found: seq<string>, rows: seq<GroupCountRow>, now: int, failAt: Option<nat>)
    returns (r: AssignResult)
    requires LookupResult(found, tagIds, GroupOf(db.tags))
    requires CountRows(rows, db.tags, db.groups, db.contentTags, contentId)
    modifies db
    ensures r.LookupFailed? <==> tagIds == []
    ensures r.UnknownIds? <==> !Known(old(db.tags), tagIds)
    ensures r.UnknownIds? ==> r.sortedMissing == SortedMissing(tagIds, old(db.tags))
    ensures r.Rejected? <==>
      tagIds != [] && Known(old(db.tags), tagIds)
      && (!NoDuplicates(tagIds) || AllViolations(rows, found, GroupOf(old(db.tags))) != [])
    ensures r.Rejected? && !NoDuplicates(tagIds) ==> r.check == UnknownTags([])
    ensures r.RolledBack? <==>
      Known(old(db.tags), tagIds) && NoDuplicates(tagIds) && AllViolations(rows, found, GroupOf(old(db.tags))) == []
      && failAt.Some? && failAt.value < |tagIds|
    ensures r.Assigned? ==> r == Assigned(contentId, tagIds)
    ensures r.Assigned? ==>
      db.contentTags == old(db.contentTags) + PairsOf(contentId, tagIds)
      && db.tags == BumpAll(old(db.tags), tagIds, now)
    ensures !r.Assigned? ==> db.contentTags == old(db.contentTags) && db.tags == old(db.tags)
    ensures db.content == old(db.content) && db.groups == old(db.groups) && db.previews == old(db.previews)
  {
    // 0. every requested id must exist
    if tagIds == [] {
      return LookupFailed;
    }
    var missing := SortedMissing(tagIds, db.tags);
    if missing != [] {
      return UnknownIds(missing);
    }

    // 1. group constraints
    var check := ValidateTagAssignment(tagIds, GroupOf(db.tags), found, rows);
    if !check.Passed? {
      return Rejected(check);
    }

    // 2. the transaction
    var committed := Transaction(db, contentId, tagIds, now, failAt);
    if !committed {
      return RolledBack;
    }
    return Assigned(contentId, tagIds);
  }

  /** The statements between BEGIN and COMMIT: all of them take effect, or,
      when one raises, ROLLBACK restores both tables. */
  method Transaction(db: Db, contentId: string, tagIds: seq<string>, now: int, failAt: Option<nat>)
    returns (committed: bool)
    modifies db
    ensures committed <==> !(failAt.Some? && failAt.value < |tagIds|)
    ensures committed ==>
      db.contentTags == old(db.contentTags) + PairsOf(contentId, tagIds)
      && db.tags == BumpAll(old(db.tags), tagIds, now)
    ensures !committed ==> db.contentTags == old(db.contentTags) && db.tags == old(db.tags)
    ensures db.content == old(db.content) && db.groups == old(db.groups) && db.previews == old(db.previews)
  {
    var savedTags, savedPairs := db.tags, db.contentTags;
    var i := 0;
    while i < |tagIds|
      invariant 0 <= i <= |tagIds|
      invariant db.contentTags == savedPairs + PairsOf(contentId, tagIds[..i])
      invariant db.tags == BumpAll(savedTags, tagIds[..i], now)
      invariant failAt.Some? ==> i <= failAt.value
      invariant db.content == old(db.content) && db.groups == old(db.groups) && db.previews == old(db.previews)
    {
      if failAt == Some(i) {
        db.tags, db.contentTags := savedTags, savedPairs;
        return false;
      }
      var t := tagIds[i];
      assert tagIds[..i + 1] == tagIds[..i] + [t];
      assert tagIds[..i + 1][..i] == tagIds[..i];
      db.contentTags := db.contentTags + {(contentId, t)};
      db.tags := Bump(db.tags, t, now);
      i := i + 1;
    }
    assert tagIds[..i] == tagIds;
    return true;
  }

  /** Each update raises the usage count of one known tag by one, so after a
      call a tag's count has risen by the number of times it was requested,
      even when its pair was already stored, and no row is added. */
  lemma {:induction false} BumpAllUsage(tags: map<string, TagRow>, ts: seq<string>, now: int, t: string)
    requires t in tags
    ensures BumpAll(tags, ts, now)[t].usageCount == tags[t].usageCount + CountIf(ts, x => x == t)
    ensures BumpAll(tags, ts, now)[t].name == tags[t].name
    ensures BumpAll(tags, ts, now)[t].lastUsed == (if t in ts then Some(now) else tags[t].lastUsed)
  {
    if ts != [] {
      var n := |ts| - 1;
      BumpAllUsage(tags, ts[..n], now, t);
      InitLast(ts);
      CountIfAppend(ts[..n], [ts[n]], x => x == t);
      assert t in ts <==> t in ts[..n] || t == ts[n];
    }
  }

  /** A violation of one group row is among the pre-check's violations. */
  lemma {:induction false} RowViolationListed(
    rows: seq<GroupCountRow>, found: seq<string>, tags: TagGroups, k: nat, v: Violation)
    requires k < |rows|
    requires v in RowViolations(rows[k], rows[k].current + CountIf(found, InGroup(tags, rows[k].groupId)))
    ensures v in AllViolations(rows, found, tags)
  {
    var n := |rows| - 1;
    if k < n {
      assert rows[..n][k] == rows[k];
      RowViolationListed(rows[..n], found, tags, k, v);
    }
  }

  /** The count query already counts the item's stored link to `t`, and the
      incoming count counts `t` again: requesting a tag the item already
      carries, in a group that allows at most one, is rejected as "allows at
      most 1" although the insert would add no pair. */
  lemma RelinkCountedTwice(
    rows: seq<GroupCountRow>, tags: map<string, TagRow>, groups: map<string, GroupRow>,
    contentTags: set<(string, string)>, contentId: string, t: string)
    requires CountRows(rows, tags, groups, contentTags, contentId)
    requires (contentId, t) in contentTags && t in tags && tags[t].groupId in groups
    requires groups[tags[t].groupId].max == IntMax(1)
    ensures contentTags + PairsOf(contentId, [t]) == contentTags
    ensures TooMany(tags[t].groupId, 1) in AllViolations(rows, [t], GroupOf(tags))
  {
    var g := tags[t].groupId;
    var k :| 0 <= k < |rows| && rows[k].groupId == g;
    var links := LinksInGroup(contentTags, tags, contentId, g);
    assert (contentId, t) in links;
    assert CountIf([t], InGroup(GroupOf(tags), g)) == 1;
    assert TooMany(g, 1) in RowViolations(rows[k], rows[k].current + 1);
    RowViolationListed(rows, [t], GroupOf(tags), k, TooMany(g, 1));
  }

  /** Assigning the same tags twice stores the same pairs as assigning them
      once, but counts every use twice. */
  lemma AssignTwice(pairs: set<(string, string)>, tags: map<string, TagRow>, contentId: string,
                    tagIds: seq<string>, now: int, t: string)
    requires t in tags
    ensures pairs + PairsOf(contentId, tagIds) + PairsOf(contentId, tagIds) == pairs + PairsOf(contentId, tagIds)
    ensures BumpAll(BumpAll(tags, tagIds, now), tagIds, now)[t].usageCount
         == tags[t].usageCount + 2 * CountIf(tagIds, x => x == t)
  {
    BumpAllUsage(tags, tagIds, now, t);
    BumpAllUsage(BumpAll(tags, tagIds, now), tagIds, now, t);
  }
}
