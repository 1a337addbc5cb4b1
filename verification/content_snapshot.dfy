/** The content snapshot: one item with its tags grouped by tag group, its
    validation, and two figures derived from the validation (the completion
    percentage and the ids of the missing required groups). Also the list
    view, every item with a flat tag list. The rows of the tag queries are
    inputs, in the order the queries return them. */
module ContentSnapshot {
  import opened Common
  import opened Sorting
  import opened GroupRules
  import opened Tables
  import opened ContentValidation

  // ---------------------------------------------------------------
  // Tags grouped by tag group
  // ---------------------------------------------------------------

  /** One row of the grouped-tags query: a group and one of the item's tags in it. */
  datatype TagJoinRow = TagJoinRow(groupId: string, tagId: string, text: string)

  /** A tag in the snapshot's `tags` map. */
  datatype TagRef = TagRef(id: string, text: string)

  function Refs(rows: seq<TagJoinRow>): (r: seq<TagRef>)
    ensures |r| == |rows|
  {
    seq(|rows|, k requires 0 <= k < |rows| => TagRef(rows[k].tagId, rows[k].text))
  }

  function InGroupRow(g: string): TagJoinRow -> bool {
    (r: TagJoinRow) => r.groupId == g
  }

  function GroupIds(rows: seq<TagJoinRow>): (r: seq<string>)
    ensures |r| == |rows|
  {
    seq(|rows|, k requires 0 <= k < |rows| => rows[k].groupId)
  }

  /** One `setdefault(group, []).append(tag)` step. */
  function AddRow(m: map<string, seq<TagRef>>, r: TagJoinRow): map<string, seq<TagRef>> {
    m[r.groupId := (if r.groupId in m then m[r.groupId] else []) + [TagRef(r.tagId, r.text)]]
  }

  /** The `tags` map the rows build, row by row. */
  function GroupedTags(rows: seq<TagJoinRow>): map<string, seq<TagRef>>
    decreases |rows|
  {
    if rows == [] then map[] else AddRow(GroupedTags(rows[..|rows| - 1]), rows[|rows| - 1])
  }

  /** The `setdefault(...).append(...)` loop. Python's dict also remembers
      the order in which keys were first set, returned here as `order`. */
  method GroupTags(rows: seq<TagJoinRow>) returns (tags: map<string, seq<TagRef>>, order: seq<string>)
    ensures tags == GroupedTags(rows)
    ensures order == Dedup(GroupIds(rows))
  {
    tags, order := map[], [];
    var i := 0;
    while i < |rows|
      invariant 0 <= i <= |rows|
      invariant tags == GroupedTags(rows[..i])
      invariant order == Dedup(GroupIds(rows[..i]))
    {
      var r := rows[i];
      OrderStep(rows, i);
      TagsStep(rows, i);
      var existing := if r.groupId in tags then tags[r.groupId] else [];
      tags := tags[r.groupId := existing + [TagRef(r.tagId, r.text)]];
      assert tags == AddRow(GroupedTags(rows[..i]), rows[i]);
      if r.groupId !in order {
        order := order + [r.groupId];
      }
      i := i + 1;
    }
    assert rows[..i] == rows;
  }

  /** The `tags` map after one more row. */
  lemma TagsStep(rows: seq<TagJoinRow>, i: nat)
    requires i < |rows|
    ensures GroupedTags(rows[..i + 1]) == AddRow(GroupedTags(rows[..i]), rows[i])
  {
    assert rows[..i + 1][..i] == rows[..i];
  }

  /** The first-seen group order after one more row. */
  lemma OrderStep(rows: seq<TagJoinRow>, i: nat)
    requires i < |rows|
    ensures var d := Dedup(GroupIds(rows[..i]));
      Dedup(GroupIds(rows[..i + 1])) == if rows[i].groupId in d then d else d + [rows[i].groupId]
  {
    assert GroupIds(rows[..i + 1]) == GroupIds(rows[..i]) + [rows[i].groupId];
    DedupSnoc(GroupIds(rows[..i]), rows[i].groupId);
  }

  /** The `tags` map against an independent reference: a key for each group
      that occurs in the rows, holding exactly that group's tags in row order. */
  lemma {:induction false} GroupedTagsIsFilter(rows: seq<TagJoinRow>, g: string)
    ensures g in GroupedTags(rows) <==> g in GroupIds(rows)
    ensures g in GroupedTags(rows) ==> GroupedTags(rows)[g] == Refs(Filter(rows, InGroupRow(g)))
    decreases |rows|
  {
    if rows != [] {
      var init, r := rows[..|rows| - 1], rows[|rows| - 1];
      InitLast(rows);
      GroupedTagsIsFilter(init, g);
      assert GroupIds(rows) == GroupIds(init) + [r.groupId];
      var p := InGroupRow(g);
      FilterAppend(init, [r], p);
      if g == r.groupId {
        assert Filter([r], p) == [r];
        assert Refs(Filter(init, p) + [r]) == Refs(Filter(init, p)) + [TagRef(r.tagId, r.text)];
        if g !in GroupedTags(init) {
          NoRowsInGroup(init, g);
        }
      } else {
        assert Filter([r], p) == [];
        assert Filter(init, p) + [] == Filter(init, p);
      }
    }
  }

  /** A group that no row names has no rows. */
  lemma NoRowsInGroup(rows: seq<TagJoinRow>, g: string)
    requires g !in GroupIds(rows)
    ensures Filter(rows, InGroupRow(g)) == []
  {
    forall k | 0 <= k < |rows| ensures !InGroupRow(g)(rows[k]) {
      assert GroupIds(rows)[k] == rows[k].groupId;
    }
    CountIfZero(rows, InGroupRow(g));
  }

  /** Only groups with at least one row get a key, and every key holds at
      least one tag; together the lists hold every row once. */
  lemma GroupedTagsShape(rows: seq<TagJoinRow>, g: string)
    ensures g in GroupedTags(rows) <==> exists k :: 0 <= k < |rows| && rows[k].groupId == g
    ensures g in GroupedTags(rows) ==> |GroupedTags(rows)[g]| == CountIf(rows, InGroupRow(g)) > 0
  {
    GroupedTagsIsFilter(rows, g);
    if g in GroupedTags(rows) {
      var k :| 0 <= k < |GroupIds(rows)| && GroupIds(rows)[k] == g;
      CountIfZero(rows, InGroupRow(g));
    }
    if exists k :: 0 <= k < |rows| && rows[k].groupId == g {
      var k :| 0 <= k < |rows| && rows[k].groupId == g;
      assert GroupIds(rows)[k] == g;
    }
  }

  /** What the query returns for item `contentId`: one row per assigned tag
      whose tag and group exist, carrying the tag's group and label. */
  ghost predicate JoinResult(
    rows: seq<TagJoinRow>, contentTags: set<(string, string)>, tags: map<string, TagRow>,
    groups: map<string, GroupRow>, contentId: string)
  {
    && (forall k :: 0 <= k < |rows| ==>
          (contentId, rows[k].tagId) in contentTags && rows[k].tagId in tags
          && tags[rows[k].tagId].groupId == rows[k].groupId && rows[k].groupId in groups
          && rows[k].text == tags[rows[k].tagId].name)
    && (forall t :: (contentId, t) in contentTags && t in tags && tags[t].groupId in groups ==>
          exists k :: 0 <= k < |rows| && rows[k].tagId == t)
  }

  /** The keys of the `tags` map are exactly the groups in which the item
      carries a tag. */
  lemma GroupKeysAreAssignedGroups(
    rows: seq<TagJoinRow>, contentTags: set<(string, string)>, tags: map<string, TagRow>,
    groups: map<string, GroupRow>, contentId: string, g: string)
    requires JoinResult(rows, contentTags, tags, groups, contentId)
    ensures g in GroupedTags(rows) <==>
      g in groups && exists t :: (contentId, t) in contentTags && t in tags && tags[t].groupId == g
  {
    GroupedTagsShape(rows, g);
    if g in groups && exists t :: (contentId, t) in contentTags && t in tags && tags[t].groupId == g {
      var t :| (contentId, t) in contentTags && t in tags && tags[t].groupId == g;
      var k :| 0 <= k < |rows| && rows[k].tagId == t;
      assert rows[k].groupId == g;
    }
  }

  /** What validation's count query returns for item `contentId`: one row
      per tag group, in position order, echoing the group's settings and
      counting the item's stored links to tags of that group. */
  ghost predicate ValidationRows(
    rows: seq<CountRow>, contentTags: set<(string, string)>, tags: map<string, TagRow>,
    groups: map<string, GroupRow>, contentId: string)
  {
    && (forall k :: 0 <= k < |rows| ==>
          var g := rows[k].groupId;
          g in groups && rows[k].required == groups[g].required
          && rows[k].min == groups[g].min && rows[k].max == groups[g].max
          && rows[k].count == |LinksInGroup(contentTags, tags, contentId, g)|)
    && (forall g :: g in groups ==> exists k :: 0 <= k < |rows| && rows[k].groupId == g)
    && (forall i, j :: 0 <= i < j < |rows| ==>
          rows[i].groupId != rows[j].groupId
          && (rows[i].groupId in groups && rows[j].groupId in groups ==>
                groups[rows[i].groupId].position <= groups[rows[j].groupId].position))
  }

  /** The tag ids of a flat tag list. */
  function FlatIds(tags: seq<FlatTag>): set<string> {
    set m | 0 <= m < |tags| :: tags[m].id
  }

  /** `ids` names exactly the tags item `contentId` carries whose tag and
      group exist. */
  ghost predicate NamesCarriedTags(
    ids: set<string>, contentTags: set<(string, string)>, tags: map<string, TagRow>,
    groups: map<string, GroupRow>, contentId: string)
  {
    forall t :: t in ids <==> (contentId, t) in contentTags && t in tags && tags[t].groupId in groups
  }

  /** The flat list built from the tag query names exactly the item's tags. */
  lemma FlatNamesCarriedTags(
    rows: seq<TagJoinRow>, contentTags: set<(string, string)>, tags: map<string, TagRow>,
    groups: map<string, GroupRow>, contentId: string)
    requires JoinResult(rows, contentTags, tags, groups, contentId)
    ensures NamesCarriedTags(FlatIds(Flat(rows)), contentTags, tags, groups, contentId)
  {
    var flat := Flat(rows);
    forall t ensures t in FlatIds(flat) <==> (contentId, t) in contentTags && t in tags && tags[t].groupId in groups {
      if t in FlatIds(flat) {
        var m :| 0 <= m < |flat| && flat[m].id == t;
        assert rows[m].tagId == t;
      }
      if (contentId, t) in contentTags && t in tags && tags[t].groupId in groups {
        var k :| 0 <= k < |rows| && rows[k].tagId == t;
        assert flat[k].id == t;
      }
    }
  }

  // ---------------------------------------------------------------
  // Figures derived from the validation
  // ---------------------------------------------------------------

  predicate IsRequired(e: GroupEntry) { e.required }

  predicate RequiredOk(e: GroupEntry) { e.required && e.status == Ok }

  /** `completion_pct`: the share of required groups that are ok, as a whole
      percentage rounded down; 100 when no group is required. */
  function CompletionPct(groups: seq<GroupEntry>): (pct: int)
    ensures 0 <= pct <= 100
  {
    var total := CountIf(groups, IsRequired);
    var satisfied := CountIf(groups, RequiredOk);
    CountIfMono(groups, RequiredOk, IsRequired);
    if total > 0 then satisfied * 100 / total else 100
  }

  /** The percentage is 100 exactly when every required group is ok. */
  lemma CompleteIffRequiredOk(groups: seq<GroupEntry>)
    ensures CompletionPct(groups) == 100 <==>
      forall k :: 0 <= k < |groups| ==> groups[k].required ==> groups[k].status == Ok
  {
    var total := CountIf(groups, IsRequired);
    var satisfied := CountIf(groups, RequiredOk);
    CountIfMono(groups, RequiredOk, IsRequired);
    if forall k :: 0 <= k < |groups| ==> groups[k].required ==> groups[k].status == Ok {
      CountIfSame(groups, IsRequired, RequiredOk);
      if total > 0 {
        ShareOfAll(satisfied);
      }
    } else {
      var k :| 0 <= k < |groups| && groups[k].required && groups[k].status != Ok;
      CountIfStrict(groups, RequiredOk, IsRequired, k);
      ShareBelowAll(satisfied, total);
    }
  }

  lemma ShareOfAll(n: int)
    requires n > 0
    ensures n * 100 / n == 100
  {
  }

  lemma ShareBelowAll(s: int, t: int)
    requires 0 <= s < t
    ensures s * 100 / t < 100
  {
    assert s * 100 <= t * 100 - 100;
  }

  /** The percentage is 0 when some group is required and none is ok. (It
      can also be 0 with some ok, when fewer than one in a hundred are.) */
  lemma NoneOkIsZero(groups: seq<GroupEntry>)
    requires exists k :: 0 <= k < |groups| && groups[k].required
    requires forall k :: 0 <= k < |groups| ==> !RequiredOk(groups[k])
    ensures CompletionPct(groups) == 0
  {
    CountIfZero(groups, RequiredOk);
    CountIfZero(groups, IsRequired);
  }

  /** `missing_required_groups`: the ids of the required groups that are
      missing, in validation order. */
  function MissingRequiredGroups(groups: seq<GroupEntry>): (ids: seq<string>)
    ensures |ids| == CountIf(groups, RequiredMissing)
  {
    var missing := Filter(groups, RequiredMissing);
    seq(|missing|, k requires 0 <= k < |missing| => missing[k].id)
  }

  /** An id is listed exactly when its group is required and missing. */
  lemma MissingRequiredMembers(groups: seq<GroupEntry>, id: string)
    ensures id in MissingRequiredGroups(groups) <==>
      exists k :: 0 <= k < |groups| && RequiredMissing(groups[k]) && groups[k].id == id
  {
    var missing := Filter(groups, RequiredMissing);
    FilterMembers(groups, RequiredMissing);
    if id in MissingRequiredGroups(groups) {
      var j :| 0 <= j < |missing| && missing[j].id == id;
      assert missing[j] in groups;
    }
    if exists k :: 0 <= k < |groups| && RequiredMissing(groups[k]) && groups[k].id == id {
      var k :| 0 <= k < |groups| && RequiredMissing(groups[k]) && groups[k].id == id;
      assert groups[k] in missing;
      var j :| 0 <= j < |missing| && missing[j] == groups[k];
      assert MissingRequiredGroups(groups)[j] == id;
    }
  }

  /** Valid content is complete, and lists no missing group. */
  lemma ValidIsComplete(groups: seq<GroupEntry>)
    requires forall k :: 0 <= k < |groups| ==> !RequiredMissing(groups[k]) && !OverLimit(groups[k])
    ensures CompletionPct(groups) == 100
    ensures MissingRequiredGroups(groups) == []
  {
    CompleteIffRequiredOk(groups);
    CountIfZero(groups, RequiredMissing);
  }

  // ---------------------------------------------------------------
  // get_content_snapshot
  // ---------------------------------------------------------------

  /** The content row with the given id, if any. */
  function FindContent(rows: seq<ContentRow>, id: string): (r: Option<ContentRow>)
    ensures r.None? <==> !HasId(rows, id)
    ensures r.Some? ==> r.value.id == id && r.value in rows
  {
    if rows == [] then None
    else if rows[0].id == id then Some(rows[0])
    else
      var r := FindContent(rows[1..], id);
      assert HasId(rows, id) <==> HasId(rows[1..], id) by {
        if HasId(rows, id) {
          var k :| 0 <= k < |rows| && rows[k].id == id;
          assert rows[1..][k - 1] == rows[k];
        }
        if HasId(rows[1..], id) {
          var k :| 0 <= k < |rows[1..]| && rows[1..][k].id == id;
          assert rows[k + 1] == rows[1..][k];
        }
      }
      r
  }

  /** The entries validation produces for rows none of which raises. */
  function Entries(rows: seq<CountRow>): (es: seq<GroupEntry>)
    requires forall k :: 0 <= k < |rows| ==> !Raises(rows[k])
    ensures |es| == |rows|
  {
    seq(|rows|, k requires 0 <= k < |rows| => Classify(rows[k]))
  }

  datatype Snapshot = Snapshot(
    content: ContentRow, tags: map<string, seq<TagRef>>, tagOrder: seq<string>,
    valid: bool, completionPct: int, missingRequiredGroups: seq<string>, summary: Summary)

  /** No such item (`None`), the validation's type error, or the snapshot. */
  datatype SnapshotOutcome = NoContent | ValidationRaised(groupId: string) | Found(snapshot: Snapshot)

  /** `get_content_snapshot`. `tagRows` and `countRows` are the results of the
      grouped-tags query and of validation's count query for the item. */
  method GetContentSnapshot(db: Db, contentId: string, tagRows: seq<TagJoinRow>, countRows: seq<CountRow>)
    returns (out: SnapshotOutcome)
    requires JoinResult(tagRows, db.contentTags, db.tags, db.groups, contentId)
    requires ValidationRows(countRows, db.contentTags, db.tags, db.groups, contentId)
    ensures out.NoContent? <==> !HasId(db.content, contentId)
    ensures out.ValidationRaised? <==>
      HasId(db.content, contentId) && exists k :: 0 <= k < |countRows| && Raises(countRows[k])
    ensures out.Found? ==>
      (forall k :: 0 <= k < |countRows| ==> !Raises(countRows[k]))
      && var s, groups := out.snapshot, Entries(countRows);
      && s.content.id == contentId && s.content in db.content
      && s.tags == GroupedTags(tagRows) && s.tagOrder == Dedup(GroupIds(tagRows))
      && (s.valid <==> forall k :: 0 <= k < |groups| ==> !RequiredMissing(groups[k]) && !OverLimit(groups[k]))
      && s.summary == Summary(CountIf(groups, RequiredMissing), CountIf(groups, OverLimit))
      && s.completionPct == CompletionPct(groups)
      && s.missingRequiredGroups == MissingRequiredGroups(groups)
    ensures out.Found? ==> forall g :: g in out.snapshot.tags <==>
      g in db.groups && exists t :: (contentId, t) in db.contentTags && t in db.tags && db.tags[t].groupId == g
  {
    var row := FindContent(db.content, contentId);
    if row.None? {
      return NoContent;
    }
    var tags, order := GroupTags(tagRows);
    var validated := ValidateContent(contentId, countRows);
    if validated.NullMaxTypeError? {
      return ValidationRaised(validated.groupId);
    }
    var v := validated.validation;
    assert v.groups == Entries(countRows) by {
      forall k | 0 <= k < |countRows| ensures v.groups[k] == Classify(countRows[k]) {
        ClassifiedUnique(countRows[k], v.groups[k]);
      }
    }
    forall g ensures g in tags <==>
      g in db.groups && exists t :: (contentId, t) in db.contentTags && t in db.tags && db.tags[t].groupId == g
    {
      GroupKeysAreAssignedGroups(tagRows, db.contentTags, db.tags, db.groups, contentId, g);
    }
    var snapshot := Snapshot(row.value, tags, order, v.valid, CompletionPct(v.groups),
                             MissingRequiredGroups(v.groups), v.summary);
    return Found(snapshot);
  }

  // ---------------------------------------------------------------
  // list_content_snapshots
  // ---------------------------------------------------------------

  /** `ORDER BY created_at DESC`: newer first, NULL last. */
  predicate NewerFirst(a: ContentRow, b: ContentRow) {
    LaterFirst(a.createdAt, b.createdAt)
  }

  /** One row of the flat tag query, and one entry of an item's tag list. */
  datatype FlatTag = FlatTag(id: string, text: string, groupId: string)

  datatype ListItem = ListItem(content: ContentRow, tags: seq<FlatTag>)

  function Flat(rows: seq<TagJoinRow>): (r: seq<FlatTag>)
    ensures |r| == |rows|
  {
    seq(|rows|, k requires 0 <= k < |rows| => FlatTag(rows[k].tagId, rows[k].text, rows[k].groupId))
  }

  /** `list_content_snapshots`. `ordered` is the content query's result: the
      table's rows, newest first. `tagRowsOf[k]` is the tag query's result
      for `ordered[k]`. */
  method ListContentSnapshots(db: Db, ordered: seq<ContentRow>, tagRowsOf: seq<seq<TagJoinRow>>)
    returns (items: seq<ListItem>)
    requires multiset(ordered) == multiset(db.content) && SortedAll(ordered, NewerFirst)
    requires |tagRowsOf| == |ordered|
    requires forall k :: 0 <= k < |ordered| ==>
      JoinResult(tagRowsOf[k], db.contentTags, db.tags, db.groups, ordered[k].id)
    ensures |items| == |db.content|
    ensures multiset(seq(|items|, k requires 0 <= k < |items| => items[k].content)) == multiset(db.content)
    ensures forall i, j :: 0 <= i < j < |items| ==> NewerFirst(items[i].content, items[j].content)
    ensures forall k :: 0 <= k < |items| ==>
      items[k].content == ordered[k] && items[k].tags == Flat(tagRowsOf[k])
    ensures forall k :: 0 <= k < |items| ==>
      NamesCarriedTags(FlatIds(items[k].tags), db.contentTags, db.tags, db.groups, items[k].content.id)
  {
    items := [];
    var i := 0;
    while i < |ordered|
      invariant 0 <= i <= |ordered|
      invariant |items| == i
      invariant forall k :: 0 <= k < i ==> items[k] == ListItem(ordered[k], Flat(tagRowsOf[k]))
    {
      var tags := [];
      var j := 0;
      while j < |tagRowsOf[i]|
        invariant 0 <= j <= |tagRowsOf[i]|
        invariant tags == Flat(tagRowsOf[i][..j])
      {
        var r := tagRowsOf[i][j];
        tags := tags + [FlatTag(r.tagId, r.text, r.groupId)];
        j := j + 1;
      }
      assert tagRowsOf[i][..j] == tagRowsOf[i];
      items := items + [ListItem(ordered[i], tags)];
      i := i + 1;
    }
    forall k | 0 <= k < |items|
      ensures NamesCarriedTags(FlatIds(items[k].tags), db.contentTags, db.tags, db.groups, items[k].content.id)
    {
      FlatNamesCarriedTags(tagRowsOf[k], db.contentTags, db.tags, db.groups, ordered[k].id);
    }
    assert seq(|items|, k requires 0 <= k < |items| => items[k].content) == ordered;
    assert |ordered| == |db.content| by {
      assert |multiset(ordered)| == |multiset(db.content)|;
    }
  }
}
