/** The database: the five tables and their key constraints. Rows are values;
    the database is one object whose tables the routes and services update
    in place. Timestamps are plain integers supplied by the caller. */
module Tables {
  import opened Common
  import opened GroupRules

  /** A `content` row. `status` defaults to "new". */
  datatype ContentRow = ContentRow(
    id: string, url: Option<string>, site: Option<string>, creator: Option<string>,
    kind: Option<string>, status: string, createdAt: Option<int>)

  /** A `tag` row, keyed by its id in the table map (`name` is the `label` column). */
  datatype TagRow = TagRow(
    name: string, category: string, groupId: string, usageCount: int, lastUsed: Option<int>)

  /** A `tag_group` row, keyed by its id in the table map. */
  datatype GroupRow = GroupRow(
    description: Option<string>, required: bool, min: int, max: StoredMax, position: int)

  /** The preview types and fetch states of a `content_preview` row. */
  datatype PreviewType = Image | Video | Page | Unknown
  datatype PreviewStatus = Pending | Ready | Failed

  /** A `content_preview` row, keyed by content id in the table map. */
  datatype PreviewRow = PreviewRow(
    previewType: PreviewType, previewUrl: Option<string>, normalized: Option<string>,
    title: Option<string>, description: Option<string>, status: PreviewStatus, fetchedAt: int)

  /** `ORDER BY t DESC` over a nullable timestamp: the later first, NULL
      last (DuckDB's default null order); `a` may come before `b`. */
  predicate LaterFirst(a: Option<int>, b: Option<int>) {
    match (a, b)
    case (Some(x), Some(y)) => x >= y
    case (Some(_), None) => true
    case (None, Some(_)) => false
    case (None, None) => true
  }

  const StatusNew: string := "new"
  const StatusComplete: string := "complete"

  /** `content.id` is the primary key. */
  predicate UniqueIds(rows: seq<ContentRow>) {
    forall i, j :: 0 <= i < j < |rows| ==> rows[i].id != rows[j].id
  }

  /** The unique index on `content.url`; NULL urls do not clash. */
  predicate UniqueUrls(rows: seq<ContentRow>) {
    forall i, j :: 0 <= i < j < |rows| && rows[i].url.Some? ==> rows[i].url != rows[j].url
  }

  predicate HasId(rows: seq<ContentRow>, id: string) {
    exists k :: 0 <= k < |rows| && rows[k].id == id
  }

  predicate HasUrl(rows: seq<ContentRow>, url: string) {
    exists k :: 0 <= k < |rows| && rows[k].url == Some(url)
  }

  /** Appending a row keeps both keys unique exactly when its id is new and
      its url, if any, is new. */
  lemma AppendKeepsKeys(rows: seq<ContentRow>, r: ContentRow)
    requires UniqueIds(rows) && UniqueUrls(rows)
    ensures UniqueIds(rows + [r]) && UniqueUrls(rows + [r])
        <==> !HasId(rows, r.id) && (r.url.None? || !HasUrl(rows, r.url.value))
  {
    var s := rows + [r];
    if !(UniqueIds(s) && UniqueUrls(s)) {
      var i, j :| 0 <= i < j < |s| && (s[i].id == s[j].id || (s[i].url.Some? && s[i].url == s[j].url));
      assert j == |rows|;
    }
    if HasId(rows, r.id) {
      var k :| 0 <= k < |rows| && rows[k].id == r.id;
      assert s[k].id == s[|rows|].id;
    }
    if r.url.Some? && HasUrl(rows, r.url.value) {
      var k :| 0 <= k < |rows| && rows[k].url == r.url;
      assert s[k].url.Some? && s[k].url == s[|rows|].url;
    }
  }

  /** The pairs that inserting each of `tagIds` for `contentId` into
      `content_tag` leaves; a repeat is one pair under the unique index. */
  function PairsOf(contentId: string, tagIds: seq<string>): set<(string, string)> {
    set t | t in tagIds :: (contentId, t)
  }

  /** The links of item `contentId` to existing tags of group `g`: what the
      `COUNT(ct.tag_id)` of a per-group count query counts for that group. */
  function LinksInGroup(
    contentTags: set<(string, string)>, tags: map<string, TagRow>, contentId: string, g: string)
    : set<(string, string)>
  {
    set p | p in contentTags && p.0 == contentId && p.1 in tags && tags[p.1].groupId == g
  }

  class Db {
    var content: seq<ContentRow>
    var tags: map<string, TagRow>
    var groups: map<string, GroupRow>
    var contentTags: set<(string, string)>
    var previews: map<string, PreviewRow>

    /** The key constraints of the schema that the maps do not give for free. */
    predicate Valid()
      reads this
    {
      UniqueIds(content) && UniqueUrls(content)
    }

    /** An empty database. */
    constructor ()
      ensures Valid()
      ensures content == [] && tags == map[] && groups == map[]
      ensures contentTags == {} && previews == map[]
    {
      content := [];
      tags := map[];
      groups := map[];
      contentTags := {};
      previews := map[];
    }
  }
}
