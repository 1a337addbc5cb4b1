/** The content routes: bulk creation under the unique url index, the
    duplicate check, marking an item complete, and picking the next item to
    review. Fresh ids (`uuid4`) and the current time are parameters. */
module ContentRoutes {
  import opened Common
  import opened Tables

  // ---------------------------------------------------------------
  // POST /content/bulk
  // ---------------------------------------------------------------

  /** The `url` of a payload item: a missing key, JSON null, or a string. */
  datatype ItemUrl = NoUrlKey | NullUrl | Url(s: string)

  /** One payload item. `kind` is the `type` key; `None` means the key is
      absent, which stores "image". */
  datatype BulkItem = BulkItem(
    url: ItemUrl, site: Option<string>, creator: Option<string>, kind: Option<string>,
    tagIds: seq<string>)

  /** The ids created, the urls skipped, and whether a backup was scheduled. */
  datatype BulkResponse = BulkResponse(created: seq<string>, skipped: seq<Option<string>>, backupScheduled: bool)

  /** 400 "No items provided", or the response. */
  datatype BulkResult = NoItems | Bulk(response: BulkResponse)

  /** The tables the bulk route writes, and the two lists it builds. */
  datatype BulkState = BulkState(
    content: seq<ContentRow>, contentTags: set<(string, string)>,
    created: seq<string>, skipped: seq<Option<string>>)

  /** `item.get("url")`: what lands in `skipped_urls`. */
  function SkippedUrl(u: ItemUrl): Option<string> {
    if u.Url? then Some(u.s) else None
  }

  /** The row inserted for an item. */
  function NewRow(item: BulkItem, id: string, now: int): ContentRow
    requires !item.url.NoUrlKey?
  {
    ContentRow(id, SkippedUrl(item.url), item.site, item.creator,
               Some(if item.kind.Some? then item.kind.value else "image"), StatusNew, Some(now))
  }

  /** The insert raises: a missing url key, a clashing primary key, or a
      clashing url under the unique index. */
  predicate InsertFails(rows: seq<ContentRow>, item: BulkItem, id: string) {
    item.url.NoUrlKey? || HasId(rows, id) || (item.url.Url? && HasUrl(rows, item.url.s))
  }

  /** One iteration of the loop: insert, or record the url as skipped. */
  function BulkStep(st: BulkState, item: BulkItem, id: string, now: int): BulkState {
    if InsertFails(st.content, item, id) then
      st.(skipped := st.skipped + [SkippedUrl(item.url)])
    else
      st.(content := st.content + [NewRow(item, id, now)],
          contentTags := st.contentTags + PairsOf(id, item.tagIds),
          created := st.created + [id])
  }

  /** The state after the first `|items|` iterations. */
  function BulkInsert(st: BulkState, items: seq<BulkItem>, ids: seq<string>, nows: seq<int>): BulkState
    requires |items| <= |ids| && |items| <= |nows|
  {
    if items == [] then st
    else
      var n := |items| - 1;
      BulkStep(BulkInsert(st, items[..n], ids, nows), items[n], ids[n], nows[n])
  }

  /** `create_content_bulk`. */
  method CreateContentBulk(db: Db, items: seq<BulkItem>, ids: seq<string>, nows: seq<int>) returns (r: BulkResult)
    requires db.Valid()
    requires |items| <= |ids| && |items| <= |nows|
    modifies db
    ensures db.Valid()
    ensures items == [] ==> r == NoItems && db.content == old(db.content) && db.contentTags == old(db.contentTags)
    ensures items != [] ==>
      var st := BulkInsert(BulkState(old(db.content), old(db.contentTags), [], []), items, ids, nows);
      && db.content == st.content && db.contentTags == st.contentTags
      && r == Bulk(BulkResponse(st.created, st.skipped, st.created != []))
    ensures db.tags == old(db.tags) && db.groups == old(db.groups) && db.previews == old(db.previews)
  {
    if items == [] {
      return NoItems;
    }
    ghost var st0 := BulkState(db.content, db.contentTags, [], []);
    var created: seq<string> := [];
    var skipped: seq<Option<string>> := [];
    var i := 0;
    while i < |items|
      invariant 0 <= i <= |items|
      invariant db.Valid()
      invariant BulkInsert(st0, items[..i], ids, nows) == BulkState(db.content, db.contentTags, created, skipped)
      invariant db.tags == old(db.tags) && db.groups == old(db.groups) && db.previews == old(db.previews)
    {
      var item, id := items[i], ids[i];
      BulkInsertStep(st0, items, ids, nows, i);
      if item.url.NoUrlKey? || HasId(db.content, id) || (item.url.Url? && HasUrl(db.content, item.url.s)) {
        skipped := skipped + [SkippedUrl(item.url)];
      } else {
        var row := NewRow(item, id, nows[i]);
        AppendKeepsKeys(db.content, row);
        db.content := db.content + [row];
        LinkTags(db, id, item.tagIds);
        created := created + [id];
      }
      i := i + 1;
    }
    assert items[..i] == items;
    return Bulk(BulkResponse(created, skipped, created != []));
  }

  lemma BulkInsertStep(st: BulkState, items: seq<BulkItem>, ids: seq<string>, nows: seq<int>, i: nat)
    requires i < |items| <= |ids| && |items| <= |nows|
    ensures BulkInsert(st, items[..i + 1], ids, nows)
         == BulkStep(BulkInsert(st, items[..i], ids, nows), items[i], ids[i], nows[i])
  {
    assert items[..i + 1][..i] == items[..i];
  }

  /** The inner loop of `create_content_bulk`: one `content_tag` pair per
      tag id of the item (`INSERT OR IGNORE`, so a repeated pair is kept
      once). */
  method LinkTags(db: Db, id: string, tagIds: seq<string>)
    modifies db
    ensures db.contentTags == old(db.contentTags) + PairsOf(id, tagIds)
    ensures db.content == old(db.content)
    ensures db.tags == old(db.tags) && db.groups == old(db.groups) && db.previews == old(db.previews)
  {
    var j := 0;
    while j < |tagIds|
      invariant 0 <= j <= |tagIds|
      invariant db.contentTags == old(db.contentTags) + PairsOf(id, tagIds[..j])
      invariant db.content == old(db.content)
      invariant db.tags == old(db.tags) && db.groups == old(db.groups) && db.previews == old(db.previews)
    {
      assert PairsOf(id, tagIds[..j + 1]) == PairsOf(id, tagIds[..j]) + {(id, tagIds[j])} by {
        assert tagIds[..j + 1] == tagIds[..j] + [tagIds[j]];
      }
      db.contentTags := db.contentTags + {(id, tagIds[j])};
      j := j + 1;
    }
    assert tagIds[..j] == tagIds;
  }

  /** Each item lands in exactly one of the two lists, and the table grows by
      one row per created item. */
  lemma {:induction false} BulkPartition(st: BulkState, items: seq<BulkItem>, ids: seq<string>, nows: seq<int>)
    requires |items| <= |ids| && |items| <= |nows|
    ensures var r := BulkInsert(st, items, ids, nows);
      && |r.created| + |r.skipped| == |st.created| + |st.skipped| + |items|
      && |r.content| + |st.created| == |st.content| + |r.created|
  {
    if items != [] {
      var n := |items| - 1;
      BulkPartition(st, items[..n], ids, nows);
    }
  }

  /** The bulk route never breaks the primary key or the unique url index. */
  lemma {:induction false} BulkKeepsKeys(st: BulkState, items: seq<BulkItem>, ids: seq<string>, nows: seq<int>)
    requires |items| <= |ids| && |items| <= |nows|
    requires UniqueIds(st.content) && UniqueUrls(st.content)
    ensures UniqueIds(BulkInsert(st, items, ids, nows).content)
    ensures UniqueUrls(BulkInsert(st, items, ids, nows).content)
  {
    if items != [] {
      var n := |items| - 1;
      BulkKeepsKeys(st, items[..n], ids, nows);
      var mid := BulkInsert(st, items[..n], ids, nows);
      if !InsertFails(mid.content, items[n], ids[n]) {
        AppendKeepsKeys(mid.content, NewRow(items[n], ids[n], nows[n]));
      }
    }
  }

  /** A url present before a step is present after it. */
  lemma StepKeepsUrl(st: BulkState, item: BulkItem, id: string, now: int, u: string)
    requires HasUrl(st.content, u)
    ensures HasUrl(BulkStep(st, item, id, now).content, u)
  {
    var k :| 0 <= k < |st.content| && st.content[k].url == Some(u);
    assert BulkStep(st, item, id, now).content[k] == st.content[k];
  }

  /** With fresh ids, every string url of the payload is in the table
      afterwards: a url that was already there, or that an earlier item
      brought, is skipped, and any other is inserted. Together with
      `BulkKeepsKeys`, the table then holds exactly one row for that url. */
  lemma {:induction false} BulkUrlsPresent(
    st: BulkState, items: seq<BulkItem>, ids: seq<string>, nows: seq<int>, k: nat)
    requires |items| <= |ids| && |items| <= |nows| && k < |items| && items[k].url.Url?
    requires forall j :: 0 <= j < |items| ==> !HasId(st.content, ids[j])
    requires forall i, j :: 0 <= i < j < |items| ==> ids[i] != ids[j]
    ensures HasUrl(BulkInsert(st, items, ids, nows).content, items[k].url.s)
  {
    var n := |items| - 1;
    var mid := BulkInsert(st, items[..n], ids, nows);
    var u := items[k].url.s;
    if k < n {
      BulkUrlsPresent(st, items[..n], ids, nows, k);
      StepKeepsUrl(mid, items[n], ids[n], nows[n], u);
    } else if !HasUrl(mid.content, u) {
      BulkIdsFrom(st, items[..n], ids, nows);
      forall m | 0 <= m < |mid.content| ensures mid.content[m].id != ids[n] {
        if m < |st.content| {
          assert mid.content[m] == st.content[m];
        }
      }
      var last := BulkStep(mid, items[n], ids[n], nows[n]).content;
      assert last[|last| - 1].url == Some(u);
    } else {
      StepKeepsUrl(mid, items[n], ids[n], nows[n], u);
    }
  }

  /** Rows added by the bulk route carry ids from the id list, each with the
      time its own insert statement ran. */
  lemma {:induction false} BulkIdsFrom(st: BulkState, items: seq<BulkItem>, ids: seq<string>, nows: seq<int>)
    requires |items| <= |ids| && |items| <= |nows|
    ensures var c := BulkInsert(st, items, ids, nows).content;
      |st.content| <= |c| && c[..|st.content|] == st.content
      && forall m :: |st.content| <= m < |c| ==>
           exists j :: 0 <= j < |items| && c[m].id == ids[j] && c[m].createdAt == Some(nows[j])
  {
    if items != [] {
      var n := |items| - 1;
      BulkIdsFrom(st, items[..n], ids, nows);
      var mid := BulkInsert(st, items[..n], ids, nows).content;
      var c := BulkInsert(st, items, ids, nows).content;
      forall m | |st.content| <= m < |c|
        ensures exists j :: 0 <= j < |items| && c[m].id == ids[j] && c[m].createdAt == Some(nows[j])
      {
        if m < |mid| {
          assert c[m] == mid[m];
          var j :| 0 <= j < n && mid[m].id == ids[j] && mid[m].createdAt == Some(nows[j]);
          assert c[m].id == ids[j] && c[m].createdAt == Some(nows[j]);
        } else {
          assert c[m].id == ids[n] && c[m].createdAt == Some(nows[n]);
        }
      }
      if |mid| < |c| {
        assert c[..|st.content|] == mid[..|st.content|];
      }
    }
  }

  /** The clock readings of successive statements never go back. */
  predicate NonDecreasing(nows: seq<int>) {
    forall i, j :: 0 <= i <= j < |nows| ==> nows[i] <= nows[j]
  }

  /** Each insert commits on its own and stamps `CURRENT_TIMESTAMP` then, so
      with a clock that never goes back the created rows are stamped in
      payload order. */
  lemma {:induction false} BulkStampsInOrder(st: BulkState, items: seq<BulkItem>, ids: seq<string>, nows: seq<int>)
    requires |items| <= |ids| && |items| <= |nows| && NonDecreasing(nows)
    ensures var c := BulkInsert(st, items, ids, nows).content;
      forall a, b :: |st.content| <= a < b < |c| ==>
        c[a].createdAt.Some? && c[b].createdAt.Some? && c[a].createdAt.value <= c[b].createdAt.value
  {
    if items != [] {
      var n := |items| - 1;
      BulkStampsInOrder(st, items[..n], ids, nows);
      BulkIdsFrom(st, items[..n], ids, nows);
      var mid := BulkInsert(st, items[..n], ids, nows).content;
      var c := BulkInsert(st, items, ids, nows).content;
      forall a, b | |st.content| <= a < b < |c|
        ensures c[a].createdAt.Some? && c[b].createdAt.Some? && c[a].createdAt.value <= c[b].createdAt.value
      {
        assert c[a] == mid[a];
        var j :| 0 <= j < n && mid[a].id == ids[j] && mid[a].createdAt == Some(nows[j]);
        if b < |mid| {
          assert c[b] == mid[b];
        } else {
          assert c[b].createdAt == Some(nows[n]);
        }
      }
    }
  }

  // ---------------------------------------------------------------
  // POST /content/check-duplicates
  // ---------------------------------------------------------------

  /** The stored urls among `urls`, in table order. */
  function StoredAmong(rows: seq<ContentRow>, urls: seq<string>): (r: seq<string>)
    ensures forall u :: u in r ==> u in urls && HasUrl(rows, u)
  {
    if rows == [] then []
    else
      var rest := StoredAmong(rows[1..], urls);
      assert forall u :: HasUrl(rows[1..], u) ==> HasUrl(rows, u) by {
        forall u | HasUrl(rows[1..], u) ensures HasUrl(rows, u) {
          var k :| 0 <= k < |rows[1..]| && rows[1..][k].url == Some(u);
          assert rows[k + 1].url == Some(u);
        }
      }
      if rows[0].url.Some? && rows[0].url.value in urls then [rows[0].url.value] + rest else rest
  }

  /** `check_duplicates`: [] for an empty list; otherwise the stored urls
      among the input. */
  function CheckDuplicates(rows: seq<ContentRow>, urls: seq<string>): (existing: seq<string>)
    ensures urls == [] ==> existing == []
    ensures forall u :: u in existing ==> u in urls && HasUrl(rows, u)
  {
    if urls == [] then [] else StoredAmong(rows, urls)
  }

  /** Every input url that is stored is reported, and under the unique url
      index each is reported once. */
  lemma {:induction false} StoredAmongComplete(rows: seq<ContentRow>, urls: seq<string>)
    requires UniqueUrls(rows)
    ensures forall u :: u in urls && HasUrl(rows, u) ==> u in StoredAmong(rows, urls)
    ensures NoDuplicates(StoredAmong(rows, urls))
  {
    if rows != [] {
      var t := rows[1..];
      StoredAmongComplete(t, urls);
      forall u | u in urls && HasUrl(rows, u) ensures u in StoredAmong(rows, urls) {
        var k :| 0 <= k < |rows| && rows[k].url == Some(u);
        if k > 0 {
          assert t[k - 1].url == Some(u);
        }
      }
      if rows[0].url.Some? {
        forall k | 0 <= k < |t| ensures t[k].url != rows[0].url {
          assert t[k] == rows[k + 1];
        }
      }
    }
  }

  // ---------------------------------------------------------------
  // POST /content/{id}/complete
  // ---------------------------------------------------------------

  /** The table after `UPDATE content SET status = 'complete' WHERE id = ?`. */
  function MarkComplete(rows: seq<ContentRow>, id: string): (r: seq<ContentRow>)
    ensures |r| == |rows|
    ensures forall k :: 0 <= k < |rows| ==>
      r[k] == (if rows[k].id == id then rows[k].(status := StatusComplete) else rows[k])
  {
    if rows == [] then []
    else [if rows[0].id == id then rows[0].(status := StatusComplete) else rows[0]] + MarkComplete(rows[1..], id)
  }

  /** 404 "Content not found", or success. */
  datatype CompleteResult = NotFound | Completed(contentId: string)

  /** The number of rows `WHERE id = ?` matches; none exactly when the id is
      not stored. */
  function MatchCount(rows: seq<ContentRow>, id: string): (n: nat)
    ensures n == 0 <==> !HasId(rows, id)
    ensures UniqueIds(rows) ==> n <= 1
  {
    if rows == [] then 0
    else
      var rest := MatchCount(rows[1..], id);
      assert HasId(rows, id) <==> rows[0].id == id || HasId(rows[1..], id) by {
        if HasId(rows, id) && rows[0].id != id {
          var k :| 0 <= k < |rows| && rows[k].id == id;
          assert rows[1..][k - 1].id == id;
        }
        if HasId(rows[1..], id) {
          var k :| 0 <= k < |rows[1..]| && rows[1..][k].id == id;
          assert rows[k + 1].id == id;
        }
      }
      assert UniqueIds(rows) ==> UniqueIds(rows[1..]) && (rows[0].id == id ==> !HasId(rows[1..], id)) by {
        if UniqueIds(rows) {
          assert forall i, j :: 0 <= i < j < |rows[1..]| ==> rows[1..][i] == rows[i + 1] && rows[1..][j] == rows[j + 1];
          if rows[0].id == id {
            forall k | 0 <= k < |rows[1..]| ensures rows[1..][k].id != id {
              assert rows[1..][k] == rows[k + 1];
            }
          }
        }
      }
      (if rows[0].id == id then 1 else 0) + rest
  }

  /** The answer `complete_content` gives from the update's reported
      `rowcount`: 404 only when it reads 0. */
  function CompleteAnswer(rowcount: int, id: string): (r: CompleteResult)
    ensures r.NotFound? <==> rowcount == 0
    ensures r.Completed? ==> r.contentId == id
  {
    if rowcount == 0 then NotFound else Completed(id)
  }

  /** What DuckDB's Python connection reports as `rowcount` after any
      statement: it does not track affected rows. */
  const DuckDbRowcount: int := -1

  /** `complete_content` as written: the update runs whatever the id, and the
      answer follows the `rowcount` the driver reports. Only a driver that
      reports the matched rows makes it answer 404 exactly for an unknown
      id. */
  method CompleteContent(db: Db, id: string, rowcount: int) returns (r: CompleteResult)
    requires db.Valid()
    modifies db
    ensures db.Valid()
    ensures r == CompleteAnswer(rowcount, id)
    ensures rowcount == MatchCount(old(db.content), id) ==> (r.NotFound? <==> !HasId(old(db.content), id))
    ensures db.content == MarkComplete(old(db.content), id)
    ensures db.tags == old(db.tags) && db.groups == old(db.groups)
    ensures db.contentTags == old(db.contentTags) && db.previews == old(db.previews)
  {
    db.content := MarkComplete(db.content, id);
    assert UniqueIds(db.content) && UniqueUrls(db.content) by {
      assert forall k :: 0 <= k < |db.content| ==>
        db.content[k].id == old(db.content)[k].id && db.content[k].url == old(db.content)[k].url;
    }
    if rowcount == 0 {
      return NotFound;
    }
    return Completed(id);
  }

  /** Under DuckDB's report an unknown id is answered as completed: the 404
      branch never fires, and the update leaves the table as it was. */
  lemma UnknownIdAnsweredOk(rows: seq<ContentRow>, id: string)
    requires !HasId(rows, id)
    ensures CompleteAnswer(DuckDbRowcount, id) == Completed(id)
    ensures MarkComplete(rows, id) == rows
    ensures MatchCount(rows, id) != DuckDbRowcount
  {
    var after := MarkComplete(rows, id);
    assert forall k :: 0 <= k < |rows| ==> after[k] == rows[k];
  }

  /** `complete_content` as intended: 404 exactly when no row has the id,
      decided from the table rather than from the driver's report. */
  method CompleteContentByMatch(db: Db, id: string) returns (r: CompleteResult)
    requires db.Valid()
    modifies db
    ensures db.Valid()
    ensures r == (if HasId(old(db.content), id) then Completed(id) else NotFound)
    ensures r == CompleteAnswer(MatchCount(old(db.content), id), id)
    ensures db.content == MarkComplete(old(db.content), id)
    ensures db.tags == old(db.tags) && db.groups == old(db.groups)
    ensures db.contentTags == old(db.contentTags) && db.previews == old(db.previews)
  {
    var matched := MatchCount(db.content, id);
    r := CompleteContent(db, id, matched);
  }

  /** Completing twice is completing once, and the second call still finds
      the row, so a repeated call succeeds and changes nothing. */
  lemma CompleteIdempotent(rows: seq<ContentRow>, id: string)
    ensures MarkComplete(MarkComplete(rows, id), id) == MarkComplete(rows, id)
    ensures HasId(MarkComplete(rows, id), id) <==> HasId(rows, id)
  {
    var once := MarkComplete(rows, id);
    assert forall k :: 0 <= k < |rows| ==> once[k].id == rows[k].id;
  }

  // ---------------------------------------------------------------
  // GET /content/next
  // ---------------------------------------------------------------

  predicate NotComplete(r: ContentRow) { r.status != StatusComplete }

  /** `ORDER BY created_at` ascending, NULL last: `a` may come before `b`. */
  predicate NotLater(a: ContentRow, b: ContentRow) {
    match (a.createdAt, b.createdAt)
    case (None, None) => true
    case (None, Some(_)) => false
    case (Some(_), None) => true
    case (Some(x), Some(y)) => x <= y
  }

  /** `get_next_content`: a not-completed row that no other not-completed row
      precedes, or nothing when every row is complete. */
  function NextContent(rows: seq<ContentRow>): (r: Option<ContentRow>)
    ensures r.None? <==> forall k :: 0 <= k < |rows| ==> !NotComplete(rows[k])
    ensures r.Some? ==> r.value in rows && NotComplete(r.value)
    ensures r.Some? ==> forall k :: 0 <= k < |rows| && NotComplete(rows[k]) ==> NotLater(r.value, rows[k])
  {
    if rows == [] then None
    else
      var rest := NextContent(rows[1..]);
      assert forall k :: 1 <= k < |rows| ==> rows[k] == rows[1..][k - 1];
      if !NotComplete(rows[0]) then rest
      else if rest.None? || NotLater(rows[0], rest.value) then Some(rows[0])
      else rest
  }
}
