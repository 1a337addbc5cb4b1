/** The bulk-intake page: pasted text is split into lines, each line is
    classified (empty, ok, error or already in the database), the counts gate
    the submit button, the distinct URLs feed a debounced duplicate check, and
    a submit sends one item per ok line, all sharing the selected tags. */
module BulkIntake {
  import opened Common

  // ---------------------------------------------------------------
  // Line classification (the `lines` memo)
  // ---------------------------------------------------------------

  /** `/^https?:\/\//i`: "http", an optional "s", then "://", the letters in
      any case. */
  predicate IsHttpUrl(s: string) {
    && |s| >= 7
    && LowerChar(s[0]) == 'h' && LowerChar(s[1]) == 't' && LowerChar(s[2]) == 't' && LowerChar(s[3]) == 'p'
    && ((s[4] == ':' && s[5] == '/' && s[6] == '/')
        || (|s| >= 8 && LowerChar(s[4]) == 's' && s[5] == ':' && s[6] == '/' && s[7] == '/'))
  }

  /** The same test on the lower-cased string, as a prefix test. */
  lemma IsHttpUrlPrefix(s: string)
    ensures IsHttpUrl(s) <==> StartsWith(Lower(s), "http://") || StartsWith(Lower(s), "https://")
  {
    if |s| >= 8 { assert Lower(s)[..8] == Lower(s[..8]); }
    if |s| >= 7 { assert Lower(s)[..7] == Lower(s[..7]); }
  }

  datatype LineStatus = OkLine | ErrorLine | DuplicateDb | EmptyLine

  datatype LineValidation = LineValidation(url: string, status: LineStatus, reason: Option<string>)

  const InvalidUrl: string := "Invalid URL"
  const DuplicateInList: string := "Duplicate in list"
  const CheckingReason: string := "Checking…"
  const AlreadyExists: string := "Already exists"

  /** The trimmed lines of the pasted text, one per `"\n"`-separated line. */
  function TrimmedLines(text: string): seq<string> {
    var raws := Split(text, '\n');
    seq(|raws|, k requires 0 <= k < |raws| => JsTrim(raws[k]))
  }

  /** What the `seen` set holds after the trimmed lines `urls`: those with an
      http(s) prefix. */
  function Seen(urls: seq<string>): set<string>
    decreases |urls|
  {
    if urls == [] then {}
    else
      var n := |urls| - 1;
      Seen(urls[..n]) + if IsHttpUrl(urls[n]) then {urls[n]} else {}
  }

  /** A URL is seen exactly when an earlier line trims to it and it carries
      an http(s) prefix. */
  lemma {:induction false} SeenMembers(urls: seq<string>, x: string)
    ensures x in Seen(urls) <==> IsHttpUrl(x) && x in urls
    decreases |urls|
  {
    if urls != [] {
      var n := |urls| - 1;
      SeenMembers(urls[..n], x);
      InitLast(urls);
    }
  }

  /** One trimmed line, given the URLs seen on the lines before it. The checks
      run in the source's order: empty, no http(s) prefix, seen before, a
      pending database check, a database duplicate. */
  function ClassifyLine(url: string, seen: set<string>, dbDuplicates: set<string>, checkingDb: bool)
    : LineValidation
  {
    if url == "" then LineValidation("", EmptyLine, None)
    else if !IsHttpUrl(url) then LineValidation(url, ErrorLine, Some(InvalidUrl))
    else if url in seen then LineValidation(url, ErrorLine, Some(DuplicateInList))
    else if checkingDb then LineValidation(url, OkLine, Some(CheckingReason))
    else if url in dbDuplicates then LineValidation(url, DuplicateDb, Some(AlreadyExists))
    else LineValidation(url, OkLine, None)
  }

  /** What each classification means: empty exactly for an empty line; an
      invalid URL exactly without the http(s) prefix; a list duplicate exactly
      for a seen URL; a first occurrence (ok or database duplicate) exactly
      for an unseen http(s) URL, which is a database duplicate only once the
      check has answered and listed it. */
  lemma ClassifyLineMeaning(url: string, seen: set<string>, dbDuplicates: set<string>, checkingDb: bool)
    ensures var v := ClassifyLine(url, seen, dbDuplicates, checkingDb);
      && v.url == url
      && (v.status == EmptyLine <==> url == "")
      && (v.reason == Some(InvalidUrl) <==> url != "" && !IsHttpUrl(url))
      && (v.reason == Some(DuplicateInList) <==> IsHttpUrl(url) && url in seen)
      && (v.status == OkLine || v.status == DuplicateDb <==> IsHttpUrl(url) && url !in seen)
      && (v.status == DuplicateDb <==> IsHttpUrl(url) && url !in seen && !checkingDb && url in dbDuplicates)
  {
  }

  /** The records of the trimmed lines `urls`, one per line, each classified
      against the lines before it. */
  function Classified(urls: seq<string>, dbDuplicates: set<string>, checkingDb: bool): seq<LineValidation>
    decreases |urls|
  {
    if urls == [] then []
    else
      var n := |urls| - 1;
      Classified(urls[..n], dbDuplicates, checkingDb)
        + [ClassifyLine(urls[n], Seen(urls[..n]), dbDuplicates, checkingDb)]
  }

  /** The records of the pasted text. */
  function LinesOf(text: string, dbDuplicates: set<string>, checkingDb: bool): seq<LineValidation> {
    Classified(TrimmedLines(text), dbDuplicates, checkingDb)
  }

  /** The `map` callback of the `lines` memo after its trim: classifies one
      trimmed line and adds a first-seen http(s) URL to `seen`. */
  method ValidateLine(url: string, seen: set<string>, dbDuplicates: set<string>, checkingDb: bool)
    returns (v: LineValidation, seen': set<string>)
    ensures v == ClassifyLine(url, seen, dbDuplicates, checkingDb)
    ensures seen' == seen + if IsHttpUrl(url) then {url} else {}
  {
    seen' := seen;
    if url == "" {
      return LineValidation("", EmptyLine, None), seen';
    }
    if !IsHttpUrl(url) {
      return LineValidation(url, ErrorLine, Some(InvalidUrl)), seen';
    }
    if url in seen {
      return LineValidation(url, ErrorLine, Some(DuplicateInList)), seen';
    }
    seen' := seen + {url};
    if checkingDb {
      return LineValidation(url, OkLine, Some(CheckingReason)), seen';
    }
    if url in dbDuplicates {
      return LineValidation(url, DuplicateDb, Some(AlreadyExists)), seen';
    }
    return LineValidation(url, OkLine, None), seen';
  }

  /** The `lines` memo: one record per line, threading the `seen` set. */
  method ValidateLines(text: string, dbDuplicates: set<string>, checkingDb: bool)
    returns (lines: seq<LineValidation>)
    ensures lines == LinesOf(text, dbDuplicates, checkingDb)
  {
    var raws := Split(text, '\n');
    ghost var urls := TrimmedLines(text);
    var seen: set<string> := {};
    lines := [];
    var i := 0;
    while i < |raws|
      invariant 0 <= i <= |raws|
      invariant seen == Seen(urls[..i])
      invariant lines == Classified(urls[..i], dbDuplicates, checkingDb)
    {
      var url := JsTrim(raws[i]);
      assert url == urls[i];
      ClassifiedStep(urls, dbDuplicates, checkingDb, i);
      var v;
      v, seen := ValidateLine(url, seen, dbDuplicates, checkingDb);
      lines := lines + [v];
      i := i + 1;
    }
    assert urls[..i] == urls;
  }

  /** The records and the seen set after one more line. */
  lemma ClassifiedStep(urls: seq<string>, dbDuplicates: set<string>, checkingDb: bool, i: nat)
    requires i < |urls|
    ensures Classified(urls[..i + 1], dbDuplicates, checkingDb)
      == Classified(urls[..i], dbDuplicates, checkingDb) + [ClassifyLine(urls[i], Seen(urls[..i]), dbDuplicates, checkingDb)]
    ensures Seen(urls[..i + 1]) == Seen(urls[..i]) + if IsHttpUrl(urls[i]) then {urls[i]} else {}
  {
    assert urls[..i + 1][..i] == urls[..i];
  }

  /** There is one record per line. */
  lemma {:induction false} ClassifiedLength(urls: seq<string>, dbDuplicates: set<string>, checkingDb: bool)
    ensures |Classified(urls, dbDuplicates, checkingDb)| == |urls|
    decreases |urls|
  {
    if urls != [] {
      ClassifiedLength(urls[..|urls| - 1], dbDuplicates, checkingDb);
    }
  }

  /** Record `k` is line `k` classified against the lines before it. */
  lemma {:induction false} ClassifiedAt(urls: seq<string>, dbDuplicates: set<string>, checkingDb: bool, k: nat)
    requires k < |urls|
    ensures |Classified(urls, dbDuplicates, checkingDb)| == |urls|
    ensures Classified(urls, dbDuplicates, checkingDb)[k]
      == ClassifyLine(urls[k], Seen(urls[..k]), dbDuplicates, checkingDb)
    decreases |urls|
  {
    var n := |urls| - 1;
    var init := urls[..n];
    ClassifiedLength(urls, dbDuplicates, checkingDb);
    if k < n {
      ClassifiedAt(init, dbDuplicates, checkingDb, k);
      var prev := Classified(init, dbDuplicates, checkingDb);
      assert Classified(urls, dbDuplicates, checkingDb)[k] == prev[k];
      assert init[k] == urls[k] && init[..k] == urls[..k];
    }
  }

  /** Line `k` is "Duplicate in list" exactly when an earlier line trims to
      the same http(s) URL, whatever the database check holds; otherwise an
      http(s) line is its URL's first occurrence, ok or a database
      duplicate. */
  lemma DuplicateInListIffEarlier(urls: seq<string>, dbDuplicates: set<string>, checkingDb: bool, k: nat)
    requires k < |urls|
    ensures var lines := Classified(urls, dbDuplicates, checkingDb);
      && |lines| == |urls|
      && lines[k].url == urls[k]
      && (lines[k].reason == Some(DuplicateInList) <==> IsHttpUrl(urls[k]) && urls[k] in urls[..k])
      && (lines[k].status == OkLine || lines[k].status == DuplicateDb <==>
            IsHttpUrl(urls[k]) && urls[k] !in urls[..k])
  {
    ClassifiedAt(urls, dbDuplicates, checkingDb, k);
    SeenMembers(urls[..k], urls[k]);
  }

  // ---------------------------------------------------------------
  // Counts and the submit gate
  // ---------------------------------------------------------------

  predicate IsOk(v: LineValidation) { v.status == OkLine }
  predicate IsInvalid(v: LineValidation) { v.status == ErrorLine || v.status == DuplicateDb }
  predicate IsEmpty(v: LineValidation) { v.status == EmptyLine }
  predicate IsFirstOccurrence(v: LineValidation) { v.status == OkLine || v.status == DuplicateDb }

  /** `validUrls.length` */
  function ValidCount(lines: seq<LineValidation>): nat { CountIf(lines, IsOk) }

  /** `invalidCount`: errors and database duplicates. */
  function InvalidCount(lines: seq<LineValidation>): nat { CountIf(lines, IsInvalid) }

  /** Every line is counted once: valid, invalid or empty. */
  lemma {:induction false} CountsPartition(lines: seq<LineValidation>)
    ensures ValidCount(lines) + InvalidCount(lines) + CountIf(lines, IsEmpty) == |lines|
  {
    if lines != [] {
      CountsPartition(lines[1..]);
    }
  }

  /** The guard of `handleSubmit`: some valid line and no invalid one. */
  predicate CanSubmit(lines: seq<LineValidation>) {
    ValidCount(lines) > 0 && InvalidCount(lines) == 0
  }

  /** While a database check is pending no line is a database duplicate, so
      only error lines block the submit. */
  lemma {:induction false} CheckingBlocksOnlyOnErrors(urls: seq<string>, dbDuplicates: set<string>)
    ensures var lines := Classified(urls, dbDuplicates, true);
      InvalidCount(lines) == CountIf(lines, (v: LineValidation) => v.status == ErrorLine)
  {
    var lines := Classified(urls, dbDuplicates, true);
    ClassifiedLength(urls, dbDuplicates, true);
    forall k | 0 <= k < |lines| ensures lines[k].status != DuplicateDb {
      ClassifiedAt(urls, dbDuplicates, true, k);
    }
    CountIfSame(lines, IsInvalid, (v: LineValidation) => v.status == ErrorLine);
  }

  /** The URLs of the ok lines, in order. */
  function OkUrls(lines: seq<LineValidation>): seq<string>
    decreases |lines|
  {
    if lines == [] then []
    else
      var n := |lines| - 1;
      OkUrls(lines[..n]) + if IsOk(lines[n]) then [lines[n].url] else []
  }

  /** Every ok URL is an http(s) URL among the seen ones, and none is a
      known database duplicate once the check has answered. */
  lemma {:induction false} OkUrlMember(urls: seq<string>, dbDuplicates: set<string>, checkingDb: bool, x: string)
    ensures x in OkUrls(Classified(urls, dbDuplicates, checkingDb)) ==>
      IsHttpUrl(x) && x in Seen(urls) && (!checkingDb ==> x !in dbDuplicates)
    decreases |urls|
  {
    if urls != [] {
      var n := |urls| - 1;
      var init := urls[..n];
      OkUrlMember(init, dbDuplicates, checkingDb, x);
      OkUrlsStep(urls, dbDuplicates, checkingDb);
      var v := ClassifyLine(urls[n], Seen(init), dbDuplicates, checkingDb);
      OkLineMeans(urls[n], Seen(init), dbDuplicates, checkingDb);
      assert Seen(init) <= Seen(urls);
      assert IsOk(v) ==> urls[n] in Seen(urls);
    }
  }

  /** An ok line is a new http(s) URL, not a known duplicate once the check
      has answered. */
  lemma OkLineMeans(url: string, seen: set<string>, dbDuplicates: set<string>, checkingDb: bool)
    ensures var v := ClassifyLine(url, seen, dbDuplicates, checkingDb);
      IsOk(v) ==> v.url == url && IsHttpUrl(url) && url !in seen && (!checkingDb ==> url !in dbDuplicates)
  {
  }

  /** The ok lines carry distinct URLs. */
  lemma {:induction false} OkUrlsDistinct(urls: seq<string>, dbDuplicates: set<string>, checkingDb: bool)
    ensures NoDuplicates(OkUrls(Classified(urls, dbDuplicates, checkingDb)))
    decreases |urls|
  {
    if urls != [] {
      var n := |urls| - 1;
      var init := urls[..n];
      OkUrlsDistinct(init, dbDuplicates, checkingDb);
      OkUrlsStep(urls, dbDuplicates, checkingDb);
      var v := ClassifyLine(urls[n], Seen(init), dbDuplicates, checkingDb);
      OkUrlMember(init, dbDuplicates, checkingDb, v.url);
    }
  }

  /** The ok URLs of one more line. */
  lemma OkUrlsStep(urls: seq<string>, dbDuplicates: set<string>, checkingDb: bool)
    requires urls != []
    ensures var n := |urls| - 1;
      var v := ClassifyLine(urls[n], Seen(urls[..n]), dbDuplicates, checkingDb);
      OkUrls(Classified(urls, dbDuplicates, checkingDb))
        == OkUrls(Classified(urls[..n], dbDuplicates, checkingDb)) + if IsOk(v) then [v.url] else []
  {
    var n := |urls| - 1;
    var prev := Classified(urls[..n], dbDuplicates, checkingDb);
    var v := ClassifyLine(urls[n], Seen(urls[..n]), dbDuplicates, checkingDb);
    var lines := prev + [v];
    assert lines[..n] == prev by { ClassifiedLength(urls[..n], dbDuplicates, checkingDb); }
  }

  /** The number of distinct seen URLs is the number of first occurrences. */
  lemma {:induction false} SeenCountsFirstOccurrences(urls: seq<string>, dbDuplicates: set<string>, checkingDb: bool)
    ensures |Seen(urls)| == CountIf(Classified(urls, dbDuplicates, checkingDb), IsFirstOccurrence)
    decreases |urls|
  {
    if urls != [] {
      var n := |urls| - 1;
      var init := urls[..n];
      SeenCountsFirstOccurrences(init, dbDuplicates, checkingDb);
      var seen := Seen(init);
      var v := ClassifyLine(urls[n], seen, dbDuplicates, checkingDb);
      assert Classified(urls, dbDuplicates, checkingDb) == Classified(init, dbDuplicates, checkingDb) + [v];
      CountIfAppend(Classified(init, dbDuplicates, checkingDb), [v], IsFirstOccurrence);
      assert CountIf([v], IsFirstOccurrence) == if IsFirstOccurrence(v) then 1 else 0;
      FirstOccurrenceIsNew(urls[n], seen, dbDuplicates, checkingDb);
      assert Seen(urls) == seen + if IsHttpUrl(urls[n]) then {urls[n]} else {};
      if IsFirstOccurrence(v) {
        assert |Seen(urls)| == |seen| + 1;
      } else if IsHttpUrl(urls[n]) {
        assert seen + {urls[n]} == seen;
      }
    }
  }

  // ---------------------------------------------------------------
  // The duplicate-check candidates
  // ---------------------------------------------------------------

  /** A line is a first occurrence exactly when it is an http(s) URL not
      seen before. */
  lemma FirstOccurrenceIsNew(url: string, seen: set<string>, dbDuplicates: set<string>, checkingDb: bool)
    ensures IsFirstOccurrence(ClassifyLine(url, seen, dbDuplicates, checkingDb)) <==> IsHttpUrl(url) && url !in seen
  {
  }

  /** The URLs the duplicate check asks about, from the trimmed lines `urls`:
      the http(s) ones, each once, in order of first occurrence (what
      `Array.from(new Set(...))` gives). */
  function CandidatesOf(urls: seq<string>): seq<string>
    decreases |urls|
  {
    if urls == [] then []
    else
      var n := |urls| - 1;
      var c := CandidatesOf(urls[..n]);
      if IsHttpUrl(urls[n]) && urls[n] !in c then c + [urls[n]] else c
  }

  function Candidates(text: string): seq<string> {
    CandidatesOf(TrimmedLines(text))
  }

  /** The candidates hold exactly the URLs the line classifier sees. */
  lemma {:induction false} CandidatesSeen(urls: seq<string>, x: string)
    ensures x in CandidatesOf(urls) <==> x in Seen(urls)
    decreases |urls|
  {
    if urls != [] {
      CandidatesSeen(urls[..|urls| - 1], x);
    }
  }

  /** The candidates are the order-preserving de-duplication of the http(s)
      lines. */
  lemma {:induction false} CandidatesAreDedup(urls: seq<string>)
    ensures CandidatesOf(urls) == Dedup(Filter(urls, IsHttpUrl))
    decreases |urls|
  {
    if urls != [] {
      var n := |urls| - 1;
      var init := urls[..n];
      CandidatesAreDedup(init);
      InitLast(urls);
      FilterAppend(init, [urls[n]], IsHttpUrl);
      if IsHttpUrl(urls[n]) {
        assert Filter([urls[n]], IsHttpUrl) == [urls[n]];
        DedupSnoc(Filter(init, IsHttpUrl), urls[n]);
      } else {
        assert Filter([urls[n]], IsHttpUrl) == [];
        assert Filter(init, IsHttpUrl) + [] == Filter(init, IsHttpUrl);
      }
    }
  }

  /** The candidates hold no repeats, and there are as many as there are
      first-occurrence lines (ok or database duplicate). */
  lemma CandidatesAreFirstOccurrences(urls: seq<string>, dbDuplicates: set<string>, checkingDb: bool)
    ensures var c := CandidatesOf(urls);
      && NoDuplicates(c)
      && |c| == CountIf(Classified(urls, dbDuplicates, checkingDb), IsFirstOccurrence)
  {
    var c := CandidatesOf(urls);
    CandidatesAreDedup(urls);
    DistinctCard(c);
    forall x ensures x in Elems(c) <==> x in Seen(urls) {
      CandidatesSeen(urls, x);
    }
    assert Elems(c) == Seen(urls);
    SeenCountsFirstOccurrences(urls, dbDuplicates, checkingDb);
  }

  // ---------------------------------------------------------------
  // The submit payload
  // ---------------------------------------------------------------

  /** One item of the bulk request. */
  datatype BulkItem = BulkItem(url: string, site: Option<string>, creator: Option<string>,
                               kind: string, tagIds: seq<string>)

  /** `value || null` on a string field. */
  function OrNull(s: string): (r: Option<string>)
    ensures r.None? <==> s == ""
    ensures r.Some? ==> r.value == s
  {
    if s == "" then None else Some(s)
  }

  /** The items sent for the ok URLs `urls`. */
  function Payload(urls: seq<string>, site: string, creator: string, kind: string, tagIds: seq<string>)
    : seq<BulkItem>
  {
    if urls == [] then []
    else [BulkItem(urls[0], OrNull(site), OrNull(creator), kind, tagIds)]
         + Payload(urls[1..], site, creator, kind, tagIds)
  }

  /** One item per ok line, in order, every item with the same tag list and
      the same shared fields. */
  lemma {:induction false} PayloadShape(urls: seq<string>, site: string, creator: string, kind: string,
                                        tagIds: seq<string>)
    ensures var items := Payload(urls, site, creator, kind, tagIds);
      && |items| == |urls|
      && forall k :: 0 <= k < |urls| ==>
           items[k].url == urls[k] && items[k].tagIds == tagIds && items[k].kind == kind
           && items[k].site == OrNull(site) && items[k].creator == OrNull(creator)
    decreases |urls|
  {
    if urls != [] {
      PayloadShape(urls[1..], site, creator, kind, tagIds);
    }
  }

  // ---------------------------------------------------------------
  // toggleTag
  // ---------------------------------------------------------------

  /** The list without `id`. */
  function Without(ids: seq<string>, id: string): (r: seq<string>)
    ensures id !in r
  {
    Filter(ids, (x: string) => x != id)
  }

  /** `toggleTag`: drops `id` if present, otherwise appends it. */
  function ToggleTag(ids: seq<string>, id: string): seq<string> {
    if id in ids then Without(ids, id) else ids + [id]
  }

  /** Toggling flips the membership of `id` and of nothing else. */
  lemma ToggleFlipsOne(ids: seq<string>, id: string, x: string)
    ensures x in ToggleTag(ids, id) <==> if x == id then id !in ids else x in ids
  {
    FilterMembers(ids, (y: string) => y != id);
  }

  /** Toggling never creates a duplicate. */
  lemma {:induction false} ToggleKeepsNoDuplicates(ids: seq<string>, id: string)
    requires NoDuplicates(ids)
    ensures NoDuplicates(ToggleTag(ids, id))
  {
    if id in ids {
      WithoutKeepsNoDuplicates(ids, id);
    }
  }

  lemma {:induction false} WithoutKeepsNoDuplicates(ids: seq<string>, id: string)
    requires NoDuplicates(ids)
    ensures NoDuplicates(Without(ids, id))
    decreases |ids|
  {
    if ids != [] {
      var t := ids[1..];
      assert NoDuplicates(t) by {
        forall i, j | 0 <= i < j < |t| ensures t[i] != t[j] { assert t[i] == ids[i + 1] && t[j] == ids[j + 1]; }
      }
      WithoutKeepsNoDuplicates(t, id);
      FilterMembers(t, (y: string) => y != id);
      assert ids[0] !in t by {
        forall j | 0 <= j < |t| ensures t[j] != ids[0] { assert t[j] == ids[j + 1]; }
      }
    }
  }

  /** Toggling an absent id twice restores the list. */
  lemma ToggleTwiceAbsent(ids: seq<string>, id: string)
    requires id !in ids
    ensures ToggleTag(ToggleTag(ids, id), id) == ids
  {
    FilterAllKept(ids, id);
    FilterAppend(ids, [id], (x: string) => x != id);
  }

  /** Toggling a present id twice moves it to the end: the order is not
      restored. */
  lemma ToggleTwicePresent(ids: seq<string>, id: string)
    requires id in ids
    ensures ToggleTag(ToggleTag(ids, id), id) == Without(ids, id) + [id]
  {
  }

  /** Filtering out an absent id changes nothing. */
  lemma {:induction false} FilterAllKept(ids: seq<string>, id: string)
    requires id !in ids
    ensures Without(ids, id) == ids
    decreases |ids|
  {
    if ids != [] {
      FilterAllKept(ids[1..], id);
    }
  }

  // ---------------------------------------------------------------
  // The page and its events
  // ---------------------------------------------------------------

  /** The answer to a duplicate-check request. */
  datatype CheckResponse = CheckNotOk | CheckOk(existing: seq<string>) | CheckThrew

  /** The answer to the bulk-create request. */
  datatype SubmitResponse = SubmitNotOk | SubmitOk(created: int) | SubmitThrew

  /** The result banner. */
  datatype Message = Added(created: int) | FailedToAdd | RequestFailed

  class BulkIntakePage {
    var text: string
    var site: string
    var creator: string
    var kind: string
    var loading: bool
    var result: Option<Message>
    var dbDuplicates: set<string>
    var selectedTagIds: seq<string>
    var checkingDb: bool
    /** The pending debounce timer, holding the URLs it will check. */
    var timer: Option<seq<string>>
    /** The number of duplicate checks sent and not yet answered; none is
        ever cancelled. */
    var inFlight: nat

    /** Only the latest text's timer survives: a pending timer always checks
        the current text's candidates. */
    ghost predicate Valid()
      reads this
    {
      timer.Some? ==> timer.value == Candidates(text) && timer.value != []
    }

    function Lines(): seq<LineValidation>
      reads this
    {
      LinesOf(text, dbDuplicates, checkingDb)
    }

    /** The submit button is enabled. */
    predicate ButtonEnabled()
      reads this
    {
      !loading && CanSubmit(Lines())
    }

    constructor()
      ensures Valid()
      ensures text == "" && site == "" && creator == "" && kind == "image"
      ensures !loading && result == None && dbDuplicates == {} && selectedTagIds == []
      ensures !checkingDb && timer == None && inFlight == 0
    {
      text := "";
      site := "";
      creator := "";
      kind := "image";
      loading := false;
      result := None;
      dbDuplicates := {};
      selectedTagIds := [];
      checkingDb := false;
      timer := None;
      inFlight := 0;
    }

    /** The textarea changes, and the duplicate-check effect reruns when the
        text differs: the old timer is cleared, and either the duplicates are
        emptied (no candidates) or the check is marked pending and a new timer
        is armed with the new candidates. */
    method SetText(t: string)
      requires Valid()
      modifies this
      ensures Valid()
      ensures text == t
      ensures old(text) == t ==> timer == old(timer) && dbDuplicates == old(dbDuplicates)
                                 && checkingDb == old(checkingDb)
      ensures old(text) != t && Candidates(t) == [] ==>
                timer == None && dbDuplicates == {} && checkingDb == old(checkingDb)
      ensures old(text) != t && Candidates(t) != [] ==>
                timer == Some(Candidates(t)) && checkingDb && dbDuplicates == old(dbDuplicates)
      ensures site == old(site) && creator == old(creator) && kind == old(kind)
      ensures loading == old(loading) && result == old(result)
      ensures selectedTagIds == old(selectedTagIds) && inFlight == old(inFlight)
    {
      if t != text {
        var urls := Candidates(t);
        RestartCheck(t, urls);
      }
    }

    /** The effect's body for the new text `t` with candidates `urls`. */
    method RestartCheck(t: string, urls: seq<string>)
      modifies this
      ensures text == t
      ensures urls == [] ==> timer == None && dbDuplicates == {} && checkingDb == old(checkingDb)
      ensures urls != [] ==> timer == Some(urls) && checkingDb && dbDuplicates == old(dbDuplicates)
      ensures site == old(site) && creator == old(creator) && kind == old(kind)
      ensures loading == old(loading) && result == old(result)
      ensures selectedTagIds == old(selectedTagIds) && inFlight == old(inFlight)
    {
      text := t;
      timer := None;
      if urls == [] {
        dbDuplicates := {};
      } else {
        checkingDb := true;
        timer := Some(urls);
      }
    }

    method SetSite(s: string)
      modifies this
      ensures site == s
      ensures text == old(text) && creator == old(creator) && kind == old(kind)
      ensures loading == old(loading) && result == old(result) && dbDuplicates == old(dbDuplicates)
      ensures selectedTagIds == old(selectedTagIds) && checkingDb == old(checkingDb)
      ensures timer == old(timer) && inFlight == old(inFlight)
    {
      site := s;
    }

    method SetCreator(c: string)
      modifies this
      ensures creator == c
      ensures text == old(text) && site == old(site) && kind == old(kind)
      ensures loading == old(loading) && result == old(result) && dbDuplicates == old(dbDuplicates)
      ensures selectedTagIds == old(selectedTagIds) && checkingDb == old(checkingDb)
      ensures timer == old(timer) && inFlight == old(inFlight)
    {
      creator := c;
    }

    method SetKind(k: string)
      modifies this
      ensures kind == k
      ensures text == old(text) && site == old(site) && creator == old(creator)
      ensures loading == old(loading) && result == old(result) && dbDuplicates == old(dbDuplicates)
      ensures selectedTagIds == old(selectedTagIds) && checkingDb == old(checkingDb)
      ensures timer == old(timer) && inFlight == old(inFlight)
    {
      kind := k;
    }

    /** The debounce timer fires and sends its check. */
    method TimerFires()
      requires timer.Some?
      modifies this
      ensures Valid()
      ensures timer == None && inFlight == old(inFlight) + 1
      ensures text == old(text) && site == old(site) && creator == old(creator) && kind == old(kind)
      ensures loading == old(loading) && result == old(result) && dbDuplicates == old(dbDuplicates)
      ensures selectedTagIds == old(selectedTagIds) && checkingDb == old(checkingDb)
    {
      inFlight := inFlight + 1;
      timer := None;
    }

    /** A duplicate check answers. Whatever text it was sent for, an answer
        replaces the duplicates and ends the pending state: a non-ok response
        gives the empty set. A thrown request changes nothing. */
    method CheckAnswered(resp: CheckResponse)
      requires Valid() && inFlight > 0
      modifies this
      ensures Valid()
      ensures inFlight == old(inFlight) - 1
      ensures resp.CheckNotOk? ==> dbDuplicates == {} && !checkingDb
      ensures resp.CheckOk? ==> dbDuplicates == Elems(resp.existing) && !checkingDb
      ensures resp.CheckThrew? ==> dbDuplicates == old(dbDuplicates) && checkingDb == old(checkingDb)
      ensures text == old(text) && site == old(site) && creator == old(creator) && kind == old(kind)
      ensures loading == old(loading) && result == old(result)
      ensures selectedTagIds == old(selectedTagIds) && timer == old(timer)
    {
      inFlight := inFlight - 1;
      match resp {
        case CheckNotOk =>
          dbDuplicates := {};
          checkingDb := false;
        case CheckOk(existing) =>
          dbDuplicates := Elems(existing);
          checkingDb := false;
        case CheckThrew =>
      }
    }

    /** `toggleTag` on the selection. */
    method Toggle(id: string)
      requires Valid()
      modifies this
      ensures Valid()
      ensures selectedTagIds == ToggleTag(old(selectedTagIds), id)
      ensures NoDuplicates(old(selectedTagIds)) ==> NoDuplicates(selectedTagIds)
      ensures text == old(text) && site == old(site) && creator == old(creator) && kind == old(kind)
      ensures loading == old(loading) && result == old(result) && dbDuplicates == old(dbDuplicates)
      ensures checkingDb == old(checkingDb) && timer == old(timer) && inFlight == old(inFlight)
    {
      if NoDuplicates(selectedTagIds) {
        ToggleKeepsNoDuplicates(selectedTagIds, id);
      }
      selectedTagIds := ToggleTag(selectedTagIds, id);
    }

    /** `handleSubmit` up to the request: nothing happens unless the guard
        holds; otherwise loading starts, the banner clears, and the items for
        the ok lines are sent. */
    method Submit() returns (sent: Option<seq<BulkItem>>)
      requires Valid()
      modifies this
      ensures Valid()
      ensures sent.None? <==> !CanSubmit(old(Lines()))
      ensures sent.None? ==> loading == old(loading) && result == old(result)
      ensures sent.Some? ==>
                loading && result == None
                && sent.value == Payload(OkUrls(old(Lines())), site, creator, kind, selectedTagIds)
      ensures text == old(text) && site == old(site) && creator == old(creator) && kind == old(kind)
      ensures dbDuplicates == old(dbDuplicates) && selectedTagIds == old(selectedTagIds)
      ensures checkingDb == old(checkingDb) && timer == old(timer) && inFlight == old(inFlight)
    {
      var lines := ValidateLines(text, dbDuplicates, checkingDb);
      if !CanSubmit(lines) {
        return None;
      }
      loading := true;
      result := None;
      sent := Some(Payload(OkUrls(lines), site, creator, kind, selectedTagIds));
    }

    /** The bulk request answers. Only success clears the text (rerunning the
        duplicate-check effect), the duplicates and the selected tags; every
        answer ends loading and sets the banner. */
    method SubmitAnswered(resp: SubmitResponse)
      requires Valid()
      modifies this
      ensures Valid()
      ensures !loading
      ensures resp.SubmitOk? ==>
                result == Some(Added(resp.created))
                && text == "" && dbDuplicates == {} && selectedTagIds == [] && timer == None
      ensures resp.SubmitNotOk? ==> result == Some(FailedToAdd)
      ensures resp.SubmitThrew? ==> result == Some(RequestFailed)
      ensures !resp.SubmitOk? ==>
                text == old(text) && dbDuplicates == old(dbDuplicates)
                && selectedTagIds == old(selectedTagIds) && timer == old(timer)
      ensures site == old(site) && creator == old(creator) && kind == old(kind)
      ensures checkingDb == old(checkingDb) && inFlight == old(inFlight)
    {
      match resp {
        case SubmitNotOk =>
          ShowResult(FailedToAdd);
        case SubmitOk(created) =>
          ShowResult(Added(created));
          ClearForm();
        case SubmitThrew =>
          ShowResult(RequestFailed);
      }
    }

    /** `setResult(m)`, then `setLoading(false)` in the `finally`. */
    method ShowResult(m: Message)
      modifies this
      ensures result == Some(m) && !loading
      ensures text == old(text) && site == old(site) && creator == old(creator) && kind == old(kind)
      ensures dbDuplicates == old(dbDuplicates) && selectedTagIds == old(selectedTagIds)
      ensures checkingDb == old(checkingDb) && timer == old(timer) && inFlight == old(inFlight)
    {
      result := Some(m);
      loading := false;
    }

    /** After a successful create: the text, the duplicates and the selected
        tags are emptied. Emptying a non-empty text reruns the duplicate-check
        effect, which clears the timer and finds no candidates. */
    method ClearForm()
      modifies this
      ensures text == "" && dbDuplicates == {} && selectedTagIds == []
      ensures old(text) != "" ==> timer == None
      ensures old(text) == "" ==> timer == old(timer)
      ensures site == old(site) && creator == old(creator) && kind == old(kind)
      ensures result == old(result) && loading == old(loading)
      ensures checkingDb == old(checkingDb) && inFlight == old(inFlight)
    {
      if text != "" {
        text := "";
        timer := None;
      }
      dbDuplicates := {};
      selectedTagIds := [];
    }
  }
}
