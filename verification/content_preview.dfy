/** Preview metadata for a URL: direct image and video links are recognised
    by their path suffix without a fetch; any other URL is fetched, and an
    HTML page is read for its OpenGraph and Twitter meta tags. The result is
    stored as one `content_preview` row per content item. URL parsing, the
    fetch and the HTML parse are inputs: `parse` plays `urlparse`, `join`
    plays `urljoin`, and a fetched page is given by what its meta tags hold. */
module ContentPreview {
  import opened Common
  import opened Tables

  // ---------------------------------------------------------------
  // URLs
  // ---------------------------------------------------------------

  /** The six components `urlparse` splits a URL into. */
  datatype Url = Url(scheme: string, netloc: string, path: string, params: string, query: string, fragment: string)

  /** The schemes `urlunsplit` writes with a `//` authority even when the
      netloc is empty. */
  const UsesNetloc: seq<string> := ["", "ftp", "http", "gopher", "nntp", "telnet", "imap", "wais",
    "file", "mms", "https", "shttp", "snews", "prospero", "rtsp", "rtspu", "rtsps", "sftp",
    "svn", "svn+ssh", "ws", "wss"]

  /** The URL up to its query: scheme, authority, path and parameters. */
  function Base(u: Url): string {
    var path := if u.params != "" then u.path + ";" + u.params else u.path;
    var withAuthority :=
      if u.netloc != "" || (u.scheme != "" && u.scheme in UsesNetloc && !StartsWith(path, "//")) then
        "//" + u.netloc + (if path != "" && path[0] != '/' then "/" + path else path)
      else path;
    if u.scheme != "" then u.scheme + ":" + withAuthority else withAuthority
  }

  /** `urlunparse`: the components written back as one string. */
  function Unparse(u: Url): string {
    Base(u) + (if u.query != "" then "?" + u.query else "") + (if u.fragment != "" then "#" + u.fragment else "")
  }

  /** `normalize_image_url`: no URL for None or "", otherwise the URL
      rewritten with an empty query. */
  function NormalizeImageUrl(parse: string -> Url, url: Option<string>): (r: Option<string>)
    ensures r.None? <==> url.None? || url.value == ""
  {
    if url.None? || url.value == "" then None
    else Some(Unparse(parse(url.value).(query := "")))
  }

  /** Normalising removes the query and nothing else: the written URL is the
      original one with its `?query` part cut out. */
  lemma NormalizeDropsOnlyQuery(parse: string -> Url, url: string)
    requires url != ""
    ensures var u := parse(url);
      && NormalizeImageUrl(parse, Some(url)) == Some(Base(u) + (if u.fragment != "" then "#" + u.fragment else ""))
      && Unparse(u) == Base(u) + (if u.query != "" then "?" + u.query else "")
                              + (if u.fragment != "" then "#" + u.fragment else "")
  {
    var u := parse(url);
    var v := u.(query := "");
    assert Base(v) == Base(u);
    var f := if u.fragment != "" then "#" + u.fragment else "";
    assert Unparse(v) == Base(u) + "" + f;
    assert Base(u) + "" == Base(u);
  }

  /** A URL with no query comes back unchanged from normalising, whenever
      parsing and writing it back agree. */
  lemma NormalizeWithoutQuery(parse: string -> Url, url: string)
    requires url != "" && parse(url).query == "" && Unparse(parse(url)) == url
    ensures NormalizeImageUrl(parse, Some(url)) == Some(url)
  {
    var u := parse(url);
    assert u.(query := "") == u;
  }

  const ImageExtensions: seq<string> := [".jpg", ".jpeg", ".png", ".webp", ".gif"]
  const VideoExtensions: seq<string> := [".mp4", ".webm", ".mov"]

  /** `is_image_url`: the lowered path ends with an image extension. */
  predicate IsImageUrl(parse: string -> Url, url: string) {
    EndsWithAny(Lower(parse(url).path), ImageExtensions)
  }

  /** `is_video_url`: the lowered path ends with a video extension. */
  predicate IsVideoUrl(parse: string -> Url, url: string) {
    EndsWithAny(Lower(parse(url).path), VideoExtensions)
  }

  // ---------------------------------------------------------------
  // Meta tags
  // ---------------------------------------------------------------

  /** `_get_meta`: the `content` attribute of the first matching tag,
      stripped; nothing when there is no such tag or its content is empty or
      absent. `content` is that attribute as found (None: no tag, or no
      attribute). */
  function GetMeta(content: Option<string>): (r: Option<string>)
    ensures r.None? <==> content.None? || content.value == ""
    ensures r.Some? ==> r.value == PyStrip(content.value)
  {
    if content.Some? && content.value != "" then Some(PyStrip(content.value)) else None
  }

  /** Python's `a or b` on optional strings: `a` when it is a non-empty
      string, otherwise `b`. */
  function Or(a: Option<string>, b: Option<string>): Option<string> {
    if a.Some? && a.value != "" then a else b
  }

  predicate Truthy(s: Option<string>) { s.Some? && s.value != "" }

  /** `a or b` is truthy when either is, and then is the first truthy one. */
  lemma OrPicksFirstTruthy(a: Option<string>, b: Option<string>)
    ensures Truthy(Or(a, b)) <==> Truthy(a) || Truthy(b)
    ensures Truthy(a) ==> Or(a, b) == a
    ensures !Truthy(a) ==> Or(a, b) == b
  {
  }

  /** The page's `<title>`: absent, present but with no single string inside
      (empty, or holding markup), or holding the string `text`. */
  datatype PageTitle = NoTitle | TitleWithoutString | TitleText(text: string)

  /** What the page's meta tags hold (the raw `content` attributes) and its
      `<title>`. */
  datatype PageMeta = PageMeta(
    ogImage: Option<string>, twitterImage: Option<string>,
    ogVideo: Option<string>, twitterPlayer: Option<string>,
    ogTitle: Option<string>, twitterTitle: Option<string>, title: PageTitle,
    ogDescription: Option<string>, twitterDescription: Option<string>, description: Option<string>)

  /** The fetch of a non-direct URL: it raised (network error or an error
      status), the response was not HTML, or it was an HTML page. */
  datatype Fetch = FetchRaised | NotHtml | Html(meta: PageMeta)

  function ImageMeta(m: PageMeta): Option<string> { Or(GetMeta(m.ogImage), GetMeta(m.twitterImage)) }

  function VideoMeta(m: PageMeta): Option<string> { Or(GetMeta(m.ogVideo), GetMeta(m.twitterPlayer)) }

  /** The title's third alternative is reached only when neither title meta
      tag is truthy; it then strips `soup.title.string`, which raises when
      that string is None. */
  predicate TitleRaises(m: PageMeta) {
    !Truthy(Or(GetMeta(m.ogTitle), GetMeta(m.twitterTitle))) && m.title.TitleWithoutString?
  }

  function TitleMeta(m: PageMeta): Option<string> {
    Or(Or(GetMeta(m.ogTitle), GetMeta(m.twitterTitle)),
       if m.title.TitleText? then Some(PyStrip(m.title.text)) else None)
  }

  function DescriptionMeta(m: PageMeta): Option<string> {
    Or(Or(GetMeta(m.ogDescription), GetMeta(m.twitterDescription)), GetMeta(m.description))
  }

  // ---------------------------------------------------------------
  // extract_preview_from_url
  // ---------------------------------------------------------------

  datatype Preview = Preview(
    previewType: PreviewType, previewUrl: Option<string>, normalized: Option<string>,
    title: Option<string>, description: Option<string>)

  /** The extraction returns a preview or raises (only when it fetched). */
  datatype Extraction = Raised | Extracted(preview: Preview)

  const UnknownPreview: Preview := Preview(Unknown, None, None, None, None)

  /** `extract_preview_from_url`. `page` is what fetching `url` would give;
      it is consulted only when the URL is neither a direct image nor a
      direct video. */
  function ExtractPreview(parse: string -> Url, join: (string, string) -> string, url: string, page: Fetch)
    : (r: Extraction)
    ensures r.Raised? <==>
      !IsImageUrl(parse, url) && !IsVideoUrl(parse, url)
      && (page.FetchRaised? || (page.Html? && TitleRaises(page.meta)))
    ensures r.Extracted? && r.preview.previewType == Unknown ==> r.preview == UnknownPreview
    ensures r.Extracted? && r.preview.normalized.Some? ==>
      r.preview.previewType == Image && NormalizeImageUrl(parse, r.preview.previewUrl) == r.preview.normalized
  {
    if IsImageUrl(parse, url) then
      Extracted(Preview(Image, Some(url), NormalizeImageUrl(parse, Some(url)), None, None))
    else if IsVideoUrl(parse, url) then
      Extracted(Preview(Video, Some(url), None, None, None))
    else match page
      case FetchRaised => Raised
      case NotHtml => Extracted(UnknownPreview)
      case Html(m) =>
        if TitleRaises(m) then Raised else
        var image, video := ImageMeta(m), VideoMeta(m);
        var title, description := TitleMeta(m), DescriptionMeta(m);
        if Truthy(video) then
          Extracted(Preview(Video, Some(join(url, video.value)), None, title, description))
        else if Truthy(image) then
          var previewUrl := join(url, image.value);
          Extracted(Preview(Image, Some(previewUrl), NormalizeImageUrl(parse, Some(previewUrl)), title, description))
        else
          Extracted(Preview(Page, None, None, title, description))
  }

  /** A direct image or video URL is decided by its path alone: the fetch
      result plays no part, and the preview URL is the URL itself. */
  lemma DirectUrlsDoNotFetch(parse: string -> Url, join: (string, string) -> string, url: string, p1: Fetch, p2: Fetch)
    requires IsImageUrl(parse, url) || IsVideoUrl(parse, url)
    ensures ExtractPreview(parse, join, url, p1) == ExtractPreview(parse, join, url, p2)
    ensures var r := ExtractPreview(parse, join, url, p1);
      && r.Extracted? && r.preview.previewUrl == Some(url)
      && r.preview.previewType == (if IsImageUrl(parse, url) then Image else Video)
  {
  }

  /** How an HTML page is classified: it raises exactly when the title
      falls back to a `<title>` without a string; otherwise a video meta tag
      wins over an image meta tag, and with neither the page is a plain
      page. */
  lemma HtmlPageType(parse: string -> Url, join: (string, string) -> string, url: string, m: PageMeta)
    requires !IsImageUrl(parse, url) && !IsVideoUrl(parse, url)
    ensures var r := ExtractPreview(parse, join, url, Html(m));
      && (r.Raised? <==> TitleRaises(m))
      && (r.Extracted? ==> r.preview.title == TitleMeta(m) && r.preview.description == DescriptionMeta(m))
      && (r.Extracted? ==>
      (r.preview.previewType == Video <==> Truthy(GetMeta(m.ogVideo)) || Truthy(GetMeta(m.twitterPlayer)))
      && (r.preview.previewType == Image <==>
            !Truthy(VideoMeta(m)) && (Truthy(GetMeta(m.ogImage)) || Truthy(GetMeta(m.twitterImage))))
      && (r.preview.previewType == Page <==> !Truthy(VideoMeta(m)) && !Truthy(ImageMeta(m)))
      && r.preview.previewType != Unknown)
  {
    OrPicksFirstTruthy(GetMeta(m.ogVideo), GetMeta(m.twitterPlayer));
    OrPicksFirstTruthy(GetMeta(m.ogImage), GetMeta(m.twitterImage));
  }

  /** Whitespace-only content is truthy as an attribute but strips to "",
      so a blank og:image falls through to twitter:image (stripped). */
  lemma BlankOpenGraphFallsThrough(m: PageMeta)
    requires m.ogImage.Some? && m.ogImage.value != ""
    requires forall i :: 0 <= i < |m.ogImage.value| ==> IsPySpace(m.ogImage.value[i])
    ensures ImageMeta(m) == GetMeta(m.twitterImage)
  {
    TrimEmptyIffAllSpace(m.ogImage.value, IsPySpace);
  }

  // ---------------------------------------------------------------
  // build_and_store_preview
  // ---------------------------------------------------------------

  /** The stored preview or, when the content id names no content row, the
      foreign-key violation the insert raises. */
  datatype StoreOutcome = ForeignKeyViolation | Stored(preview: Preview, status: PreviewStatus)

  /** The preview and its status: "ready" unless the type is unknown, and an
      extraction that raised becomes the unknown preview, "failed". */
  function PreviewAndStatus(e: Extraction): (r: (Preview, PreviewStatus))
    ensures r.1 == Ready <==> r.0.previewType != Unknown
    ensures r.1 == Failed <==> r.0.previewType == Unknown
    ensures e.Raised? ==> r.0 == UnknownPreview
    ensures e.Extracted? ==> r.0 == e.preview
  {
    match e
    case Raised => (UnknownPreview, Failed)
    case Extracted(p) => (p, if p.previewType != Unknown then Ready else Failed)
  }

  /** `build_and_store_preview`: extract, classify, and upsert the row keyed
      by the content id; `now` is `datetime.utcnow()`. */
  method BuildAndStorePreview(
    db: Db, parse: string -> Url, join: (string, string) -> string,
    contentId: string, sourceUrl: string, page: Fetch, now: int)
    returns (out: StoreOutcome)
    modifies db
    ensures out.ForeignKeyViolation? <==> !HasId(db.content, contentId)
    ensures out.ForeignKeyViolation? ==> db.previews == old(db.previews)
    ensures out.Stored? ==>
      var ps := PreviewAndStatus(ExtractPreview(parse, join, sourceUrl, page));
      && out == Stored(ps.0, ps.1)
      && db.previews == old(db.previews)[contentId := PreviewRow(
           ps.0.previewType, ps.0.previewUrl, ps.0.normalized, ps.0.title, ps.0.description, ps.1, now)]
    ensures db.content == old(db.content) && db.tags == old(db.tags) && db.groups == old(db.groups)
    ensures db.contentTags == old(db.contentTags)
  {
    var extraction := ExtractPreview(parse, join, sourceUrl, page);
    var preview: Preview;
    var status: PreviewStatus;
    if extraction.Raised? {
      preview := UnknownPreview;
      status := Failed;
    } else {
      preview := extraction.preview;
      status := if preview.previewType != Unknown then Ready else Failed;
    }
    if !HasId(db.content, contentId) {
      return ForeignKeyViolation;
    }
    db.previews := db.previews[contentId := PreviewRow(
      preview.previewType, preview.previewUrl, preview.normalized, preview.title, preview.description,
      status, now)];
    return Stored(preview, status);
  }
}
