/** Expansion of a pasted URL into the media URLs behind it: Imgur and
    ArtStation links go to their provider, Flickr links expand to nothing,
    and any other URL is either a direct image or an HTML page whose images
    are collected. Each media URL then gets a preview. What the network
    returns is an input (`Network`, and a `Fetch` per media URL for the
    preview); `parse` plays `urlparse` and `join` plays `urljoin`. */
module ContentExpand {
  import opened Common
  import opened Tables
  import opened ContentPreview

  // ---------------------------------------------------------------
  // Path pieces
  // ---------------------------------------------------------------

  predicate IsSlash(c: char) { c == '/' }

  /** `urlparse(url).path.strip("/").split("/")`. */
  function PathParts(parse: string -> Url, url: string): (parts: seq<string>)
    ensures |parts| >= 1
  {
    Split(Trim(parse(url).path, IsSlash), '/')
  }

  /** A path whose pieces are `first/second` after stripping slashes. */
  lemma TwoPieces(parse: string -> Url, url: string, first: string, second: string)
    requires '/' !in first && '/' !in second
    requires Trim(parse(url).path, IsSlash) == first + "/" + second
    ensures PathParts(parse, url) == [first, second]
  {
    assert first + "/" + second == first + ['/'] + second;
    SplitFirst(first, second, '/');
    SplitNone(second, '/');
  }

  // ---------------------------------------------------------------
  // imgur_id_from_url
  // ---------------------------------------------------------------

  /** The token the id is searched in: the piece after `a` or `gallery`, or
      the only piece. */
  function ImgurToken(parts: seq<string>): Option<string>
    requires |parts| >= 1
  {
    if (parts[0] == "a" || parts[0] == "gallery") && |parts| >= 2 then Some(parts[1])
    else if |parts| == 1 then Some(parts[0])
    else None
  }

  predicate AllAlnum(s: string) {
    forall i :: 0 <= i < |s| ==> IsAsciiAlnum(s[i])
  }

  /** `([a-zA-Z0-9]{5,8})$` matches starting at `j`. */
  predicate IdAt(token: string, j: nat) {
    j <= |token| && 5 <= |token| - j <= 8 && AllAlnum(token[j..])
  }

  /** `re.search`: the leftmost start, from `i` on, at which the pattern
      matches, and the text it matches. */
  function SearchId(token: string, i: nat): (r: Option<string>)
    decreases |token| - i
  {
    if i >= |token| then None
    else if IdAt(token, i) then Some(token[i..])
    else SearchId(token, i + 1)
  }

  /** `imgur_id_from_url`. */
  function ImgurIdFromUrl(parse: string -> Url, url: string): Option<string> {
    match ImgurToken(PathParts(parse, url))
    case None => None
    case Some(token) => SearchId(token, 0)
  }

  /** The search finds the leftmost matching start. */
  lemma {:induction false} SearchIdLeftmost(token: string, i: nat)
    ensures SearchId(token, i).Some? <==> exists j :: i <= j < |token| && IdAt(token, j)
    ensures SearchId(token, i).Some? ==>
      exists j :: i <= j < |token| && IdAt(token, j) && SearchId(token, i).value == token[j..]
        && forall j' :: i <= j' < j ==> !IdAt(token, j')
  {
    if SearchId(token, i).Some? {
      var j := SearchIdWitness(token, i);
    }
    if exists j :: i <= j < |token| && IdAt(token, j) {
      var j :| i <= j < |token| && IdAt(token, j);
      SearchIdFinds(token, i, j);
    }
  }

  /** The start the search stops at. */
  lemma {:induction false} SearchIdWitness(token: string, i: nat) returns (j: nat)
    requires SearchId(token, i).Some?
    ensures i <= j < |token| && IdAt(token, j) && SearchId(token, i).value == token[j..]
    ensures forall j' :: i <= j' < j ==> !IdAt(token, j')
    decreases |token| - i
  {
    if IdAt(token, i) {
      j := i;
    } else {
      j := SearchIdWitness(token, i + 1);
    }
  }

  /** A matching start at or after `i` is never missed. */
  lemma {:induction false} SearchIdFinds(token: string, i: nat, j: nat)
    requires i <= j < |token| && IdAt(token, j)
    ensures SearchId(token, i).Some?
    decreases j - i
  {
    if i < j && !IdAt(token, i) {
      SearchIdFinds(token, i + 1, j);
    }
  }

  /** An id exists exactly when the token ends in five alphanumerics. */
  lemma ImgurIdExists(token: string)
    ensures SearchId(token, 0).Some? <==> |token| >= 5 && AllAlnum(token[|token| - 5..])
  {
    if |token| >= 5 && AllAlnum(token[|token| - 5..]) {
      assert IdAt(token, |token| - 5);
      SearchIdFinds(token, 0, |token| - 5);
    }
    if SearchId(token, 0).Some? {
      var j := SearchIdWitness(token, 0);
      var id, tail := token[j..], token[|token| - 5..];
      forall i | 0 <= i < 5 ensures IsAsciiAlnum(tail[i]) {
        assert tail[i] == id[|token| - 5 - j + i];
      }
    }
  }

  /** The id found is the token's alphanumeric tail, cut to its last eight
      characters. */
  lemma ImgurIdIsAlnumTail(token: string)
    requires SearchId(token, 0).Some?
    ensures var id := SearchId(token, 0).value;
      && 5 <= |id| <= 8 && AllAlnum(id) && EndsWith(token, id)
      && (|id| == 8 || |id| == |token| || !IsAsciiAlnum(token[|token| - |id| - 1]))
  {
    var j := SearchIdWitness(token, 0);
    var id := token[j..];
    if |id| < 8 && j > 0 {
      EarlierStartMatches(token, j);
    }
    assert EndsWith(token, id);
  }

  /** A match shorter than eight characters preceded by an alphanumeric
      would also match one place earlier. */
  lemma EarlierStartMatches(token: string, j: nat)
    requires 0 < j && IdAt(token, j) && |token| - j < 8
    ensures IsAsciiAlnum(token[j - 1]) ==> IdAt(token, j - 1)
  {
    if IsAsciiAlnum(token[j - 1]) {
      AlnumExtends(token, j);
    }
  }

  /** An alphanumeric tail grows by an alphanumeric character before it. */
  lemma AlnumExtends(token: string, j: nat)
    requires 0 < j <= |token| && AllAlnum(token[j..]) && IsAsciiAlnum(token[j - 1])
    ensures AllAlnum(token[j - 1..])
  {
    var longer, shorter := token[j - 1..], token[j..];
    forall i | 0 < i < |longer| ensures IsAsciiAlnum(longer[i]) {
      assert longer[i] == shorter[i - 1];
    }
  }

  /** `/a/<id>` and `/gallery/<slug>-<id>` give the id at the end of the
      second piece. */
  lemma ImgurAlbumPath(parse: string -> Url, url: string, kind: string, token: string)
    requires kind == "a" || kind == "gallery"
    requires '/' !in token && Trim(parse(url).path, IsSlash) == kind + "/" + token
    ensures ImgurIdFromUrl(parse, url) == SearchId(token, 0)
  {
    NoSlashIn(kind);
    TwoPieces(parse, url, kind, token);
  }

  lemma NoSlashIn(kind: string)
    requires kind == "a" || kind == "gallery"
    ensures '/' !in kind
  {
  }

  /** A path of two or more pieces not starting with `a` or `gallery` has
      no id; after `a` or `gallery`, pieces past the second are ignored. */
  lemma ImgurOtherPaths(parse: string -> Url, url: string)
    requires var parts := PathParts(parse, url);
      |parts| >= 2 && parts[0] != "a" && parts[0] != "gallery"
    ensures ImgurIdFromUrl(parse, url).None?
  {
  }

  // ---------------------------------------------------------------
  // artstation_project_id
  // ---------------------------------------------------------------

  const Artwork: string := "artwork"

  /** `artstation_project_id`: the second piece of an `artwork/...` path. */
  function ArtstationProjectId(parse: string -> Url, url: string): (r: Option<string>)
    ensures r.Some? <==> |PathParts(parse, url)| >= 2 && PathParts(parse, url)[0] == Artwork
    ensures r.Some? ==> '/' !in r.value
  {
    var parts := PathParts(parse, url);
    if |parts| >= 2 && parts[0] == Artwork then Some(parts[1]) else None
  }

  /** `/artwork/<ID>` gives `<ID>`. */
  lemma ArtworkPath(parse: string -> Url, url: string, id: string)
    requires '/' !in id && Trim(parse(url).path, IsSlash) == Artwork + "/" + id
    ensures ArtstationProjectId(parse, url) == Some(id)
  {
    assert '/' !in Artwork;
    TwoPieces(parse, url, Artwork, id);
  }

  // ---------------------------------------------------------------
  // get_provider_handler
  // ---------------------------------------------------------------

  datatype Provider = Imgur | Flickr | ArtStation

  /** `GALLERY_HANDLERS`, in its insertion order. */
  const Registry: seq<(string, Provider)> := [("imgur.com", Imgur), ("flickr.com", Flickr), ("artstation.com", ArtStation)]

  /** The first entry from `k` on whose domain occurs in `host`. */
  function FirstHandler(host: string, k: nat): Option<Provider>
    decreases |Registry| - k
  {
    if k >= |Registry| then None
    else if IsSubstring(Registry[k].0, host) then Some(Registry[k].1)
    else FirstHandler(host, k + 1)
  }

  /** `get_provider_handler`: the lowered netloc is searched for each domain. */
  function GetProviderHandler(parse: string -> Url, url: string): Option<Provider> {
    FirstHandler(Lower(parse(url).netloc), 0)
  }

  /** The handler chosen is the first in registry order whose domain occurs
      in the lowered host; there is none when no domain occurs. */
  lemma {:induction false} HandlerIsFirstMatch(host: string, k: nat)
    requires k <= |Registry|
    ensures FirstHandler(host, k).None? <==> forall j :: k <= j < |Registry| ==> !IsSubstring(Registry[j].0, host)
    ensures FirstHandler(host, k).Some? ==>
      exists j :: k <= j < |Registry| && IsSubstring(Registry[j].0, host)
        && FirstHandler(host, k).value == Registry[j].1
        && forall j' :: k <= j' < j ==> !IsSubstring(Registry[j'].0, host)
    decreases |Registry| - k
  {
    if k < |Registry| && !IsSubstring(Registry[k].0, host) {
      HandlerIsFirstMatch(host, k + 1);
    }
  }

  /** The domain test is a substring test: any host containing
      "imgur.com", even as part of another name, goes to Imgur first. */
  lemma ImgurDomainWins(parse: string -> Url, url: string)
    requires IsSubstring("imgur.com", Lower(parse(url).netloc))
    ensures GetProviderHandler(parse, url) == Some(Imgur)
  {
  }

  // ---------------------------------------------------------------
  // Providers
  // ---------------------------------------------------------------

  /** The truthy strings of a list of optional ones, in order: the
      `if link: images.append(link)` loops. */
  function Present(xs: seq<Option<string>>): (r: seq<string>)
    ensures forall i :: 0 <= i < |r| ==> r[i] != "" && Some(r[i]) in xs
  {
    if xs == [] then []
    else if Truthy(xs[0]) then [xs[0].value] + Present(xs[1..])
    else Present(xs[1..])
  }

  /** What the network answers for one input URL: the Imgur gallery and
      image endpoints (None when the request failed or was not ok), the
      ArtStation project endpoint and page data (None when absent or not a
      list), and the page at the URL as `fetch_html` reads it (None when it
      gave no HTML). */
  datatype Network = Network(
    imgurGallery: Option<seq<Option<string>>>, imgurImage: Option<string>,
    artJson: Option<seq<Option<string>>>, artNextData: Option<seq<Option<string>>>,
    page: Option<HtmlPage>)

  /** An HTML page's `og:image` content and, per `<img>`, its `src` and
      `data-src` attributes. */
  datatype HtmlPage = HtmlPage(ogImage: Option<string>, imgs: seq<(Option<string>, Option<string>)>)

  /** `expand_imgur`: a direct `i.imgur.com` link is itself; otherwise the
      gallery's links, or failing those the single image's link. */
  function ExpandImgur(parse: string -> Url, url: string, net: Network): (r: seq<string>)
    ensures StartsWith(parse(url).netloc, "i.imgur.com") ==> r == [url]
    ensures !StartsWith(parse(url).netloc, "i.imgur.com") && ImgurIdFromUrl(parse, url).None? ==> r == []
  {
    if StartsWith(parse(url).netloc, "i.imgur.com") then [url]
    else if ImgurIdFromUrl(parse, url).None? then []
    else
      var images := if net.imgurGallery.Some? then Present(net.imgurGallery.value) else [];
      if images != [] then images
      else if Truthy(net.imgurImage) then [net.imgurImage.value]
      else []
  }

  /** `expand_artstation` as a reference: the project endpoint's images
      without repeats when there is a project id and the endpoint answered
      with a list (even an empty one); else the fallback fetches the page,
      and parsing a page that gave no HTML raises (None); else the page
      data's images without repeats, else nothing. */
  function ArtstationMedia(parse: string -> Url, url: string, net: Network): (r: Option<seq<string>>)
    ensures r.None? <==> !(Truthy(ArtstationProjectId(parse, url)) && net.artJson.Some?) && net.page.None?
    ensures r.Some? ==> NoDuplicates(r.value)
  {
    var id := ArtstationProjectId(parse, url);
    if Truthy(id) && net.artJson.Some? then Some(Dedup(Present(net.artJson.value)))
    else if net.page.None? then None
    else if net.artNextData.Some? then Some(Dedup(Present(net.artNextData.value)))
    else Some([])
  }

  /** The "seen set plus output list" loop shared by the ArtStation and
      HTML expanders. */
  method DedupPreservingOrder(xs: seq<string>) returns (out: seq<string>)
    ensures out == Dedup(xs)
  {
    var seen: set<string> := {};
    out := [];
    var i := 0;
    while i < |xs|
      invariant 0 <= i <= |xs|
      invariant out == Dedup(xs[..i])
      invariant forall x :: x in seen <==> x in out
    {
      var u := xs[i];
      DedupPrefixStep(xs, i);
      if u !in seen {
        assert forall x :: x in out + [u] <==> x in out || x == u;
        seen := seen + {u};
        out := out + [u];
      }
      i := i + 1;
    }
    assert xs[..i] == xs;
  }

  /** Each de-duplicated list keeps every element exactly once, in order of
      first occurrence. */
  lemma DedupPromise(xs: seq<string>)
    ensures forall x :: x in Dedup(xs) <==> x in xs
    ensures NoDuplicates(Dedup(xs))
    ensures forall i, j :: 0 <= i < j < |Dedup(xs)| ==> FirstIndex(xs, Dedup(xs)[i]) < FirstIndex(xs, Dedup(xs)[j])
  {
    DedupMembers(xs);
    DedupOrder(xs);
  }

  /** `expand_artstation`: the media list, or None when the fallback's
      parse of a missing page raises. */
  method ExpandArtstation(parse: string -> Url, url: string, net: Network) returns (r: Option<seq<string>>)
    ensures r == ArtstationMedia(parse, url, net)
  {
    var id := ArtstationProjectId(parse, url);
    if Truthy(id) && net.artJson.Some? {
      var media := DedupPreservingOrder(Present(net.artJson.value));
      return Some(media);
    }
    if net.page.None? {
      return None;
    }
    if net.artNextData.Some? {
      var media := DedupPreservingOrder(Present(net.artNextData.value));
      return Some(media);
    }
    return Some([]);
  }

  // ---------------------------------------------------------------
  // Generic pages
  // ---------------------------------------------------------------

  /** The `<img>` candidates: `src or data-src`, joined to the page URL and
      kept when it looks like an image. */
  function ImgUrls(parse: string -> Url, join: (string, string) -> string, base: string,
                   imgs: seq<(Option<string>, Option<string>)>): (r: seq<string>)
    ensures forall i :: 0 <= i < |r| ==> IsImageUrl(parse, r[i])
  {
    if imgs == [] then []
    else
      var src := Or(imgs[0].0, imgs[0].1);
      var rest := ImgUrls(parse, join, base, imgs[1..]);
      if Truthy(src) && IsImageUrl(parse, join(base, src.value)) then [join(base, src.value)] + rest
      else rest
  }

  /** One `<img>` at a time. */
  lemma ImgUrlsStep(parse: string -> Url, join: (string, string) -> string, base: string,
                    imgs: seq<(Option<string>, Option<string>)>, i: nat)
    requires i < |imgs|
    ensures var src := Or(imgs[i].0, imgs[i].1);
      ImgUrls(parse, join, base, imgs[i..])
        == (if Truthy(src) && IsImageUrl(parse, join(base, src.value)) then [join(base, src.value)] else [])
           + ImgUrls(parse, join, base, imgs[i + 1..])
  {
    assert imgs[i..][1..] == imgs[i + 1..];
  }

  /** `extract_images_from_html` as a reference: the joined og:image (not
      checked for an extension), then the image `<img>`s, without repeats. */
  function HtmlImages(parse: string -> Url, join: (string, string) -> string, base: string, page: HtmlPage)
    : seq<string>
  {
    var og := if Truthy(page.ogImage) then [join(base, page.ogImage.value)] else [];
    Dedup(og + ImgUrls(parse, join, base, page.imgs))
  }

  /** Every URL collected from a page is the page's og:image or has an
      image path. */
  lemma HtmlImagesAreImages(parse: string -> Url, join: (string, string) -> string, base: string, page: HtmlPage, u: string)
    requires u in HtmlImages(parse, join, base, page)
    ensures (Truthy(page.ogImage) && u == join(base, page.ogImage.value)) || IsImageUrl(parse, u)
  {
    var og := if Truthy(page.ogImage) then [join(base, page.ogImage.value)] else [];
    DedupMembers(og + ImgUrls(parse, join, base, page.imgs));
    if u !in og {
      assert u in ImgUrls(parse, join, base, page.imgs);
    }
  }

  method ExtractImagesFromHtml(parse: string -> Url, join: (string, string) -> string, base: string, page: HtmlPage)
    returns (r: seq<string>)
    ensures r == HtmlImages(parse, join, base, page)
  {
    var urls: seq<string> := [];
    if Truthy(page.ogImage) {
      urls := urls + [join(base, page.ogImage.value)];
      assert urls == [join(base, page.ogImage.value)];
    }
    var og := urls;
    var i := 0;
    assert page.imgs[0..] == page.imgs;
    while i < |page.imgs|
      invariant 0 <= i <= |page.imgs|
      invariant urls + ImgUrls(parse, join, base, page.imgs[i..]) == og + ImgUrls(parse, join, base, page.imgs)
    {
      var src := Or(page.imgs[i].0, page.imgs[i].1);
      var rest := ImgUrls(parse, join, base, page.imgs[i + 1..]);
      ImgUrlsStep(parse, join, base, page.imgs, i);
      if Truthy(src) {
        var absUrl := join(base, src.value);
        if IsImageUrl(parse, absUrl) {
          assert (urls + [absUrl]) + rest == urls + ([absUrl] + rest);
          urls := urls + [absUrl];
        }
      }
      i := i + 1;
    }
    assert page.imgs[i..] == [];
    assert urls + [] == urls;
    assert urls == og + ImgUrls(parse, join, base, page.imgs);
    r := DedupPreservingOrder(urls);
  }

  /** `expand_generic` as a reference: a direct image is itself; otherwise
      the page's images, or nothing when no HTML came back. */
  function GenericMedia(parse: string -> Url, join: (string, string) -> string, url: string, net: Network)
    : seq<string>
  {
    if IsImageUrl(parse, url) then [url]
    else if net.page.None? then []
    else HtmlImages(parse, join, url, net.page.value)
  }

  method ExpandGeneric(parse: string -> Url, join: (string, string) -> string, url: string, net: Network)
    returns (r: seq<string>)
    ensures r == GenericMedia(parse, join, url, net)
  {
    if IsImageUrl(parse, url) {
      return [url];
    }
    if net.page.None? {
      return [];
    }
    r := ExtractImagesFromHtml(parse, join, url, net.page.value);
  }

  /** A direct image URL expands to itself whatever the network says. */
  lemma GenericImageShortCircuit(parse: string -> Url, join: (string, string) -> string, url: string, n1: Network, n2: Network)
    requires IsImageUrl(parse, url)
    ensures GenericMedia(parse, join, url, n1) == GenericMedia(parse, join, url, n2) == [url]
  {
  }

  // ---------------------------------------------------------------
  // expand_url and expand_urls
  // ---------------------------------------------------------------

  /** The media URLs of `url`: its provider's, or the generic expansion's;
      None when the provider raised. */
  function MediaFor(parse: string -> Url, join: (string, string) -> string, url: string, net: Network)
    : Option<seq<string>>
  {
    match GetProviderHandler(parse, url)
    case Some(Imgur) => Some(ExpandImgur(parse, url, net))
    case Some(Flickr) => Some([])
    case Some(ArtStation) => ArtstationMedia(parse, url, net)
    case None => Some(GenericMedia(parse, join, url, net))
  }

  /** A Flickr URL always expands to nothing. */
  lemma FlickrIsEmpty(parse: string -> Url, join: (string, string) -> string, url: string, net: Network)
    requires !IsSubstring("imgur.com", Lower(parse(url).netloc))
    requires IsSubstring("flickr.com", Lower(parse(url).netloc))
    ensures MediaFor(parse, join, url, net) == Some([])
  {
  }

  datatype ExpandKind = UnknownKind | Single | Gallery

  datatype Item = Item(
    url: string, previewType: PreviewType, previewUrl: Option<string>,
    normalized: Option<string>, sourceUrl: string)

  /** The expansion of one URL, or the exception a preview or the
      ArtStation fallback raised. */
  datatype Expansion = ExpandRaised | Expanded(inputUrl: string, kind: ExpandKind, items: seq<Item>)

  /** The item for media URL `m` of input `url`, given its preview. */
  function ItemOf(m: string, url: string, p: Preview): Item {
    Item(m, p.previewType, p.previewUrl, p.normalized, url)
  }

  /** The preview extraction of each media URL, in order. */
  function Extractions(parse: string -> Url, join: (string, string) -> string,
                       media: seq<string>, pageOf: string -> Fetch): (es: seq<Extraction>)
    ensures |es| == |media|
    ensures forall k :: 0 <= k < |media| ==> es[k] == ExtractPreview(parse, join, media[k], pageOf(media[k]))
  {
    seq(|media|, k requires 0 <= k < |media| => ExtractPreview(parse, join, media[k], pageOf(media[k])))
  }

  /** Some extraction raised. */
  predicate SomeRaised(es: seq<Extraction>) {
    exists k :: 0 <= k < |es| && es[k].Raised?
  }

  /** The items for media URLs `media` of input `url` given their
      extractions `es`, one per URL in order, or None when one raised. */
  function ItemsOf(media: seq<string>, es: seq<Extraction>, url: string): Option<seq<Item>>
    requires |es| == |media|
    decreases |media|
  {
    if media == [] then Some([])
    else
      var n := |media| - 1;
      match ItemsOf(media[..n], es[..n], url)
      case None => None
      case Some(items) =>
        match es[n]
        case Raised => None
        case Extracted(p) => Some(items + [ItemOf(media[n], url, p)])
  }

  /** `expand_url`'s result for input `url` with media URLs `media`. */
  function ExpansionOf(parse: string -> Url, join: (string, string) -> string, url: string,
                       media: seq<string>, pageOf: string -> Fetch): Expansion
  {
    if media == [] then Expanded(url, UnknownKind, [])
    else match ItemsOf(media, Extractions(parse, join, media, pageOf), url)
      case None => ExpandRaised
      case Some(items) => Expanded(url, if |items| > 1 then Gallery else Single, items)
  }

  /** The items are None exactly when an extraction raised, and otherwise
      hold one item per media URL, built from its preview, in order. */
  lemma {:induction false} ItemsOfPreviews(media: seq<string>, es: seq<Extraction>, url: string)
    requires |es| == |media|
    ensures ItemsOf(media, es, url).None? <==> SomeRaised(es)
    ensures ItemsOf(media, es, url).Some? ==>
      var items := ItemsOf(media, es, url).value;
      |items| == |media| && forall k :: 0 <= k < |media| ==>
        es[k].Extracted? && items[k] == ItemOf(media[k], url, es[k].preview)
    decreases |media|
  {
    if media != [] {
      var n := |media| - 1;
      ItemsOfPreviews(media[..n], es[..n], url);
      if SomeRaised(es[..n]) {
        var k :| 0 <= k < n && es[..n][k].Raised?;
        assert es[k].Raised?;
      }
      if SomeRaised(es) && !es[n].Raised? {
        var k :| 0 <= k < |es| && es[k].Raised?;
        assert es[..n][k].Raised?;
      }
    }
  }

  /** `r` is the expansion of `url` with media `media`: unknown and empty
      without media; otherwise one item per media URL in order, each built
      from that URL's preview and naming `url` as its source, "gallery" for
      more than one and "single" for one. */
  predicate Shaped(r: Expansion, url: string, media: seq<string>, parse: string -> Url,
                   join: (string, string) -> string, pageOf: string -> Fetch) {
    && r.Expanded?
    && r.inputUrl == url
    && (r.kind == UnknownKind <==> media == [])
    && (r.kind == Gallery <==> |media| > 1)
    && (r.kind == Single <==> |media| == 1)
    && |r.items| == |media|
    && forall k :: 0 <= k < |media| ==>
         var e := ExtractPreview(parse, join, media[k], pageOf(media[k]));
         e.Extracted? && r.items[k] == ItemOf(media[k], url, e.preview)
  }

  /** What `expand_url` promises: it raises exactly when some media URL's
      preview raises, and otherwise its result has the shape above. */
  lemma ExpansionShape(parse: string -> Url, join: (string, string) -> string, url: string,
                       media: seq<string>, pageOf: string -> Fetch)
    ensures var r := ExpansionOf(parse, join, url, media, pageOf);
      && (r.ExpandRaised? <==> SomeRaised(Extractions(parse, join, media, pageOf)))
      && (r.Expanded? ==> Shaped(r, url, media, parse, join, pageOf))
  {
    var es := Extractions(parse, join, media, pageOf);
    ItemsOfPreviews(media, es, url);
  }

  /** The items after one more media URL. */
  lemma ItemsStep(media: seq<string>, es: seq<Extraction>, url: string, i: nat)
    requires |es| == |media| && i < |media|
    ensures ItemsOf(media[..i + 1], es[..i + 1], url)
      == match ItemsOf(media[..i], es[..i], url)
         case None => None
         case Some(items) =>
           match es[i]
           case Raised => None
           case Extracted(p) => Some(items + [ItemOf(media[i], url, p)])
  {
    assert media[..i + 1][..i] == media[..i];
    assert es[..i + 1][..i] == es[..i];
  }

  /** The loop of `expand_url` over the media URLs `media` of `url`. */
  method ExpandMedia(parse: string -> Url, join: (string, string) -> string, url: string,
                     media: seq<string>, pageOf: string -> Fetch)
    returns (r: Expansion)
    ensures r == ExpansionOf(parse, join, url, media, pageOf)
  {
    if media == [] {
      return Expanded(url, UnknownKind, []);
    }
    ghost var es := Extractions(parse, join, media, pageOf);
    var items: seq<Item> := [];
    var i := 0;
    while i < |media|
      invariant 0 <= i <= |media| && |items| == i
      invariant ItemsOf(media[..i], es[..i], url) == Some(items)
    {
      var preview := ExtractPreview(parse, join, media[i], pageOf(media[i]));
      assert preview == es[i];
      ItemsStep(media, es, url, i);
      if preview.Raised? {
        ItemsRaisedStays(media, es, url, i + 1);
        return ExpandRaised;
      }
      items := items + [ItemOf(media[i], url, preview.preview)];
      i := i + 1;
    }
    assert media[..i] == media && es[..i] == es;
    return Expanded(url, if |items| > 1 then Gallery else Single, items);
  }

  /** `expand_url`'s result for input `url` with network answers `net`. */
  function ExpansionFor(parse: string -> Url, join: (string, string) -> string, url: string,
                        net: Network, pageOf: string -> Fetch): Expansion
  {
    match MediaFor(parse, join, url, net)
    case None => ExpandRaised
    case Some(media) => ExpansionOf(parse, join, url, media, pageOf)
  }

  /** `expand_url`: the provider's (or the generic) media URLs, expanded. */
  method ExpandUrl(parse: string -> Url, join: (string, string) -> string, url: string,
                   net: Network, pageOf: string -> Fetch)
    returns (r: Expansion)
    ensures r == ExpansionFor(parse, join, url, net, pageOf)
  {
    var handler := GetProviderHandler(parse, url);
    var media: seq<string>;
    match handler {
      case Some(Imgur) => media := ExpandImgur(parse, url, net);
      case Some(Flickr) => media := [];
      case Some(ArtStation) =>
        var art := ExpandArtstation(parse, url, net);
        if art.None? {
          return ExpandRaised;
        }
        media := art.value;
      case None => media := ExpandGeneric(parse, join, url, net);
    }
    assert MediaFor(parse, join, url, net) == Some(media);
    r := ExpandMedia(parse, join, url, media, pageOf);
  }

  /** An ArtStation URL whose project endpoint gives no list and whose page
      gives no HTML makes the whole expansion raise, whatever the previews. */
  lemma ArtstationWithoutPageRaises(parse: string -> Url, join: (string, string) -> string, url: string,
                                    net: Network, pageOf: string -> Fetch)
    requires GetProviderHandler(parse, url) == Some(ArtStation)
    requires !(Truthy(ArtstationProjectId(parse, url)) && net.artJson.Some?) && net.page.None?
    ensures ExpansionFor(parse, join, url, net, pageOf) == ExpandRaised
  {
  }

  /** Once an extraction has raised, later media URLs do not bring the
      items back. */
  lemma {:induction false} ItemsRaisedStays(media: seq<string>, es: seq<Extraction>, url: string, i: nat)
    requires |es| == |media| && i <= |media|
    requires ItemsOf(media[..i], es[..i], url).None?
    ensures ItemsOf(media, es, url).None?
    decreases |media| - i
  {
    if i < |media| {
      ItemsStep(media, es, url, i);
      ItemsRaisedStays(media, es, url, i + 1);
    } else {
      assert media[..i] == media && es[..i] == es;
    }
  }

  /** The expansion of each input URL, in order. */
  function Expansions(parse: string -> Url, join: (string, string) -> string, urls: seq<string>,
                      netOf: string -> Network, pageOf: string -> Fetch): seq<Expansion>
  {
    seq(|urls|, k requires 0 <= k < |urls| => ExpansionFor(parse, join, urls[k], netOf(urls[k]), pageOf))
  }

  /** `expand_urls`: one expansion per input URL, in order; the call raises
      (None) as soon as one expansion does. */
  method ExpandUrls(parse: string -> Url, join: (string, string) -> string, urls: seq<string>,
                    netOf: string -> Network, pageOf: string -> Fetch)
    returns (out: Option<seq<Expansion>>)
    ensures var all := Expansions(parse, join, urls, netOf, pageOf);
      out == if exists k :: 0 <= k < |all| && all[k].ExpandRaised? then None else Some(all)
  {
    ghost var all := Expansions(parse, join, urls, netOf, pageOf);
    var results: seq<Expansion> := [];
    var i := 0;
    while i < |urls|
      invariant 0 <= i <= |urls|
      invariant results == all[..i]
      invariant forall k :: 0 <= k < |results| ==> !results[k].ExpandRaised?
    {
      var r := ExpandUrl(parse, join, urls[i], netOf(urls[i]), pageOf);
      assert r == all[i];
      if r.ExpandRaised? {
        return None;
      }
      PrefixSnoc(all, i);
      results := results + [r];
      i := i + 1;
    }
    assert all[..i] == all;
    return Some(results);
  }
}
