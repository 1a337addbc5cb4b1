/** The single-URL intake form: the site guessed from the URL, the request
    the form sends, and the reset after a successful create. URL parsing is
    the browser's; here it is a parameter `hostOf` that gives the hostname
    of a URL, or None when the URL does not parse. */
module UrlInput {
  import opened Common

  const HttpsPrefix: string := "https://"
  const Www: string := "www."
  const Unknown: string := "unknown"
  const DefaultError: string := "Failed to create content"

  /** The URL as the form completes it: unchanged when it starts with
      "http" (case-sensitive), otherwise with "https://" in front. */
  function WithScheme(raw: string): (r: string)
    ensures StartsWith(r, "http")
  {
    if StartsWith(raw, "http") then raw else HttpsPrefix + raw
  }

  /** `hostname.replace(/^www\./, "")`: one leading "www." removed. */
  function StripWww(host: string): (r: string)
    ensures StartsWith(host, Www) ==> host == Www + r
    ensures !StartsWith(host, Www) ==> r == host
  {
    if StartsWith(host, Www) then host[|Www|..] else host
  }

  /** `guessSite`: the hostname of the completed URL without a leading
      "www.", or "" when it does not parse. */
  function GuessSite(hostOf: string -> Option<string>, raw: string): string {
    match hostOf(WithScheme(raw))
    case None => ""
    case Some(host) => StripWww(host)
  }

  /** A URL that does not parse gives no suggestion; one that does gives its
      host, less one "www." label. */
  lemma GuessSiteMeaning(hostOf: string -> Option<string>, raw: string)
    ensures hostOf(WithScheme(raw)).None? ==> GuessSite(hostOf, raw) == ""
    ensures hostOf(WithScheme(raw)).Some? ==>
      (hostOf(WithScheme(raw)).value == GuessSite(hostOf, raw)
       || hostOf(WithScheme(raw)).value == Www + GuessSite(hostOf, raw))
    ensures StartsWith(raw, "http") ==> WithScheme(raw) == raw
    ensures !StartsWith(raw, "http") ==> WithScheme(raw) == HttpsPrefix + raw
  {
  }

  /** A field value, trimmed, or "unknown" when that leaves nothing. */
  function OrUnknown(s: string): (r: string)
    ensures r != ""
  {
    var t := JsTrim(s);
    if t == "" then Unknown else t
  }

  /** The `site` sent: the typed site if it is non-empty (even when it is
      only whitespace), else the suggestion; trimmed, or "unknown". */
  function SiteField(site: string, suggested: string): (r: string)
    ensures r != ""
  {
    OrUnknown(if site != "" then site else suggested)
  }

  /** A typed site made only of whitespace is not replaced by the
      suggestion: it becomes "unknown". */
  lemma BlankTypedSiteIsUnknown(site: string, suggested: string)
    requires site != "" && forall i :: 0 <= i < |site| ==> IsJsSpace(site[i])
    ensures SiteField(site, suggested) == Unknown
  {
    TrimEmptyIffAllSpace(site, IsJsSpace);
  }

  /** A non-blank value is sent trimmed; a blank one as "unknown". */
  lemma OrUnknownMeaning(s: string)
    ensures OrUnknown(s) == Unknown <==>
      (forall i :: 0 <= i < |s| ==> IsJsSpace(s[i])) || JsTrim(s) == Unknown
    ensures (exists i :: 0 <= i < |s| && !IsJsSpace(s[i])) ==> OrUnknown(s) == JsTrim(s)
  {
    TrimEmptyIffAllSpace(s, IsJsSpace);
  }

  datatype Kind = Image | Video

  /** The body of `createContent`. */
  datatype CreateRequest = CreateRequest(url: string, site: string, creator: string, kind: Kind)

  /** The answer to `createContent`: success, or an error with its message. */
  datatype CreateResponse = Created | CreateFailed(message: string)

  /** The request `handleSubmit` sends for the form's fields: none for a
      blank URL; otherwise the trimmed URL completed to "https://", the site
      field (falling back on the site guessed from the untrimmed URL), the
      creator or "unknown", and the type. */
  function RequestFor(hostOf: string -> Option<string>, url: string, site: string,
                      creator: string, kind: Kind): (r: Option<CreateRequest>)
    ensures r.None? <==> JsTrim(url) == ""
    ensures r.Some? ==>
      r.value.url == WithScheme(JsTrim(url))
      && r.value.site == SiteField(site, GuessSite(hostOf, url))
      && r.value.creator == OrUnknown(creator)
      && r.value.kind == kind
      && r.value.site != "" && r.value.creator != ""
  {
    var trimmed := JsTrim(url);
    if trimmed == "" then None
    else Some(CreateRequest(WithScheme(trimmed), SiteField(site, GuessSite(hostOf, url)), OrUnknown(creator), kind))
  }

  /** Submitting ignores exactly the URLs made only of whitespace. */
  lemma BlankUrlIgnored(hostOf: string -> Option<string>, url: string, site: string,
                        creator: string, kind: Kind)
    ensures RequestFor(hostOf, url, site, creator, kind).None? <==>
      forall i :: 0 <= i < |url| ==> IsJsSpace(url[i])
  {
    TrimEmptyIffAllSpace(url, IsJsSpace);
  }

  class UrlInputForm {
    /** The browser's URL parser. */
    const hostOf: string -> Option<string>
    var url: string
    var site: string
    var creator: string
    var kind: Kind
    var loading: bool
    var error: Option<string>

    constructor(hostOf: string -> Option<string>)
      ensures this.hostOf == hostOf
      ensures url == "" && site == "" && creator == "" && kind == Image
      ensures !loading && error == None
    {
      this.hostOf := hostOf;
      url := "";
      site := "";
      creator := "";
      kind := Image;
      loading := false;
      error := None;
    }

    /** `suggestedSite`. */
    function SuggestedSite(): string
      reads this
    {
      GuessSite(hostOf, url)
    }

    /** The Add button is enabled. */
    predicate ButtonEnabled()
      reads this
    {
      !loading && JsTrim(url) != ""
    }

    method SetUrl(u: string)
      modifies this
      ensures url == u
      ensures site == old(site) && creator == old(creator) && kind == old(kind)
      ensures loading == old(loading) && error == old(error)
    {
      url := u;
    }

    method SetSite(s: string)
      modifies this
      ensures site == s
      ensures url == old(url) && creator == old(creator) && kind == old(kind)
      ensures loading == old(loading) && error == old(error)
    {
      site := s;
    }

    method SetCreator(c: string)
      modifies this
      ensures creator == c
      ensures url == old(url) && site == old(site) && kind == old(kind)
      ensures loading == old(loading) && error == old(error)
    {
      creator := c;
    }

    method SetKind(k: Kind)
      modifies this
      ensures kind == k
      ensures url == old(url) && site == old(site) && creator == old(creator)
      ensures loading == old(loading) && error == old(error)
    {
      kind := k;
    }

    /** `handleSubmit` up to the request (Enter submits even while loading;
        only the button is disabled then). A blank URL does nothing;
        otherwise loading starts, the error clears, and `RequestFor` is sent. */
    method Submit() returns (sent: Option<CreateRequest>)
      modifies this
      ensures sent == RequestFor(hostOf, old(url), old(site), old(creator), old(kind))
      ensures sent.None? ==> loading == old(loading) && error == old(error)
      ensures sent.Some? ==> loading && error == None
      ensures url == old(url) && site == old(site) && creator == old(creator) && kind == old(kind)
    {
      sent := RequestFor(hostOf, url, site, creator, kind);
      if sent.Some? {
        StartLoading();
      }
    }

    /** `setLoading(true); setError(null)`. */
    method StartLoading()
      modifies this
      ensures loading && error == None
      ensures url == old(url) && site == old(site) && creator == old(creator) && kind == old(kind)
    {
      loading := true;
      error := None;
    }

    /** The create answers. Success resets the inputs (and then the parent's
        `onCreated` runs, reported by `notified`); failure keeps them and
        shows the error's message, or a default one when it is empty.
        Loading ends either way. */
    method SubmitAnswered(resp: CreateResponse) returns (notified: bool)
      modifies this
      ensures !loading
      ensures notified <==> resp.Created?
      ensures resp.Created? ==>
        url == "" && site == "" && creator == "" && kind == Image && error == old(error)
      ensures resp.CreateFailed? ==>
        url == old(url) && site == old(site) && creator == old(creator) && kind == old(kind)
        && error == Some(if resp.message != "" then resp.message else DefaultError)
    {
      match resp {
        case Created =>
          url := "";
          site := "";
          creator := "";
          kind := Image;
          notified := true;
        case CreateFailed(message) =>
          error := Some(if message != "" then message else DefaultError);
          notified := false;
      }
      loading := false;
    }
  }
}
