/**
 * The decisions x_client.py makes without the network: the YouTube video id
 * of a link, whether a thumbnail is fetched and attached, the dry-run media
 * id, and the payload and dry-run branch of posting. What an HTTP request
 * answers is an input; what the client would send is part of the result.
 */
module XClient {
  import opened Wrappers
  import opened Text
  import Settings

  /**
   * The parts of `urlparse(url)` that `_extract_yt_id` reads, with the query
   * already decoded by `parse_qs` (each key to its list of values).
   */
  datatype UrlParts = UrlParts(netloc: string, path: string, query: map<string, seq<string>>)

  /** The hosts of short links. */
  predicate IsShortHost(netloc: string) {
    netloc == "youtu.be" || netloc == "www.youtu.be"
  }

  /** Every character of `s` is `/`. */
  predicate AllSlashes(s: string) {
    forall i :: 0 <= i < |s| ==> s[i] == '/'
  }

  /** The text of `s` before its first `/`: all of `s` when it has none. */
  function UpToSlash(s: string): (r: string)
    ensures '/' !in r && StartsWith(s, r)
    ensures |r| == |s| || s[|r|] == '/'
  {
    var n := CountLeading(s, c => !IsSlash(c));
    assert forall i :: 0 <= i < n ==> s[..n][i] == s[i];
    s[..n]
  }

  /** A `youtube.com` link (and not a short link). */
  predicate IsLongHost(netloc: string) {
    !IsShortHost(netloc) && Contains(netloc, "youtube.com")
  }

  /**
   * `_extract_yt_id`: the path of a short link without its leading slashes;
   * the first `v` value of a `/watch` link; the third `/`-separated segment of
   * a `/shorts/` or `/embed/` link; nothing otherwise.
   */
  function ExtractYtId(u: UrlParts): (r: Option<string>)
    ensures !IsShortHost(u.netloc) && !Contains(u.netloc, "youtube.com") ==> r.None?
    ensures IsShortHost(u.netloc) ==> (r.None? <==> AllSlashes(u.path))
    ensures IsShortHost(u.netloc) && r.Some? ==>
              r.value != "" && r.value[0] != '/' && r.value == u.path[CountLeading(u.path, IsSlash)..]
    ensures IsLongHost(u.netloc) && u.path == "/watch" ==>
              (r.Some? <==> "v" in u.query && |u.query["v"]| > 0)
    ensures IsLongHost(u.netloc) && u.path == "/watch" && r.Some? ==> r.value == u.query["v"][0]
    ensures IsLongHost(u.netloc) && StartsWith(u.path, ShortsPrefix) ==>
              r == Some(UpToSlash(u.path[|ShortsPrefix|..]))
    ensures IsLongHost(u.netloc) && !StartsWith(u.path, ShortsPrefix) && StartsWith(u.path, EmbedPrefix) ==>
              r == Some(UpToSlash(u.path[|EmbedPrefix|..]))
    ensures IsLongHost(u.netloc) && u.path != "/watch" && !StartsWith(u.path, ShortsPrefix) && !StartsWith(u.path, EmbedPrefix) ==>
              r.None?
  {
    if IsShortHost(u.netloc) then
      var id := TrimStart(u.path, IsSlash);
      var lead := CountLeading(u.path, IsSlash);
      assert id == u.path[lead..];
      if id == "" then None else Some(id)
    else if Contains(u.netloc, "youtube.com") then
      if u.path == "/watch" then
        if "v" in u.query && |u.query["v"]| > 0 then Some(u.query["v"][0]) else None
      else if StartsWith(u.path, ShortsPrefix) || StartsWith(u.path, EmbedPrefix) then
        var parts := Split(u.path, '/');
        var kind := if StartsWith(u.path, ShortsPrefix) then ShortsKind else EmbedKind;
        SplitSegmentOf(kind, u.path);
        if |parts| > 2 then Some(parts[2]) else None
      else None
    else None
  }

  /** The path kinds whose second segment is the video id. */
  const ShortsKind: string := "shorts"
  const EmbedKind: string := "embed"
  const ShortsPrefix: string := "/" + ShortsKind + "/"
  const EmbedPrefix: string := "/" + EmbedKind + "/"

  /** A short link gives back the id it was built from. */
  lemma ShortLinkRoundTrip(id: string, q: map<string, seq<string>>)
    requires id != "" && id[0] != '/'
    ensures ExtractYtId(UrlParts("youtu.be", "/" + id, q)) == Some(id)
  {
    var path := "/" + id;
    assert CountLeading(path, IsSlash) == 1 by {
      assert path[1..] == id;
    }
    assert path[1..] == id;
  }

  /** A `/watch` link gives back the first `v` value it carries. */
  lemma WatchRoundTrip(host: string, id: string, more: seq<string>, q: map<string, seq<string>>)
    requires Contains(host, "youtube.com") && !IsShortHost(host)
    ensures ExtractYtId(UrlParts(host, "/watch", q["v" := [id] + more])) == Some(id)
  {
  }

  /** The segments of `/<kind>/<id><tail>` when `id` has no slash and `tail` is empty or starts with one. */
  lemma SplitSegmentPath(kind: string, id: string, tail: string)
    requires '/' !in kind && '/' !in id
    requires tail == "" || tail[0] == '/'
    ensures var parts := Split("/" + kind + "/" + id + tail, '/');
            |parts| > 2 && parts[0] == "" && parts[1] == kind && parts[2] == id
  {
    var x := id + tail;
    var s := "/" + kind + "/" + x;
    assert s == "/" + (kind + ("/" + x));
    assert s[0] == '/' && s[1..] == kind + ("/" + x);
    assert Split(s, '/') == [""] + Split(kind + ("/" + x), '/');
    SplitPrefix(kind, "/" + x, '/');
    assert ("/" + x)[0] == '/' && ("/" + x)[1..] == x;
    assert Split("/" + x, '/') == [""] + Split(x, '/');
    assert kind + "" == kind;
    assert Split(kind + ("/" + x), '/') == [kind] + Split(x, '/');
    SplitPrefix(id, tail, '/');
    assert Split(tail, '/')[0] == "" by {
      if tail != "" {
        assert Split(tail, '/') == [""] + Split(tail[1..], '/');
      }
    }
    assert id + "" == id;
    assert Split(x, '/')[0] == id;
    assert "/" + kind + "/" + id + tail == s;
  }

  /** The third segment of `/<kind>/<rest>` is `rest` up to its first `/`. */
  lemma SplitSegmentOf(kind: string, path: string)
    requires '/' !in kind && StartsWith(path, "/" + kind + "/")
    ensures var parts := Split(path, '/');
            |parts| > 2 && parts[2] == UpToSlash(path[|kind| + 2..])
  {
    var rest := path[|kind| + 2..];
    var id := UpToSlash(rest);
    var tail := rest[|id|..];
    assert rest == id + tail;
    assert path == "/" + kind + "/" + id + tail by {
      assert path == path[..|kind| + 2] + rest;
    }
    SplitSegmentPath(kind, id, tail);
  }

  /** A `/shorts/` link gives back the segment after `/shorts/`. */
  lemma ShortsRoundTrip(host: string, id: string, tail: string, q: map<string, seq<string>>)
    requires IsLongHost(host)
    requires '/' !in id && (tail == "" || tail[0] == '/')
    ensures ExtractYtId(UrlParts(host, ShortsPrefix + id + tail, q)) == Some(id)
  {
    SegmentRoundTrip(host, ShortsKind, id, tail, q);
  }

  /** An `/embed/` link gives back the segment after `/embed/`. */
  lemma EmbedRoundTrip(host: string, id: string, tail: string, q: map<string, seq<string>>)
    requires IsLongHost(host)
    requires '/' !in id && (tail == "" || tail[0] == '/')
    ensures ExtractYtId(UrlParts(host, EmbedPrefix + id + tail, q)) == Some(id)
  {
    SegmentRoundTrip(host, EmbedKind, id, tail, q);
  }

  lemma SegmentRoundTrip(host: string, kind: string, id: string, tail: string, q: map<string, seq<string>>)
    requires IsLongHost(host) && (kind == ShortsKind || kind == EmbedKind)
    requires '/' !in id && (tail == "" || tail[0] == '/')
    ensures ExtractYtId(UrlParts(host, "/" + kind + "/" + id + tail, q)) == Some(id)
  {
    var path := "/" + kind + "/" + id + tail;
    SplitSegmentPath(kind, id, tail);
    assert StartsWith(path, "/" + kind + "/") by {
      assert path[..|kind| + 2] == "/" + kind + "/";
    }
    SplitSegmentOf(kind, path);
    assert path != "/watch" by {
      assert path[1] == kind[0];
    }
  }

  // ---------------------------------------------------------------------------
  // Thumbnail and media upload
  // ---------------------------------------------------------------------------

  /**
   * `_upload_image_v11`: in dry-run the media id is `"0"`; otherwise `remote`
   * is the id the upload endpoint answered with (`None` when the request
   * failed or the answer had no id), and a missing id raises.
   */
  function UploadImage(cfg: Settings.Config, remote: Option<string>): (r: Result<string, string>)
    ensures cfg.dryRun ==> r == Success("0")
    ensures !cfg.dryRun ==> (r.Success? <==> remote.Some? && remote.value != "")
    ensures r.Success? ==> r.value != ""
  {
    if cfg.dryRun then Success("0")
    else if remote.Some? && remote.value != "" then Success(remote.value)
    else Failure("media upload answered without media_id")
  }

  /** The still image fetched for a video. */
  function ThumbnailUrl(vid: string, quality: string): string {
    "https://img.youtube.com/vi/" + vid + "/" + quality + ".jpg"
  }

  /** What `prepare_thumbnail_if_enabled` did: the image it fetched, if any, and the media ids it returns. */
  datatype ThumbResult = ThumbResult(fetched: Option<string>, media: Option<seq<string>>)

  /**
   * `prepare_thumbnail_if_enabled`: `fetchOk` is whether the image request
   * answered successfully and `remote` what the upload endpoint answered.
   */
  function PrepareThumbnail(cfg: Settings.Config, u: UrlParts, platform: string,
                            fetchOk: bool, remote: Option<string>): (r: ThumbResult)
    ensures r.fetched.None? <==>
              !cfg.attachThumbnail || platform != "YouTube"
              || ExtractYtId(u).None? || ExtractYtId(u).value == ""
    ensures r.fetched.Some? ==> r.fetched.value == ThumbnailUrl(ExtractYtId(u).value, cfg.thumbnailQuality)
    ensures r.media.Some? ==>
              && r.fetched.Some? && fetchOk && Lower(cfg.authMethod) == "oauth1"
              && |r.media.value| == 1 && r.media.value[0] != ""
    ensures r.fetched.Some? && fetchOk && Lower(cfg.authMethod) == "oauth1" && cfg.dryRun ==>
              r.media == Some(["0"])
  {
    if !cfg.attachThumbnail || platform != "YouTube" then ThumbResult(None, None)
    else
      var vid := ExtractYtId(u);
      if vid.None? || vid.value == "" then ThumbResult(None, None)
      else
        var fetched := Some(ThumbnailUrl(vid.value, cfg.thumbnailQuality));
        if !fetchOk || Lower(cfg.authMethod) != "oauth1" then ThumbResult(fetched, None)
        else
          match UploadImage(cfg, remote)
          case Success(id) => ThumbResult(fetched, Some([id]))
          case Failure(_) => ThumbResult(fetched, None)
  }

  // ---------------------------------------------------------------------------
  // Posting
  // ---------------------------------------------------------------------------

  /** The JSON body of a post: the text, and the media ids when there are any. */
  datatype Payload = Payload(text: string, media: Option<seq<string>>)

  /** The body `post_text` builds: a `media` entry only for a non-empty id list. */
  function MakePayload(text: string, mediaIds: Option<seq<string>>): (p: Payload)
    ensures p.text == text
    ensures p.media.Some? <==> mediaIds.Some? && |mediaIds.value| > 0
    ensures p.media.Some? ==> p.media == mediaIds
  {
    if mediaIds.Some? && |mediaIds.value| > 0 then Payload(text, mediaIds) else Payload(text, None)
  }

  /**
   * How `post_text` ends before the network: the dry-run answer with the
   * payload, or the request it sends after waiting `waitSeconds`, signed with
   * OAuth 1.0a or with the bearer token.
   */
  datatype PostOutcome =
    | DryRunPost(payload: Payload)
    | Request(payload: Payload, waitSeconds: int, oauth1: bool)

  /** `post_text` up to the HTTP call. */
  function PostText(cfg: Settings.Config, text: string, mediaIds: Option<seq<string>>): (r: PostOutcome)
    ensures r.payload.text == text
    ensures r.payload.media.Some? <==> mediaIds.Some? && |mediaIds.value| > 0
    ensures r.payload.media.Some? ==> r.payload.media == mediaIds
    ensures r.payload == MakePayload(text, mediaIds)
    ensures r.DryRunPost? <==> cfg.dryRun
    ensures r.Request? ==> r.waitSeconds >= 0 && (r.waitSeconds > 0 <==> cfg.previewWaitSeconds > 0)
    ensures r.Request? && r.waitSeconds > 0 ==> r.waitSeconds == cfg.previewWaitSeconds
    ensures r.Request? ==> (r.oauth1 <==> Lower(cfg.authMethod) == "oauth1")
  {
    var payload := MakePayload(text, mediaIds);
    if cfg.dryRun then DryRunPost(payload)
    else
      var wait := if cfg.previewWaitSeconds > 0 then cfg.previewWaitSeconds else 0;
      Request(payload, wait, Lower(cfg.authMethod) == "oauth1")
  }

  /**
   * In dry-run with thumbnails on and OAuth 1.0a, a YouTube link with a video
   * id whose image fetch succeeds is posted with the placeholder media id.
   */
  lemma DryRunAttachesPlaceholder(cfg: Settings.Config, u: UrlParts, text: string, remote: Option<string>)
    requires cfg.dryRun && cfg.attachThumbnail && Lower(cfg.authMethod) == "oauth1"
    requires ExtractYtId(u).Some? && ExtractYtId(u).value != ""
    ensures var thumb := PrepareThumbnail(cfg, u, "YouTube", true, remote);
            PostText(cfg, text, thumb.media) == DryRunPost(Payload(text, Some(["0"])))
  {
  }
}
