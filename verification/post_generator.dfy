/**
 * The post text of post_generator.py: the per-platform hashtag line, the
 * campaign slug, the optional UTM tagging of the link, and the cascade that
 * keeps the copy within 280 characters while always keeping the headline and
 * the link. URL rewriting itself (`urlparse`/`urlencode`) and the date
 * rendering (`astimezone().strftime`) are given as inputs.
 */
module PostGenerator {
  import opened Wrappers
  import opened Text
  import Settings

  /** The length limit of one post. */
  const Limit: int := 280

  const Ellipsis: char := '\U{2026}'

  /** `PLATFORM_TAGS`: three hashtags per known platform, `#TechHouse` first. */
  const PlatformTags: map<string, seq<string>> := map[
    "YouTube" := ["#TechHouse", "#YouTube", "#NewMusic"],
    "Beatport" := ["#TechHouse", "#Beatport", "#OutNow"],
    "AppleMusic" := ["#TechHouse", "#AppleMusic", "#NewRelease"],
    "Spotify" := ["#TechHouse", "#Spotify", "#NowPlaying"]
  ]

  /** The tags of a platform that `PLATFORM_TAGS` does not know. */
  const FallbackTags: seq<string> := ["#TechHouse", "#NewMusic"]

  function TagList(platform: string): seq<string> {
    if platform in PlatformTags then PlatformTags[platform] else FallbackTags
  }

  /** The full hashtag line: the platform's tags, or the fallback pair, joined by spaces. */
  function Tags(platform: string): (r: string)
    ensures StartsWith(r, "#TechHouse ")
    ensures platform !in PlatformTags ==> r == "#TechHouse #NewMusic"
    ensures |r| <= 34
  {
    Join(TagList(platform), " ")
  }

  /** The one-tag line of the second fallback: the first tag of the platform, or `#TechHouse`. */
  function ShortTags(platform: string): (r: string)
    ensures r == "#TechHouse"
    ensures |r| < |Tags(platform)|
  {
    Join((if platform in PlatformTags then PlatformTags[platform] else ["#TechHouse"])[..1], " ")
  }

  // ---------------------------------------------------------------------------
  // Campaign slug and link
  // ---------------------------------------------------------------------------

  /** One character of `_slug`: alphanumerics are lowered, everything else becomes `-`. */
  function SlugChar(c: char): (r: char)
    ensures IsSlugChar(r)
    ensures r == '-' <==> !IsAsciiAlnum(c)
  {
    if IsAsciiAlnum(c) then LowerChar(c) else '-'
  }

  /**
   * `_slug`: map every character, keep the first 60, then strip `-` from both
   * ends (the cut comes before the strip, so the result is at most 60 long).
   */
  function Slug(s: string): (r: string)
    ensures |r| <= 60
    ensures forall i :: 0 <= i < |r| ==> IsSlugChar(r[i])
    ensures Trimmed(r, IsDash)
  {
    var mapped := seq(|s|, i requires 0 <= i < |s| => SlugChar(s[i]));
    var cut := Take(mapped, 60);
    var r := StripBy(cut, IsDash);
    assert forall i :: 0 <= i < |r| ==> r[i] == mapped[CountLeading(cut, IsDash) + i];
    r
  }

  /** A slug is its own slug. */
  lemma SlugIdempotent(s: string)
    ensures Slug(Slug(s)) == Slug(s)
  {
    var r := Slug(s);
    var mapped := seq(|r|, i requires 0 <= i < |r| => SlugChar(r[i]));
    assert mapped == r by {
      forall i | 0 <= i < |r| ensures mapped[i] == r[i] {
        assert IsSlugChar(r[i]);
      }
    }
    StripByTrimmed(r, IsDash);
  }

  /** The `utm_campaign` value: the title's slug, `-`, and the lower-cased platform. */
  function Campaign(title: string, platform: string): (r: string)
    ensures StartsWith(r, Slug(title) + "-")
    ensures |r| == |Slug(title)| + 1 + |platform|
  {
    Slug(title) + "-" + Lower(platform)
  }

  /**
   * `_add_utm`: with UTM switched off the link is left alone; otherwise
   * `encode(url, source, medium, campaign)` stands for the query rewrite that
   * `urlparse`/`urlencode` perform.
   */
  function AddUtm(cfg: Settings.Config, url: string, campaign: string,
                  encode: (string, string, string, string) -> string): (r: string)
    ensures !cfg.useUtm ==> r == url
    ensures cfg.useUtm ==> r == encode(url, cfg.utmSource, cfg.utmMedium, campaign)
  {
    if cfg.useUtm then encode(url, cfg.utmSource, cfg.utmMedium, campaign) else url
  }

  // ---------------------------------------------------------------------------
  // The copy and its length budget
  // ---------------------------------------------------------------------------

  /** ` — artist` when an artist is given and non-empty. */
  function ArtistPart(artist: Option<string>): string {
    if artist.Some? && artist.value != "" then " \U{2014} " + artist.value else ""
  }

  /**
   * The track line: title, optional artist, a middle dot and the rendered
   * release date (`dateText`, empty when there is no release date), stripped.
   */
  function BaseInfo(title: string, artist: Option<string>, dateText: string): (r: string)
    ensures Trimmed(r, IsSpace)
    ensures '\U{B7}' in r
  {
    var raw := title + ArtistPart(artist) + " \U{B7} " + dateText;
    var p := |title| + |ArtistPart(artist)| + 1;
    assert raw[p] == '\U{B7}';
    StripByKeeps(raw, IsSpace, p);
    Strip(raw)
  }

  /** The four-line copy: headline, track line, tags, link. */
  function Compose(headline: string, base: string, tags: string, link: string): (r: string)
    ensures |r| == |headline| + |base| + |tags| + |link| + 3
    ensures StartsWith(r, headline + "\n") && EndsWith(r, "\n" + link)
  {
    var r := headline + "\n" + base + "\n" + tags + "\n" + link;
    assert r == (headline + "\n") + (base + "\n" + tags) + ("\n" + link);
    r
  }

  /** The three-line copy of the last fallback: headline, track line, link. */
  function Compose3(headline: string, base: string, link: string): (r: string)
    ensures |r| == |headline| + |base| + |link| + 2
    ensures StartsWith(r, headline + "\n") && EndsWith(r, "\n" + link)
  {
    var r := headline + "\n" + base + "\n" + link;
    assert r == (headline + "\n") + base + ("\n" + link);
    r
  }

  /** `max(10, 280 - reserved)`, where `reserved` counts headline, tags, link and three newlines. */
  function MaxBase(headline: string, tags: string, link: string): (mb: int)
    ensures mb >= 10
    ensures mb >= Limit - (|headline| + |tags| + |link| + 3)
  {
    var reserved := |headline| + |tags| + |link| + 3;
    if Limit - reserved > 10 then Limit - reserved else 10
  }

  /** Shorten `base` to `mb` characters, the last one an ellipsis, when it is longer than `mb`. */
  function Truncate(base: string, mb: int): (r: string)
    requires mb >= 1
    ensures |base| <= mb ==> r == base
    ensures |base| > mb ==> |r| == mb && r[..mb - 1] == base[..mb - 1] && r[mb - 1] == Ellipsis
    ensures |r| <= |base|
  {
    if |base| > mb then base[..mb - 1] + [Ellipsis] else base
  }

  /** The track line after the first step: truncated only when the full copy is over the limit. */
  function BaseLine(headline: string, base: string, platform: string, link: string): string {
    if |Compose(headline, base, Tags(platform), link)| > Limit
    then Truncate(base, MaxBase(headline, Tags(platform), link))
    else base
  }

  /**
   * The length cascade of `build_copy`: keep the four-line copy if it fits;
   * otherwise shorten the track line to its budget; if still too long use the
   * one-tag line; if still too long drop the tag line.
   */
  function FitCopy(headline: string, base: string, platform: string, link: string): (r: string)
    ensures |Compose(headline, base, Tags(platform), link)| <= Limit ==>
              r == Compose(headline, base, Tags(platform), link)
    ensures StartsWith(r, headline + "\n") && EndsWith(r, "\n" + link)
    ensures |headline| + |Tags(platform)| + |link| + 3 <= Limit - 10 ==> |r| <= Limit
    ensures |r| <= |Compose(headline, base, Tags(platform), link)|
    ensures var b1 := BaseLine(headline, base, platform, link);
            && (r == Compose(headline, b1, Tags(platform), link)
                || r == Compose(headline, b1, ShortTags(platform), link)
                || r == Compose3(headline, b1, link))
            && (r != Compose(headline, b1, Tags(platform), link) ==>
                  |Compose(headline, b1, Tags(platform), link)| > Limit)
            && (r == Compose3(headline, b1, link) ==>
                  |Compose(headline, b1, ShortTags(platform), link)| > Limit)
            && (|r| > Limit ==> r == Compose3(headline, b1, link))
  {
    var tags := Tags(platform);
    var b1 := BaseLine(headline, base, platform, link);
    var second := Compose(headline, b1, tags, link);
    if |second| <= Limit then
      second
    else
      var third := Compose(headline, b1, ShortTags(platform), link);
      if |third| <= Limit then third
      else Compose3(headline, b1, link)
  }

  /**
   * `build_copy`: the fixed headline, the track line, the tags and the link
   * (with UTM parameters when enabled), cut down by the cascade.
   */
  function BuildCopy(cfg: Settings.Config, title: string, artist: Option<string>, dateText: string,
                     platform: string, url: string,
                     encode: (string, string, string, string) -> string): (r: string)
    ensures var link := AddUtm(cfg, url, Campaign(title, platform), encode);
            && StartsWith(r, cfg.fixedHeadline + "\n")
            && EndsWith(r, "\n" + link)
            && (|cfg.fixedHeadline| + |Tags(platform)| + |link| + 3 <= Limit - 10 ==> |r| <= Limit)
    ensures !cfg.useUtm ==> EndsWith(r, "\n" + url)
  {
    var link := AddUtm(cfg, url, Campaign(title, platform), encode);
    FitCopy(cfg.fixedHeadline, BaseInfo(title, artist, dateText), platform, link)
  }

  /**
   * With the default headline, a link of at most 210 characters always yields a
   * copy within the limit, whatever the title, artist or platform.
   */
  lemma DefaultCopyFits(title: string, artist: Option<string>, dateText: string,
                        platform: string, url: string,
                        encode: (string, string, string, string) -> string)
    requires |AddUtm(Settings.Defaults, url, Campaign(title, platform), encode)| <= 210
    ensures |BuildCopy(Settings.Defaults, title, artist, dateText, platform, url, encode)| <= Limit
  {
    assert |Settings.Defaults.fixedHeadline| == 23;
  }
}
