/**
 * The pure helpers of utils.py: the YouTube link check, `slugify` after
 * Unicode normalisation, hashtag sampling with the random choice given as an
 * input, and the empty-link guard of `add_utm`.
 */
module Utils {
  import opened Wrappers
  import opened Text

  // ---------------------------------------------------------------------------
  // is_valid_youtube
  // ---------------------------------------------------------------------------

  /**
   * A text character matches a pattern character under `re.IGNORECASE`: the
   * pattern's letters are lower case, and a letter also matches its upper-case
   * form; `s` additionally matches U+017F (long s), which folds to it.
   */
  predicate MatchesCI(c: char, p: char) {
    || c == p
    || ('a' <= p <= 'z' && c as int == p as int - 32)
    || (p == 's' && c == '\U{17F}')
  }

  /** `s` starts with `p`, compared case-insensitively. */
  predicate PrefixCI(s: string, p: string) {
    |p| <= |s| && forall i {:trigger MatchesCI(s[i], p[i])} :: 0 <= i < |p| ==> MatchesCI(s[i], p[i])
  }

  const Schemes: seq<string> := ["", "http://", "https://"]
  const WwwPrefixes: seq<string> := ["", "www."]
  const Sites: seq<string> := ["youtube.com", "youtu.be"]

  /**
   * The language of `^(https?://)?(www\.)?(youtube\.com|youtu\.be)/` matched at
   * the start: one of the twelve prefixes it spells out.
   */
  predicate YoutubePattern(s: string) {
    exists a, b, c | a in Schemes && b in WwwPrefixes && c in Sites :: PrefixCI(s, a + b + c + "/")
  }

  /** The optional scheme group: `https://`, `http://`, or nothing. */
  function SchemeOf(s: string): (a: string)
    ensures a in Schemes && PrefixCI(s, a)
  {
    if PrefixCI(s, "https://") then "https://" else if PrefixCI(s, "http://") then "http://" else ""
  }

  /** The optional `www.` group. */
  function WwwOf(s: string): (b: string)
    ensures b in WwwPrefixes && PrefixCI(s, b)
  {
    if PrefixCI(s, "www.") then "www." else ""
  }

  /** The host alternative that the text continues with, followed by `/`. */
  function SiteOf(s: string): (c: Option<string>)
    ensures c.Some? ==> c.value in Sites && PrefixCI(s, c.value + "/")
    ensures c.None? ==> !PrefixCI(s, "youtube.com/") && !PrefixCI(s, "youtu.be/")
  {
    assert "youtube.com" + "/" == "youtube.com/" && "youtu.be" + "/" == "youtu.be/";
    if PrefixCI(s, "youtube.com/") then Some("youtube.com")
    else if PrefixCI(s, "youtu.be/") then Some("youtu.be")
    else None
  }

  /** The regular expression as a left-to-right matcher: optional scheme, optional `www.`, host and `/`. */
  function MatchYoutube(s: string): bool {
    var s1 := s[|SchemeOf(s)|..];
    SiteOf(s1[|WwwOf(s1)|..]).Some?
  }

  /** `is_valid_youtube`: a non-empty URL whose stripped form matches the pattern. */
  function IsValidYoutube(url: string): (r: bool)
    ensures r <==> url != "" && YoutubePattern(Strip(url))
    ensures url == "" ==> !r
  {
    MatcherAgrees(Strip(url));
    url != "" && MatchYoutube(Strip(url))
  }

  /** Matching a concatenation is matching its two halves one after the other. */
  lemma PrefixConcat(s: string, a: string, b: string)
    ensures PrefixCI(s, a + b) <==> PrefixCI(s, a) && PrefixCI(s[|a|..], b)
  {
    if PrefixCI(s, a) && PrefixCI(s[|a|..], b) {
      forall i | 0 <= i < |a + b| ensures MatchesCI(s[i], (a + b)[i]) {
        if i >= |a| {
          assert s[|a|..][i - |a|] == s[i];
        }
      }
    }
    if PrefixCI(s, a + b) {
      forall i | 0 <= i < |b| ensures MatchesCI(s[|a|..][i], b[i]) {
        assert (a + b)[|a| + i] == b[i];
      }
      forall i | 0 <= i < |a| ensures MatchesCI(s[i], a[i]) {
        assert (a + b)[i] == a[i];
      }
    }
  }

  /** Two different pattern characters never match the same text character. */
  lemma MatchesOne(c: char, p: char, q: char)
    requires p != q && MatchesCI(c, p)
    requires !('A' <= p <= 'Z') && !('A' <= q <= 'Z') && p != '\U{17F}' && q != '\U{17F}'
    ensures !MatchesCI(c, q)
  {
  }

  /** If a scheme (or nothing) followed by a host-starting text matches, the matcher picks that scheme. */
  lemma SchemeDetermined(s: string, a: string, rest: string)
    requires a in Schemes && |rest| > 0 && (rest[0] == 'w' || rest[0] == 'y')
    requires PrefixCI(s, a + rest)
    ensures SchemeOf(s) == a
  {
    PrefixConcat(s, a, rest);
    assert "https://"[0] == 'h' && "http://"[0] == 'h' && "https://"[4] == 's';
    if a == "" {
      assert MatchesCI(s[0], (a + rest)[0]);
      MatchesOne(s[0], rest[0], 'h');
      assert !MatchesCI(s[0], "https://"[0]) && !MatchesCI(s[0], "http://"[0]);
    } else if a == "http://" {
      assert MatchesCI(s[4], (a + rest)[4]);
      assert s[4] == ':';
      MatchesOne(s[4], ':', 's');
      assert !MatchesCI(s[4], "https://"[4]);
    }
  }

  /** If `www.` (or nothing) followed by a site matches, the matcher's `www.` step agrees. */
  lemma WwwDetermined(s: string, b: string, rest: string)
    requires b in WwwPrefixes && |rest| > 0 && rest[0] == 'y'
    requires PrefixCI(s, b + rest)
    ensures WwwOf(s) == b
  {
    PrefixConcat(s, b, rest);
    if b == "" {
      assert MatchesCI(s[0], (b + rest)[0]);
      MatchesOne(s[0], 'y', 'w');
      assert !MatchesCI(s[0], "www."[0]);
    }
  }

  /** The prefix a successful matcher run consumed is one of the twelve. */
  lemma MatcherSound(s: string)
    requires MatchYoutube(s)
    ensures YoutubePattern(s)
  {
    var a := SchemeOf(s);
    var s1 := s[|a|..];
    var b := WwwOf(s1);
    var c := SiteOf(s1[|b|..]).value;
    PrefixConcat(s1, b, c + "/");
    PrefixConcat(s, a, b + (c + "/"));
    assert a + (b + (c + "/")) == a + b + c + "/";
    assert PrefixCI(s, a + b + c + "/");
    assert a in Schemes && b in WwwPrefixes && c in Sites;
  }

  /** Whichever of the twelve prefixes a text starts with, the matcher finds it. */
  lemma MatcherComplete(s: string, a: string, b: string, c: string)
    requires a in Schemes && b in WwwPrefixes && c in Sites
    requires PrefixCI(s, a + b + c + "/")
    ensures MatchYoutube(s)
  {
    var rest := b + (c + "/");
    assert a + b + c + "/" == a + rest;
    assert rest[0] == 'w' || rest[0] == 'y';
    SchemeDetermined(s, a, rest);
    PrefixConcat(s, a, rest);
    var s1 := s[|a|..];
    assert (c + "/")[0] == 'y';
    WwwDetermined(s1, b, c + "/");
    PrefixConcat(s1, b, c + "/");
    assert c + "/" == "youtube.com/" || c + "/" == "youtu.be/";
  }

  /** The matcher accepts exactly the texts the pattern describes. */
  lemma MatcherAgrees(s: string)
    ensures MatchYoutube(s) <==> YoutubePattern(s)
  {
    if MatchYoutube(s) {
      MatcherSound(s);
    }
    if YoutubePattern(s) {
      var a, b, c :| a in Schemes && b in WwwPrefixes && c in Sites && PrefixCI(s, a + b + c + "/");
      MatcherComplete(s, a, b, c);
    }
  }

  /** A text that literally starts with `p` starts with it case-insensitively too. */
  lemma PrefixCIOfExact(s: string, p: string)
    requires StartsWith(s, p)
    ensures PrefixCI(s, p)
  {
    forall i | 0 <= i < |p| ensures MatchesCI(s[i], p[i]) {
      assert s[..|p|][i] == s[i];
    }
  }

  /** The trailing slash is required: a bare host is refused. */
  lemma RejectsBareHost()
    ensures !IsValidYoutube("https://youtube.com")
  {
    BareHostRefused("https://youtube.com");
  }

  lemma BareHostRefused(s: string)
    requires s == "https://youtube.com"
    ensures !IsValidYoutube(s)
  {
    StripByTrimmed(s, IsSpace);
    assert StartsWith(s, "https://");
    PrefixCIOfExact(s, "https://");
    var s1 := s[8..];
    assert s1 == "youtube.com";
    assert !MatchesCI(s1[0], "www."[0]);
    assert WwwOf(s1) == "";
    assert !MatchesCI(s1[5], "youtu.be/"[5]);
    assert SiteOf(s1).None?;
    MatcherAgrees(s);
  }

  /** The match is anchored: a text whose first character opens none of the groups is refused. */
  lemma RejectsForeignStart(s: string)
    requires |s| > 0 && !MatchesCI(s[0], 'h') && !MatchesCI(s[0], 'w') && !MatchesCI(s[0], 'y')
    ensures !YoutubePattern(s)
  {
    assert "https://"[0] == 'h' && "http://"[0] == 'h' && "www."[0] == 'w';
    assert "youtube.com/"[0] == 'y' && "youtu.be/"[0] == 'y';
    assert !MatchesCI(s[0], "https://"[0]) && !MatchesCI(s[0], "http://"[0]);
    assert SchemeOf(s) == "";
    assert !MatchesCI(s[0], "www."[0]);
    assert WwwOf(s) == "";
    assert !MatchesCI(s[0], "youtube.com/"[0]) && !MatchesCI(s[0], "youtu.be/"[0]);
    assert SiteOf(s).None?;
    MatcherAgrees(s);
  }

  /** A sub-domain in front of the host is refused. */
  lemma RejectsSubdomain()
    ensures !IsValidYoutube("x.youtube.com/watch")
  {
    var s := "x.youtube.com/watch";
    StripByTrimmed(s, IsSpace);
    RejectsForeignStart(s);
  }

  /** A short link without scheme is accepted. */
  lemma AcceptsShortLink()
    ensures IsValidYoutube("youtu.be/abc")
  {
    ShortLinkAccepted("youtu.be/abc");
  }

  lemma ShortLinkAccepted(s: string)
    requires s == "youtu.be/abc"
    ensures IsValidYoutube(s)
  {
    StripByTrimmed(s, IsSpace);
    assert !MatchesCI(s[0], "https://"[0]) && !MatchesCI(s[0], "http://"[0]);
    assert SchemeOf(s) == "";
    assert !MatchesCI(s[0], "www."[0]);
    assert WwwOf(s) == "";
    assert !MatchesCI(s[5], "youtube.com/"[5]);
    assert StartsWith(s, "youtu.be/");
    PrefixCIOfExact(s, "youtu.be/");
    assert SiteOf(s).Some?;
    MatcherAgrees(s);
  }

  // ---------------------------------------------------------------------------
  // slugify
  // ---------------------------------------------------------------------------

  predicate NotAlnum(c: char) {
    !IsAsciiAlnum(c)
  }

  /** Every character is an ASCII alphanumeric or `-`. */
  predicate DashAlnum(s: string) {
    forall i :: 0 <= i < |s| ==> IsAsciiAlnum(s[i]) || s[i] == '-'
  }

  /** No two `-` in a row. */
  predicate NoDoubleDash(s: string) {
    forall i :: 0 <= i < |s| - 1 ==> !(s[i] == '-' && s[i + 1] == '-')
  }

  /** The ASCII alphanumerics of `s`, in order. */
  function Alnums(s: string): (r: string)
    ensures forall i :: 0 <= i < |r| ==> IsAsciiAlnum(r[i])
    decreases |s|
  {
    if |s| == 0 then "" else (if IsAsciiAlnum(s[0]) then [s[0]] else "") + Alnums(s[1..])
  }

  /** What `.encode("ascii", "ignore").decode("ascii")` keeps: the ASCII characters, in order. */
  function AsciiOnly(s: string): (r: string)
    ensures forall i :: 0 <= i < |r| ==> r[i] < '\U{80}'
    decreases |s|
  {
    if |s| == 0 then "" else (if s[0] < '\U{80}' then [s[0]] else "") + AsciiOnly(s[1..])
  }

  /**
   * `re.sub(r"[^a-zA-Z0-9]+", "-", s)`: every maximal run of other characters
   * becomes a single `-`.
   */
  function Collapse(s: string): (r: string)
    ensures DashAlnum(r) && NoDoubleDash(r)
    ensures |s| > 0 && IsAsciiAlnum(s[0]) ==> |r| > 0 && r[0] == s[0]
    decreases |s|
  {
    if |s| == 0 then ""
    else if IsAsciiAlnum(s[0]) then
      var rest := Collapse(s[1..]);
      var r := [s[0]] + rest;
      assert forall i :: 1 <= i < |r| ==> r[i] == rest[i - 1];
      r
    else
      var tail := TrimStart(s, NotAlnum);
      var rest := Collapse(tail);
      assert |tail| > 0 ==> IsAsciiAlnum(tail[0]);
      var r := "-" + rest;
      assert forall i :: 1 <= i < |r| ==> r[i] == rest[i - 1];
      r
  }

  /**
   * `slugify` on text that Unicode NFKD normalisation has already decomposed:
   * drop what is not ASCII, collapse separators to `-`, strip `-` from both
   * ends, lower-case, keep 60 characters, and fall back to `track`.
   */
  function Slugify(text: string): (r: string)
    ensures 1 <= |r| <= 60
    ensures forall i :: 0 <= i < |r| ==> IsSlugChar(r[i])
    ensures r[0] != '-'
    ensures NoDoubleDash(r)
  {
    var collapsed := Collapse(AsciiOnly(text));
    var stripped := StripBy(collapsed, IsDash);
    StripSlice(collapsed, stripped);
    var cut := Take(Lower(stripped), 60);
    LowerTakeShape(stripped, cut);
    if cut == "" then "track" else cut
  }

  /** Lower-casing and cutting a stripped, collapsed text yields slug characters in slug shape. */
  lemma LowerTakeShape(stripped: string, cut: string)
    requires DashAlnum(stripped) && NoDoubleDash(stripped)
    requires |stripped| > 0 ==> IsAsciiAlnum(stripped[0])
    requires cut == Take(Lower(stripped), 60)
    ensures forall i :: 0 <= i < |cut| ==> IsSlugChar(cut[i])
    ensures NoDoubleDash(cut)
    ensures |cut| > 0 ==> IsAsciiAlnum(cut[0])
  {
    var lowered := Lower(stripped);
    assert forall i :: 0 <= i < |cut| ==> cut[i] == lowered[i] == LowerChar(stripped[i]);
  }

  /** Stripping `-` from a separator-collapsed text keeps its shape and removes the edge dashes. */
  lemma StripSlice(collapsed: string, stripped: string)
    requires DashAlnum(collapsed) && NoDoubleDash(collapsed)
    requires stripped == StripBy(collapsed, IsDash)
    ensures DashAlnum(stripped) && NoDoubleDash(stripped)
    ensures |stripped| > 0 ==> IsAsciiAlnum(stripped[0])
  {
    var lead := CountLeading(collapsed, IsDash);
    assert forall i :: 0 <= i < |stripped| ==> stripped[i] == collapsed[lead + i];
  }

  /** The alphanumerics of a concatenation are those of its halves. */
  lemma {:induction false} AlnumsConcat(x: string, y: string)
    ensures Alnums(x + y) == Alnums(x) + Alnums(y)
    decreases |x|
  {
    if |x| > 0 {
      AlnumsConcat(x[1..], y);
      assert (x + y)[1..] == x[1..] + y;
    } else {
      assert x + y == y;
    }
  }

  /** A text has no alphanumerics exactly when none of its characters is one. */
  lemma {:induction false} AlnumsEmpty(x: string)
    ensures Alnums(x) == "" <==> forall i :: 0 <= i < |x| ==> NotAlnum(x[i])
    decreases |x|
  {
    if |x| > 0 {
      AlnumsEmpty(x[1..]);
      assert forall i :: 1 <= i < |x| ==> x[i] == x[1..][i - 1];
    }
  }

  /** Dropping non-ASCII characters keeps every ASCII alphanumeric. */
  lemma {:induction false} AsciiOnlyAlnums(x: string)
    ensures Alnums(AsciiOnly(x)) == Alnums(x)
    decreases |x|
  {
    if |x| > 0 {
      AsciiOnlyAlnums(x[1..]);
      var head := if x[0] < '\U{80}' then [x[0]] else "";
      AlnumsConcat(head, AsciiOnly(x[1..]));
      if x[0] < '\U{80}' {
        assert Alnums(head) == (if IsAsciiAlnum(x[0]) then [x[0]] else "");
      } else {
        assert !IsAsciiAlnum(x[0]);
      }
    }
  }

  /** Collapsing separators keeps every alphanumeric, in order. */
  lemma {:induction false} CollapseAlnums(s: string)
    ensures Alnums(Collapse(s)) == Alnums(s)
    decreases |s|
  {
    if |s| > 0 {
      if IsAsciiAlnum(s[0]) {
        CollapseAlnums(s[1..]);
        AlnumsConcat([s[0]], Collapse(s[1..]));
        assert Alnums([s[0]]) == [s[0]];
      } else {
        var n := CountLeading(s, NotAlnum);
        var tail := s[n..];
        CollapseAlnums(tail);
        AlnumsConcat("-", Collapse(tail));
        assert Alnums("-") == "";
        assert s == s[..n] + tail;
        AlnumsConcat(s[..n], tail);
        AlnumsEmpty(s[..n]);
      }
    }
  }

  /** Lower-casing commutes with taking the alphanumerics. */
  lemma {:induction false} AlnumsLower(x: string)
    ensures Alnums(Lower(x)) == Lower(Alnums(x))
    decreases |x|
  {
    if |x| > 0 {
      AlnumsLower(x[1..]);
      assert Lower(x)[1..] == Lower(x[1..]);
      var head := if IsAsciiAlnum(x[0]) then [x[0]] else "";
      assert Lower(head + Alnums(x[1..])) == Lower(head) + Lower(Alnums(x[1..]));
    }
  }

  /** A text of dashes holds no alphanumeric. */
  lemma DashesHaveNoAlnums(x: string)
    requires forall i :: 0 <= i < |x| ==> IsDash(x[i])
    ensures Alnums(x) == ""
  {
    AlnumsEmpty(x);
  }

  /** A text is its prefix, middle and suffix put back together. */
  lemma ThreeParts(c: string, a: int, b: int)
    requires 0 <= a <= b <= |c|
    ensures c == c[..a] + c[a..b] + c[b..]
  {
  }

  /** Stripping `-` keeps every alphanumeric. */
  lemma StripDashAlnums(c: string)
    ensures Alnums(StripBy(c, IsDash)) == Alnums(c)
  {
    var lead := CountLeading(c, IsDash);
    var r := StripBy(c, IsDash);
    var left, right := c[..lead], c[lead + |r|..];
    assert forall i :: 0 <= i < |left| ==> left[i] == c[i];
    DashesHaveNoAlnums(left);
    assert forall i :: 0 <= i < |right| ==> right[i] == c[lead + |r| + i];
    DashesHaveNoAlnums(right);
    ThreeParts(c, lead, lead + |r|);
    AlnumsConcat(left, r);
    assert Alnums(left + r) == Alnums(r) by {
      assert "" + Alnums(r) == Alnums(r);
    }
    AlnumsConcat(left + r, right);
    assert Alnums(r) + "" == Alnums(r);
  }

  /** Up to the strip, the pipeline keeps every ASCII alphanumeric of the text. */
  lemma PipelineAlnums(text: string)
    ensures Alnums(StripBy(Collapse(AsciiOnly(text)), IsDash)) == Alnums(text)
  {
    AsciiOnlyAlnums(text);
    CollapseAlnums(AsciiOnly(text));
    StripDashAlnums(Collapse(AsciiOnly(text)));
  }

  /** The alphanumerics of a prefix are a prefix of the alphanumerics. */
  lemma TakeAlnums(x: string, n: nat)
    ensures StartsWith(Alnums(x), Alnums(Take(x, n)))
  {
    var t := Take(x, n);
    assert x == t + x[|t|..];
    AlnumsConcat(t, x[|t|..]);
  }

  /** A slug of text without ASCII alphanumerics is the fallback `track`. */
  lemma SlugifyFallback(text: string)
    requires Alnums(text) == ""
    ensures Slugify(text) == "track"
  {
    var collapsed := Collapse(AsciiOnly(text));
    var stripped := StripBy(collapsed, IsDash);
    PipelineAlnums(text);
    StripSlice(collapsed, stripped);
    AlnumsEmpty(stripped);
  }

  /** The stripped, collapsed text of a text with alphanumerics starts with one and keeps them all. */
  lemma StrippedKeepsAlnums(text: string, stripped: string)
    requires Alnums(text) != ""
    requires stripped == StripBy(Collapse(AsciiOnly(text)), IsDash)
    ensures Alnums(stripped) == Alnums(text)
    ensures DashAlnum(stripped) && NoDoubleDash(stripped)
    ensures |stripped| > 0 && IsAsciiAlnum(stripped[0])
  {
    PipelineAlnums(text);
    StripSlice(Collapse(AsciiOnly(text)), stripped);
  }

  /** Cutting the lowered text keeps a prefix of its lowered alphanumerics, starting with one. */
  lemma CutKeepsAlnums(stripped: string, cut: string)
    requires DashAlnum(stripped) && NoDoubleDash(stripped)
    requires |stripped| > 0 && IsAsciiAlnum(stripped[0])
    requires cut == Take(Lower(stripped), 60)
    ensures Alnums(cut) != ""
    ensures StartsWith(Lower(Alnums(stripped)), Alnums(cut))
  {
    LowerTakeShape(stripped, cut);
    AlnumsLower(stripped);
    TakeAlnums(Lower(stripped), 60);
    assert cut == [cut[0]] + cut[1..];
    AlnumsConcat([cut[0]], cut[1..]);
  }

  /**
   * Otherwise the slug keeps a non-empty prefix of the text's alphanumerics,
   * lower-cased, in order.
   */
  lemma SlugifyKeepsContent(text: string)
    requires Alnums(text) != ""
    ensures Alnums(Slugify(text)) != ""
    ensures StartsWith(Lower(Alnums(text)), Alnums(Slugify(text)))
  {
    var stripped := StripBy(Collapse(AsciiOnly(text)), IsDash);
    StrippedKeepsAlnums(text, stripped);
    var cut := Take(Lower(stripped), 60);
    CutKeepsAlnums(stripped, cut);
    assert Slugify(text) == cut;
  }

  // ---------------------------------------------------------------------------
  // pick_hashtags
  // ---------------------------------------------------------------------------

  const SpanishTags: seq<string> := ["#TechHouse", "#NewMusic", "#YouTube", "#Club", "#Estreno"]
  const EnglishTags: seq<string> := ["#TechHouse", "#NewMusic", "#YouTube", "#Club", "#OutNow"]

  /** The candidate list: English exactly when the language (Spanish if missing or empty) lowers to `en`. */
  function HashtagBase(language: Option<string>): (base: seq<string>)
    ensures base == EnglishTags <==> language.Some? && Lower(language.value) == "en"
    ensures base == EnglishTags || base == SpanishTags
  {
    assert EnglishTags[4] != SpanishTags[4];
    assert Lower("es") != "en" by {
      assert Lower("es")[0] == 'e' && Lower("es")[1] == 's';
    }
    var lang := if language.Some? && language.value != "" then language.value else "es";
    if Lower(lang) == "en" then EnglishTags else SpanishTags
  }

  predicate Distinct(xs: seq<string>) {
    forall i, j :: 0 <= i < j < |xs| ==> xs[i] != xs[j]
  }

  /** The outcome of `random.sample(base, k=3)`: three different positions of the five. */
  predicate IsSample(idx: seq<int>) {
    && |idx| == 3
    && (forall k :: 0 <= k < 3 ==> 0 <= idx[k] < 5)
    && idx[0] != idx[1] && idx[0] != idx[2] && idx[1] != idx[2]
  }

  /** Each element at its first occurrence, in order: the reference for the de-duplication loop. */
  function FirstOccurrences(xs: seq<string>): (ys: seq<string>)
    ensures Distinct(ys)
    ensures forall x :: x in ys <==> x in xs
    decreases |xs|
  {
    if |xs| == 0 then []
    else
      var init := xs[..|xs| - 1];
      var last := xs[|xs| - 1];
      assert xs == init + [last];
      var kept := FirstOccurrences(init);
      if last in kept then kept else kept + [last]
  }

  /** A list without repeats is its own de-duplication. */
  lemma {:induction false} FirstOccurrencesOfDistinct(xs: seq<string>)
    requires Distinct(xs)
    ensures FirstOccurrences(xs) == xs
    decreases |xs|
  {
    if |xs| > 0 {
      var init := xs[..|xs| - 1];
      FirstOccurrencesOfDistinct(init);
      assert xs[|xs| - 1] !in init;
      assert xs == init + [xs[|xs| - 1]];
    }
  }

  /** The `seen`/`ordered` loop of `pick_hashtags`. */
  method Dedupe(xs: seq<string>) returns (ys: seq<string>)
    ensures ys == FirstOccurrences(xs)
  {
    var seen: set<string> := {};
    ys := [];
    var i := 0;
    while i < |xs|
      invariant 0 <= i <= |xs|
      invariant ys == FirstOccurrences(xs[..i])
      invariant forall t :: t in seen <==> t in ys
    {
      var t := xs[i];
      assert xs[..i + 1][..i] == xs[..i];
      if t !in seen {
        seen := seen + {t};
        ys := ys + [t];
      }
      i := i + 1;
    }
    assert xs[..i] == xs;
  }

  /** Neither candidate list repeats a tag. */
  lemma TagListsDistinct()
    ensures Distinct(SpanishTags) && Distinct(EnglishTags)
  {
  }

  /** Three different positions of a list without repeats pick three different tags. */
  lemma SampleDistinct(base: seq<string>, sample: seq<int>, tags: seq<string>)
    requires |base| == 5 && Distinct(base) && IsSample(sample)
    requires tags == [base[sample[0]], base[sample[1]], base[sample[2]]]
    ensures Distinct(tags)
  {
  }

  /** `pick_hashtags` with `sample` the positions `random.sample` chose. */
  method PickHashtags(language: Option<string>, sample: seq<int>) returns (r: string)
    requires IsSample(sample)
    ensures var base := HashtagBase(language);
            var tags := [base[sample[0]], base[sample[1]], base[sample[2]]];
            && Distinct(tags)
            && r == Join(tags, " ")
  {
    var base := HashtagBase(language);
    TagListsDistinct();
    var tags := [base[sample[0]], base[sample[1]], base[sample[2]]];
    SampleDistinct(base, sample, tags);
    var ordered := Dedupe(tags);
    FirstOccurrencesOfDistinct(tags);
    r := Join(ordered, " ");
  }

  // ---------------------------------------------------------------------------
  // add_utm
  // ---------------------------------------------------------------------------

  /**
   * `add_utm`: an empty link is returned as it is; any other link gets the three
   * `utm_` parameters, with `encode` standing for the `urlparse`/`urlencode` rewrite.
   */
  function AddUtmGuarded(url: string, source: string, medium: string, campaign: string,
                         encode: (string, string, string, string) -> string): (r: string)
    ensures url == "" ==> r == ""
    ensures url != "" ==> r == encode(url, source, medium, campaign)
  {
    if url == "" then url else encode(url, source, medium, campaign)
  }
}
