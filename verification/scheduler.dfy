/**
 * Candidate selection in scheduler.py: slot-time parsing, expansion of catalog
 * rows into one candidate per (row, platform), the per-URL cooldown, the
 * recency flag, the deterministic ranking that picks one candidate, the
 * "mark posted" row update, and the dry-run persistence gate of `run_once`.
 *
 * The catalog is a sequence of rows (see the Table module); the position of a
 * row in the sequence is its `row_idx`. Instants are whole seconds.
 */
module Scheduler {
  import opened Wrappers
  import opened Text
  import opened Table
  import Settings

  // ---------------------------------------------------------------------------
  // Slot times
  // ---------------------------------------------------------------------------

  /** The `ValueError`s `_parse_slot_to_hm` raises. */
  datatype SlotError =
    | BadFormat(slot: string)      // three or more ':'-separated parts
    | NotAnInteger(part: string)   // `int(part)` failed
    | OutOfRange(slot: string)     // hour outside 0..23 or minute outside 0..59

  function CheckRange(slot: string, h: int, m: int): Result<(int, int), SlotError> {
    if 0 <= h <= 23 && 0 <= m <= 59 then Success((h, m)) else Failure(OutOfRange(slot))
  }

  /** `_parse_slot_to_hm`: `"HH"` or `"HH:MM"` to (hour, minute). */
  function ParseSlot(slot: string): (r: Result<(int, int), SlotError>)
    ensures r.Success? ==> 0 <= r.value.0 <= 23 && 0 <= r.value.1 <= 59
    ensures |Split(Strip(slot), ':')| >= 3 ==> r == Failure(BadFormat(slot))
  {
    var parts := Split(Strip(slot), ':');
    if |parts| == 1 then
      match ParseInt(parts[0])
      case None => Failure(NotAnInteger(parts[0]))
      case Some(h) => CheckRange(slot, h, 0)
    else if |parts| == 2 then
      match ParseInt(parts[0])
      case None => Failure(NotAnInteger(parts[0]))
      case Some(h) =>
        match ParseInt(parts[1])
        case None => Failure(NotAnInteger(parts[1]))
        case Some(m) => CheckRange(slot, h, m)
    else Failure(BadFormat(slot))
  }

  /** A digit string has no `:`. */
  lemma DigitsHaveNoColon(s: string)
    requires AllDigits(s)
    ensures ':' !in s
  {
    forall i | 0 <= i < |s| ensures s[i] != ':' {
      assert IsDigit(s[i]);
    }
  }

  /** `"HH"`, zero-padded or not, parses to `(HH, 0)` when it is an hour of the day, and to `OutOfRange` otherwise. */
  lemma ParseSlotHour(a: string)
    requires |a| > 0 && AllDigits(a)
    ensures ParseSlot(a) ==
            (if DigitsValue(a) <= 23 then Success((DigitsValue(a), 0)) else Failure(OutOfRange(a)))
  {
    StripDigits(a);
    DigitsHaveNoColon(a);
    SplitWithoutSeparator(a, ':');
    ParseIntDigits(a);
  }

  /** `"HH:MM"`, zero-padded or not, parses to `(HH, MM)` when in range, and to `OutOfRange` otherwise. */
  lemma ParseSlotHourMinute(a: string, b: string)
    requires |a| > 0 && |b| > 0 && AllDigits(a) && AllDigits(b)
    ensures ParseSlot(a + ":" + b) ==
            (if DigitsValue(a) <= 23 && DigitsValue(b) <= 59 then Success((DigitsValue(a), DigitsValue(b)))
             else Failure(OutOfRange(a + ":" + b)))
  {
    SplitDigitPair(a, b);
    ParseIntDigits(a);
    ParseIntDigits(b);
  }

  /** Digits on both ends leave nothing to strip. */
  lemma DigitPairTrimmed(a: string, b: string)
    requires |a| > 0 && |b| > 0 && AllDigits(a) && AllDigits(b)
    ensures Strip(a + ":" + b) == a + ":" + b
  {
    var s := a + ":" + b;
    assert Trimmed(s, IsSpace) by {
      assert s[0] == a[0] && s[|s| - 1] == b[|b| - 1];
      assert IsDigit(a[0]) && IsDigit(b[|b| - 1]);
    }
    StripByTrimmed(s, IsSpace);
  }

  /** `"HH:MM"` with digits on both sides splits into its two digit strings. */
  lemma SplitDigitPair(a: string, b: string)
    requires |a| > 0 && |b| > 0 && AllDigits(a) && AllDigits(b)
    ensures Split(Strip(a + ":" + b), ':') == [a, b]
  {
    var s := a + ":" + b;
    DigitPairTrimmed(a, b);
    DigitsHaveNoColon(a);
    DigitsHaveNoColon(b);
    var t := ":" + b;
    assert s == a + t;
    SplitPrefix(a, t, ':');
    assert t[0] == ':' && t[1..] == b;
    assert Split(t, ':') == [""] + Split(b, ':');
    SplitWithoutSeparator(b, ':');
    assert a + "" == a;
  }

  /** Two or more colons always give a `BadFormat` error. */
  lemma ParseSlotRejectsExtraColons(slot: string)
    requires Occurrences(Strip(slot), ':') >= 2
    ensures ParseSlot(slot) == Failure(BadFormat(slot))
  {
    SplitLength(Strip(slot), ':');
  }

  // ---------------------------------------------------------------------------
  // Platforms and candidates
  // ---------------------------------------------------------------------------

  /** The three catalog columns that belong to one platform. */
  datatype PlatformColumns = PlatformColumns(url: string, posted: string, last: string)

  /** `self.platform_cols` */
  const PlatformCols: map<string, PlatformColumns> := map[
    "YouTube" := PlatformColumns("YouTubeURL", "PostedYouTube", "LastPostedYouTubeAt"),
    "Beatport" := PlatformColumns("BeatportURL", "PostedBeatport", "LastPostedBeatportAt"),
    "AppleMusic" := PlatformColumns("AppleMusicURL", "PostedAppleMusic", "LastPostedAppleMusicAt"),
    "Spotify" := PlatformColumns("SpotifyURL", "PostedSpotify", "LastPostedSpotifyAt")
  ]

  /** Each platform's three columns are distinct. */
  lemma PlatformColumnsDistinct(p: string)
    requires p in PlatformCols
    ensures PlatformCols[p].url != PlatformCols[p].posted
    ensures PlatformCols[p].url != PlatformCols[p].last
    ensures PlatformCols[p].posted != PlatformCols[p].last
  {
  }

  /** Every default platform has a column mapping, so none of them is skipped. */
  lemma DefaultPlatformsAreKnown()
    ensures forall k :: 0 <= k < |Settings.Platforms(Settings.Defaults)| ==>
              Settings.Platforms(Settings.Defaults)[k] in PlatformCols
  {
    Settings.DefaultPlatforms();
  }

  /** `Candidate`: one (row, platform) pair that may be posted. */
  datatype Candidate = Candidate(
    rowIdx: nat,
    platform: string,
    urlCol: string,
    postedCol: string,
    lastPostedCol: string,
    url: string,
    title: string,
    artist: Option<string>,
    lang: Option<string>,
    releaseAt: Option<int>,
    lastPostedAt: Option<int>,
    isRecent: bool)

  /** `str(cell) if pd.notna(cell) else None` */
  function OptionalText(c: Option<Value>): Option<string> {
    match c
    case None => None
    case Some(v) => Some(ToText(v))
  }

  /** `now - timedelta(days=days)` */
  function DaysBefore(now: int, days: int): int {
    now - days * Day
  }

  /** The candidate `_explode_candidates` builds for row `i` and platform `p`. */
  function MakeCandidate(row: Row, i: nat, p: string, now: int, recentDays: int): (c: Candidate)
    requires p in PlatformCols
    ensures c.rowIdx == i && c.platform == p
    ensures c.urlCol == PlatformCols[p].url && c.postedCol == PlatformCols[p].posted
    ensures c.lastPostedCol == PlatformCols[p].last
    ensures Trimmed(c.url, IsSpace) && Trimmed(c.title, IsSpace)
    ensures c.isRecent <==> c.releaseAt.Some? && c.releaseAt.value >= DaysBefore(now, recentDays)
  {
    var cols := PlatformCols[p];
    var title := Strip(if Truthy(Get(row, "Title")) then CellText(Get(row, "Title")) else "");
    var release := AsTime(Get(row, "ReleaseDate"));
    Candidate(
      rowIdx := i,
      platform := p,
      urlCol := cols.url,
      postedCol := cols.posted,
      lastPostedCol := cols.last,
      url := Strip(CellText(Get(row, cols.url))),
      title := title,
      artist := OptionalText(Get(row, "Artist")),
      lang := OptionalText(Get(row, "Language")),
      releaseAt := release,
      lastPostedAt := AsTime(Get(row, cols.last)),
      isRecent := release.Some? && release.value >= DaysBefore(now, recentDays))
  }

  /** A release exactly at the recency cut-off is recent; one second earlier is not. */
  lemma RecencyBoundaryIsInclusive(row: Row, i: nat, p: string, now: int, recentDays: int)
    requires p in PlatformCols
    ensures AsTime(Get(row, "ReleaseDate")) == Some(DaysBefore(now, recentDays)) ==>
              MakeCandidate(row, i, p, now, recentDays).isRecent
    ensures AsTime(Get(row, "ReleaseDate")) == Some(DaysBefore(now, recentDays) - 1) ==>
              !MakeCandidate(row, i, p, now, recentDays).isRecent
    ensures AsTime(Get(row, "ReleaseDate")).None? ==> !MakeCandidate(row, i, p, now, recentDays).isRecent
  {
  }

  // ---------------------------------------------------------------------------
  // Cooldown
  // ---------------------------------------------------------------------------

  /** Row `row` blocks `url` on the platform with columns `cols`: same trimmed URL, posted at or after `cutoff`. */
  predicate BlocksUrl(row: Row, cols: PlatformColumns, url: string, cutoff: int) {
    && Strip(CellText(Get(row, cols.url))) == url
    && AsTime(Get(row, cols.last)).Some?
    && AsTime(Get(row, cols.last)).value >= cutoff
  }

  /** `_is_url_in_cooldown`: some row with this URL in this platform's column was posted within the window. */
  predicate InCooldown(table: seq<Row>, url: string, p: string, now: int, cooldownDays: int)
    requires p in PlatformCols
  {
    exists i | 0 <= i < |table| :: BlocksUrl(table[i], PlatformCols[p], Strip(url), DaysBefore(now, cooldownDays))
  }

  /** Only this platform's URL and last-posted columns matter: other columns, other platforms' included, are ignored. */
  lemma CooldownReadsOnlyOwnColumns(t1: seq<Row>, t2: seq<Row>, url: string, p: string, now: int, days: int)
    requires p in PlatformCols
    requires |t1| == |t2|
    requires forall i :: 0 <= i < |t1| ==>
               Get(t1[i], PlatformCols[p].url) == Get(t2[i], PlatformCols[p].url) &&
               Get(t1[i], PlatformCols[p].last) == Get(t2[i], PlatformCols[p].last)
    ensures InCooldown(t1, url, p, now, days) <==> InCooldown(t2, url, p, now, days)
  {
    var cols, cutoff := PlatformCols[p], DaysBefore(now, days);
    if InCooldown(t1, url, p, now, days) {
      var i :| 0 <= i < |t1| && BlocksUrl(t1[i], cols, Strip(url), cutoff);
      assert BlocksUrl(t2[i], cols, Strip(url), cutoff);
    }
    if InCooldown(t2, url, p, now, days) {
      var i :| 0 <= i < |t2| && BlocksUrl(t2[i], cols, Strip(url), cutoff);
      assert BlocksUrl(t1[i], cols, Strip(url), cutoff);
    }
  }

  /**
   * A single row last posted `cooldownDays - 1` days ago blocks its URL; one
   * posted `cooldownDays + 1` days ago does not, and neither does a row that
   * was never posted.
   */
  lemma CooldownWindow(row: Row, p: string, now: int, days: int)
    requires p in PlatformCols
    requires Get(row, PlatformCols[p].url).Some?
    ensures AsTime(Get(row, PlatformCols[p].last)) == Some(now - (days - 1) * Day) ==>
              InCooldown([row], CellText(Get(row, PlatformCols[p].url)), p, now, days)
    ensures AsTime(Get(row, PlatformCols[p].last)) == Some(now - (days + 1) * Day) ==>
              !InCooldown([row], CellText(Get(row, PlatformCols[p].url)), p, now, days)
    ensures AsTime(Get(row, PlatformCols[p].last)).None? ==>
              !InCooldown([row], CellText(Get(row, PlatformCols[p].url)), p, now, days)
  {
    var u := CellText(Get(row, PlatformCols[p].url));
    if AsTime(Get(row, PlatformCols[p].last)) == Some(now - (days - 1) * Day) {
      assert BlocksUrl([row][0], PlatformCols[p], Strip(u), DaysBefore(now, days));
    }
  }

  // ---------------------------------------------------------------------------
  // Expansion of rows into candidates
  // ---------------------------------------------------------------------------

  /** The filters `_explode_candidates` applies to row `i` and platform `p`. */
  predicate Eligible(table: seq<Row>, i: nat, p: string, now: int, cfg: Settings.Config)
    requires i < |table|
  {
    && p in PlatformCols
    && Get(table[i], PlatformCols[p].url).Some?
    && Strip(CellText(Get(table[i], PlatformCols[p].url))) != ""
    && !InCooldown(table, Strip(CellText(Get(table[i], PlatformCols[p].url))), p, now, cfg.cooldownDaysPerUrl)
  }

  /** The items of `xs` that `keep` accepts, each turned into `make` of it, in order. */
  function Select<X, Y>(xs: seq<X>, keep: X -> bool, make: X --> Y): (r: seq<Y>)
    requires forall j :: 0 <= j < |xs| && keep(xs[j]) ==> make.requires(xs[j])
    ensures |r| <= |xs|
    decreases |xs|
  {
    if |xs| == 0 then []
    else
      assert forall j :: 0 <= j < |xs[1..]| ==> xs[1..][j] == xs[j + 1];
      (if keep(xs[0]) then [make(xs[0])] else []) + Select(xs[1..], keep, make)
  }

  /** Every selected item comes from an accepted item. */
  lemma {:induction false} SelectSound<X, Y>(xs: seq<X>, keep: X -> bool, make: X --> Y, k: int)
    requires forall j :: 0 <= j < |xs| && keep(xs[j]) ==> make.requires(xs[j])
    requires 0 <= k < |Select(xs, keep, make)|
    ensures exists j :: 0 <= j < |xs| && keep(xs[j]) && Select(xs, keep, make)[k] == make(xs[j])
    decreases |xs|
  {
    assert forall j :: 0 <= j < |xs[1..]| ==> xs[1..][j] == xs[j + 1];
    var head := if keep(xs[0]) then [make(xs[0])] else [];
    var rest := Select(xs[1..], keep, make);
    assert Select(xs, keep, make) == head + rest;
    if k < |head| {
      assert Select(xs, keep, make)[k] == make(xs[0]);
    } else {
      SelectSound(xs[1..], keep, make, k - |head|);
      var j :| 0 <= j < |xs[1..]| && keep(xs[1..][j]) && rest[k - |head|] == make(xs[1..][j]);
      assert Select(xs, keep, make)[k] == make(xs[j + 1]);
    }
  }

  /** Every accepted item is selected. */
  lemma {:induction false} SelectComplete<X, Y>(xs: seq<X>, keep: X -> bool, make: X --> Y, j: int)
    requires forall j :: 0 <= j < |xs| && keep(xs[j]) ==> make.requires(xs[j])
    requires 0 <= j < |xs| && keep(xs[j])
    ensures make(xs[j]) in Select(xs, keep, make)
    decreases |xs|
  {
    assert forall i :: 0 <= i < |xs[1..]| ==> xs[1..][i] == xs[i + 1];
    var head := if keep(xs[0]) then [make(xs[0])] else [];
    var rest := Select(xs[1..], keep, make);
    assert Select(xs, keep, make) == head + rest;
    if j > 0 {
      SelectComplete(xs[1..], keep, make, j - 1);
      var m :| 0 <= m < |rest| && rest[m] == make(xs[j]);
      assert Select(xs, keep, make)[|head| + m] == make(xs[j]);
    }
  }

  /** Selected items keep the order of the items they come from. */
  lemma {:induction false} SelectOrder<X, Y>(xs: seq<X>, keep: X -> bool, make: X --> Y, k: int, l: int)
    requires forall j :: 0 <= j < |xs| && keep(xs[j]) ==> make.requires(xs[j])
    requires 0 <= k < l < |Select(xs, keep, make)|
    ensures exists j1, j2 :: 0 <= j1 < j2 < |xs| && keep(xs[j1]) && keep(xs[j2])
              && Select(xs, keep, make)[k] == make(xs[j1]) && Select(xs, keep, make)[l] == make(xs[j2])
    decreases |xs|
  {
    assert forall j :: 0 <= j < |xs[1..]| ==> xs[1..][j] == xs[j + 1];
    var head := if keep(xs[0]) then [make(xs[0])] else [];
    var rest := Select(xs[1..], keep, make);
    assert Select(xs, keep, make) == head + rest;
    if k < |head| {
      SelectSound(xs[1..], keep, make, l - 1);
      var j :| 0 <= j < |xs[1..]| && keep(xs[1..][j]) && rest[l - 1] == make(xs[1..][j]);
      assert Select(xs, keep, make)[k] == make(xs[0]);
      assert Select(xs, keep, make)[l] == make(xs[j + 1]);
    } else {
      SelectOrder(xs[1..], keep, make, k - |head|, l - |head|);
      var j1, j2 :| 0 <= j1 < j2 < |xs[1..]| && keep(xs[1..][j1]) && keep(xs[1..][j2])
                    && rest[k - |head|] == make(xs[1..][j1]) && rest[l - |head|] == make(xs[1..][j2]);
      assert Select(xs, keep, make)[k] == make(xs[j1 + 1]);
      assert Select(xs, keep, make)[l] == make(xs[j2 + 1]);
    }
  }

  /** The candidates of one row, in platform order. */
  function RowCandidates(table: seq<Row>, i: nat, plats: seq<string>, now: int, cfg: Settings.Config): seq<Candidate>
    requires i < |table|
  {
    Select(plats, p => Eligible(table, i, p, now, cfg),
           p requires p in PlatformCols => MakeCandidate(table[i], i, p, now, cfg.recentDaysPriority))
  }

  /** Each candidate of a row is the one built for an eligible platform of the list. */
  lemma RowCandidatesSound(table: seq<Row>, i: nat, plats: seq<string>, now: int,
                           cfg: Settings.Config, k: int)
    requires i < |table| && 0 <= k < |RowCandidates(table, i, plats, now, cfg)|
    ensures var c := RowCandidates(table, i, plats, now, cfg)[k];
            && c.rowIdx == i
            && c.platform in plats
            && Eligible(table, i, c.platform, now, cfg)
            && c == MakeCandidate(table[i], i, c.platform, now, cfg.recentDaysPriority)
  {
    var keep := p => Eligible(table, i, p, now, cfg);
    var make := p requires p in PlatformCols => MakeCandidate(table[i], i, p, now, cfg.recentDaysPriority);
    assert RowCandidates(table, i, plats, now, cfg) == Select(plats, keep, make);
    SelectSound(plats, keep, make, k);
  }

  /** Every eligible platform of the list contributes its candidate. */
  lemma RowCandidatesComplete(table: seq<Row>, i: nat, plats: seq<string>, now: int,
                              cfg: Settings.Config, j: int)
    requires i < |table| && 0 <= j < |plats| && Eligible(table, i, plats[j], now, cfg)
    ensures MakeCandidate(table[i], i, plats[j], now, cfg.recentDaysPriority) in RowCandidates(table, i, plats, now, cfg)
  {
    var keep := p => Eligible(table, i, p, now, cfg);
    var make := p requires p in PlatformCols => MakeCandidate(table[i], i, p, now, cfg.recentDaysPriority);
    assert RowCandidates(table, i, plats, now, cfg) == Select(plats, keep, make);
    SelectComplete(plats, keep, make, j);
  }

  /** `a` is listed before `b` (possibly as another entry equal to `a`). */
  ghost predicate Precedes(plats: seq<string>, a: string, b: string) {
    exists j1, j2 :: 0 <= j1 < j2 < |plats| && plats[j1] == a && plats[j2] == b
  }

  /** The candidates of a row follow the order of the platform list. */
  lemma RowCandidatesOrder(table: seq<Row>, i: nat, plats: seq<string>, now: int, cfg: Settings.Config,
                           k: int, l: int)
    requires i < |table| && 0 <= k < l < |RowCandidates(table, i, plats, now, cfg)|
    ensures var row := RowCandidates(table, i, plats, now, cfg);
            Precedes(plats, row[k].platform, row[l].platform)
  {
    var keep := p => Eligible(table, i, p, now, cfg);
    var make := p requires p in PlatformCols => MakeCandidate(table[i], i, p, now, cfg.recentDaysPriority);
    assert RowCandidates(table, i, plats, now, cfg) == Select(plats, keep, make);
    SelectOrder(plats, keep, make, k, l);
  }

  /** All candidates of a row carry its index. */
  lemma RowCandidatesOfRow(table: seq<Row>, i: nat, plats: seq<string>, now: int, cfg: Settings.Config)
    requires i < |table|
    ensures forall k :: 0 <= k < |RowCandidates(table, i, plats, now, cfg)| ==>
              RowCandidates(table, i, plats, now, cfg)[k].rowIdx == i
  {
    forall k | 0 <= k < |RowCandidates(table, i, plats, now, cfg)|
      ensures RowCandidates(table, i, plats, now, cfg)[k].rowIdx == i
    {
      RowCandidatesSound(table, i, plats, now, cfg, k);
    }
  }

  /** The candidates of rows `from` onwards, in row order. */
  function ExplodeFrom(table: seq<Row>, from: nat, plats: seq<string>, now: int, cfg: Settings.Config): (r: seq<Candidate>)
    requires from <= |table|
    ensures forall k :: 0 <= k < |r| ==> from <= r[k].rowIdx < |table|
    ensures forall k, l :: 0 <= k < l < |r| ==> r[k].rowIdx <= r[l].rowIdx
    decreases |table| - from
  {
    if from == |table| then []
    else
      var here := RowCandidates(table, from, plats, now, cfg);
      var later := ExplodeFrom(table, from + 1, plats, now, cfg);
      RowCandidatesOfRow(table, from, plats, now, cfg);
      here + later
  }

  /** Each candidate of rows `from` onwards is the one built for its row and an eligible platform. */
  lemma {:induction false} ExplodeFromSound(table: seq<Row>, from: nat, plats: seq<string>, now: int,
                                            cfg: Settings.Config, k: int)
    requires from <= |table| && 0 <= k < |ExplodeFrom(table, from, plats, now, cfg)|
    ensures var c := ExplodeFrom(table, from, plats, now, cfg)[k];
            c.rowIdx < |table| && c in RowCandidates(table, c.rowIdx, plats, now, cfg)
    decreases |table| - from
  {
    ExplodeFromStep(table, from, plats, now, cfg);
    var here := RowCandidates(table, from, plats, now, cfg);
    if k < |here| {
      RowCandidatesOfRow(table, from, plats, now, cfg);
      assert here[k] in here;
    } else {
      ExplodeFromSound(table, from + 1, plats, now, cfg, k - |here|);
    }
  }

  /** A row's candidates come first, then those of the rows after it. */
  lemma ExplodeFromStep(table: seq<Row>, from: nat, plats: seq<string>, now: int, cfg: Settings.Config)
    requires from < |table|
    ensures var here := RowCandidates(table, from, plats, now, cfg);
            var r := ExplodeFrom(table, from, plats, now, cfg);
            && |r| == |here| + |ExplodeFrom(table, from + 1, plats, now, cfg)|
            && (forall k :: 0 <= k < |here| ==> r[k] == here[k])
            && (forall k :: |here| <= k < |r| ==> r[k] == ExplodeFrom(table, from + 1, plats, now, cfg)[k - |here|])
  {
  }

  /** Two candidates of the same row, from row `from` onwards, follow the order of the platform list. */
  lemma {:induction false} ExplodeFromOrder(table: seq<Row>, from: nat, plats: seq<string>, now: int,
                                            cfg: Settings.Config, k: int, l: int)
    requires from <= |table| && 0 <= k < l < |ExplodeFrom(table, from, plats, now, cfg)|
    requires ExplodeFrom(table, from, plats, now, cfg)[k].rowIdx == ExplodeFrom(table, from, plats, now, cfg)[l].rowIdx
    ensures var r := ExplodeFrom(table, from, plats, now, cfg);
            Precedes(plats, r[k].platform, r[l].platform)
    decreases |table| - from
  {
    ExplodeFromStep(table, from, plats, now, cfg);
    var r := ExplodeFrom(table, from, plats, now, cfg);
    var here := RowCandidates(table, from, plats, now, cfg);
    var later := ExplodeFrom(table, from + 1, plats, now, cfg);
    if k < |here| {
      SameRowStaysInRow(table, from, plats, now, cfg, k, l);
      RowCandidatesOrder(table, from, plats, now, cfg, k, l);
      assert r[k] == here[k] && r[l] == here[l];
    } else {
      ExplodeFromOrder(table, from + 1, plats, now, cfg, k - |here|, l - |here|);
      assert r[k] == later[k - |here|] && r[l] == later[l - |here|];
    }
  }

  /** A candidate sharing its row with one of row `from`'s candidates is itself one of them. */
  lemma SameRowStaysInRow(table: seq<Row>, from: nat, plats: seq<string>, now: int,
                          cfg: Settings.Config, k: int, l: int)
    requires from < |table| && 0 <= k < |RowCandidates(table, from, plats, now, cfg)|
    requires k < l < |ExplodeFrom(table, from, plats, now, cfg)|
    requires ExplodeFrom(table, from, plats, now, cfg)[k].rowIdx == ExplodeFrom(table, from, plats, now, cfg)[l].rowIdx
    ensures l < |RowCandidates(table, from, plats, now, cfg)|
  {
    ExplodeFromStep(table, from, plats, now, cfg);
    RowCandidatesOfRow(table, from, plats, now, cfg);
  }

  /** Every eligible (row, platform) pair from row `from` onwards contributes its candidate. */
  lemma {:induction false} ExplodeFromComplete(table: seq<Row>, from: nat, plats: seq<string>, now: int,
                                               cfg: Settings.Config, i: int, j: int)
    requires from <= i < |table| && 0 <= j < |plats| && Eligible(table, i, plats[j], now, cfg)
    ensures MakeCandidate(table[i], i, plats[j], now, cfg.recentDaysPriority) in ExplodeFrom(table, from, plats, now, cfg)
    decreases |table| - from
  {
    var here := RowCandidates(table, from, plats, now, cfg);
    var later := ExplodeFrom(table, from + 1, plats, now, cfg);
    if i == from {
      RowCandidatesComplete(table, i, plats, now, cfg, j);
    } else {
      ExplodeFromComplete(table, from + 1, plats, now, cfg, i, j);
    }
    assert ExplodeFrom(table, from, plats, now, cfg) == here + later;
  }

  /**
   * `_explode_candidates`: one candidate per row and enabled platform whose URL
   * cell is non-blank and not in cooldown; nothing else; in row order.
   */
  function Explode(table: seq<Row>, cfg: Settings.Config, now: int): (r: seq<Candidate>)
    ensures forall c :: c in r ==>
              && c.rowIdx < |table|
              && c.platform in Settings.Platforms(cfg)
              && Eligible(table, c.rowIdx, c.platform, now, cfg)
              && c == MakeCandidate(table[c.rowIdx], c.rowIdx, c.platform, now, cfg.recentDaysPriority)
    ensures forall i, p :: 0 <= i < |table| && p in Settings.Platforms(cfg) && Eligible(table, i, p, now, cfg) ==>
              MakeCandidate(table[i], i, p, now, cfg.recentDaysPriority) in r
    ensures forall k, l :: 0 <= k < l < |r| ==> r[k].rowIdx <= r[l].rowIdx
  {
    var plats := Settings.Platforms(cfg);
    var r := ExplodeFrom(table, 0, plats, now, cfg);
    forall c | c in r
      ensures && c.rowIdx < |table|
              && c.platform in plats
              && Eligible(table, c.rowIdx, c.platform, now, cfg)
              && c == MakeCandidate(table[c.rowIdx], c.rowIdx, c.platform, now, cfg.recentDaysPriority)
    {
      var k :| 0 <= k < |r| && r[k] == c;
      ExplodeFromSound(table, 0, plats, now, cfg, k);
      var row := RowCandidates(table, c.rowIdx, plats, now, cfg);
      var m :| 0 <= m < |row| && row[m] == c;
      RowCandidatesSound(table, c.rowIdx, plats, now, cfg, m);
    }
    forall i, p | 0 <= i < |table| && p in plats && Eligible(table, i, p, now, cfg)
      ensures MakeCandidate(table[i], i, p, now, cfg.recentDaysPriority) in r
    {
      var j :| 0 <= j < |plats| && plats[j] == p;
      ExplodeFromComplete(table, 0, plats, now, cfg, i, j);
    }
    r
  }

  /** Candidates of the same row appear in the order of the enabled platforms. */
  lemma ExplodePlatformOrder(table: seq<Row>, cfg: Settings.Config, now: int, k: int, l: int)
    requires 0 <= k < l < |Explode(table, cfg, now)|
    requires Explode(table, cfg, now)[k].rowIdx == Explode(table, cfg, now)[l].rowIdx
    ensures var r := Explode(table, cfg, now);
            Precedes(Settings.Platforms(cfg), r[k].platform, r[l].platform)
  {
    assert Explode(table, cfg, now) == ExplodeFrom(table, 0, Settings.Platforms(cfg), now, cfg);
    ExplodeFromOrder(table, 0, Settings.Platforms(cfg), now, cfg, k, l);
  }

  /** No candidate is in cooldown, and each carries its URL stripped and non-empty. */
  lemma ExplodedCandidatesAreFresh(table: seq<Row>, cfg: Settings.Config, now: int, c: Candidate)
    requires c in Explode(table, cfg, now)
    ensures c.platform in PlatformCols
    ensures c.url != "" && Trimmed(c.url, IsSpace)
    ensures !InCooldown(table, c.url, c.platform, now, cfg.cooldownDaysPerUrl)
  {
  }

  // ---------------------------------------------------------------------------
  // Ranking
  // ---------------------------------------------------------------------------

  /**
   * The sort key of `_pick_candidate`: recent first, then later release first
   * (a missing release counts as local midnight of 1 January 1970, the instant
   * `zoneEpoch`), then lower row index.
   */
  function SortKey(c: Candidate, zoneEpoch: int): (int, int, int) {
    (if c.isRecent then 0 else 1, -c.releaseAt.GetOr(zoneEpoch), c.rowIdx)
  }

  /** Lexicographic "strictly before" on sort keys. */
  predicate KeyLess(a: Candidate, b: Candidate, zoneEpoch: int) {
    var ka, kb := SortKey(a, zoneEpoch), SortKey(b, zoneEpoch);
    || ka.0 < kb.0
    || (ka.0 == kb.0 && ka.1 < kb.1)
    || (ka.0 == kb.0 && ka.1 == kb.1 && ka.2 < kb.2)
  }

  /** `cs[k]` is what a stable sort puts first: no key is smaller, and every earlier element's key is larger. */
  ghost predicate FirstMinimal(cs: seq<Candidate>, k: int, zoneEpoch: int) {
    && 0 <= k < |cs|
    && (forall j :: 0 <= j < |cs| ==> !KeyLess(cs[j], cs[k], zoneEpoch))
    && (forall j :: 0 <= j < k ==> KeyLess(cs[k], cs[j], zoneEpoch))
  }

  /** `_pick_candidate`: the first element of the list stably sorted by `SortKey`, or `None` for an empty list. */
  method PickCandidate(cs: seq<Candidate>, zoneEpoch: int) returns (r: Option<Candidate>)
    ensures r.None? <==> |cs| == 0
    ensures r.Some? ==> exists k :: FirstMinimal(cs, k, zoneEpoch) && cs[k] == r.value
  {
    if |cs| == 0 {
      return None;
    }
    var best := 0;
    var i := 1;
    while i < |cs|
      invariant 0 <= best < i <= |cs|
      invariant forall j :: 0 <= j < i ==> !KeyLess(cs[j], cs[best], zoneEpoch)
      invariant forall j :: 0 <= j < best ==> KeyLess(cs[best], cs[j], zoneEpoch)
    {
      if KeyLess(cs[i], cs[best], zoneEpoch) {
        best := i;
      }
      i := i + 1;
    }
    assert FirstMinimal(cs, best, zoneEpoch);
    return Some(cs[best]);
  }

  /** The stable-sort winner is unique, so the pick is deterministic. */
  lemma FirstMinimalUnique(cs: seq<Candidate>, k1: int, k2: int, zoneEpoch: int)
    requires FirstMinimal(cs, k1, zoneEpoch) && FirstMinimal(cs, k2, zoneEpoch)
    ensures k1 == k2
  {
    // Neither is strictly before the other, so neither can be the earlier index.
    assert !KeyLess(cs[k2], cs[k1], zoneEpoch) && !KeyLess(cs[k1], cs[k2], zoneEpoch);
  }

  /**
   * A recent candidate beats every non-recent one, and among candidates of the
   * same recency the winner's release is the latest.
   */
  lemma PickPrefersRecentThenLatest(cs: seq<Candidate>, k: int, zoneEpoch: int)
    requires FirstMinimal(cs, k, zoneEpoch)
    ensures (exists j :: 0 <= j < |cs| && cs[j].isRecent) ==> cs[k].isRecent
    ensures forall j :: 0 <= j < |cs| && cs[j].isRecent == cs[k].isRecent ==>
              cs[j].releaseAt.GetOr(zoneEpoch) <= cs[k].releaseAt.GetOr(zoneEpoch)
  {
    if exists j :: 0 <= j < |cs| && cs[j].isRecent {
      var j :| 0 <= j < |cs| && cs[j].isRecent;
      assert !KeyLess(cs[j], cs[k], zoneEpoch);
    }
  }

  // ---------------------------------------------------------------------------
  // Bookkeeping after a post
  // ---------------------------------------------------------------------------

  /** `_mark_posted`: set the candidate's posted flag and last-posted instant on its row. */
  function MarkPosted(table: seq<Row>, cand: Candidate, when: int): (r: seq<Row>)
    requires cand.rowIdx < |table|
    ensures |r| == |table|
    ensures forall j :: 0 <= j < |r| && j != cand.rowIdx ==> r[j] == table[j]
    ensures Get(r[cand.rowIdx], cand.lastPostedCol) == Some(Stamp(when))
    ensures cand.postedCol != cand.lastPostedCol ==> Get(r[cand.rowIdx], cand.postedCol) == Some(Flag(true))
    ensures forall col :: col != cand.postedCol && col != cand.lastPostedCol ==>
              Get(r[cand.rowIdx], col) == Get(table[cand.rowIdx], col)
  {
    var i := cand.rowIdx;
    table[i := table[i][cand.postedCol := Some(Flag(true))][cand.lastPostedCol := Some(Stamp(when))]]
  }

  /** Once a candidate is marked posted at `when`, its URL is in cooldown for its platform at `when`. */
  lemma MarkedCandidateIsInCooldown(table: seq<Row>, i: nat, p: string, now: int, recentDays: int, when: int, days: int)
    requires i < |table| && p in PlatformCols
    requires days >= 0
    ensures InCooldown(MarkPosted(table, MakeCandidate(table[i], i, p, now, recentDays), when),
                       MakeCandidate(table[i], i, p, now, recentDays).url, p, when, days)
  {
    var cand := MakeCandidate(table[i], i, p, now, recentDays);
    var marked := MarkPosted(table, cand, when);
    var cols := PlatformCols[p];
    PlatformColumnsDistinct(p);
    StripIdempotent(CellText(Get(table[i], cols.url)));
    assert Get(marked[i], cols.url) == Get(table[i], cols.url);
    assert BlocksUrl(marked[i], cols, Strip(cand.url), DaysBefore(when, days));
  }

  // ---------------------------------------------------------------------------
  // One firing
  // ---------------------------------------------------------------------------

  /** How one firing of `run_once` ends. */
  datatype RunOutcome =
    | NoData                                   // no table, or an empty one
    | NoCandidates                             // nothing survived the filters
    | PublishFailed(cand: Candidate)           // building or publishing raised; nothing is written
    | Published(cand: Candidate, saved: Option<seq<Row>>)  // the table written back, if any

  /**
   * `df.empty` on the frame `_load_tracks_df` returns: that loader always adds
   * its title, date and platform columns, so the frame is empty iff it has no
   * rows.
   */
  predicate IsEmptyTable(table: seq<Row>) {
    |table| == 0
  }

  /**
   * `run_once` with the catalog read, the post text, the publisher and the
   * clock given as inputs: `data` is what the loader returned, `publishOk`
   * whether text building and publishing returned without raising.
   */
  method RunOnce(data: Option<seq<Row>>, cfg: Settings.Config, now: int, zoneEpoch: int, publishOk: bool)
    returns (out: RunOutcome)
    ensures out == NoData <==> data.None? || IsEmptyTable(data.value)
    ensures out.NoCandidates? <==> data.Some? && !IsEmptyTable(data.value) && |Explode(data.value, cfg, now)| == 0
    ensures out.PublishFailed? || out.Published? ==>
              && data.Some?
              && exists k :: FirstMinimal(Explode(data.value, cfg, now), k, zoneEpoch) && Explode(data.value, cfg, now)[k] == out.cand
    ensures out.Published? <==> data.Some? && !IsEmptyTable(data.value) && |Explode(data.value, cfg, now)| > 0 && publishOk
    ensures out.Published? ==> (out.saved.Some? <==> !cfg.dryRun)
    ensures out.Published? && out.saved.Some? ==>
              out.cand.rowIdx < |data.value| && out.saved.value == MarkPosted(data.value, out.cand, now)
  {
    if data.None? || IsEmptyTable(data.value) {
      return NoData;
    }
    var table := data.value;
    var candidates := Explode(table, cfg, now);
    if |candidates| == 0 {
      return NoCandidates;
    }
    var picked := PickCandidate(candidates, zoneEpoch);
    var cand := picked.value;
    if !publishOk {
      return PublishFailed(cand);
    }
    if cfg.dryRun {
      return Published(cand, None);
    }
    assert cand in candidates;
    return Published(cand, Some(MarkPosted(table, cand, now)));
  }
}
