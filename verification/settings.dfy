/**
 * The bot's configuration (settings.py): the environment-driven fields the
 * core reads, their defaults, and the two CSV-splitting properties
 * `platforms` and `DAILY_SLOTS`.
 */
module Settings {
  import opened Text

  /** The fields of the `Settings` object that the modelled code reads. */
  datatype Config = Config(
    tz: string,
    slotsLocal: string,
    slotJitterMinutes: int,
    platformsEnabled: string,
    recentDaysPriority: int,
    cooldownDaysPerUrl: int,
    fixedHeadline: string,
    useUtm: bool,
    utmSource: string,
    utmMedium: string,
    authMethod: string,
    previewWaitSeconds: int,
    dryRun: bool,
    attachThumbnail: bool,
    thumbnailQuality: string)

  /** The entries of the default `SLOTS_LOCAL`. */
  const DefaultSlotEntries: seq<string> := ["10:00", "13:00", "16:00", "19:00", "22:00"]

  /** The entries of the default `PLATFORMS_ENABLED`. */
  const DefaultPlatformEntries: seq<string> := ["YouTube", "Beatport", "AppleMusic", "Spotify"]

  /**
   * The declared defaults, used when the environment sets nothing. The two
   * CSV defaults are written as the join of their entries: the texts
   * "10:00,13:00,16:00,19:00,22:00" and "YouTube,Beatport,AppleMusic,Spotify".
   */
  const Defaults: Config := Config(
    tz := "Europe/Madrid",
    slotsLocal := Join(DefaultSlotEntries, ","),
    slotJitterMinutes := 15,
    platformsEnabled := Join(DefaultPlatformEntries, ","),
    recentDaysPriority := 60,
    cooldownDaysPerUrl := 30,
    fixedHeadline := "\U{A1}Only Techouse For You!",
    useUtm := true,
    utmSource := "X",
    utmMedium := "social",
    authMethod := "oauth2",
    previewWaitSeconds := 15,
    dryRun := false,
    attachThumbnail := false,
    thumbnailQuality := "hqdefault")

  /** The stripped, non-blank fields, in their original order. */
  function NonBlankFields(fields: seq<string>): (r: seq<string>)
    ensures |r| <= |fields|
    ensures forall k :: 0 <= k < |r| ==> r[k] != "" && Trimmed(r[k], IsSpace)
  {
    if |fields| == 0 then []
    else
      var t := Strip(fields[|fields| - 1]);
      NonBlankFields(fields[..|fields| - 1]) + (if t == "" then [] else [t])
  }

  /** `[s.strip() for s in csv.split(",") if s.strip()]` */
  function CsvList(csv: string): seq<string> {
    NonBlankFields(Split(csv, ','))
  }

  /** `settings.platforms` */
  function Platforms(c: Config): seq<string> {
    CsvList(c.platformsEnabled)
  }

  /** `settings.DAILY_SLOTS` */
  function DailySlots(c: Config): seq<string> {
    CsvList(c.slotsLocal)
  }

  /** Positions of the fields that `NonBlankFields` keeps. */
  ghost function KeptPositions(fields: seq<string>): seq<nat> {
    if |fields| == 0 then []
    else
      var n := |fields| - 1;
      KeptPositions(fields[..n]) + (if Strip(fields[n]) == "" then [] else [n])
  }

  /**
   * `idx` lists, in increasing order, the positions of exactly the non-blank
   * fields, and `r[k]` is the stripped field at position `idx[k]`.
   */
  ghost predicate PicksNonBlank(fields: seq<string>, idx: seq<nat>, r: seq<string>) {
    && |idx| == |r|
    && (forall k :: 0 <= k < |idx| ==> idx[k] < |fields| && r[k] == Strip(fields[idx[k]]))
    && (forall k, l :: 0 <= k < l < |idx| ==> idx[k] < idx[l])
    && (forall j :: 0 <= j < |fields| && Strip(fields[j]) != "" ==> j in idx)
  }

  /**
   * The list is exactly the non-blank fields, stripped, in CSV order: the k-th
   * entry comes from the k-th non-blank field, and no non-blank field is skipped.
   */
  lemma CsvListKeepsOrder(fields: seq<string>)
    ensures PicksNonBlank(fields, KeptPositions(fields), NonBlankFields(fields))
  {
    KeptPositionsSound(fields);
    KeptPositionsSorted(fields);
    KeptPositionsComplete(fields);
  }

  lemma {:induction false} KeptPositionsLength(fields: seq<string>)
    ensures |KeptPositions(fields)| == |NonBlankFields(fields)|
  {
    if |fields| > 0 {
      KeptPositionsLength(fields[..|fields| - 1]);
    }
  }

  lemma {:induction false} KeptPositionsSound(fields: seq<string>)
    ensures |KeptPositions(fields)| == |NonBlankFields(fields)|
    ensures forall k :: 0 <= k < |KeptPositions(fields)| ==>
              KeptPositions(fields)[k] < |fields| && NonBlankFields(fields)[k] == Strip(fields[KeptPositions(fields)[k]])
  {
    KeptPositionsLength(fields);
    if |fields| > 0 {
      var n := |fields| - 1;
      var init := fields[..n];
      KeptPositionsSound(init);
      var prev, prevR := KeptPositions(init), NonBlankFields(init);
      var t := Strip(fields[n]);
      var idx := prev + (if t == "" then [] else [n]);
      var r := prevR + (if t == "" then [] else [t]);
      assert idx == KeptPositions(fields);
      assert r == NonBlankFields(fields);
      forall k | 0 <= k < |idx|
        ensures idx[k] < |fields| && r[k] == Strip(fields[idx[k]])
      {
        if k < |prev| {
          KeptEarlier(fields, prev, prevR, idx, r, k);
        } else {
          assert idx[k] == n && r[k] == t;
        }
      }
    }
  }

  lemma KeptEarlier(fields: seq<string>, prev: seq<nat>, prevR: seq<string>, idx: seq<nat>, r: seq<string>, k: int)
    requires |fields| > 0 && 0 <= k < |prev| && |prev| == |prevR|
    requires prev[k] < |fields| - 1 && prevR[k] == Strip(fields[..|fields| - 1][prev[k]])
    requires |idx| >= |prev| && |r| >= |prevR| && idx[..|prev|] == prev && r[..|prevR|] == prevR
    ensures idx[k] < |fields| && r[k] == Strip(fields[idx[k]])
  {
    assert idx[k] == idx[..|prev|][k];
    assert r[k] == r[..|prevR|][k];
  }

  lemma {:induction false} KeptPositionsSorted(fields: seq<string>)
    ensures forall k :: 0 <= k < |KeptPositions(fields)| ==> KeptPositions(fields)[k] < |fields|
    ensures forall k, l :: 0 <= k < l < |KeptPositions(fields)| ==> KeptPositions(fields)[k] < KeptPositions(fields)[l]
  {
    if |fields| > 0 {
      var n := |fields| - 1;
      var init := fields[..n];
      KeptPositionsSorted(init);
      var prev := KeptPositions(init);
      var idx := prev + (if Strip(fields[n]) == "" then [] else [n]);
      assert idx == KeptPositions(fields);
      forall k, l | 0 <= k < l < |idx| ensures idx[k] < idx[l] {
        if l >= |prev| {
          assert idx[l] == n;
          assert idx[k] == prev[k] < |init|;
        }
      }
    }
  }

  lemma {:induction false} KeptPositionsComplete(fields: seq<string>)
    ensures forall j :: 0 <= j < |fields| && Strip(fields[j]) != "" ==> j in KeptPositions(fields)
  {
    if |fields| > 0 {
      var n := |fields| - 1;
      var init := fields[..n];
      KeptPositionsComplete(init);
      var prev := KeptPositions(init);
      var t := Strip(fields[n]);
      var idx := prev + (if t == "" then [] else [n]);
      assert idx == KeptPositions(fields);
      forall j | 0 <= j < |fields| && Strip(fields[j]) != "" ensures j in idx {
        if j < n {
          assert init[j] == fields[j];
          assert j in prev;
        } else {
          assert j == n && t != "";
          assert idx[|prev|] == n;
        }
      }
    }
  }

  /** Every entry of `DAILY_SLOTS` and of `platforms` is stripped and non-empty. */
  lemma SettingsListsAreClean(c: Config)
    ensures forall k :: 0 <= k < |DailySlots(c)| ==> DailySlots(c)[k] != "" && Strip(DailySlots(c)[k]) == DailySlots(c)[k]
    ensures forall k :: 0 <= k < |Platforms(c)| ==> Platforms(c)[k] != "" && Strip(Platforms(c)[k]) == Platforms(c)[k]
  {
    forall k | 0 <= k < |DailySlots(c)| ensures Strip(DailySlots(c)[k]) == DailySlots(c)[k] {
      StripByTrimmed(DailySlots(c)[k], IsSpace);
    }
    forall k | 0 <= k < |Platforms(c)| ensures Strip(Platforms(c)[k]) == Platforms(c)[k] {
      StripByTrimmed(Platforms(c)[k], IsSpace);
    }
  }

  /** Splitting the CSV of space-free, comma-free, non-empty entries gives the entries back. */
  lemma CsvListOfCleanEntries(entries: seq<string>)
    requires |entries| >= 1
    requires forall k :: 0 <= k < |entries| ==> entries[k] != "" && ',' !in entries[k]
    requires forall k, i :: 0 <= k < |entries| && 0 <= i < |entries[k]| ==> !IsSpace(entries[k][i])
    ensures CsvList(Join(entries, ",")) == entries
  {
    SplitJoin(entries, ',');
    NonBlankCleanFields(entries);
  }

  lemma {:induction false} NonBlankCleanFields(entries: seq<string>)
    requires forall k :: 0 <= k < |entries| ==> entries[k] != ""
    requires forall k, i :: 0 <= k < |entries| && 0 <= i < |entries[k]| ==> !IsSpace(entries[k][i])
    ensures NonBlankFields(entries) == entries
  {
    if |entries| > 0 {
      var n := |entries| - 1;
      NonBlankCleanFields(entries[..n]);
      StripByKeepsClean(entries[n], IsSpace);
      assert entries == entries[..n] + [entries[n]];
    }
  }

  /** Printable ASCII other than the space is never whitespace. */
  lemma VisibleIsNotSpace(entries: seq<string>)
    requires forall k, i :: 0 <= k < |entries| && 0 <= i < |entries[k]| ==> '!' <= entries[k][i] <= '~'
    ensures forall k, i :: 0 <= k < |entries| && 0 <= i < |entries[k]| ==> !IsSpace(entries[k][i])
  {
  }

  /** Non-empty entries of printable ASCII without comma or space read back from their CSV. */
  lemma CsvListOfVisibleEntries(entries: seq<string>)
    requires |entries| >= 1
    requires forall k :: 0 <= k < |entries| ==> entries[k] != "" && ',' !in entries[k]
    requires forall k, i :: 0 <= k < |entries| && 0 <= i < |entries[k]| ==> '!' <= entries[k][i] <= '~'
    ensures CsvList(Join(entries, ",")) == entries
  {
    VisibleIsNotSpace(entries);
    CsvListOfCleanEntries(entries);
  }

  /** A configuration whose slot CSV joins clean entries has exactly those slots. */
  lemma DailySlotsOfEntries(c: Config, entries: seq<string>)
    requires c.slotsLocal == Join(entries, ",")
    requires CleanEntries(entries)
    ensures DailySlots(c) == entries
  {
    CsvListOfVisibleEntries(entries);
  }

  /** A configuration whose platform CSV joins clean entries has exactly those platforms. */
  lemma PlatformsOfEntries(c: Config, entries: seq<string>)
    requires c.platformsEnabled == Join(entries, ",")
    requires CleanEntries(entries)
    ensures Platforms(c) == entries
  {
    CsvListOfVisibleEntries(entries);
  }

  /** Non-empty, comma-free entries of printable ASCII. */
  predicate CleanEntries(entries: seq<string>) {
    && |entries| >= 1
    && (forall k :: 0 <= k < |entries| ==> entries[k] != "" && ',' !in entries[k])
    && (forall k, i :: 0 <= k < |entries| && 0 <= i < |entries[k]| ==> '!' <= entries[k][i] <= '~')
  }

  lemma DefaultSlotsClean(entries: seq<string>)
    requires entries == DefaultSlotEntries
    ensures CleanEntries(entries)
  {
  }

  lemma DefaultPlatformsClean(entries: seq<string>)
    requires entries == DefaultPlatformEntries
    ensures CleanEntries(entries)
  {
  }

  /** The default slots are the five daily times 10:00, 13:00, 16:00, 19:00 and 22:00. */
  lemma DefaultDailySlots()
    ensures DailySlots(Defaults) == ["10:00", "13:00", "16:00", "19:00", "22:00"]
  {
    DefaultSlotsClean(DefaultSlotEntries);
    DailySlotsOfEntries(Defaults, DefaultSlotEntries);
  }

  /** The default platforms are the four the scheduler knows, in this order. */
  lemma DefaultPlatforms()
    ensures Platforms(Defaults) == ["YouTube", "Beatport", "AppleMusic", "Spotify"]
  {
    DefaultPlatformsClean(DefaultPlatformEntries);
    PlatformsOfEntries(Defaults, DefaultPlatformEntries);
  }
}
