# x-bot in Dafny

A model of the decision logic of x-bot, a bot that posts tech-house releases
from a spreadsheet catalog to X (Twitter) at fixed daily slots. It covers the
bot's decisions: which catalog row and platform to post, whether a URL is
still in its cooldown, how a post text is cut to 280 characters, how YouTube
links are recognised and their video ids extracted, how the catalog is
normalised on load, and how the daily queue and the post history change. No
network, file or clock access is modelled. The network and file answers, the
clock and the random choices are parameters.

One module per source file, plus three shared ones:

- `Wrappers` (`Option`, `Result`).
- `Text`: Python's `strip`, `split`, `join`, `startswith` and `int()` on decimal text, and `lower` on ASCII letters (see "Left out").
- `Table`: spreadsheet cells and rows, where a row is a map from column name to an optional cell, and instants are whole seconds.

| file | module | models |
|---|---|---|
| settings.dfy | `Settings` | settings.py: the fields read, their defaults, `platforms`, `DAILY_SLOTS` |
| scheduler.dfy | `Scheduler` | scheduler.py: slots, candidates, cooldown, ranking, `_mark_posted`, `run_once` |
| queue_store.dfy | `QueueStore` | db.py: `daily_queue` as a map keyed by `(run_date, slot_index)`, `post_history` as a sequence |
| post_generator.dfy | `PostGenerator` | post_generator.py: `PLATFORM_TAGS`, `_slug`, `_add_utm`, `build_copy` |
| utils.dfy | `Utils` | utils.py: `is_valid_youtube`, `slugify`, `pick_hashtags`, `add_utm` |
| x_client.dfy | `XClient` | x_client.py: `_extract_yt_id`, thumbnail gating, dry-run upload, `post_text` payload |
| excel_manager.dfy | `ExcelManager` | excel_manager.py: `load` normalisation (as written, and with the posted flag read as intended), `validate_row`, `mark_posted` |

Where the design description of the system and the code disagree, the model
follows the code:

- **No URL dedup.** Selection does not deduplicate candidates by URL. A URL listed on two rows gives two candidates.
- **Cooldown reads only the catalog.** It checks the last-posted column of the same platform. It never consults the post history.
- **The scheduler does not use the queue store.** `scheduler.py` never calls `db.py`, so the queue and the history are a separate component here.
- **A firing never finishes a queue row.** No path writes a terminal status. A dry run skips only the catalog update.

## Model

| member | source | states |
|---|---|---|
| Settings.NonBlankFields | settings.py:71 | the list never grows, and each entry is non-empty and has no surrounding whitespace |
| Settings.CsvListKeepsOrder | settings.py:68-76 | the list is exactly the stripped non-blank CSV fields, in CSV order: entry k comes from the k-th non-blank field, and none is skipped |
| Settings.SettingsListsAreClean | settings.py:68-76 | every entry of `DAILY_SLOTS` and of `platforms` is non-empty and unchanged by `strip` |
| Settings.CsvListOfCleanEntries | settings.py:68-76 | joining non-empty entries without commas or spaces and splitting them back gives the same entries |
| Settings.DefaultDailySlots | settings.py:14 | the default slots are 10:00, 13:00, 16:00, 19:00 and 22:00 |
| Settings.DefaultPlatforms | settings.py:21 | the default platforms are YouTube, Beatport, AppleMusic and Spotify, in that order |
| Scheduler.ParseSlot | scheduler.py:25-39 | an accepted slot has hour 0..23 and minute 0..59; three or more `:`-parts give the format error |
| Scheduler.ParseSlotHour | scheduler.py:30-32 | any non-empty digit string `HH`, zero-padded or not (`"09"`, `"00"`), parses to (HH, 0) when it is at most 23, and to the range error otherwise |
| Scheduler.ParseSlotHourMinute | scheduler.py:33-39 | `HH:MM` with non-empty digit strings on both sides, zero-padded or not (`"10:00"`, `"09:30"`), parses to (HH, MM) when in range, and to the range error otherwise |
| Scheduler.ParseSlotRejectsExtraColons | scheduler.py:35-36 | two or more colons always give the format error |
| Scheduler.PlatformColumnsDistinct | scheduler.py:71-76 | each platform's URL, posted and last-posted columns are three different columns |
| Scheduler.DefaultPlatformsAreKnown | scheduler.py:225-227 | every default platform has a column mapping, so none is skipped |
| Scheduler.MakeCandidate | scheduler.py:236-249 | the candidate carries the row index, the platform and its three columns; its URL and title are stripped; it is recent iff its release is at or after the recency cut-off |
| Scheduler.RecencyBoundaryIsInclusive | scheduler.py:216 | a release exactly at the cut-off is recent; one second earlier, or no release, is not |
| Scheduler.CooldownReadsOnlyOwnColumns | scheduler.py:259-272 | two tables that agree on this platform's URL and last-posted columns agree on the cooldown, whatever the other columns hold |
| Scheduler.CooldownWindow | scheduler.py:262-271 | a post `days - 1` days ago blocks the URL; one `days + 1` days ago, or none, does not |
| Scheduler.RowCandidatesSound | scheduler.py:225-255 | each candidate of a row is built for that row and an enabled, mapped platform with a non-blank URL out of cooldown |
| Scheduler.RowCandidatesComplete | scheduler.py:225-255 | every such platform of the row contributes its candidate |
| Scheduler.ExplodeFromSound | scheduler.py:218-255 | every candidate from a row onwards belongs to the candidates of its own row |
| Scheduler.ExplodeFromComplete | scheduler.py:218-255 | every eligible (row, platform) pair from a row onwards is among the candidates |
| Scheduler.Explode | scheduler.py:213-257 | the candidates are exactly the eligible (row, platform) pairs, each built by `MakeCandidate`, in row order |
| Scheduler.RowCandidatesOrder | scheduler.py:225-255 | the candidates of one row follow the order of the platform list |
| Scheduler.ExplodeFromOrder | scheduler.py:218-255 | from a row onwards, two candidates of the same row follow the order of the platform list |
| Scheduler.ExplodePlatformOrder | scheduler.py:214-255 | two candidates of the same row appear in the order of the enabled platforms; this order breaks the ranking's ties, since such candidates share release, recency and row |
| Scheduler.ExplodedCandidatesAreFresh | scheduler.py:230-253 | no emitted candidate is in cooldown; its URL is non-empty and stripped; its platform is mapped |
| Scheduler.PickCandidate | scheduler.py:274-285 | `None` iff the list is empty; otherwise the element a stable sort by (recent first, later release, lower row) puts first |
| Scheduler.FirstMinimalUnique | scheduler.py:284-285 | the first element after the stable sort is unique, so the pick is deterministic |
| Scheduler.PickPrefersRecentThenLatest | scheduler.py:278-282 | a recent candidate beats every non-recent one, and among equally recent ones the pick has the latest release |
| Scheduler.MarkPosted | scheduler.py:290-292 | only the candidate's row changes, and only its posted flag (true) and last-posted instant (`when`) |
| Scheduler.MarkedCandidateIsInCooldown | scheduler.py:290-292 | after marking a candidate posted at `when`, its URL is in cooldown for its platform at `when` |
| Scheduler.RunOnce | scheduler.py:103-147 | no post because of missing data iff there is no table or it has no rows (the loader always adds its columns, so `df.empty` means no rows); no candidates gives no post; otherwise the ranked pick is published, and the table is marked and saved iff not in dry-run |
| QueueStore.AddHistory | db.py:37-42 | one record is appended, the earlier records are unchanged, and the queue is untouched |
| QueueStore.PostedInLastDays | db.py:44-57 | a URL is in the answer iff it is a non-empty input URL with a record at or after `now - days`; all-empty input gives the empty set |
| QueueStore.Upsert | db.py:60-68 | a new key is inserted as `pending`; an existing key gets the new URL and planned instant but keeps its status; other keys are unchanged |
| QueueStore.Claim | db.py:79-96 | a `pending` row becomes `posting` and its URL is returned; otherwise `None` and the store is unchanged |
| QueueStore.Finish | db.py:98-104 | sets the status of an existing key only; an absent key is a no-op |
| QueueStore.AtMostOneClaim | db.py:83-95 | of two claims of the same slot in a row, at most one returns a URL |
| QueueStore.FinishIdempotent | db.py:98-104 | finishing twice with the same status equals finishing once |
| QueueStore.UpsertThenClaim | db.py:60-96 | a freshly planned or still pending slot is claimed with the URL just planned and becomes `posting` |
| QueueStore.ReplanKeepsClaim | db.py:60-96 | re-planning a slot that is no longer pending does not make it claimable again |
| QueueStore.ListForDate | db.py:70-77 | the listing has exactly the rows of that date, each with its URL and status, in strictly increasing slot order |
| QueueStore.Ascending | db.py:74 | the elements of a set of slot indices, each once, in strictly increasing order |
| PostGenerator.Tags | post_generator.py:43 | the tag line starts with `#TechHouse `, is `#TechHouse #NewMusic` for an unknown platform, and is at most 34 characters |
| PostGenerator.ShortTags | post_generator.py:59 | the one-tag line is `#TechHouse` and is shorter than the full tag line |
| PostGenerator.SlugChar | post_generator.py:18 | every character maps to a slug character, and to `-` iff it is not alphanumeric |
| PostGenerator.Slug | post_generator.py:17-18 | the slug is at most 60 characters of `[a-z0-9-]` with no `-` at either end |
| PostGenerator.SlugIdempotent | post_generator.py:17-18 | a slug is its own slug |
| PostGenerator.Campaign | post_generator.py:46 | the campaign starts with the title's slug and `-`, and its length is the slug's plus one plus the platform name's |
| PostGenerator.AddUtm | post_generator.py:20-31 | the link is unchanged when UTM is off, and rewritten with source, medium and campaign when on |
| PostGenerator.BaseInfo | post_generator.py:38-40 | the track line has no surrounding whitespace and always contains the middle dot |
| PostGenerator.Compose | post_generator.py:49 | the copy starts with the headline line and ends with the link line; its length is the parts' lengths plus three newlines |
| PostGenerator.Compose3 | post_generator.py:62 | the three-line copy starts with the headline line, ends with the link line, and has two newlines |
| PostGenerator.MaxBase | post_generator.py:53-54 | the budget is at least 10, and at least 280 minus the reserved characters |
| PostGenerator.Truncate | post_generator.py:55-56 | a track line within budget is kept; a longer one is cut to exactly the budget, keeping its start and ending in `…` |
| PostGenerator.FitCopy | post_generator.py:51-62 | a copy within 280 is kept as is; otherwise each fallback (shorter track line, one tag, no tag line) is taken only while still over 280; the headline and the link are always kept |
| PostGenerator.BuildCopy | post_generator.py:33-64 | the copy starts with the headline, ends with the (UTM-tagged) link, and is within 280 whenever headline, tags and link leave ten characters |
| PostGenerator.DefaultCopyFits | post_generator.py:51-62 | with the default headline, a link of at most 210 characters always gives a copy within 280 |
| Utils.IsValidYoutube | utils.py:26-27 | true iff the URL is non-empty and its stripped form starts with one of the twelve prefixes of the pattern, ignoring case; the case folds are exactly those `re.IGNORECASE` gives this pattern's letters, which are ASCII plus the long s (U+017F) for `s`, since no other non-ASCII character folds to one of them |
| Utils.MatcherAgrees | utils.py:24 | the left-to-right matcher accepts exactly the texts that start with one of the pattern's twelve prefixes |
| Utils.RejectsBareHost | utils.py:24 | `https://youtube.com` without the trailing slash is refused |
| Utils.RejectsForeignStart | utils.py:24 | the match is anchored: a text whose first character opens no group is refused |
| Utils.RejectsSubdomain | utils.py:24 | `x.youtube.com/watch` is refused |
| Utils.AcceptsShortLink | utils.py:24 | `youtu.be/abc` without a scheme is accepted |
| Utils.AsciiOnly | utils.py:30 | only ASCII characters are kept |
| Utils.Collapse | utils.py:31 | the result has only ASCII alphanumerics and `-`, never two `-` in a row, and keeps a leading alphanumeric |
| Utils.Slugify | utils.py:29-32 | the slug is 1 to 60 characters of `[a-z0-9-]`, never starts with `-`, and has no `--` |
| Utils.CollapseAlnums | utils.py:31 | collapsing separators keeps every alphanumeric, in order |
| Utils.AsciiOnlyAlnums | utils.py:30 | dropping non-ASCII characters keeps every ASCII alphanumeric |
| Utils.StripDashAlnums | utils.py:31 | stripping `-` keeps every alphanumeric |
| Utils.SlugifyFallback | utils.py:31-32 | text without ASCII alphanumerics slugs to `track` |
| Utils.SlugifyKeepsContent | utils.py:29-32 | otherwise the slug's alphanumerics are a non-empty prefix of the text's alphanumerics, lower-cased |
| Utils.HashtagBase | utils.py:47-49 | the English list is used iff the language lower-cases to `en`; a missing or empty language uses the Spanish list |
| Utils.FirstOccurrences | utils.py:51-57 | the de-duplicated list has no repeats and the same elements as the input |
| Utils.FirstOccurrencesOfDistinct | utils.py:51-57 | a list without repeats is its own de-duplication |
| Utils.Dedupe | utils.py:52-57 | the `seen`/`ordered` loop keeps each tag at its first occurrence, in order |
| Utils.PickHashtags | utils.py:46-58 | the answer is the three sampled tags, all different, joined by spaces |
| Utils.AddUtmGuarded | utils.py:34-41 | an empty link is returned unchanged; any other link is rewritten with the three `utm_` parameters |
| XClient.ExtractYtId | x_client.py:131-142 | a short-link host gives exactly the path without its leading slashes, or nothing when only slashes remain; `/watch` gives the first `v` value, and nothing iff there is none; a `/shorts/` or `/embed/` path gives the text after that prefix up to the next `/`; any other `youtube.com` path and any other host give nothing |
| XClient.ShortLinkRoundTrip | x_client.py:133-134 | `youtu.be/<id>` gives back `id` |
| XClient.WatchRoundTrip | x_client.py:135-137 | a `/watch` link gives back its first `v` value |
| XClient.ShortsRoundTrip | x_client.py:138-141 | `/shorts/<id>` (optionally followed by `/...`) gives back `id` |
| XClient.EmbedRoundTrip | x_client.py:138-141 | `/embed/<id>` (optionally followed by `/...`) gives back `id` |
| XClient.UploadImage | x_client.py:147-165 | in dry-run the media id is `"0"`; otherwise the upload succeeds iff the endpoint answered a non-empty id |
| XClient.PrepareThumbnail | x_client.py:85-126 | nothing is fetched when thumbnails are off, the platform is not YouTube, or there is no video id; media ids come back only after a successful fetch with OAuth 1.0a, and in dry-run they are `["0"]` |
| XClient.MakePayload | x_client.py:55-57 | the payload carries the text, and a `media` entry iff the id list is non-empty |
| XClient.PostText | x_client.py:49-80 | the payload is the text with the media ids exactly as given (none for an empty list); dry-run returns it without a request; otherwise the request waits the preview seconds when positive and is signed with OAuth 1.0a iff the method lower-cases to `oauth1` |
| XClient.DryRunAttachesPlaceholder | x_client.py:152-154 | in dry-run with thumbnails and OAuth 1.0a, a YouTube link with a video id whose image fetch succeeds is posted with the placeholder media id |
| ExcelManager.WithDateAlias | excel_manager.py:33-34 | the alias column is copied into `ReleaseDate` only when `ReleaseDate` is absent; every other cell is unchanged |
| ExcelManager.AddColumns | excel_manager.py:37-39 | missing columns are appended in order and read as empty; existing columns and cells are unchanged |
| ExcelManager.AddColumnsPresent | excel_manager.py:37-39 | adding columns that are all present changes nothing |
| ExcelManager.ToDate | excel_manager.py:47 | the result is an instant or empty; an instant is kept and an empty cell stays empty |
| ExcelManager.PostedAsWritten | excel_manager.py:52 | the flag is the cell's Python truthiness |
| ExcelManager.PostedFlag | excel_manager.py:50-52 | not what these lines compute (that is `PostedAsWritten`), but the reading their comment intends and the Finding below corrects them to: text reads as not posted iff it is empty, `false` or `0` (any case, surrounding space ignored); other cells keep their truthiness |
| ExcelManager.NormalCell | excel_manager.py:41-52 | per column: URL filled and stripped, text columns filled, the date parsed; the posted flag is the cell's truthiness as written, or `PostedFlag` under the intended reading; other columns unchanged |
| ExcelManager.NormalCellIdempotent | excel_manager.py:41-52 | normalising a cell twice equals normalising it once, under either reading of the posted flag |
| ExcelManager.NormalisedAreRequired | excel_manager.py:10-16 | every column `load` cleans is a required column |
| ExcelManager.Normalise | excel_manager.py:24-56 | row count kept; original columns first; every required column present and no other new one; every cell is its source cell normalised by its column; well-formed when the headers are distinct; with `AsWritten` this is `load` as written |
| ExcelManager.LoadedColumnsRead | excel_manager.py:42-52 | after `load` the URL is the stripped filled text, the date is parsed from `ReleaseDate` or its alias, and the posted flag is the truthiness of the `Posted` cell as written, or its intended reading |
| ExcelManager.LoadedOtherColumns | excel_manager.py:43-44 | after `load` the text columns are filled, and columns `load` does not clean keep their cells |
| ExcelManager.NormaliseComplete | excel_manager.py:37-39 | a sheet with every required column only has its cells normalised |
| ExcelManager.NormaliseIdempotent | excel_manager.py:24-56 | loading an already loaded sheet gives it back unchanged, both as written and as intended |
| ExcelManager.ValidateRow | excel_manager.py:58-60 | true iff the URL cell is text passing `is_valid_youtube` and a release date is present; a missing column or a non-text truthy URL raises |
| ExcelManager.LoadedRowsValidate | excel_manager.py:58-60 | every row of a loaded sheet validates without raising, to whether its cleaned URL is valid and its date parsed |
| ExcelManager.MarkPosted | excel_manager.py:62-66 | fails iff nothing is loaded; sets `Posted` and `LastPostedAt` on that row only, adding either column if absent, and appends a row for an index past the end |
| ExcelManager.MarkPostedIdempotent | excel_manager.py:62-66 | marking the same row twice at the same instant equals marking it once |
| ExcelManager.PostedAsWrittenMisreadsFalse | excel_manager.py:52 | the as-written reading turns a saved `False`, read back as text, into posted |
| ExcelManager.LoadMisreadsSavedFalse | excel_manager.py:30-52 | the whole load as written marks a row posted when its `Posted` cell holds the saved text `False`; the intended load keeps it unposted |
| ExcelManager.PostedFlagRoundTrip | excel_manager.py:50-52 | the intended reading gives back the flag that was saved, both `True` and `False` |

## Left out

- **I/O and services:** file reading and writing, HTTP requests, OAuth signing, `time.sleep`, logging, and the web entry point (main.py). Their answers are parameters: the loaded table, `fetchOk`, `remote` and `publishOk`.
- **APScheduler wiring:** `BotScheduler.start` (cron triggers, jitter, misfire grace, coalescing) is library behaviour. Only the slot parsing it relies on is modelled.
- **The scheduler's own loader and saver:** `_load_tracks_df` and `_save_tracks_df` are file I/O. The model reads a missing column as empty through `Get` and takes the date columns as already coerced to instants.
- **Library transforms given as inputs:**
  - `urlparse`/`urlencode` are the parameter `encode`. `_extract_yt_id` receives the netloc, path and `parse_qs` query already split.
  - `pd.to_datetime` on text is the parameter `parseDate`.
  - `astimezone().strftime` is the parameter `dateText`.
  - `random.sample` is the parameter `sample`.
  - The zone's 1970-01-01 midnight is the parameter `zoneEpoch`.
- **Unicode NFKD:** `slugify` is modelled on text that is already normalised.
- **pandas details:**
  - NaN and `None` are the same empty cell.
  - Naive and aware datetimes are not told apart, so the `TypeError` when comparing them is not modelled.
  - Row labels are positions.
  - `.loc` enlargement appends a row at the end instead of adding a row labelled `row_idx`.
- **`fmt_date_ddmmyyyy`:** pure date formatting, not used by the modelled code.
- **`ExcelManager.save`:** it is truncated in the source.
- **Concurrency:** SQLite transactions and the claim's atomicity against other processes are not modelled. Each store operation is one atomic step.
- **The `if not cand` guard in `run_once`:** it is unreachable once candidates exist, because `_pick_candidate` returns an element.
- PostGenerator.Slug: `str.isalnum` and `str.lower` are taken on ASCII only. Non-ASCII letters and digits, which Python keeps and lower-cases, become `-` here.
- PostGenerator.SlugChar: same ASCII-only reading of `isalnum` and `lower` as `Slug`.
- Scheduler.ParseSlot: `int()` is read as an optional sign followed by ASCII digits, with surrounding whitespace stripped. Underscores between digits and non-ASCII digits, which Python accepts, are rejected here.
- **Wall-clock day arithmetic:** `now - timedelta(days=…)` on an aware datetime (scheduler.py:216, 262) subtracts calendar days on the wall clock. The model subtracts `days * 86400` seconds (`Scheduler.DaysBefore`), so a recency or cooldown cut-off across a daylight-saving change differs from the source's by the shift, usually one hour.
- Scheduler.MakeCandidate: the recency cut-off is `now` minus whole 86400-second days, not the wall-clock subtraction described above.
- Scheduler.CooldownWindow: the cooldown cut-off is `now` minus whole 86400-second days, not the wall-clock subtraction described above.
- QueueStore.PostedInLastDays: the history stores `when.isoformat()` text (db.py:41) and compares it as text with `datetime.fromtimestamp(...).isoformat()` (db.py:48-53). The model stores and compares integer seconds, so text effects are not modelled: an offset suffix against naive text, or text with and without microseconds at the same instant.
- PostGenerator.Campaign: `platform.lower()` (post_generator.py:46) is taken on ASCII letters only, like every use of `Text.Lower`.
- Utils.HashtagBase: the language is lower-cased on ASCII letters only (utils.py:49).
- XClient.PostText: the auth method is lower-cased on ASCII letters only (x_client.py:72).
- XClient.PrepareThumbnail: the auth method is lower-cased on ASCII letters only (x_client.py:112).

## Findings

| source | as written | input that shows it | evidently intended | confidence | as-written member | corrected member |
|---|---|---|---|---|---|---|
| excel_manager.py:50-52 | the sheet is read with `dtype=str`, then `Posted` is converted with `astype(bool)`, which is Python truthiness on text | a row saved with `Posted` = `False`, read back as the text `"False"`, becomes posted (`True`); if `save` writes the flag back as that text (`save` is not part of this model), every row reads as posted after the first save | text flags are read as booleans, so `"False"` and `"0"` are not posted ("if they came as text or empty"); the corrected load is `ExcelManager.Normalise` with the `Intended` reading | not executed | ExcelManager.LoadMisreadsSavedFalse | ExcelManager.PostedFlagRoundTrip |
