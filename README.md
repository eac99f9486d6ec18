# TikTok crawler core, modelled in Dafny

This project models an early revision of a TikTok crawler. It has three parts:

- **The crawl orchestrator** (`src/main.py`). It picks one crawler account and
  starts a browser session. It fetches a batch of target ("favorite")
  accounts, visits each target's profile, lists its videos, fetches every
  video's details, merges the two dictionaries, and saves a description row
  and a stats row. It then stamps the target, and after the loop stamps the
  crawler account. Nested `except Exception: continue` blocks isolate
  failures per video and per target. The `finally` clause stops the browser.
- **Page-level extraction** (`src/crawler/tiktok_crawler.py`). This covers
  `get_user_videos`, the video id as the URL's final `/` segment,
  `navigate_to_user`, `get_video_details`, the `start`/`stop` bracket and
  `scroll_page`.
- **Selection and storage rules** (`src/database/repositories.py`, mirrored in
  `src/main.py:19-134`). These run over in-memory tables.

The browser and the database are oracles, described by a value of type
`Orchestrator.Env`:

- A profile page is given by how it loads and the list of elements it shows.
- A video page is given by the texts it shows, a driver failure, or an
  interrupt.
- Every SQL statement is answered with a `Signal`. `Normal` means it took
  effect, `Failure` means it raised an `Exception`, and `Interrupt` means a
  `BaseException` such as `KeyboardInterrupt`, which no `except Exception`
  catches.

A run is observed as the ordered trace of the effects that took place:
`SaveDesc`, `SaveStat`, `UpdateFavorite(id)`, `UpdateCrawler(id)` and `Stop`.
`Orchestrator.CrawlSpec` defines that trace. The imperative
`Orchestrator.Crawl` (the nested loops of `main`) is proved to compute it, and
`CrawlProperties` proves what it guarantees.

Files:

- `common.dfy`: `Option`, `Signal`, `Outcome`.
- `models.dfy`: the rows of `src/database/models.py`. Also the three video rows
  that `repositories.py` imports but `models.py` does not define; their columns
  are taken from `repositories.py:107-143`.
- `repositories.dfy`: the repository queries as functions over row sequences,
  and the repository classes whose methods update their tables in place.
- `crawler.dfy`: the crawler's page logic and the `TikTokCrawler` class.
- `orchestrator.dfy`: `main`, its SQL helpers and the `MovieDatabase` class.
- `properties.dfy`: properties of whole runs.

Where main.py and the repository layer differ, or the code departs from its evident intent, the model takes this line:

- `main.py:25` orders crawler accounts with `NULLS FIRST`, which MySQL rejects.
  The model uses the intended order (never-crawled first, then oldest), as
  `repositories.py:19-24` writes it. `Orchestrator.CrawlSpec` reuses
  `Repositories.AvailableCrawlerAccount`.
- `main.py:get_target_accounts` filters on aliveness only, not on the crawler
  account, and its default limit is 5. `Orchestrator.TargetAccounts` models
  exactly that. `Repositories.FavoriteAccounts` models the repository version,
  which filters on both.
- `main.py:save_movie_desc`'s `ON DUPLICATE KEY UPDATE` list omits `url`, so
  an existing row keeps its first URL (`Orchestrator.UpsertMovieDesc`). The
  repository version overwrites it (`Repositories.UpsertVideoDesc`).
- `main.py:update_favorite_account` stamps by id. The repository's
  `update_favorite_account_last_crawled` stamps every row with the username.
- `stop` is called from the `finally` clause and, when `start` raises, from
  `start` itself, so a failed start shows two `Stop` events.

## Model

| member | source | states |
|---|---|---|
| Crawler.UserUrl | src/crawler/tiktok_crawler.py:114 | the profile URL `{BASE_URL}/@{username}`; a definition, used by `Orchestrator.TargetStep` |
| Crawler.IndexOf | src/crawler/tiktok_crawler.py:149 | the first position of the separator, or the length when there is none |
| Crawler.Split | src/crawler/tiktok_crawler.py:149 | `str.split` always yields at least one piece |
| Crawler.SplitPiecesHaveNoSeparator | src/crawler/tiktok_crawler.py:149 | no piece of `split` holds the separator |
| Crawler.JoinSplit | src/crawler/tiktok_crawler.py:149 | the pieces, joined again with the separator, give back the text |
| Crawler.LastSplitPartIsFinalSegment | src/crawler/tiktok_crawler.py:149 | the last piece of `split("/")` is a `/`-free suffix preceded by `/` unless it is the whole text |
| Crawler.VideoIdFromUrl | src/crawler/tiktok_crawler.py:148-149 | the id is the final `/` segment of the href |
| Crawler.FinalSegmentNoLonger | src/crawler/tiktok_crawler.py:149 | of two final segments of one URL, neither is longer than the other |
| Crawler.FinalSegmentIsVideoId | src/crawler/tiktok_crawler.py:149 | being the URL's final segment is equivalent to being its video id: the segment is unique |
| Crawler.Entry | src/crawler/tiktok_crawler.py:155-159 | the dictionary for a complete element has exactly url, id and play_count_text, with the element's href and view text and the derived id |
| Crawler.Collect | src/crawler/tiktok_crawler.py:144-163 | no more entries than elements, and every entry is a well-formed video dictionary |
| Crawler.CollectAppend | src/crawler/tiktok_crawler.py:144-163 | collecting works element by element: the entries of a concatenation are the concatenated entries, in page order |
| Crawler.MissingSubElementIsSkipped | src/crawler/tiktok_crawler.py:161-163 | an element missing its link or its view count is skipped, and the others give the same entries as without it |
| Crawler.CollectSingle | src/crawler/tiktok_crawler.py:144-163 | one element gives its entry when it has a link and a view count, and nothing otherwise |
| Crawler.CompleteElementIsKept | src/crawler/tiktok_crawler.py:155-159 | a complete element's entry is appended in its page position, between the entries of the elements before and after it |
| Crawler.CollectMembers | src/crawler/tiktok_crawler.py:144-163 | a dictionary is collected exactly when it is the entry of some complete element |
| Crawler.SliceEnd | src/crawler/tiktok_crawler.py:144 | Python's `[:n]` bound: never past the end, and equal to `min(n, len)` for a non-negative `n` |
| Crawler.UserVideos | src/crawler/tiktok_crawler.py:127-169 | never raises; interrupted exactly when the list wait is (an element read is not interrupted in the model, see Left out); a failed list wait gives `[]`; with no broken element among the first `max_videos` the result is exactly the collected entries of those elements; at most `max_videos` entries; every entry well formed |
| Crawler.BrokenElementDiscardsAll | src/crawler/tiktok_crawler.py:137-169 | any other exception on an element that is read discards everything already collected and returns `[]` |
| Crawler.ListedVideosAreTheCompleteOnes | src/crawler/tiktok_crawler.py:144-165 | with no broken element among the first `max_videos`, the listed videos are exactly the entries of the complete elements among them |
| Crawler.GetUserVideos | src/crawler/tiktok_crawler.py:137-169 | the `append` loop returns exactly `UserVideos` |
| Crawler.NavigateToUser | src/crawler/tiktok_crawler.py:103-125 | true exactly when the `user-post-item` marker appears; every failure becomes false; only an interrupt escapes |
| Crawler.VideoDetails | src/crawler/tiktok_crawler.py:171-223 | never raises; a dictionary exactly when every element is found, with exactly the five detail keys holding the page's texts; otherwise `None` |
| Crawler.ScrollPage | src/crawler/tiktok_crawler.py:225-240 | issues `scroll_count` scrolls unless one fails (logged, loop ends) or is interrupted (propagates); every issued scroll succeeded |
| Crawler.StartSignal | src/crawler/tiktok_crawler.py:39-46 | `start` succeeds exactly when the driver setup and the login both do; a setup exception or interrupt is what `start` ends with, and otherwise the login's outcome is |
| Crawler.TikTokCrawler.constructor | src/crawler/tiktok_crawler.py:22-35 | keeps the credentials and proxy; no browser yet |
| Crawler.TikTokCrawler.Start | src/crawler/tiktok_crawler.py:37-46 | ends as driver setup or login ends; on an exception `stop` runs once and the error is raised again |
| Crawler.TikTokCrawler.Stop | src/crawler/tiktok_crawler.py:48-51 | quits the browser; counts the call |
| Repositories.CrawlerNoLater | src/database/repositories.py:19-24 | the ORDER BY of the crawler query: never crawled first, then the oldest stamp; a definition, used by `AvailableCrawlerAccount`'s contract |
| Repositories.AvailableCrawlerAccount | src/database/repositories.py:13-41 | `None` iff no account is alive; otherwise an alive row of the table ranking no later than every alive row (never crawled first, then oldest) |
| Repositories.NeverCrawledAccountChosenFirst | src/database/repositories.py:19-24 | when an alive never-crawled account exists, the chosen one is never crawled |
| Repositories.StampCrawler | src/database/repositories.py:43-50 | rows with that id get the timestamp; no other row and no other column changes |
| Repositories.StampedAccountYieldsToOthers | src/database/repositories.py:13-50 | after the chosen account is stamped with the latest instant, the next choice is another alive account if one exists |
| Repositories.TargetNoLater | src/database/repositories.py:65-71 | the ORDER BY of the favorite query: never crawled first, then higher `crawl_priority`, then the oldest stamp; a definition, used by `Ranked` |
| Repositories.TargetNoLaterTotal | src/database/repositories.py:65-71 | of any two rows, one ranks no later than the other |
| Repositories.TargetNoLaterTransitive | src/database/repositories.py:65-71 | ranking no later is transitive |
| Repositories.Insert | src/database/repositories.py:65-71 | inserting keeps the rows as a multiset plus the new one |
| Repositories.InsertRanked | src/database/repositories.py:65-71 | inserting into a list in query order keeps it in query order |
| Repositories.RankTargets | src/database/repositories.py:65-71 | the result is in query order and a permutation of the input |
| Repositories.Filter | src/database/repositories.py:63-64 | exactly the rows the WHERE clause admits, a sub-multiset of the table |
| Repositories.Select | src/database/repositories.py:59-73 | `WHERE ... ORDER BY ... LIMIT`: returns `min(limit, number of eligible rows)` rows |
| Repositories.SelectedRowsAreEligible | src/database/repositories.py:57-88 | at most `limit` rows, all admitted by the WHERE clause, a sub-multiset of the table |
| Repositories.RankedPrefixFirst | src/database/repositories.py:65-72 | in a list in query order, a row of a prefix ranks no later than a row outside it |
| Repositories.SelectKeepsTheTop | src/database/repositories.py:65-72 | no eligible row left out ranks before a selected one |
| Repositories.ShortSelectTakesAll | src/database/repositories.py:72 | fewer than `limit` rows selected means every eligible row was selected |
| Repositories.SelectIsTopRanked | src/database/repositories.py:65-72 | the selection is in query order, is the top of the ranking, and is everything eligible when short |
| Repositories.OwnedAndAlive | src/database/repositories.py:63-64 | the WHERE clause of `get_favorite_accounts`: owned by the crawler account and alive; a definition, used by `FavoriteAccounts`' contract |
| Repositories.FavoriteAccounts | src/database/repositories.py:57-88 | at most `limit` alive rows owned by the crawler, in query order, the top of the eligible rows, all of them when fewer than `limit` |
| Repositories.StampFavoritesByUsername | src/database/repositories.py:90-97 | every row whose username equals the given one under the column's collation (case and trailing spaces folded for `utf8mb4_unicode_ci`) gets the timestamp; no other row and no other column changes |
| Repositories.StampedFavoriteRanksAfterNeverCrawled | src/database/repositories.py:65-71 | after stamping, a never-crawled row whose username differs under the collation ranks strictly before a stamped row |
| Repositories.VideoIds | src/database/repositories.py:147-153 | exactly the `video_id`s of the rows |
| Repositories.UpsertVideoDesc | src/database/repositories.py:104-123 | the upsert keeps ids unique, holds the new row, keeps every other-id row, drops only the old row of that id, and grows by one exactly for a new id |
| Repositories.UpsertVideoDescTwice | src/database/repositories.py:104-123 | saving the same id twice equals saving the second row once |
| Repositories.UpsertVideoDescIds | src/database/repositories.py:104-123 | after a save, the existing ids are the old ones plus the saved one |
| Repositories.CrawlerAccountRepository.UpdateCrawlerAccountLastCrawled | src/database/repositories.py:43-50 | the table becomes `StampCrawler` of the old one |
| Repositories.FavoriteAccountRepository.UpdateFavoriteAccountLastCrawled | src/database/repositories.py:90-97 | the table becomes `StampFavoritesByUsername` of the old one, under the repository's collation |
| Repositories.CrawlerAccountRepository.constructor | src/database/repositories.py:10-11 | starts from the `crawler_accounts` table as earlier runs left it |
| Repositories.FavoriteAccountRepository.constructor | src/database/repositories.py:54-55 | starts from the `favorite_accounts` table as earlier runs left it, with the collation its username column compares under |
| Repositories.VideoRepository.constructor | src/database/repositories.py:100-102 | starts from the tables as they are, whatever rows earlier runs left, with unique `video_id`s |
| Repositories.VideoRepository.SaveVideoDescription | src/database/repositories.py:104-123 | the description table is upserted with ids kept unique, the id set gains the saved id, and the stat tables are unchanged |
| Repositories.VideoRepository.SaveVideoPlayStats | src/database/repositories.py:125-134 | appends exactly one row; other tables unchanged; the description table keeps unique ids |
| Repositories.VideoRepository.SaveVideoLikeStats | src/database/repositories.py:136-145 | appends exactly one row; other tables unchanged; the description table keeps unique ids |
| Repositories.VideoRepository.GetExistingVideoIds | src/database/repositories.py:147-153 | exactly the set of `video_id`s in the description table |
| Orchestrator.TargetAccounts | src/main.py:42-71 | at most `limit` alive rows (owner not filtered), in query order, the top of the alive rows, all of them when fewer than `limit` |
| Orchestrator.Pick | src/main.py:176-179 | in `{**video, **details}` a key is present if either has it, and the details' value wins a clash |
| Orchestrator.Merge | src/main.py:176-179 | merging with an empty dictionary on either side, or with itself, changes nothing |
| Orchestrator.DescParams | src/main.py:89-96 | a row exactly when the six indexed keys are present (`KeyError` otherwise), holding their values, the `get` of `posted_at` and the current time |
| Orchestrator.StatParams | src/main.py:109-115 | a row exactly when `id` is present, holding it, the `get` of the other four keys and the current time |
| Orchestrator.MergedRecordFields | src/main.py:171-183 | a listed video and its details share no key; the merge holds both; both saves find every key; posted_at, play_count and like_count are bound as null |
| Orchestrator.MovieIds | src/main.py:76-87 | exactly the ids of the rows |
| Orchestrator.UpsertMovieDesc | src/main.py:73-97 | ids stay unique; a new id is appended; a known id takes every new column except `url`; other rows unchanged |
| Orchestrator.StampFavoriteById | src/main.py:127-134 | the row with that id gets the timestamp; no other row changes |
| Orchestrator.MovieDatabase.constructor | src/main.py:139 | holds the four tables as earlier runs left them, the description table keyed by id |
| Orchestrator.MovieDatabase.SaveMovieDesc | src/main.py:73-97 | for a statement that takes effect: raises exactly when a key it indexes is missing; otherwise upserts; other tables unchanged |
| Orchestrator.MovieDatabase.SaveMovieStat | src/main.py:99-116 | for a statement that takes effect: raises exactly when `id` is missing; otherwise appends one row; other tables unchanged |
| Orchestrator.MovieDatabase.UpdateCrawlerAccount | src/main.py:118-125 | the crawler table is stamped by id; other tables unchanged |
| Orchestrator.MovieDatabase.UpdateFavoriteAccount | src/main.py:127-134 | the favorite table is stamped by id; other tables unchanged |
| Orchestrator.VideoStep | src/main.py:169-187 | one pass of the inner loop's body; defined by its cases, its contract is stated by `CrawlProperties.ShownVideoSaved`, `VideoSavesIffShownAndInserted`, `VideoStepSaves` and `MissingDetailsSkipVideo` |
| Orchestrator.TargetStep | src/main.py:159-194 | one pass of the outer loop's body; defined by its cases, its contract is stated by `CrawlProperties.TargetStepShape`, `TargetStepEvents` and `FailedNavigationSkipsTarget` |
| Orchestrator.SessionFrom | src/main.py:147-204 | the run once a crawler account is chosen: construct, `start`, fetch targets, visit them, stamp the crawler, `stop`; its contract is stated by `CrawlProperties.SessionStops` and `SessionStampsCrawlerOnce` |
| Orchestrator.CrawlSpec | src/main.py:136-204 | the trace and exit of `main`; its contract is stated by `CrawlProperties.StopEndsEverySession`, `CrawlerStampedOnceAtEnd` and `InterruptPropagates` |
| Orchestrator.SessionSpec | src/main.py:147-204 | the session of a chosen crawler account, its visits being the outer loop over `get_target_accounts`' batch; a definition, stated by the same lemmas as `SessionFrom` |
| Orchestrator.Sequence | src/main.py:158-194 | a loop whose body is guarded by `except Exception: continue`: the items' effects in order, up to the first interrupt; a definition, stated by `CrawlProperties.SequenceAppend`, `SequenceIsolation`, `SequenceInterrupted` and `SequenceEventsFromSteps` |
| Orchestrator.VideosRun | src/main.py:168-187 | the inner loop: `Sequence` of the videos' steps; a definition, stated by `CrawlProperties.VideosRunSaves`, `VideoIsolation` and `VideoInterruptEndsTarget` |
| Orchestrator.TargetsRun | src/main.py:158-194 | the outer loop: `Sequence` of the targets' steps; a definition, stated by `CrawlProperties.TargetsRunShape`, `TargetIsolation` and `TargetInterruptEndsRun` |
| Orchestrator.StopCount | src/main.py:199-204 | the number of `Stop` events of a trace: none exactly when `Stop` does not occur |
| Orchestrator.StopCountAppend | src/main.py:199-204 | counting `Stop` events adds up over concatenation |
| Orchestrator.SequenceUnroll | src/main.py:158-194 | one more pass of a loop guarded per item |
| Orchestrator.CrawlTarget | src/main.py:159-194 | one pass of the outer loop's body computes `TargetStep` |
| Orchestrator.CrawlVideo | src/main.py:169-187 | the inner `try` body written as statements computes `VideoStep`, and never stops the crawler |
| Orchestrator.CrawlVideos | src/main.py:168-187 | the inner loop, calling `CrawlVideo` per video, computes `VideosRun`, and never stops the crawler |
| Orchestrator.CrawlTargets | src/main.py:158-194 | the outer loop computes `TargetsRun` |
| Orchestrator.VisitTargets | src/main.py:155-197 | the rest of the `try` block after `start` succeeded computes `SessionSpec`, with no `Stop` event |
| Orchestrator.RunSession | src/main.py:147-197 | the `try` block after the crawler exists computes `SessionSpec`; `stop` ran once for each `Stop` in its trace, one when `start` failed and none otherwise; the browser is open afterwards exactly when `start` opened it |
| Orchestrator.Crawl | src/main.py:136-204 | `main` produces exactly the trace and exit of `CrawlSpec`; the number of `stop` calls it makes is the number of `Stop` events in that trace; it leaves no browser open |
| CrawlProperties.WellFormedConcat | src/main.py:176-183 | concatenating well-formed traces, the second not starting with a stat row, is well formed |
| CrawlProperties.SequenceAppend | src/main.py:158-194 | running two item lists in a row is running their concatenation |
| CrawlProperties.SequenceIsolation | src/main.py:185-187 | unless an earlier item was interrupted, an item's effects sit between those of its neighbours, whatever they are |
| CrawlProperties.SkippedStepVanishes | src/main.py:185-187 | an item that raised before any effect is as if absent |
| CrawlProperties.SequenceInterrupted | src/main.py:185 | an interrupt in item `k` ends the loop there |
| CrawlProperties.SequenceEventsFromSteps | src/main.py:158-194 | every effect of a loop is an effect of one of its items |
| CrawlProperties.SequenceWellFormed | src/main.py:168-187 | items with well-formed saves make a loop with well-formed saves |
| CrawlProperties.VideoStepsAppend | src/main.py:168 | a video list split in two gives the two step lists one after the other |
| CrawlProperties.TargetStepsAppend | src/main.py:158 | a target list split in two gives the two step lists one after the other |
| CrawlProperties.VideoIsolation | src/main.py:168-187 | what happens to one video does not change what the other videos save |
| CrawlProperties.FailedVideoSkipped | src/main.py:185-187 | a video that raised before saving is skipped and the run equals the run without it |
| CrawlProperties.MissingDetailsSkipVideo | src/main.py:171-173 | a video whose details are `None` saves nothing and the others are processed as if it were not listed |
| CrawlProperties.TargetIsolation | src/main.py:158-194 | what happens to one target does not change what the other targets do |
| CrawlProperties.FailedTargetSkipped | src/main.py:192-194 | a target that raised before any effect is skipped and the run equals the run without it |
| CrawlProperties.FailedNavigationSkipsTarget | src/main.py:161-162 | a target whose navigation fails gets no save and no stamp, and the loop goes on as if it were not in the batch |
| CrawlProperties.VideoStepSaves | src/main.py:171-183 | a video saves nothing, or (only if its page showed every detail) its description, or its description then its stats, holding the listing's id, URL and views and the page's texts |
| CrawlProperties.ShownVideoSaved | src/main.py:171-187 | a video whose page showed every detail: a failed description insert skips it, an interrupted one ends the target; an accepted one saves the description and then, as the stats insert goes, the stats, nothing more, or the description and an interrupt |
| CrawlProperties.VideoSavesIffShownAndInserted | src/main.py:171-187 | a video saves something exactly when its page showed every detail and its description insert went through |
| CrawlProperties.VideoRowsWellFormed | src/main.py:182-183 | a description, alone or followed by the same video's stats, is a well-formed save |
| CrawlProperties.VideoStepWellFormed | src/main.py:171-187 | one video only saves, and its saves are well formed |
| CrawlProperties.VideosRunSaves | src/main.py:168-187 | the inner loop only saves, and every `SaveStat` directly follows the `SaveDesc` of the same id |
| CrawlProperties.TargetStepShape | src/main.py:159-194 | a target stamps itself at most once, last, only after navigation succeeded and no video was interrupted, and exactly when, in addition, the stamp took effect |
| CrawlProperties.TargetStepEvents | src/main.py:159-194 | a target only saves and stamps itself |
| CrawlProperties.TargetsRunWellFormed | src/main.py:158-194 | the outer loop's saves are well formed |
| CrawlProperties.TargetsRunStamps | src/main.py:158-194 | the outer loop only saves and stamps targets of the batch |
| CrawlProperties.TargetsRunVisits | src/main.py:158-194 | the outer loop only saves and stamps targets |
| CrawlProperties.TargetsRunShape | src/main.py:158-194 | the outer loop's saves are well formed and it stamps only targets of the batch |
| CrawlProperties.SessionStops | src/main.py:152-204 | a session ends with `stop`; an earlier `stop` happens only when `start` failed |
| CrawlProperties.SessionStopCount | src/main.py:147-204 | a session calls `stop` twice when `start` failed and once otherwise |
| CrawlProperties.SessionStampsCrawlerOnce | src/main.py:196-197 | the crawler is stamped at most once, right before `stop`, exactly when every target was handled and the stamp took effect |
| CrawlProperties.SessionSavesWellFormed | src/main.py:152-204 | a session's saves are those of the visits, well formed, and it stamps only the targets the visits stamped |
| CrawlProperties.StopEndsEverySession | src/main.py:199-204 | once a crawler is constructed, `stop` is the last effect on every exit path; before that, nothing happens |
| CrawlProperties.StopCallsOfMain | src/main.py:136-204 | `main` calls `stop` never when no crawler was constructed, twice when `start` failed, once otherwise |
| CrawlProperties.CrawlerStampedOnceAtEnd | src/main.py:196-197 | `UpdateCrawler` happens at most once, with the chosen account's id, after every target has been handled |
| CrawlProperties.SavedRecordsWellFormed | src/main.py:176-183 | every saved description has the URL's final segment as id and null `posted_at`; every stat row has null counts and follows its description; only batch targets are stamped |
| CrawlProperties.NoCrawlerAccountNoEffects | src/main.py:30-31 | without an alive crawler account, nothing is visited, saved or stamped, and the run ends in the handler |
| CrawlProperties.VideoInterruptEndsTarget | src/main.py:185-188 | an interrupt inside a video ends the inner loop at once: nothing of the later videos happens |
| CrawlProperties.VideoInterruptLeavesTargetUnstamped | src/main.py:185-190 | the same interrupt ends the target's step with the saves made so far, and the target is not stamped |
| CrawlProperties.TargetInterruptEndsRun | src/main.py:192 | an interrupt in target `k` ends the outer loop there |
| CrawlProperties.InterruptPropagates | src/main.py:185-204 | an interrupt while visiting a target ends the run: no later target, no crawler stamp, only `stop` |
| CrawlProperties.UpsertMovieDescTwice | src/main.py:73-97 | saving the same video twice leaves the second save's columns, with the first URL stored |
| CrawlProperties.StampedTargetYields | src/main.py:49-55 | a target stamped by id ranks after every never-crawled target |

## Left out

- Browser I/O is not modelled. That covers the Selenium driver and its
  options (`src/crawler/selenium_manager.py`), `_login` and `_random_sleep`.
  Navigation, element lookup and login appear only as oracle outcomes, and
  the pauses do not appear.
- Database plumbing is not modelled: connections, cursors, commits and
  rollbacks (`src/database/database.py`), SQL parsing, and the DDL and admin
  scripts. Tables are in-memory sequences, and each statement's effect is
  written out.
- `src/database/seed_data.py`, `src/logger.py` and `src/config.py` are
  constants, logging and environment lookups. `src/test_selenium.py` and
  `src/test_login.py` are interactive scripts.
- Time is a single value, `Env.now`, which every write of a run uses.
  `datetime.now()` is called again for each statement in the source.
- A dictionary (`Crawler.Record`) ranges over the eleven keys the source uses.
  Any other key is irrelevant, because nothing reads it.
- `play_count`, `like_count` and `posted_at` are never parsed in these files,
  so the model binds the looked-up value, which is always null.
- The auto-increment `id` of `movie_stat_raw_data` is left to the database.
- The SQL queries order their rows without fixing ties. The model breaks a tie
  by table order.
- The model passes `get_target_accounts`' and `get_favorite_accounts`' `limit`
  as a `nat`, not an `int`: main.py only calls the first with its default of 5,
  and nothing in these files calls the second. A negative `LIMIT` is a MySQL
  syntax error, which is not modelled.
- `scroll_page` is modelled (`Crawler.ScrollPage`), but `main` never calls it,
  so it does not appear in the trace.
- `stop` is modelled as never raising. `quit_driver` belongs to the driver
  manager, which is not part of this model.
- `main` reads `video["url"]` for every listed video. Every dictionary
  `get_user_videos` builds has that key, so the `KeyError` path it would
  raise cannot happen and is not modelled.
- Logging (`logger.*`) is not modelled.
- That `main.py:25`'s `NULLS FIRST` is rejected by MySQL is not modelled; the
  intended order is modelled instead, as described above.
- Crawler.UserVideos: an interrupt while reading one listed element is not
  modelled. An element is complete, incomplete (`NoSuchElementException`,
  skipped) or broken (any other exception, which discards the list). Such an
  interrupt would escape `get_user_videos` and end the run exactly as an
  interrupt of the list wait does.
- The oracles have no history: a page is answered by its URL and a statement
  by its text and parameters, so the same URL or the same statement always
  gets the same answer within one run. A browser or database that answers
  differently the second time is not expressible, and the isolation lemmas
  (`CrawlProperties.VideoIsolation`, `TargetIsolation`) rely on this.
- Orchestrator.MovieDatabase and Repositories.VideoRepository: their methods
  model a statement that takes effect. A statement that fails in
  `execute_query` (which rolls back and raises) appears only as a `Failure`
  answer of `Env.db` in the trace; the classes are not driven by the trace.
- `Repositories.Filter` is stated by membership and as a sub-multiset, not
  as an order-preserving subsequence; the ranking that follows reorders the
  rows anyway.
- Repositories.UpsertVideoDesc, Repositories.UniqueVideoIds,
  Orchestrator.UpsertMovieDesc and Orchestrator.UniqueMovieIds compare their
  `VARCHAR` keys exactly. The tables are created with `utf8mb4_unicode_ci`
  (`src/database/create_tables.py:20-107`), under which `ON DUPLICATE KEY`
  also treats ids that differ only in case or trailing spaces as the same key.
  Username matching in `Repositories.StampFavoritesByUsername` does go
  through the collation, as a `collate` key function; the function itself is
  a parameter, because Unicode collation is not modelled.
