/** Selection and storage rules of src/database/repositories.py over in-memory
    tables. The `get_*` queries are functions over a sequence of rows; the
    `save_*` and `update_*` statements are methods that update a table held
    by a repository object. */
module Repositories {
  import opened Common
  import opened Models

  // ---------------------------------------------------------------------------
  // Choosing a crawler account
  // ---------------------------------------------------------------------------

  /** The order of the crawler-account query: a never-crawled account comes
      first, then accounts by ascending `last_crawled_at`. */
  predicate CrawlerNoLater(a: CrawlerAccount, b: CrawlerAccount) {
    a.lastCrawledAt.None? ||
    (b.lastCrawledAt.Some? && a.lastCrawledAt.value <= b.lastCrawledAt.value)
  }

  /** `get_an_available_crawler_account`: the first alive account in that order
      (on a tie, the earlier row of the table), or `None` when no account is
      alive. */
  function AvailableCrawlerAccount(rows: seq<CrawlerAccount>): (r: Option<CrawlerAccount>)
    ensures r.None? <==> forall i :: 0 <= i < |rows| ==> !rows[i].isAlive
    ensures r.Some? ==> r.value in rows && r.value.isAlive
    ensures r.Some? ==> forall i :: 0 <= i < |rows| && rows[i].isAlive ==> CrawlerNoLater(r.value, rows[i])
  {
    if rows == [] then None
    else
      var rest := AvailableCrawlerAccount(rows[1..]);
      assert forall i :: 1 <= i < |rows| ==> rows[i] == rows[1..][i - 1];
      if !rows[0].isAlive then rest
      else if rest.Some? && !CrawlerNoLater(rows[0], rest.value) then rest
      else Some(rows[0])
  }

  /** A never-crawled alive account always wins over every crawled one. */
  lemma NeverCrawledAccountChosenFirst(rows: seq<CrawlerAccount>, k: nat)
    requires k < |rows| && rows[k].isAlive && rows[k].lastCrawledAt.None?
    ensures AvailableCrawlerAccount(rows).Some?
    ensures AvailableCrawlerAccount(rows).value.lastCrawledAt.None?
  {
    assert CrawlerNoLater(AvailableCrawlerAccount(rows).value, rows[k]);
  }

  /** `update_crawler_account_last_crawled`: every row with that id gets the
      timestamp, every other row is unchanged. */
  function StampCrawler(rows: seq<CrawlerAccount>, id: int, at: Timestamp): (r: seq<CrawlerAccount>)
    ensures |r| == |rows|
    ensures forall i :: 0 <= i < |rows| && rows[i].id == id ==> r[i].lastCrawledAt == Some(at)
    ensures forall i :: 0 <= i < |rows| && rows[i].id != id ==> r[i] == rows[i]
    ensures forall i :: 0 <= i < |rows| ==> r[i].(lastCrawledAt := rows[i].lastCrawledAt) == rows[i]
  {
    seq(|rows|, i requires 0 <= i < |rows| =>
      if rows[i].id == id then rows[i].(lastCrawledAt := Some(at)) else rows[i])
  }

  /** Least-recently-used rotation: once the chosen account is stamped with an
      instant later than every recorded one, the next selection picks another
      account whenever another alive account exists. */
  lemma {:induction false} StampedAccountYieldsToOthers(rows: seq<CrawlerAccount>, at: Timestamp, k: nat)
    requires AvailableCrawlerAccount(rows).Some?
    requires forall i :: 0 <= i < |rows| && rows[i].lastCrawledAt.Some? ==> rows[i].lastCrawledAt.value < at
    requires k < |rows| && rows[k].isAlive && rows[k].id != AvailableCrawlerAccount(rows).value.id
    ensures AvailableCrawlerAccount(StampCrawler(rows, AvailableCrawlerAccount(rows).value.id, at)).Some?
    ensures AvailableCrawlerAccount(StampCrawler(rows, AvailableCrawlerAccount(rows).value.id, at)).value.id
            != AvailableCrawlerAccount(rows).value.id
  {
    var id := AvailableCrawlerAccount(rows).value.id;
    var stamped := StampCrawler(rows, id, at);
    assert stamped[k] == rows[k] && stamped[k].isAlive;
    var next := AvailableCrawlerAccount(stamped);
    var j :| 0 <= j < |stamped| && stamped[j] == next.value;
    assert stamped[j].id == rows[j].id;
    assert stamped[j].lastCrawledAt == if rows[j].id == id then Some(at) else rows[j].lastCrawledAt;
    assert rows[k].lastCrawledAt.Some? ==> rows[k].lastCrawledAt.value < at;
  }

  // ---------------------------------------------------------------------------
  // Choosing target (favorite) accounts
  // ---------------------------------------------------------------------------

  /** The order of the favorite-account query: never-crawled rows first, then
      descending `crawl_priority`, then ascending `last_crawled_at`. */
  predicate TargetNoLater(a: FavoriteAccount, b: FavoriteAccount) {
    if a.lastCrawledAt.None? != b.lastCrawledAt.None? then a.lastCrawledAt.None?
    else if a.crawlPriority != b.crawlPriority then a.crawlPriority > b.crawlPriority
    else a.lastCrawledAt.None? || a.lastCrawledAt.value <= b.lastCrawledAt.value
  }

  lemma TargetNoLaterTotal(a: FavoriteAccount, b: FavoriteAccount)
    ensures TargetNoLater(a, b) || TargetNoLater(b, a)
  {
  }

  lemma TargetNoLaterTransitive(a: FavoriteAccount, b: FavoriteAccount, c: FavoriteAccount)
    requires TargetNoLater(a, b) && TargetNoLater(b, c)
    ensures TargetNoLater(a, c)
  {
  }

  /** `s` is in query order. */
  ghost predicate Ranked(s: seq<FavoriteAccount>) {
    forall i, j :: 0 <= i < j < |s| ==> TargetNoLater(s[i], s[j])
  }

  /** Places `x` before the first row it ranks no later than. */
  function Insert(x: FavoriteAccount, s: seq<FavoriteAccount>): (r: seq<FavoriteAccount>)
    ensures multiset(r) == multiset(s) + multiset{x}
  {
    if s == [] then [x]
    else if TargetNoLater(x, s[0]) then [x] + s
    else
      assert s == [s[0]] + s[1..];
      [s[0]] + Insert(x, s[1..])
  }

  lemma {:induction false} InsertRanked(x: FavoriteAccount, s: seq<FavoriteAccount>)
    requires Ranked(s)
    ensures Ranked(Insert(x, s))
  {
    if s == [] {
    } else if TargetNoLater(x, s[0]) {
      forall j | 0 < j < |s| ensures TargetNoLater(x, s[j]) {
        TargetNoLaterTransitive(x, s[0], s[j]);
      }
    } else {
      TargetNoLaterTotal(x, s[0]);
      var tail := Insert(x, s[1..]);
      InsertRanked(x, s[1..]);
      forall j | 0 <= j < |tail| ensures TargetNoLater(s[0], tail[j]) {
        assert tail[j] in multiset(tail);
        if tail[j] != x {
          assert tail[j] in multiset(s[1..]);
          var m :| 0 <= m < |s[1..]| && s[1..][m] == tail[j];
          assert s[m + 1] == tail[j];
        }
      }
      var r := [s[0]] + tail;
      forall i, j | 0 <= i < j < |r| ensures TargetNoLater(r[i], r[j]) {
        if i > 0 { assert r[i] == tail[i - 1] && r[j] == tail[j - 1]; }
      }
    }
  }

  /** The rows in query order; rows that tie keep their table order. */
  function RankTargets(rows: seq<FavoriteAccount>): (r: seq<FavoriteAccount>)
    ensures Ranked(r)
    ensures multiset(r) == multiset(rows)
  {
    if rows == [] then []
    else
      var rest := RankTargets(rows[1..]);
      InsertRanked(rows[0], rest);
      assert rows == [rows[0]] + rows[1..];
      Insert(rows[0], rest)
  }

  /** The rows that `keep` admits (the query's WHERE clause), in table order. */
  function Filter(rows: seq<FavoriteAccount>, keep: FavoriteAccount -> bool): (r: seq<FavoriteAccount>)
    ensures forall x :: x in r <==> x in rows && keep(x)
    ensures multiset(r) <= multiset(rows)
  {
    if rows == [] then []
    else
      assert rows == [rows[0]] + rows[1..];
      if keep(rows[0]) then [rows[0]] + Filter(rows[1..], keep) else Filter(rows[1..], keep)
  }

  /** WHERE `keep` ORDER BY the ranking LIMIT `limit`. */
  function Select(rows: seq<FavoriteAccount>, keep: FavoriteAccount -> bool, limit: nat): (r: seq<FavoriteAccount>)
    ensures |r| == if limit < |Filter(rows, keep)| then limit else |Filter(rows, keep)|
  {
    var ranked := RankTargets(Filter(rows, keep));
    assert |ranked| == |multiset(ranked)| == |Filter(rows, keep)|;
    ranked[..if limit < |ranked| then limit else |ranked|]
  }

  /** The selected rows are eligible rows of the table, at most `limit` of them. */
  lemma SelectedRowsAreEligible(rows: seq<FavoriteAccount>, keep: FavoriteAccount -> bool, limit: nat)
    ensures var r := Select(rows, keep, limit);
      && |r| <= limit
      && (forall x :: x in r ==> x in rows && keep(x))
      && multiset(r) <= multiset(rows)
  {
    var eligible := Filter(rows, keep);
    var ranked := RankTargets(eligible);
    var r := Select(rows, keep, limit);
    assert ranked == r + ranked[|r|..];
    assert multiset(r) <= multiset(ranked);
    forall x | x in r ensures x in rows && keep(x) {
      assert x in multiset(ranked);
    }
  }

  /** In a ranked list, a row of a prefix ranks no later than a row outside it. */
  lemma RankedPrefixFirst(ranked: seq<FavoriteAccount>, n: nat, x: FavoriteAccount, y: FavoriteAccount)
    requires Ranked(ranked) && n <= |ranked|
    requires x in ranked[..n] && y in ranked && y !in ranked[..n]
    ensures TargetNoLater(x, y)
  {
    var i :| 0 <= i < n && ranked[..n][i] == x;
    var j :| 0 <= j < |ranked| && ranked[j] == y;
    assert forall m :: 0 <= m < n ==> ranked[..n][m] == ranked[m];
  }

  /** No eligible row left out ranks before a selected one. */
  lemma SelectKeepsTheTop(rows: seq<FavoriteAccount>, keep: FavoriteAccount -> bool, limit: nat)
    ensures var r := Select(rows, keep, limit);
      forall x, y :: x in r && y in rows && keep(y) && y !in r ==> TargetNoLater(x, y)
  {
    var eligible := Filter(rows, keep);
    var ranked := RankTargets(eligible);
    var n := if limit < |ranked| then limit else |ranked|;
    assert Select(rows, keep, limit) == ranked[..n];
    forall x, y | x in ranked[..n] && y in rows && keep(y) && y !in ranked[..n] ensures TargetNoLater(x, y) {
      assert y in multiset(eligible);
      RankedPrefixFirst(ranked, n, x, y);
    }
  }

  /** Fewer than `limit` selected rows means every eligible row was selected. */
  lemma ShortSelectTakesAll(rows: seq<FavoriteAccount>, keep: FavoriteAccount -> bool, limit: nat)
    ensures var r := Select(rows, keep, limit);
      |r| < limit ==> forall y :: y in rows && keep(y) ==> y in r
  {
    var eligible := Filter(rows, keep);
    var ranked := RankTargets(eligible);
    var r := Select(rows, keep, limit);
    if |r| < limit {
      assert r == ranked;
      forall y | y in rows && keep(y) ensures y in r {
        assert y in multiset(eligible);
      }
    }
  }

  /** The selected rows are in query order, and no eligible row left out ranks
      before a selected one; fewer than `limit` rows means every eligible row. */
  lemma SelectIsTopRanked(rows: seq<FavoriteAccount>, keep: FavoriteAccount -> bool, limit: nat)
    ensures var r := Select(rows, keep, limit);
      && Ranked(r)
      && (forall x, y :: x in r && y in rows && keep(y) && y !in r ==> TargetNoLater(x, y))
      && (|r| < limit ==> forall y :: y in rows && keep(y) ==> y in r)
  {
    var ranked := RankTargets(Filter(rows, keep));
    assert Select(rows, keep, limit) == ranked[..|Select(rows, keep, limit)|];
    SelectKeepsTheTop(rows, keep, limit);
    ShortSelectTakesAll(rows, keep, limit);
  }

  /** The WHERE clause of `get_favorite_accounts`. */
  predicate OwnedAndAlive(row: FavoriteAccount, crawlerAccountId: int) {
    row.crawlerAccountId == Some(crawlerAccountId) && row.favoriteAccountIsAlive
  }

  /** `get_favorite_accounts`: at most `limit` alive rows owned by the crawler,
      in query order, and no eligible row left out ranks before a chosen one. */
  function FavoriteAccounts(rows: seq<FavoriteAccount>, crawlerAccountId: int, limit: nat): (r: seq<FavoriteAccount>)
    ensures |r| <= limit
    ensures forall x :: x in r ==> x in rows && OwnedAndAlive(x, crawlerAccountId)
    ensures multiset(r) <= multiset(rows)
    ensures Ranked(r)
    ensures forall x, y :: x in r && y in rows && OwnedAndAlive(y, crawlerAccountId) && y !in r ==> TargetNoLater(x, y)
    ensures |r| < limit ==> forall y :: y in rows && OwnedAndAlive(y, crawlerAccountId) ==> y in r
  {
    var keep := (x: FavoriteAccount) => OwnedAndAlive(x, crawlerAccountId);
    SelectedRowsAreEligible(rows, keep, limit);
    SelectIsTopRanked(rows, keep, limit);
    Select(rows, keep, limit)
  }

  /** `update_favorite_account_last_crawled`: every row whose username equals
      the given one under the column's collation gets the timestamp, every
      other row is unchanged. `collate` is the collation's comparison key:
      two strings are equal under `=` exactly when their keys are (for
      `utf8mb4_unicode_ci` it folds case and ignores trailing spaces). */
  function StampFavoritesByUsername(rows: seq<FavoriteAccount>, username: string, at: Timestamp,
                                    collate: string -> string): (r: seq<FavoriteAccount>)
    ensures |r| == |rows|
    ensures forall i :: 0 <= i < |rows| && collate(rows[i].favoriteAccountUsername) == collate(username) ==>
      r[i].lastCrawledAt == Some(at)
    ensures forall i :: 0 <= i < |rows| && collate(rows[i].favoriteAccountUsername) != collate(username) ==>
      r[i] == rows[i]
    ensures forall i :: 0 <= i < |rows| ==> r[i].(lastCrawledAt := rows[i].lastCrawledAt) == rows[i]
  {
    seq(|rows|, i requires 0 <= i < |rows| =>
      if collate(rows[i].favoriteAccountUsername) == collate(username) then rows[i].(lastCrawledAt := Some(at))
      else rows[i])
  }

  /** A stamped target has been crawled, so a never-crawled eligible row now
      ranks before it. */
  lemma StampedFavoriteRanksAfterNeverCrawled(rows: seq<FavoriteAccount>, username: string, at: Timestamp,
                                              collate: string -> string, i: nat, j: nat)
    requires i < |rows| && j < |rows|
    requires collate(rows[i].favoriteAccountUsername) == collate(username)
    requires collate(rows[j].favoriteAccountUsername) != collate(username) && rows[j].lastCrawledAt.None?
    ensures var r := StampFavoritesByUsername(rows, username, at, collate);
      TargetNoLater(r[j], r[i]) && !TargetNoLater(r[i], r[j])
  {
  }

  // ---------------------------------------------------------------------------
  // Video tables
  // ---------------------------------------------------------------------------

  /** `video_id` is the key of `video_desc_raw_data`. */
  ghost predicate UniqueVideoIds(rows: seq<VideoDescRawData>) {
    forall i, j :: 0 <= i < j < |rows| ==> rows[i].videoId != rows[j].videoId
  }

  /** The set of keys present in the description table. */
  function VideoIds(rows: seq<VideoDescRawData>): (ids: set<string>)
    ensures forall i :: 0 <= i < |rows| ==> rows[i].videoId in ids
    ensures forall id :: id in ids ==> exists i :: 0 <= i < |rows| && rows[i].videoId == id
  {
    set i | 0 <= i < |rows| :: rows[i].videoId
  }

  /** `save_video_description`: INSERT ... ON DUPLICATE KEY UPDATE. A row with
      the same `video_id` is overwritten in place; a new id is appended. */
  function UpsertVideoDesc(rows: seq<VideoDescRawData>, desc: VideoDescRawData): (r: seq<VideoDescRawData>)
    ensures UniqueVideoIds(rows) ==> UniqueVideoIds(r)
    ensures desc in r
    ensures forall x :: x in r ==> x == desc || (x in rows && x.videoId != desc.videoId)
    ensures forall x :: x in rows && x.videoId != desc.videoId ==> x in r
    ensures |r| == if desc.videoId in VideoIds(rows) then |rows| else |rows| + 1
  {
    if desc.videoId in VideoIds(rows) then
      var r := seq(|rows|, i requires 0 <= i < |rows| => if rows[i].videoId == desc.videoId then desc else rows[i]);
      assert desc in r by {
        var k :| 0 <= k < |rows| && rows[k].videoId == desc.videoId;
        assert r[k] == desc;
      }
      assert forall x :: x in rows && x.videoId != desc.videoId ==> x in r by {
        forall x | x in rows && x.videoId != desc.videoId ensures x in r {
          var i :| 0 <= i < |rows| && rows[i] == x;
          assert r[i] == x;
        }
      }
      r
    else
      rows + [desc]
  }

  /** Saving the same video twice leaves one row for it, holding the second
      values: the second save overwrites the first. */
  lemma UpsertVideoDescTwice(rows: seq<VideoDescRawData>, first: VideoDescRawData, second: VideoDescRawData)
    requires first.videoId == second.videoId
    ensures UpsertVideoDesc(UpsertVideoDesc(rows, first), second) == UpsertVideoDesc(rows, second)
  {
    var once := UpsertVideoDesc(rows, first);
    assert once[|once| - 1] == first || first.videoId in VideoIds(rows);
    assert second.videoId in VideoIds(once);
  }

  /** After a save, the existing ids are the old ones plus the saved one. */
  lemma UpsertVideoDescIds(rows: seq<VideoDescRawData>, desc: VideoDescRawData)
    ensures VideoIds(UpsertVideoDesc(rows, desc)) == VideoIds(rows) + {desc.videoId}
  {
    var r := UpsertVideoDesc(rows, desc);
    forall id | id in VideoIds(r) ensures id in VideoIds(rows) + {desc.videoId} {
      var k :| 0 <= k < |r| && r[k].videoId == id;
      assert r[k] in r;
      if r[k] != desc {
        var m :| 0 <= m < |rows| && rows[m] == r[k];
      }
    }
    forall id | id in VideoIds(rows) + {desc.videoId} ensures id in VideoIds(r) {
      if id == desc.videoId {
        var m :| 0 <= m < |r| && r[m] == desc;
      } else {
        var k :| 0 <= k < |rows| && rows[k].videoId == id;
        assert rows[k] in rows;
        var m :| 0 <= m < |r| && r[m] == rows[k];
      }
    }
  }

  // ---------------------------------------------------------------------------
  // The repository objects
  // ---------------------------------------------------------------------------

  /** CrawlerAccountRepository over an in-memory `crawler_accounts` table. */
  class CrawlerAccountRepository {
    var accounts: seq<CrawlerAccount>

    /** `CrawlerAccountRepository(db)`: the table as earlier runs left it. */
    constructor (accounts: seq<CrawlerAccount>)
      ensures this.accounts == accounts
    {
      this.accounts := accounts;
    }

    /** `update_crawler_account_last_crawled`. */
    method UpdateCrawlerAccountLastCrawled(crawlerAccountId: int, lastCrawledAt: Timestamp)
      modifies this
      ensures accounts == StampCrawler(old(accounts), crawlerAccountId, lastCrawledAt)
    {
      accounts := StampCrawler(accounts, crawlerAccountId, lastCrawledAt);
    }
  }

  /** FavoriteAccountRepository over an in-memory `favorite_accounts` table. */
  class FavoriteAccountRepository {
    var accounts: seq<FavoriteAccount>
    const collate: string -> string  // the collation of `favorite_account_username`

    /** `FavoriteAccountRepository(db)`: the table as earlier runs left it. */
    constructor (accounts: seq<FavoriteAccount>, collate: string -> string)
      ensures this.accounts == accounts && this.collate == collate
    {
      this.accounts, this.collate := accounts, collate;
    }

    /** `update_favorite_account_last_crawled`. */
    method UpdateFavoriteAccountLastCrawled(username: string, lastCrawledAt: Timestamp)
      modifies this
      ensures accounts == StampFavoritesByUsername(old(accounts), username, lastCrawledAt, collate)
    {
      accounts := StampFavoritesByUsername(accounts, username, lastCrawledAt, collate);
    }
  }

  /** VideoRepository over in-memory description, play-stat and like-stat tables. */
  class VideoRepository {
    var descriptions: seq<VideoDescRawData>
    var playStats: seq<VideoPlayStatRawData>
    var likeStats: seq<VideoLikeStatRawData>

    ghost predicate Valid()
      reads this
    {
      UniqueVideoIds(descriptions)
    }

    /** `VideoRepository(db)`: the tables as earlier runs left them. */
    constructor (descriptions: seq<VideoDescRawData>, playStats: seq<VideoPlayStatRawData>,
                 likeStats: seq<VideoLikeStatRawData>)
      requires UniqueVideoIds(descriptions)
      ensures Valid()
      ensures this.descriptions == descriptions && this.playStats == playStats && this.likeStats == likeStats
    {
      this.descriptions, this.playStats, this.likeStats := descriptions, playStats, likeStats;
    }

    /** `save_video_description`: an upsert on `video_id`. */
    method SaveVideoDescription(desc: VideoDescRawData)
      requires Valid()
      modifies this
      ensures Valid()
      ensures descriptions == UpsertVideoDesc(old(descriptions), desc)
      ensures GetExistingVideoIds() == old(GetExistingVideoIds()) + {desc.videoId}
      ensures playStats == old(playStats) && likeStats == old(likeStats)
    {
      UpsertVideoDescIds(descriptions, desc);
      descriptions := UpsertVideoDesc(descriptions, desc);
    }

    /** `save_video_play_stats`: a plain append. */
    method SaveVideoPlayStats(stats: VideoPlayStatRawData)
      requires Valid()
      modifies this
      ensures Valid()
      ensures playStats == old(playStats) + [stats]
      ensures |playStats| == |old(playStats)| + 1
      ensures descriptions == old(descriptions) && likeStats == old(likeStats)
    {
      playStats := playStats + [stats];
    }

    /** `save_video_like_stats`: a plain append. */
    method SaveVideoLikeStats(stats: VideoLikeStatRawData)
      requires Valid()
      modifies this
      ensures Valid()
      ensures likeStats == old(likeStats) + [stats]
      ensures |likeStats| == |old(likeStats)| + 1
      ensures descriptions == old(descriptions) && playStats == old(playStats)
    {
      likeStats := likeStats + [stats];
    }

    /** `get_existing_video_ids`: exactly the ids of the description table. */
    function GetExistingVideoIds(): (ids: set<string>)
      reads this
      ensures forall i :: 0 <= i < |descriptions| ==> descriptions[i].videoId in ids
      ensures forall id :: id in ids ==> exists i :: 0 <= i < |descriptions| && descriptions[i].videoId == id
    {
      VideoIds(descriptions)
    }
  }
}
