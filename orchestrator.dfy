/** The crawl orchestrator of src/main.py: choose a crawler account, open a
    browser session, visit a batch of target accounts and save what each of
    their videos shows, isolating failures per video and per target.

    The browser and the database are oracles. A page is given as what it shows
    (`Env.userPage`, `Env.videoPage`, keyed by URL), and every SQL statement is
    answered by `Env.db` with a `Signal`: it takes effect, raises, or is
    interrupted. The observable result of a run is the ordered trace of the
    effects that took place. */
module Orchestrator {
  import opened Common
  import opened Models
  import opened Repositories
  import opened Crawler

  // ---------------------------------------------------------------------------
  // The environment and the trace
  // ---------------------------------------------------------------------------

  /** The SQL statements main.py issues. */
  datatype Statement =
    | SelectCrawlerQuery
    | SelectTargetsQuery
    | InsertDescQuery(desc: MovieDescRawData)
    | InsertStatQuery(stat: MovieStatRawData)
    | UpdateFavoriteQuery(favoriteId: int)
    | UpdateCrawlerQuery(crawlerId: int)

  /** A profile page: how it loads, and the `user-post-item` list it then shows. */
  datatype UserPage = UserPage(load: UserPageLoad, listing: Outcome<seq<Element>>)

  /** Everything a run depends on: the two account tables as the queries read
      them, the clock, how the browser starts, what each page shows, and how
      the database answers each statement. */
  datatype Env = Env(
    crawlerAccounts: seq<CrawlerAccount>,
    favoriteAccounts: seq<FavoriteAccount>,
    now: Timestamp,
    setup: Signal,
    login: Signal,
    userPage: string -> UserPage,
    videoPage: string -> VideoPage,
    db: Statement -> Signal)

  /** An effect of the run: a statement that took effect, or a call of `stop`. */
  datatype Event =
    | SaveDesc(desc: MovieDescRawData)
    | SaveStat(stat: MovieStatRawData)
    | UpdateFavorite(id: int)
    | UpdateCrawler(id: int)
    | Stop

  /** The effects of one video or one target, and whether an interrupt cut it short. */
  datatype Step = Step(events: seq<Event>, interrupted: bool)

  /** How `main` ends: after stamping the crawler account, after an exception
      reached its handler (logged; `main` still returns), or by an interrupt
      that propagates out of it. */
  datatype Exit = Finished | Abandoned | Cancelled

  datatype Report = Report(trace: seq<Event>, exit: Exit)

  function Prepend(events: seq<Event>, s: Step): Step {
    Step(events + s.events, s.interrupted)
  }

  /** How many `Stop` events a trace holds: each one is a call of `stop`. */
  function StopCount(trace: seq<Event>): (n: nat)
    ensures n <= |trace|
    ensures n == 0 <==> Stop !in trace
  {
    if trace == [] then 0 else (if trace[0] == Stop then 1 else 0) + StopCount(trace[1..])
  }

  lemma {:induction false} StopCountAppend(a: seq<Event>, b: seq<Event>)
    ensures StopCount(a + b) == StopCount(a) + StopCount(b)
  {
    if a == [] {
      assert a + b == b;
    } else {
      assert (a + b)[0] == a[0] && (a + b)[1..] == a[1..] + b;
      StopCountAppend(a[1..], b);
    }
  }

  /** `get_target_accounts`' default batch size. */
  const TargetLimit: nat := 5

  // ---------------------------------------------------------------------------
  // Selection and row conversion (main.py:19-116)
  // ---------------------------------------------------------------------------

  /** `get_target_accounts`: at most `limit` alive rows, in query order, and no
      alive row left out ranks before a chosen one. Unlike
      `get_favorite_accounts`, the owner is not filtered. */
  function TargetAccounts(rows: seq<FavoriteAccount>, limit: nat): (r: seq<FavoriteAccount>)
    ensures |r| <= limit
    ensures forall x :: x in r ==> x in rows && x.favoriteAccountIsAlive
    ensures multiset(r) <= multiset(rows)
    ensures Ranked(r)
    ensures forall x, y :: x in r && y in rows && y.favoriteAccountIsAlive && y !in r ==> TargetNoLater(x, y)
    ensures |r| < limit ==> forall y :: y in rows && y.favoriteAccountIsAlive ==> y in r
  {
    var keep := (x: FavoriteAccount) => x.favoriteAccountIsAlive;
    SelectedRowsAreEligible(rows, keep, limit);
    SelectIsTopRanked(rows, keep, limit);
    Select(rows, keep, limit)
  }

  /** The value of a key in `{**a, **b}`: `b`'s when it has the key. */
  function Pick(fromA: Option<string>, fromB: Option<string>): (r: Option<string>)
    ensures r.Some? <==> fromA.Some? || fromB.Some?
    ensures fromB.Some? ==> r == fromB
    ensures r.Some? && r != fromB ==> fromB.None? && r == fromA
  {
    if fromB.Some? then fromB else fromA
  }

  /** `{**video, **details}`. */
  function Merge(video: Record, details: Record): (r: Record)
    ensures details == EmptyRecord ==> r == video
    ensures video == EmptyRecord ==> r == details
    ensures video == details ==> r == video
  {
    Record(
      Pick(video.url, details.url), Pick(video.id, details.id), Pick(video.playCountText, details.playCountText),
      Pick(video.title, details.title), Pick(video.postedAtText, details.postedAtText),
      Pick(video.accountUsername, details.accountUsername), Pick(video.accountNickname, details.accountNickname),
      Pick(video.likeCountText, details.likeCountText),
      Pick(video.postedAt, details.postedAt), Pick(video.playCount, details.playCount), Pick(video.likeCount, details.likeCount))
  }

  /** The row `save_movie_desc` binds, or `None` when a key it indexes is
      missing (a `KeyError`); `posted_at` is read with `get`. */
  function DescParams(data: Record, now: Timestamp): (r: Option<MovieDescRawData>)
    ensures r.Some? <==>
      && data.id.Some? && data.url.Some? && data.accountUsername.Some? && data.accountNickname.Some?
      && data.title.Some? && data.postedAtText.Some?
    ensures r.Some? ==>
      && Some(r.value.id) == data.id && Some(r.value.url) == data.url
      && Some(r.value.accountUsername) == data.accountUsername && Some(r.value.accountNickname) == data.accountNickname
      && Some(r.value.title) == data.title && Some(r.value.postedAtText) == data.postedAtText
      && r.value.postedAt == data.postedAt && r.value.crawledAt == now
  {
    if && data.id.Some? && data.url.Some? && data.accountUsername.Some? && data.accountNickname.Some?
       && data.title.Some? && data.postedAtText.Some?
    then
      Some(MovieDescRawData(data.id.value, data.url.value, data.accountUsername.value, data.accountNickname.value,
                            data.title.value, data.postedAtText.value, data.postedAt, now))
    else None
  }

  /** The row `save_movie_stat` binds, or `None` when `id` is missing; the
      other columns are read with `get`. */
  function StatParams(data: Record, now: Timestamp): (r: Option<MovieStatRawData>)
    ensures r.Some? <==> data.id.Some?
    ensures r.Some? ==>
      && Some(r.value.movieId) == data.id && r.value.playCountText == data.playCountText
      && r.value.playCount == data.playCount && r.value.likeCountText == data.likeCountText
      && r.value.likeCount == data.likeCount && r.value.crawledAt == now
  {
    if data.id.Some? then
      Some(MovieStatRawData(data.id.value, data.playCountText, data.playCount, data.likeCountText, data.likeCount, now))
    else None
  }

  /** A listed video merged with its details: the two share no key, the merge
      holds each key of either, both saves find every key they index, and the
      stored `posted_at`, `play_count` and `like_count` are null, because only
      text fields are ever produced. */
  lemma MergedRecordFields(video: Record, details: Record, now: Timestamp)
    requires IsVideoEntry(video) && IsDetails(details)
    ensures Merge(video, details) == EmptyRecord.(
      url := video.url, id := video.id, playCountText := video.playCountText,
      title := details.title, postedAtText := details.postedAtText, accountUsername := details.accountUsername,
      accountNickname := details.accountNickname, likeCountText := details.likeCountText)
    ensures DescParams(Merge(video, details), now) == Some(MovieDescRawData(
      video.id.value, video.url.value, details.accountUsername.value, details.accountNickname.value,
      details.title.value, details.postedAtText.value, None, now))
    ensures StatParams(Merge(video, details), now) == Some(MovieStatRawData(
      video.id.value, video.playCountText, None, details.likeCountText, None, now))
  {
    assert video.title.None? && details.url.None? && video.postedAt.None? && details.postedAt.None?;
  }

  // ---------------------------------------------------------------------------
  // The tables main.py writes (main.py:73-134)
  // ---------------------------------------------------------------------------

  ghost predicate UniqueMovieIds(rows: seq<MovieDescRawData>) {
    forall i, j :: 0 <= i < j < |rows| ==> rows[i].id != rows[j].id
  }

  function MovieIds(rows: seq<MovieDescRawData>): (ids: set<string>)
    ensures forall id :: id in ids <==> exists i :: 0 <= i < |rows| && rows[i].id == id
  {
    set i | 0 <= i < |rows| :: rows[i].id
  }

  /** `INSERT ... ON DUPLICATE KEY UPDATE` on `movie_desc_raw_data`: a new id
      appends the row; a known id takes every new column except `url`, which
      the update list leaves out. */
  function UpsertMovieDesc(rows: seq<MovieDescRawData>, desc: MovieDescRawData): (r: seq<MovieDescRawData>)
    ensures UniqueMovieIds(rows) ==> UniqueMovieIds(r)
    ensures desc.id in MovieIds(r) && MovieIds(r) == MovieIds(rows) + {desc.id}
    ensures |r| == if desc.id in MovieIds(rows) then |rows| else |rows| + 1
    ensures forall i :: 0 <= i < |rows| && rows[i].id != desc.id ==> r[i] == rows[i]
    ensures forall i :: 0 <= i < |rows| && rows[i].id == desc.id ==> r[i] == desc.(url := rows[i].url)
    ensures desc.id !in MovieIds(rows) ==> r[|rows|] == desc
  {
    if desc.id in MovieIds(rows) then
      var r := seq(|rows|, i requires 0 <= i < |rows| => if rows[i].id == desc.id then desc.(url := rows[i].url) else rows[i]);
      assert forall i :: 0 <= i < |r| ==> r[i].id == rows[i].id;
      r
    else
      var r := rows + [desc];
      assert forall i :: 0 <= i < |rows| ==> r[i] == rows[i];
      assert r[|rows|] == desc;
      r
  }

  /** `UPDATE favorite_accounts SET last_crawled_at = now WHERE id = accountId`. */
  function StampFavoriteById(rows: seq<FavoriteAccount>, accountId: int, at: Timestamp): (r: seq<FavoriteAccount>)
    ensures |r| == |rows|
    ensures forall i :: 0 <= i < |rows| && rows[i].id == accountId ==> r[i] == rows[i].(lastCrawledAt := Some(at))
    ensures forall i :: 0 <= i < |rows| && rows[i].id != accountId ==> r[i] == rows[i]
  {
    seq(|rows|, i requires 0 <= i < |rows| => if rows[i].id == accountId then rows[i].(lastCrawledAt := Some(at)) else rows[i])
  }

  /** The four tables main.py's helpers write, updated in place. A helper
      whose parameters raise `KeyError` changes nothing. */
  class MovieDatabase {
    var crawlerAccounts: seq<CrawlerAccount>
    var favoriteAccounts: seq<FavoriteAccount>
    var movieDescs: seq<MovieDescRawData>
    var movieStats: seq<MovieStatRawData>

    /** `movie_desc_raw_data` is keyed by `id`. */
    ghost predicate Valid()
      reads this
    {
      UniqueMovieIds(movieDescs)
    }

    /** `Database()`: a connection to the tables as earlier runs left them. */
    constructor (crawlerAccounts: seq<CrawlerAccount>, favoriteAccounts: seq<FavoriteAccount>,
                 movieDescs: seq<MovieDescRawData>, movieStats: seq<MovieStatRawData>)
      requires UniqueMovieIds(movieDescs)
      ensures Valid()
      ensures this.crawlerAccounts == crawlerAccounts && this.favoriteAccounts == favoriteAccounts
      ensures this.movieDescs == movieDescs && this.movieStats == movieStats
    {
      this.crawlerAccounts, this.favoriteAccounts := crawlerAccounts, favoriteAccounts;
      this.movieDescs, this.movieStats := movieDescs, movieStats;
    }

    /** `save_movie_desc`. */
    method SaveMovieDesc(data: Record, now: Timestamp) returns (raised: bool)
      requires Valid()
      modifies this
      ensures Valid()
      ensures raised <==> DescParams(data, now).None?
      ensures movieDescs == if raised then old(movieDescs) else UpsertMovieDesc(old(movieDescs), DescParams(data, now).value)
      ensures movieStats == old(movieStats)
      ensures crawlerAccounts == old(crawlerAccounts) && favoriteAccounts == old(favoriteAccounts)
    {
      var row := DescParams(data, now);
      raised := row.None?;
      if !raised {
        movieDescs := UpsertMovieDesc(movieDescs, row.value);
      }
    }

    /** `save_movie_stat`: every call appends a row. */
    method SaveMovieStat(data: Record, now: Timestamp) returns (raised: bool)
      requires Valid()
      modifies this
      ensures Valid()
      ensures raised <==> data.id.None?
      ensures movieStats == if raised then old(movieStats) else old(movieStats) + [StatParams(data, now).value]
      ensures movieDescs == old(movieDescs)
      ensures crawlerAccounts == old(crawlerAccounts) && favoriteAccounts == old(favoriteAccounts)
    {
      var row := StatParams(data, now);
      raised := row.None?;
      if !raised {
        movieStats := movieStats + [row.value];
      }
    }

    /** `update_crawler_account`. */
    method UpdateCrawlerAccount(accountId: int, now: Timestamp)
      requires Valid()
      modifies this
      ensures Valid()
      ensures crawlerAccounts == StampCrawler(old(crawlerAccounts), accountId, now)
      ensures favoriteAccounts == old(favoriteAccounts)
      ensures movieDescs == old(movieDescs) && movieStats == old(movieStats)
    {
      crawlerAccounts := StampCrawler(crawlerAccounts, accountId, now);
    }

    /** `update_favorite_account`. */
    method UpdateFavoriteAccount(accountId: int, now: Timestamp)
      requires Valid()
      modifies this
      ensures Valid()
      ensures favoriteAccounts == StampFavoriteById(old(favoriteAccounts), accountId, now)
      ensures crawlerAccounts == old(crawlerAccounts)
      ensures movieDescs == old(movieDescs) && movieStats == old(movieStats)
    {
      favoriteAccounts := StampFavoriteById(favoriteAccounts, accountId, now);
    }
  }

  // ---------------------------------------------------------------------------
  // The specification of a run
  // ---------------------------------------------------------------------------

  ghost predicate AllHaveUrl(videos: seq<Record>) {
    forall k :: 0 <= k < |videos| ==> videos[k].url.Some?
  }

  /** The body of the inner loop for one video: fetch its details, merge, save
      the description and then the stats. An exception skips the rest of this
      video only; an interrupt propagates. */
  function VideoStep(env: Env, video: Record): Step
    requires video.url.Some?
  {
    match VideoDetails(env.videoPage(video.url.value))
    case Interrupted => Step([], true)
    case Raised => Step([], false)
    case Done(details) =>
      if details.None? || details.value == EmptyRecord then Step([], false)
      else
        var data := Merge(video, details.value);
        match DescParams(data, env.now)
        case None => Step([], false)
        case Some(desc) =>
          (match env.db(InsertDescQuery(desc))
           case Interrupt => Step([], true)
           case Failure => Step([], false)
           case Normal =>
             (match StatParams(data, env.now)
              case None => Step([SaveDesc(desc)], false)
              case Some(stat) =>
                (match env.db(InsertStatQuery(stat))
                 case Normal => Step([SaveDesc(desc), SaveStat(stat)], false)
                 case Failure => Step([SaveDesc(desc)], false)
                 case Interrupt => Step([SaveDesc(desc)], true))))
  }

  /** A loop whose body is guarded by `except Exception: continue`: the
      items' steps in order, stopping after the first one an interrupt cut
      short. */
  function Sequence(steps: seq<Step>): Step {
    if steps == [] then Step([], false)
    else if steps[0].interrupted then steps[0]
    else Prepend(steps[0].events, Sequence(steps[1..]))
  }

  /** One more pass of such a loop. */
  lemma SequenceUnroll(steps: seq<Step>, j: nat)
    requires j < |steps|
    ensures Sequence(steps[j..]) ==
      if steps[j].interrupted then steps[j] else Prepend(steps[j].events, Sequence(steps[j + 1..]))
  {
    assert steps[j..][0] == steps[j] && steps[j..][1..] == steps[j + 1..];
  }

  /** Accumulating effects in two goes is accumulating them at once. */
  lemma PrependTwice(a: seq<Event>, b: seq<Event>, s: Step)
    ensures Prepend(a, Prepend(b, s)) == Prepend(a + b, s)
  {
    assert a + (b + s.events) == (a + b) + s.events;
  }

  function VideoSteps(env: Env, videos: seq<Record>): seq<Step>
    requires AllHaveUrl(videos)
  {
    seq(|videos|, k requires 0 <= k < |videos| => VideoStep(env, videos[k]))
  }

  /** The inner loop. */
  function VideosRun(env: Env, videos: seq<Record>): Step
    requires AllHaveUrl(videos)
  {
    Sequence(VideoSteps(env, videos))
  }

  /** The body of the outer loop for one target: open its page, list its
      videos, process each, then stamp the target. Failed navigation skips the
      target; an exception skips the rest of it; an interrupt propagates. */
  function TargetStep(env: Env, target: FavoriteAccount): Step {
    var page := env.userPage(UserUrl(target.favoriteAccountUsername));
    match NavigateToUser(page.load)
    case Interrupted => Step([], true)
    case Raised => Step([], false)
    case Done(arrived) =>
      if !arrived then Step([], false)
      else
        (match UserVideos(page.listing, MaxVideos)
         case Interrupted => Step([], true)
         case Raised => Step([], false)
         case Done(videos) =>
           var run := VideosRun(env, videos);
           if run.interrupted then run
           else
             (match env.db(UpdateFavoriteQuery(target.id))
              case Normal => Step(run.events + [UpdateFavorite(target.id)], false)
              case Failure => Step(run.events, false)
              case Interrupt => Step(run.events, true)))
  }

  function TargetSteps(env: Env, targets: seq<FavoriteAccount>): seq<Step> {
    seq(|targets|, k requires 0 <= k < |targets| => TargetStep(env, targets[k]))
  }

  /** The outer loop. */
  function TargetsRun(env: Env, targets: seq<FavoriteAccount>): Step {
    Sequence(TargetSteps(env, targets))
  }

  /** The run once the crawler object exists, up to and including the `stop`
      of the `finally` clause, given how visiting the targets goes; a failed
      `start` has already run `stop` once. */
  function SessionFrom(env: Env, account: CrawlerAccount, run: Step): Report {
    match StartSignal(env.setup, env.login)
    case Failure => Report([Stop, Stop], Abandoned)
    case Interrupt => Report([Stop], Cancelled)
    case Normal =>
      (match env.db(SelectTargetsQuery)
       case Interrupt => Report([Stop], Cancelled)
       case Failure => Report([Stop], Abandoned)
       case Normal =>
         if run.interrupted then Report(run.events + [Stop], Cancelled)
         else
           (match env.db(UpdateCrawlerQuery(account.id))
            case Normal => Report(run.events + [UpdateCrawler(account.id), Stop], Finished)
            case Failure => Report(run.events + [Stop], Abandoned)
            case Interrupt => Report(run.events + [Stop], Cancelled)))
  }

  function SessionSpec(env: Env, account: CrawlerAccount): Report {
    SessionFrom(env, account, TargetsRun(env, TargetAccounts(env.favoriteAccounts, TargetLimit)))
  }

  /** A whole run of `main`. Nothing happens before a crawler account is chosen. */
  function CrawlSpec(env: Env): Report {
    match env.db(SelectCrawlerQuery)
    case Interrupt => Report([], Cancelled)
    case Failure => Report([], Abandoned)
    case Normal =>
      (match AvailableCrawlerAccount(env.crawlerAccounts)
       case None => Report([], Abandoned)
       case Some(account) => SessionSpec(env, account))
  }

  // ---------------------------------------------------------------------------
  // The orchestrator
  // ---------------------------------------------------------------------------

  /** One pass of the outer loop's body. */
  method CrawlTarget(env: Env, target: FavoriteAccount) returns (step: Step)
    ensures step == TargetStep(env, target)
    ensures Stop !in step.events
  {
    var page := env.userPage(UserUrl(target.favoriteAccountUsername));
    var arrived := NavigateToUser(page.load);
    if arrived.Interrupted? {
      return Step([], true);
    }
    if arrived != Done(true) {
      return Step([], false);
    }
    var listed := GetUserVideos(page.listing, MaxVideos);
    if !listed.Done? {
      return Step([], listed.Interrupted?);
    }
    var run := CrawlVideos(env, listed.value);
    if run.interrupted {
      return run;
    }
    var stamped := env.db(UpdateFavoriteQuery(target.id));
    if stamped == Normal {
      return Step(run.events + [UpdateFavorite(target.id)], false);
    }
    return Step(run.events, stamped == Interrupt);
  }

  /** One pass of the inner loop's body: the `try` block for one video. */
  method CrawlVideo(env: Env, video: Record) returns (step: Step)
    requires video.url.Some?
    ensures step == VideoStep(env, video)
    ensures Stop !in step.events
  {
    var details := VideoDetails(env.videoPage(video.url.value));
    if details.Interrupted? {
      return Step([], true);
    }
    if details.Raised? || details.value.None? || details.value.value == EmptyRecord {
      return Step([], false);  // `if not details: continue`
    }
    var data := Merge(video, details.value.value);
    var desc := DescParams(data, env.now);
    if desc.None? {
      return Step([], false);  // KeyError in save_movie_desc
    }
    var saved := env.db(InsertDescQuery(desc.value));
    if saved != Normal {
      return Step([], saved == Interrupt);
    }
    var stat := StatParams(data, env.now);  // `id` was found by save_movie_desc
    var counted := env.db(InsertStatQuery(stat.value));
    if counted == Normal {
      return Step([SaveDesc(desc.value), SaveStat(stat.value)], false);
    }
    return Step([SaveDesc(desc.value)], counted == Interrupt);
  }

  /** The inner loop of `main`. */
  method CrawlVideos(env: Env, videos: seq<Record>) returns (run: Step)
    requires AllHaveUrl(videos)
    ensures run == VideosRun(env, videos)
    ensures Stop !in run.events
  {
    ghost var steps := VideoSteps(env, videos);
    var events: seq<Event> := [];
    var j := 0;
    while j < |videos|
      invariant 0 <= j <= |videos|
      invariant Sequence(steps) == Prepend(events, Sequence(steps[j..]))
      invariant Stop !in events
    {
      var s := CrawlVideo(env, videos[j]);
      SequenceUnroll(steps, j);
      PrependTwice(events, s.events, Sequence(steps[j + 1..]));
      events := events + s.events;
      if s.interrupted {
        return Step(events, true);
      }
      j := j + 1;
    }
    return Step(events, false);
  }

  /** The outer loop of `main`. */
  method CrawlTargets(env: Env, targets: seq<FavoriteAccount>) returns (run: Step)
    ensures run == TargetsRun(env, targets)
    ensures Stop !in run.events
  {
    ghost var steps := TargetSteps(env, targets);
    var events: seq<Event> := [];
    var i := 0;
    while i < |targets|
      invariant 0 <= i <= |targets|
      invariant Sequence(steps) == Prepend(events, Sequence(steps[i..]))
      invariant Stop !in events
    {
      var s := CrawlTarget(env, targets[i]);
      SequenceUnroll(steps, i);
      PrependTwice(events, s.events, Sequence(steps[i + 1..]));
      events := events + s.events;
      if s.interrupted {
        return Step(events, true);
      }
      i := i + 1;
    }
    return Step(events, false);
  }

  /** The rest of the `try` block once `start` has succeeded: fetch the
      targets, visit them, stamp the crawler account. */
  method VisitTargets(env: Env, account: CrawlerAccount) returns (trace: seq<Event>, exit: Exit)
    requires StartSignal(env.setup, env.login) == Normal
    ensures Report(trace + [Stop], exit) == SessionSpec(env, account)
    ensures Stop !in trace
  {
    trace, exit := [], Abandoned;
    var fetched := env.db(SelectTargetsQuery);
    if fetched != Normal {
      exit := if fetched == Interrupt then Cancelled else Abandoned;
      return;
    }
    var run := CrawlTargets(env, TargetAccounts(env.favoriteAccounts, TargetLimit));
    assert SessionSpec(env, account) == SessionFrom(env, account, run);
    trace := run.events;
    if run.interrupted {
      exit := Cancelled;
      return;
    }
    var stamped := env.db(UpdateCrawlerQuery(account.id));
    if stamped == Normal {
      trace := trace + [UpdateCrawler(account.id)];
      exit := Finished;
    } else {
      exit := if stamped == Interrupt then Cancelled else Abandoned;
    }
  }

  /** The `try` block of `main` once the crawler object exists; the caller
      runs the `finally` clause. Every `Stop` in the trace is a call of
      `stop` that happened (the one a failed `start` makes), and the browser
      is open afterwards exactly when `start` opened it. */
  method RunSession(env: Env, crawler: TikTokCrawler, account: CrawlerAccount) returns (trace: seq<Event>, exit: Exit)
    modifies crawler
    ensures Report(trace + [Stop], exit) == SessionSpec(env, account)
    ensures crawler.stopCalls == old(crawler.stopCalls) + StopCount(trace)
    ensures StopCount(trace) == if StartSignal(env.setup, env.login) == Failure then 1 else 0
    ensures crawler.driverOpen <==>
      (env.setup == Normal && env.login != Failure) || (env.setup == Interrupt && old(crawler.driverOpen))
  {
    var started := crawler.Start(env.setup, env.login);
    if started == Failure {
      trace, exit := [Stop], Abandoned;
      assert StopCount(trace) == 1 by { assert trace[1..] == []; }
    } else if started == Interrupt {
      trace, exit := [], Cancelled;
    } else {
      trace, exit := VisitTargets(env, account);
    }
  }

  /** `main`. Returns the trace, how the run ended, how often `stop` ran and
      whether a browser was left open. */
  method Crawl(env: Env) returns (trace: seq<Event>, exit: Exit, stops: nat, browserOpen: bool)
    ensures Report(trace, exit) == CrawlSpec(env)
    ensures stops == StopCount(trace)
    ensures !browserOpen
  {
    var selected := env.db(SelectCrawlerQuery);
    if selected != Normal {
      return [], if selected == Interrupt then Cancelled else Abandoned, 0, false;
    }
    var account := AvailableCrawlerAccount(env.crawlerAccounts);
    if account.None? {
      return [], Abandoned, 0, false;  // ValueError: no crawler account is available
    }
    var crawler := new TikTokCrawler(account.value.username, account.value.password, account.value.proxy);
    trace, exit := RunSession(env, crawler, account.value);
    crawler.Stop();  // the finally clause
    StopCountAppend(trace, [Stop]);
    trace := trace + [Stop];
    stops, browserOpen := crawler.stopCalls, crawler.driverOpen;
  }
}
