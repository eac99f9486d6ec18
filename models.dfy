/** The rows the crawler reads and writes (src/database/models.py, and the
    video rows whose columns src/database/repositories.py names). */
module Models {
  import opened Common

  /** A `datetime`, as an instant on a linear clock. */
  type Timestamp = int

  /** A crawling identity: a row of `crawler_accounts`. */
  datatype CrawlerAccount = CrawlerAccount(
    id: int,
    username: string,
    password: string,
    proxy: Option<string>,
    isAlive: bool,
    lastCrawledAt: Option<Timestamp>)   // None: never crawled

  /** A target account: a row of `favorite_accounts`. */
  datatype FavoriteAccount = FavoriteAccount(
    id: int,
    favoriteAccountUsername: string,
    crawlerAccountId: Option<int>,      // None: not assigned to a crawler
    favoriteAccountIsAlive: bool,
    crawlPriority: int,
    lastCrawledAt: Option<Timestamp>)   // None: never crawled

  /** A row of `movie_desc_raw_data`, as the orchestrator binds it. The crawler's
      dictionaries carry only text, so `postedAt` is the optional text bound to
      the `posted_at` column. */
  datatype MovieDescRawData = MovieDescRawData(
    id: string,
    url: string,
    accountUsername: string,
    accountNickname: string,
    title: string,
    postedAtText: string,
    postedAt: Option<string>,
    crawledAt: Timestamp)

  /** A row of `movie_stat_raw_data`, as the orchestrator binds it (the
      auto-increment `id` is the database's). The parsed columns hold the
      optional text bound to them. */
  datatype MovieStatRawData = MovieStatRawData(
    movieId: string,
    playCountText: Option<string>,
    playCount: Option<string>,
    likeCountText: Option<string>,
    likeCount: Option<string>,
    crawledAt: Timestamp)

  /** A row of `video_desc_raw_data`, keyed by `videoId`. */
  datatype VideoDescRawData = VideoDescRawData(
    videoId: string,
    url: string,
    accountUsername: string,
    accountNickname: string,
    title: string,
    postedAtText: string,
    postedAt: Option<Timestamp>,
    crawledAt: Timestamp)

  /** A row of `video_play_stat_raw_data`. */
  datatype VideoPlayStatRawData = VideoPlayStatRawData(
    videoId: string,
    countText: Option<string>,
    count: Option<int>,
    crawledAt: Timestamp)

  /** A row of `video_like_stat_raw_data`. */
  datatype VideoLikeStatRawData = VideoLikeStatRawData(
    videoId: string,
    countText: Option<string>,
    count: Option<int>,
    crawledAt: Timestamp)
}
