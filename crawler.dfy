/** The page-level logic of src/crawler/tiktok_crawler.py. The browser is an
    oracle: each page the crawler visits is given as what it shows (which
    marker and sub-elements are present) or as the way the visit failed. */
module Crawler {
  import opened Common

  const BaseUrl: string := "https://www.tiktok.com"

  /** The profile page `navigate_to_user` opens. */
  function UserUrl(username: string): string {
    BaseUrl + "/@" + username
  }

  // ---------------------------------------------------------------------------
  // The video id of a link
  // ---------------------------------------------------------------------------

  /** The first position of `c` in `s`, or `|s|` when there is none. */
  function IndexOf(s: string, c: char): (i: nat)
    ensures i <= |s|
    ensures i < |s| ==> s[i] == c
    ensures forall k :: 0 <= k < i ==> s[k] != c
  {
    if s == [] then 0
    else if s[0] == c then 0
    else
      var i := 1 + IndexOf(s[1..], c);
      assert forall k :: 1 <= k < |s| ==> s[k] == s[1..][k - 1];
      i
  }

  /** Python's `s.split(sep)`: the pieces between separators, always at least one. */
  function Split(s: string, sep: char): (parts: seq<string>)
    ensures |parts| >= 1
    decreases |s|
  {
    var i := IndexOf(s, sep);
    if i == |s| then [s] else [s[..i]] + Split(s[i + 1..], sep)
  }

  /** No piece of `split` holds the separator. */
  lemma {:induction false} SplitPiecesHaveNoSeparator(s: string, sep: char)
    ensures forall k :: 0 <= k < |Split(s, sep)| ==> sep !in Split(s, sep)[k]
    decreases |s|
  {
    var i := IndexOf(s, sep);
    if i < |s| {
      SplitPiecesHaveNoSeparator(s[i + 1..], sep);
      var parts := Split(s, sep);
      assert parts == [s[..i]] + Split(s[i + 1..], sep);
      forall k | 0 <= k < |parts|
        ensures sep !in parts[k]
      {
        if k > 0 {
          assert parts[k] == Split(s[i + 1..], sep)[k - 1];
        }
      }
    }
  }

  /** `sep.join(parts)`. */
  function Join(parts: seq<string>, sep: char): string
    requires |parts| >= 1
  {
    if |parts| == 1 then parts[0] else parts[0] + [sep] + Join(parts[1..], sep)
  }

  /** The pieces of `split`, joined again with the separator, give back the text. */
  lemma {:induction false} JoinSplit(s: string, sep: char)
    ensures Join(Split(s, sep), sep) == s
    decreases |s|
  {
    var i := IndexOf(s, sep);
    if i < |s| {
      JoinSplit(s[i + 1..], sep);
      var parts := Split(s, sep);
      assert parts == [s[..i]] + Split(s[i + 1..], sep);
      assert parts[0] == s[..i] && parts[1..] == Split(s[i + 1..], sep);
      assert s == s[..i] + [sep] + s[i + 1..];
    }
  }

  /** `id` is the final `/`-separated segment of `url`: a suffix with no `/`,
      preceded by a `/` unless it is the whole of `url`. */
  ghost predicate IsFinalSegment(url: string, id: string) {
    && |id| <= |url|
    && url[|url| - |id|..] == id
    && '/' !in id
    && (|id| < |url| ==> url[|url| - |id| - 1] == '/')
  }

  /** A final segment of the text after a `/` is a final segment of the whole. */
  lemma FinalSegmentOfSuffix(s: string, i: nat, id: string)
    requires i < |s| && s[i] == '/' && IsFinalSegment(s[i + 1..], id)
    ensures IsFinalSegment(s, id)
  {
    var t := s[i + 1..];
    assert s[|s| - |id|..] == t[|t| - |id|..];
    if |id| == |t| {
      assert s[|s| - |id| - 1] == s[i];
    } else {
      assert s[|s| - |id| - 1] == t[|t| - |id| - 1];
    }
  }

  lemma {:induction false} LastSplitPartIsFinalSegment(s: string)
    ensures IsFinalSegment(s, Split(s, '/')[|Split(s, '/')| - 1])
    decreases |s|
  {
    var i := IndexOf(s, '/');
    if i < |s| {
      var t := s[i + 1..];
      LastSplitPartIsFinalSegment(t);
      var parts := Split(s, '/');
      assert parts == [s[..i]] + Split(t, '/');
      var id := Split(t, '/')[|Split(t, '/')| - 1];
      assert parts[|parts| - 1] == id;
      FinalSegmentOfSuffix(s, i, id);
    }
  }

  /** `video_url.split("/")[-1]`. */
  function VideoIdFromUrl(url: string): (id: string)
    ensures IsFinalSegment(url, id)
  {
    LastSplitPartIsFinalSegment(url);
    var parts := Split(url, '/');
    parts[|parts| - 1]
  }

  /** Two final segments of one url: the second is no longer than the first. */
  lemma FinalSegmentNoLonger(url: string, a: string, b: string)
    requires IsFinalSegment(url, a) && IsFinalSegment(url, b)
    ensures |b| <= |a|
  {
    assert forall k :: |url| - |b| <= k < |url| ==> url[k] == b[k - (|url| - |b|)];
  }

  /** The final segment is unique, so `VideoIdFromUrl` is exactly "the text after
      the last `/`". */
  lemma FinalSegmentIsVideoId(url: string, id: string)
    ensures IsFinalSegment(url, id) <==> id == VideoIdFromUrl(url)
  {
    var v := VideoIdFromUrl(url);
    if IsFinalSegment(url, id) {
      FinalSegmentNoLonger(url, id, v);
      FinalSegmentNoLonger(url, v, id);
    }
  }

  // ---------------------------------------------------------------------------
  // get_user_videos
  // ---------------------------------------------------------------------------

  /** One `user-post-item` element: its link's `href` and its view-count text
      (`None` when that sub-element is missing), and whether reading it raises
      some other exception before a missing sub-element is noticed. */
  datatype Element = Element(link: Option<string>, views: Option<string>, broken: bool)

  /** The dictionaries the crawler and main.py build, over the fixed set of
      keys the source uses; each key is absent (`None`) or holds a text:
      `url`, `id` and `play_count_text` from the video list; `title`,
      `posted_at_text`, `account_username`, `account_nickname` and
      `like_count_text` from the video page; `posted_at`, `play_count` and
      `like_count`, which main.py looks up with `get` but nothing sets. */
  datatype Record = Record(
    url: Option<string>, id: Option<string>, playCountText: Option<string>,
    title: Option<string>, postedAtText: Option<string>, accountUsername: Option<string>,
    accountNickname: Option<string>, likeCountText: Option<string>,
    postedAt: Option<string>, playCount: Option<string>, likeCount: Option<string>)

  /** The empty dictionary. */
  const EmptyRecord := Record(None, None, None, None, None, None, None, None, None, None, None)

  /** A dictionary `get_user_videos` produces: exactly the keys `url`, `id`
      and `play_count_text`, the id being the URL's final segment. */
  ghost predicate IsVideoEntry(v: Record) {
    && v.url.Some? && v.id.Some? && v.playCountText.Some?
    && v == EmptyRecord.(url := v.url, id := v.id, playCountText := v.playCountText)
    && v.id.value == VideoIdFromUrl(v.url.value)
  }

  predicate Complete(e: Element) {
    e.link.Some? && e.views.Some?
  }

  /** The dictionary for a complete element. */
  function Entry(e: Element): (v: Record)
    requires Complete(e)
    ensures IsVideoEntry(v)
    ensures v.url == e.link && v.playCountText == e.views
  {
    EmptyRecord.(url := e.link, id := Some(VideoIdFromUrl(e.link.value)), playCountText := e.views)
  }

  /** The entries of the complete elements, in page order. */
  function Collect(els: seq<Element>): (vs: seq<Record>)
    ensures |vs| <= |els|
    ensures forall k :: 0 <= k < |vs| ==> IsVideoEntry(vs[k])
  {
    if els == [] then []
    else (if Complete(els[0]) then [Entry(els[0])] else []) + Collect(els[1..])
  }

  /** Collecting is done element by element: the entries of a page are those of
      its first part followed by those of the rest. */
  lemma {:induction false} CollectAppend(a: seq<Element>, b: seq<Element>)
    ensures Collect(a + b) == Collect(a) + Collect(b)
  {
    if a == [] {
      assert a + b == b;
    } else {
      var head := if Complete(a[0]) then [Entry(a[0])] else [];
      assert (a + b)[0] == a[0];
      assert (a + b)[1..] == a[1..] + b;
      assert Collect(a + b) == head + Collect(a[1..] + b);
      CollectAppend(a[1..], b);
      assert Collect(a) == head + Collect(a[1..]);
    }
  }

  /** An element missing its link or its view count is skipped, and the entries
      of the other elements are as if it were not on the page. */
  lemma MissingSubElementIsSkipped(before: seq<Element>, e: Element, after: seq<Element>)
    requires !Complete(e)
    ensures Collect(before + [e] + after) == Collect(before) + Collect(after)
  {
    CollectAppend(before + [e], after);
    CollectAppend(before, [e]);
    assert [e][1..] == [];
    assert Collect([e]) == [];
    assert Collect(before + [e]) == Collect(before);
  }

  /** A single element gives its entry when it is complete, and nothing otherwise. */
  lemma CollectSingle(e: Element)
    ensures Collect([e]) == if Complete(e) then [Entry(e)] else []
  {
    assert [e][1..] == [];
  }

  /** A complete element is kept, in its page position: its entry sits between
      the entries of the elements before it and those after it. */
  lemma CompleteElementIsKept(before: seq<Element>, e: Element, after: seq<Element>)
    requires Complete(e)
    ensures Collect(before + [e] + after) == Collect(before) + [Entry(e)] + Collect(after)
  {
    CollectAppend(before + [e], after);
    CollectAppend(before, [e]);
    CollectSingle(e);
  }

  /** The entries are exactly those of the complete elements. */
  lemma {:induction false} CollectMembers(els: seq<Element>)
    ensures forall v :: v in Collect(els) <==> exists j :: 0 <= j < |els| && Complete(els[j]) && v == Entry(els[j])
  {
    if els != [] {
      CollectMembers(els[1..]);
      assert forall j :: 1 <= j < |els| ==> els[j] == els[1..][j - 1];
      forall v | v in Collect(els)
        ensures exists j :: 0 <= j < |els| && Complete(els[j]) && v == Entry(els[j])
      {
        if !(Complete(els[0]) && v == Entry(els[0])) {
          var j :| 0 <= j < |els[1..]| && Complete(els[1..][j]) && v == Entry(els[1..][j]);
          assert els[j + 1] == els[1..][j];
        }
      }
      forall v | exists j :: 0 <= j < |els| && Complete(els[j]) && v == Entry(els[j])
        ensures v in Collect(els)
      {
        var j :| 0 <= j < |els| && Complete(els[j]) && v == Entry(els[j]);
        if j > 0 {
          assert els[1..][j - 1] == els[j];
        }
      }
    }
  }

  /** The end of the slice `s[:n]` for a sequence of length `len` (Python slicing). */
  function SliceEnd(n: int, len: nat): (e: nat)
    ensures e <= len
    ensures n >= 0 ==> e == if n < len then n else len
  {
    if n >= 0 then (if n < len then n else len)
    else if len + n > 0 then len + n else 0
  }

  const MaxVideos: int := 50

  /** What `get_user_videos(max_videos)` returns for the list the page shows:
      a missing list (a timeout) or a broken element yields `[]`; otherwise the
      entries of the complete elements among the first `max_videos`. */
  function UserVideos(listing: Outcome<seq<Element>>, maxVideos: int): (r: Outcome<seq<Record>>)
    ensures !r.Raised?
    ensures r.Interrupted? <==> listing.Interrupted?
    ensures r.Done? && maxVideos >= 0 ==> |r.value| <= maxVideos
    ensures r.Done? ==> forall k :: 0 <= k < |r.value| ==> IsVideoEntry(r.value[k])
    ensures listing.Raised? ==> r == Done([])
    ensures listing.Done? && (forall i :: 0 <= i < SliceEnd(maxVideos, |listing.value|) ==> !listing.value[i].broken) ==>
      r == Done(Collect(listing.value[..SliceEnd(maxVideos, |listing.value|)]))
  {
    match listing
    case Interrupted => Interrupted
    case Raised => Done([])
    case Done(els) =>
      var shown := els[..SliceEnd(maxVideos, |els|)];
      if exists i :: 0 <= i < |shown| && shown[i].broken then Done([]) else Done(Collect(shown))
  }

  /** Any exception other than a missing sub-element, in any element that is
      read, discards the entries already collected. */
  lemma BrokenElementDiscardsAll(els: seq<Element>, maxVideos: int, i: nat)
    requires i < SliceEnd(maxVideos, |els|) && els[i].broken
    ensures UserVideos(Done(els), maxVideos) == Done([])
  {
    assert els[..SliceEnd(maxVideos, |els|)][i].broken;
  }

  /** With no broken element among the first `max_videos`, the listed videos
      are exactly the entries of the complete ones among them. */
  lemma ListedVideosAreTheCompleteOnes(els: seq<Element>, maxVideos: int)
    requires forall i :: 0 <= i < SliceEnd(maxVideos, |els|) ==> !els[i].broken
    ensures UserVideos(Done(els), maxVideos).Done?
    ensures forall v :: v in UserVideos(Done(els), maxVideos).value <==>
      exists j :: 0 <= j < SliceEnd(maxVideos, |els|) && Complete(els[j]) && v == Entry(els[j])
  {
    var n := SliceEnd(maxVideos, |els|);
    CollectMembers(els[..n]);
    assert forall j :: 0 <= j < n ==> els[..n][j] == els[j];
  }

  /** The loop of `get_user_videos`. */
  method GetUserVideos(listing: Outcome<seq<Element>>, maxVideos: int) returns (r: Outcome<seq<Record>>)
    ensures r == UserVideos(listing, maxVideos)
  {
    match listing {
      case Interrupted =>
        return Interrupted;
      case Raised =>
        return Done([]);
      case Done(els) =>
        var n := SliceEnd(maxVideos, |els|);
        var videos: seq<Record> := [];
        var i := 0;
        while i < n
          invariant 0 <= i <= n
          invariant videos == Collect(els[..i])
          invariant forall j :: 0 <= j < i ==> !els[j].broken
        {
          var e := els[i];
          if e.broken {
            assert els[..n][i].broken;
            return Done([]);
          }
          if e.link.Some? && e.views.Some? {
            var url := e.link.value;
            videos := videos + [EmptyRecord.(url := Some(url), id := Some(VideoIdFromUrl(url)), playCountText := e.views)];
          }
          CollectAppend(els[..i], [e]);
          assert Collect([e]) == (if Complete(e) then [Entry(e)] else []) + Collect([]);
          assert els[..i + 1] == els[..i] + [e];
          i := i + 1;
        }
        assert els[..n] == els[..i];
        return Done(videos);
    }
  }

  // ---------------------------------------------------------------------------
  // navigate_to_user and get_video_details
  // ---------------------------------------------------------------------------

  /** How the profile page loads: the `user-post-item` marker appears or the
      wait for it times out, the driver raises, or the operator interrupts. */
  datatype UserPageLoad = Loaded(postItemAppears: bool) | LoadFailed | LoadInterrupted

  /** `navigate_to_user`: true exactly when the marker appears; every failure is
      turned into false. */
  function NavigateToUser(load: UserPageLoad): (r: Outcome<bool>)
    ensures r == Done(true) <==> load == Loaded(true)
    ensures r.Interrupted? <==> load.LoadInterrupted?
    ensures !r.Raised?
  {
    match load
    case Loaded(appears) => Done(appears)
    case LoadFailed => Done(false)
    case LoadInterrupted => Interrupted
  }

  /** What a video page shows: each looked-up element's text (`None` when it is
      missing), or a driver failure, or an interrupt. */
  datatype VideoPage =
    | VideoShown(title: Option<string>, postedAtText: Option<string>, accountUsername: Option<string>,
                 accountNickname: Option<string>, likeCountText: Option<string>)
    | VideoPageFailed
    | VideoPageInterrupted

  /** A dictionary `get_video_details` produces: exactly its five keys. */
  ghost predicate IsDetails(d: Record) {
    && d.title.Some? && d.postedAtText.Some? && d.accountUsername.Some?
    && d.accountNickname.Some? && d.likeCountText.Some?
    && d == EmptyRecord.(title := d.title, postedAtText := d.postedAtText, accountUsername := d.accountUsername,
                         accountNickname := d.accountNickname, likeCountText := d.likeCountText)
  }

  predicate FullyShown(page: VideoPage) {
    page.VideoShown? && page.title.Some? && page.postedAtText.Some? && page.accountUsername.Some?
    && page.accountNickname.Some? && page.likeCountText.Some?
  }

  /** `get_video_details`: `None` on any failure, otherwise a dictionary with
      exactly the five detail keys holding the page's texts. */
  function VideoDetails(page: VideoPage): (r: Outcome<Option<Record>>)
    ensures !r.Raised?
    ensures r.Interrupted? <==> page.VideoPageInterrupted?
    ensures r.Done? && r.value.Some? <==> FullyShown(page)
    ensures r.Done? && r.value.Some? ==>
      && IsDetails(r.value.value)
      && r.value.value.title == page.title && r.value.value.postedAtText == page.postedAtText
      && r.value.value.accountUsername == page.accountUsername
      && r.value.value.accountNickname == page.accountNickname
      && r.value.value.likeCountText == page.likeCountText
  {
    if page.VideoPageInterrupted? then Interrupted
    else if !FullyShown(page) then Done(None)
    else Done(Some(EmptyRecord.(
      title := page.title,
      postedAtText := page.postedAtText,
      accountUsername := page.accountUsername,
      accountNickname := page.accountNickname,
      likeCountText := page.likeCountText)))
  }

  // ---------------------------------------------------------------------------
  // scroll_page
  // ---------------------------------------------------------------------------

  /** `scroll_page`: `scroll(i)` is how the i-th scroll (script and pause) ends.
      The loop stops at the first failure (logged) or interrupt (propagated). */
  method ScrollPage(scrollCount: int, scroll: nat -> Signal) returns (scrolled: nat, interrupted: bool)
    ensures scrolled <= if scrollCount > 0 then scrollCount else 0
    ensures forall i :: 0 <= i < scrolled ==> scroll(i) == Normal
    ensures scrolled < scrollCount ==> scroll(scrolled) != Normal
    ensures interrupted <==> scrolled < scrollCount && scroll(scrolled) == Interrupt
  {
    scrolled, interrupted := 0, false;
    while scrolled < scrollCount
      invariant forall i :: 0 <= i < scrolled ==> scroll(i) == Normal
      invariant scrolled <= if scrollCount > 0 then scrollCount else 0
      decreases scrollCount - scrolled
    {
      var s := scroll(scrolled);
      if s == Failure {
        return;
      } else if s == Interrupt {
        interrupted := true;
        return;
      }
      scrolled := scrolled + 1;
    }
  }

  // ---------------------------------------------------------------------------
  // The start/stop bracket
  // ---------------------------------------------------------------------------

  /** How `start` ends: the driver setup's exception or interrupt, else the login's. */
  function StartSignal(setup: Signal, login: Signal): (r: Signal)
    ensures r == Normal <==> setup == Normal && login == Normal
    ensures setup != Normal ==> r == setup
    ensures setup == Normal ==> r == login
  {
    if setup == Normal then login else setup
  }

  /** A TikTokCrawler: its credentials and the state of its browser. */
  class TikTokCrawler {
    const username: string
    const password: string
    const proxy: Option<string>
    var driverOpen: bool   // a live browser is held by the driver manager
    var stopCalls: nat     // how often `stop` has run

    constructor (username: string, password: string, proxy: Option<string>)
      ensures this.username == username && this.password == password && this.proxy == proxy
      ensures !driverOpen && stopCalls == 0
    {
      this.username, this.password, this.proxy := username, password, proxy;
      driverOpen, stopCalls := false, 0;
    }

    /** `start`: set up the driver and log in. On an exception from either,
        `stop` runs and the exception is raised again; an interrupt passes
        through without `stop`. */
    method Start(setup: Signal, login: Signal) returns (s: Signal)
      modifies this
      ensures s == StartSignal(setup, login)
      ensures stopCalls == old(stopCalls) + (if s == Failure then 1 else 0)
      ensures driverOpen <==> (setup == Normal && login != Failure) || (setup == Interrupt && old(driverOpen))
    {
      if setup != Normal {
        if setup == Failure {
          Stop();
        }
        return setup;
      }
      driverOpen := true;
      if login == Failure {
        Stop();
      }
      return login;
    }

    /** `stop`: quit the browser, if there is one. */
    method Stop()
      modifies this
      ensures !driverOpen && stopCalls == old(stopCalls) + 1
    {
      driverOpen, stopCalls := false, stopCalls + 1;
    }
  }
}
