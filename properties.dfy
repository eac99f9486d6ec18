/** What a run of the orchestrator guarantees, stated over `CrawlSpec`, which
    `Orchestrator.Crawl` is proved to compute. */
module CrawlProperties {
  import opened Common
  import opened Models
  import opened Repositories
  import opened Crawler
  import opened Orchestrator

  // ---------------------------------------------------------------------------
  // Well-formed traces
  // ---------------------------------------------------------------------------

  predicate IsSave(e: Event) {
    e.SaveDesc? || e.SaveStat?
  }

  /** A saved description is keyed by the final path segment of its URL and
      has a null `posted_at`; a saved stat row has null counts, both count
      texts, and directly follows the description of the same video. */
  ghost predicate SaveWellFormedAt(trace: seq<Event>, i: nat)
    requires i < |trace|
  {
    match trace[i]
    case SaveDesc(d) => d.postedAt.None? && d.id == VideoIdFromUrl(d.url)
    case SaveStat(s) =>
      && s.playCount.None? && s.likeCount.None? && s.playCountText.Some? && s.likeCountText.Some?
      && 0 < i && trace[i - 1].SaveDesc? && trace[i - 1].desc.id == s.movieId
    case _ => true
  }

  ghost predicate WellFormedSaves(trace: seq<Event>) {
    forall i :: 0 <= i < |trace| ==> SaveWellFormedAt(trace, i)
  }

  predicate NoLeadingStat(trace: seq<Event>) {
    trace == [] || !trace[0].SaveStat?
  }

  ghost predicate SavesOnly(trace: seq<Event>) {
    forall e :: e in trace ==> IsSave(e)
  }

  /** The effects visiting targets can have: saves and target stamps. */
  ghost predicate VisitEvents(trace: seq<Event>) {
    forall e :: e in trace ==> IsSave(e) || e.UpdateFavorite?
  }

  lemma WellFormedConcat(a: seq<Event>, b: seq<Event>)
    requires WellFormedSaves(a) && WellFormedSaves(b) && NoLeadingStat(b)
    ensures WellFormedSaves(a + b)
  {
    var c := a + b;
    forall i | 0 <= i < |c|
      ensures SaveWellFormedAt(c, i)
    {
      if i < |a| {
        assert c[i] == a[i] && SaveWellFormedAt(a, i);
        if 0 < i {
          assert c[i - 1] == a[i - 1];
        }
      } else {
        var j := i - |a|;
        assert c[i] == b[j] && SaveWellFormedAt(b, j);
        if 0 < j {
          assert c[i - 1] == b[j - 1];
        }
      }
    }
  }

  // ---------------------------------------------------------------------------
  // Loops guarded per item (both loops of `main`)
  // ---------------------------------------------------------------------------

  /** Running two lists of steps in a row is running their concatenation. */
  lemma {:induction false} SequenceAppend(a: seq<Step>, b: seq<Step>)
    ensures Sequence(a + b) ==
      if Sequence(a).interrupted then Sequence(a) else Prepend(Sequence(a).events, Sequence(b))
  {
    if a == [] {
      assert a + b == b;
    } else {
      assert (a + b)[0] == a[0] && (a + b)[1..] == a[1..] + b;
      SequenceAppend(a[1..], b);
      if !a[0].interrupted && !Sequence(a[1..]).interrupted {
        PrependTwice(a[0].events, Sequence(a[1..]).events, Sequence(b));
      }
    }
  }

  /** Unless something before it was interrupted, an item's own effects sit
      between those of the items around it, whatever they are. */
  lemma SequenceIsolation(before: seq<Step>, s: Step, after: seq<Step>)
    requires !Sequence(before).interrupted && !s.interrupted
    ensures Sequence(before + [s] + after) == Prepend(Sequence(before).events + s.events, Sequence(after))
  {
    var tail := [s] + after;
    assert tail[0] == s && tail[1..] == after;
    assert before + [s] + after == before + tail;
    SequenceAppend(before, tail);
    PrependTwice(Sequence(before).events, s.events, Sequence(after));
  }

  /** An item that raised before anything took effect is skipped. */
  lemma SkippedStepVanishes(before: seq<Step>, after: seq<Step>)
    ensures Sequence(before + [Step([], false)] + after) == Sequence(before + after)
  {
    var tail := [Step([], false)] + after;
    assert tail[1..] == after;
    assert before + [Step([], false)] + after == before + tail;
    SequenceAppend(before, tail);
    SequenceAppend(before, after);
  }

  /** An interrupt in item `k` ends the loop there: nothing of the later
      items happens. */
  lemma SequenceInterrupted(steps: seq<Step>, k: nat)
    requires k < |steps| && !Sequence(steps[..k]).interrupted && steps[k].interrupted
    ensures Sequence(steps) == Step(Sequence(steps[..k]).events + steps[k].events, true)
  {
    assert steps == steps[..k] + steps[k..];
    assert steps[k..][0] == steps[k];
    SequenceAppend(steps[..k], steps[k..]);
  }

  /** Every effect of the loop is an effect of one of its items. */
  lemma {:induction false} SequenceEventsFromSteps(steps: seq<Step>)
    ensures forall e :: e in Sequence(steps).events ==> exists k :: 0 <= k < |steps| && e in steps[k].events
  {
    if steps != [] && !steps[0].interrupted {
      SequenceEventsFromSteps(steps[1..]);
      forall e | e in Sequence(steps[1..]).events
        ensures exists k :: 0 <= k < |steps| && e in steps[k].events
      {
        var k :| 0 <= k < |steps[1..]| && e in steps[1..][k].events;
        assert steps[k + 1] == steps[1..][k];
      }
    }
  }

  /** Items that save well-formed rows make a loop that does. */
  lemma {:induction false} SequenceWellFormed(steps: seq<Step>)
    requires forall k :: 0 <= k < |steps| ==> WellFormedSaves(steps[k].events) && NoLeadingStat(steps[k].events)
    ensures WellFormedSaves(Sequence(steps).events) && NoLeadingStat(Sequence(steps).events)
  {
    if steps != [] && !steps[0].interrupted {
      assert forall k :: 0 <= k < |steps[1..]| ==> steps[1..][k] == steps[k + 1];
      SequenceWellFormed(steps[1..]);
      WellFormedConcat(steps[0].events, Sequence(steps[1..]).events);
      var ev := steps[0].events + Sequence(steps[1..]).events;
      if steps[0].events == [] {
        assert ev == Sequence(steps[1..]).events;
      } else {
        assert ev[0] == steps[0].events[0];
      }
    }
  }

  // ---------------------------------------------------------------------------
  // Isolation of videos and of targets
  // ---------------------------------------------------------------------------

  lemma VideoStepsAppend(env: Env, a: seq<Record>, b: seq<Record>)
    requires AllHaveUrl(a) && AllHaveUrl(b)
    ensures AllHaveUrl(a + b)
    ensures VideoSteps(env, a + b) == VideoSteps(env, a) + VideoSteps(env, b)
  {
    assert forall k :: 0 <= k < |a + b| ==> (a + b)[k] == if k < |a| then a[k] else b[k - |a|];
  }

  lemma TargetStepsAppend(env: Env, a: seq<FavoriteAccount>, b: seq<FavoriteAccount>)
    ensures TargetSteps(env, a + b) == TargetSteps(env, a) + TargetSteps(env, b)
  {
    assert forall k :: 0 <= k < |a + b| ==> (a + b)[k] == if k < |a| then a[k] else b[k - |a|];
  }

  /** Unless something before it was interrupted, a video's own effects sit
      between those of the videos around it, whatever they are: what happens
      to one video does not change what the others save. */
  lemma VideoIsolation(env: Env, before: seq<Record>, video: Record, after: seq<Record>)
    requires AllHaveUrl(before) && video.url.Some? && AllHaveUrl(after)
    requires !VideosRun(env, before).interrupted && !VideoStep(env, video).interrupted
    ensures AllHaveUrl(before + [video] + after)
    ensures VideosRun(env, before + [video] + after) ==
      Prepend(VideosRun(env, before).events + VideoStep(env, video).events, VideosRun(env, after))
  {
    assert VideoSteps(env, [video]) == [VideoStep(env, video)];
    VideoStepsAppend(env, before, [video]);
    VideoStepsAppend(env, before + [video], after);
    SequenceIsolation(VideoSteps(env, before), VideoStep(env, video), VideoSteps(env, after));
  }

  /** A video whose processing raised, or whose details were missing, is
      skipped: the run is the run without it. */
  lemma FailedVideoSkipped(env: Env, before: seq<Record>, video: Record, after: seq<Record>)
    requires AllHaveUrl(before) && video.url.Some? && AllHaveUrl(after)
    requires VideoStep(env, video) == Step([], false)
    ensures AllHaveUrl(before + [video] + after) && AllHaveUrl(before + after)
    ensures VideosRun(env, before + [video] + after) == VideosRun(env, before + after)
  {
    assert VideoSteps(env, [video]) == [VideoStep(env, video)];
    VideoStepsAppend(env, before, [video]);
    VideoStepsAppend(env, before + [video], after);
    VideoStepsAppend(env, before, after);
    SkippedStepVanishes(VideoSteps(env, before), VideoSteps(env, after));
  }

  /** A video whose page did not show every detail (`get_video_details`
      returned `None`) saves nothing, and the other videos of the target are
      processed as if it were not listed. */
  lemma MissingDetailsSkipVideo(env: Env, before: seq<Record>, video: Record, after: seq<Record>)
    requires AllHaveUrl(before) && video.url.Some? && AllHaveUrl(after)
    requires var page := env.videoPage(video.url.value);
      !FullyShown(page) && !page.VideoPageInterrupted?
    ensures VideoStep(env, video) == Step([], false)
    ensures AllHaveUrl(before + [video] + after) && AllHaveUrl(before + after)
    ensures VideosRun(env, before + [video] + after) == VideosRun(env, before + after)
  {
    FailedVideoSkipped(env, before, video, after);
  }

  /** Unless something before it was interrupted, a target's own effects sit
      between those of the targets around it. */
  lemma TargetIsolation(env: Env, before: seq<FavoriteAccount>, target: FavoriteAccount, after: seq<FavoriteAccount>)
    requires !TargetsRun(env, before).interrupted && !TargetStep(env, target).interrupted
    ensures TargetsRun(env, before + [target] + after) ==
      Prepend(TargetsRun(env, before).events + TargetStep(env, target).events, TargetsRun(env, after))
  {
    assert TargetSteps(env, [target]) == [TargetStep(env, target)];
    TargetStepsAppend(env, before, [target]);
    TargetStepsAppend(env, before + [target], after);
    SequenceIsolation(TargetSteps(env, before), TargetStep(env, target), TargetSteps(env, after));
  }

  /** A target whose page did not show its posts, or whose processing raised
      before anything took effect, is skipped: the run is the run without it. */
  lemma FailedTargetSkipped(env: Env, before: seq<FavoriteAccount>, target: FavoriteAccount, after: seq<FavoriteAccount>)
    requires TargetStep(env, target) == Step([], false)
    ensures TargetsRun(env, before + [target] + after) == TargetsRun(env, before + after)
  {
    assert TargetSteps(env, [target]) == [TargetStep(env, target)];
    TargetStepsAppend(env, before, [target]);
    TargetStepsAppend(env, before + [target], after);
    TargetStepsAppend(env, before, after);
    SkippedStepVanishes(TargetSteps(env, before), TargetSteps(env, after));
  }

  /** A target whose page did not show the `user-post-item` marker
      (`navigate_to_user` returned false) gets no save and no stamp, and the
      loop goes on with the next target as if it were not in the batch. */
  lemma FailedNavigationSkipsTarget(env: Env, before: seq<FavoriteAccount>, target: FavoriteAccount, after: seq<FavoriteAccount>)
    requires NavigateToUser(env.userPage(UserUrl(target.favoriteAccountUsername)).load) == Done(false)
    ensures TargetStep(env, target) == Step([], false)
    ensures TargetsRun(env, before + [target] + after) == TargetsRun(env, before + after)
  {
    FailedTargetSkipped(env, before, target, after);
  }

  // ---------------------------------------------------------------------------
  // What one video and one target save
  // ---------------------------------------------------------------------------

  /** The description row of a listed video whose page showed every detail. */
  function ShownDesc(video: Record, page: VideoPage, now: Timestamp): MovieDescRawData
    requires video.id.Some? && video.url.Some? && FullyShown(page)
  {
    MovieDescRawData(video.id.value, video.url.value, page.accountUsername.value,
                     page.accountNickname.value, page.title.value, page.postedAtText.value, None, now)
  }

  /** The stats row of a listed video whose page showed every detail. */
  function ShownStat(video: Record, page: VideoPage, now: Timestamp): MovieStatRawData
    requires video.id.Some? && FullyShown(page)
  {
    MovieStatRawData(video.id.value, video.playCountText, None, page.likeCountText, None, now)
  }

  /** A listed video saves nothing, its description, or its description and
      then its stats; the rows hold the listing's id, URL and view text and
      the page's texts, and nothing is saved unless every detail was shown. */
  lemma VideoStepSaves(env: Env, video: Record)
    requires IsVideoEntry(video)
    ensures var ev := VideoStep(env, video).events;
      var page := env.videoPage(video.url.value);
      ev == [] ||
        (FullyShown(page) &&
          (ev == [SaveDesc(ShownDesc(video, page, env.now))] ||
           ev == [SaveDesc(ShownDesc(video, page, env.now)), SaveStat(ShownStat(video, page, env.now))]))
  {
    var details := VideoDetails(env.videoPage(video.url.value));
    if details.Done? && details.value.Some? {
      MergedRecordFields(video, details.value.value, env.now);
    }
  }

  /** A listed video whose page showed every detail is saved as far as the
      database lets it: a failed or interrupted description insert saves
      nothing, an accepted one saves the description and then, as the stats
      insert goes, the stats too; an interrupt at either insert ends the
      target. */
  lemma ShownVideoSaved(env: Env, video: Record)
    requires IsVideoEntry(video) && FullyShown(env.videoPage(video.url.value))
    ensures var page := env.videoPage(video.url.value);
      var desc := ShownDesc(video, page, env.now);
      var stat := ShownStat(video, page, env.now);
      var step := VideoStep(env, video);
      && (env.db(InsertDescQuery(desc)) == Failure ==> step == Step([], false))
      && (env.db(InsertDescQuery(desc)) == Interrupt ==> step == Step([], true))
      && (env.db(InsertDescQuery(desc)) == Normal ==>
            match env.db(InsertStatQuery(stat))
            case Normal => step == Step([SaveDesc(desc), SaveStat(stat)], false)
            case Failure => step == Step([SaveDesc(desc)], false)
            case Interrupt => step == Step([SaveDesc(desc)], true))
  {
    var details := VideoDetails(env.videoPage(video.url.value));
    MergedRecordFields(video, details.value.value, env.now);
  }

  /** A listed video saves something exactly when its page showed every
      detail and the description insert went through. */
  lemma VideoSavesIffShownAndInserted(env: Env, video: Record)
    requires IsVideoEntry(video)
    ensures var page := env.videoPage(video.url.value);
      VideoStep(env, video).events != [] <==>
        FullyShown(page) && env.db(InsertDescQuery(ShownDesc(video, page, env.now))) == Normal
  {
    var page := env.videoPage(video.url.value);
    if FullyShown(page) {
      ShownVideoSaved(env, video);
    } else {
      VideoStepSaves(env, video);
    }
  }

  /** A description alone, or followed by the stats of the same video, is a
      well-formed save. */
  lemma VideoRowsWellFormed(ev: seq<Event>, desc: MovieDescRawData, stat: MovieStatRawData)
    requires ev == [SaveDesc(desc)] || ev == [SaveDesc(desc), SaveStat(stat)]
    requires desc.postedAt.None? && desc.id == VideoIdFromUrl(desc.url)
    requires stat.playCount.None? && stat.likeCount.None? && stat.playCountText.Some? && stat.likeCountText.Some?
    requires stat.movieId == desc.id
    ensures SavesOnly(ev) && WellFormedSaves(ev) && NoLeadingStat(ev)
  {
    assert forall i :: 0 <= i < |ev| ==> SaveWellFormedAt(ev, i);
  }

  /** What one video saves is well formed. */
  lemma VideoStepWellFormed(env: Env, video: Record)
    requires IsVideoEntry(video)
    ensures var ev := VideoStep(env, video).events;
      SavesOnly(ev) && WellFormedSaves(ev) && NoLeadingStat(ev)
  {
    VideoStepSaves(env, video);
    var ev := VideoStep(env, video).events;
    if ev != [] {
      var page := env.videoPage(video.url.value);
      VideoRowsWellFormed(ev, ShownDesc(video, page, env.now), ShownStat(video, page, env.now));
    }
  }

  /** The inner loop saves only video rows, well formed. */
  lemma VideosRunSaves(env: Env, videos: seq<Record>)
    requires forall k :: 0 <= k < |videos| ==> IsVideoEntry(videos[k])
    ensures AllHaveUrl(videos)
    ensures var ev := VideosRun(env, videos).events;
      SavesOnly(ev) && WellFormedSaves(ev) && NoLeadingStat(ev)
  {
    assert AllHaveUrl(videos) by {
      forall k | 0 <= k < |videos|
        ensures videos[k].url.Some?
      {
        assert IsVideoEntry(videos[k]);
      }
    }
    var steps := VideoSteps(env, videos);
    forall k | 0 <= k < |steps|
      ensures SavesOnly(steps[k].events) && WellFormedSaves(steps[k].events) && NoLeadingStat(steps[k].events)
    {
      VideoStepWellFormed(env, videos[k]);
    }
    SequenceWellFormed(steps);
    SequenceEventsFromSteps(steps);
  }

  /** A target saves video rows and then, only after all of them and only
      when its page showed its posts and no video was interrupted, stamps
      itself. */
  lemma TargetStepShape(env: Env, target: FavoriteAccount)
    ensures var ev := TargetStep(env, target).events;
      && WellFormedSaves(ev) && NoLeadingStat(ev)
      && (forall i :: 0 <= i < |ev| ==> IsSave(ev[i]) || (i == |ev| - 1 && ev[i] == UpdateFavorite(target.id)))
    ensures var page := env.userPage(UserUrl(target.favoriteAccountUsername));
      TargetStep(env, target).events != [] ==> NavigateToUser(page.load) == Done(true)
    ensures TargetStep(env, target).interrupted ==> SavesOnly(TargetStep(env, target).events)
    ensures var ev := TargetStep(env, target).events;
      var page := env.userPage(UserUrl(target.favoriteAccountUsername));
      var listed := UserVideos(page.listing, MaxVideos);
      (ev != [] && ev[|ev| - 1].UpdateFavorite?) <==>
        && NavigateToUser(page.load) == Done(true)
        && listed.Done? && !VideosRun(env, listed.value).interrupted
        && env.db(UpdateFavoriteQuery(target.id)) == Normal
  {
    var page := env.userPage(UserUrl(target.favoriteAccountUsername));
    var listed := UserVideos(page.listing, MaxVideos);
    if NavigateToUser(page.load) == Done(true) && listed.Done? {
      VideosRunSaves(env, listed.value);
      var run := VideosRun(env, listed.value);
      assert forall i :: 0 <= i < |run.events| ==> IsSave(run.events[i]);
      if !run.interrupted && env.db(UpdateFavoriteQuery(target.id)) == Normal {
        var ev := run.events + [UpdateFavorite(target.id)];
        WellFormedConcat(run.events, [UpdateFavorite(target.id)]);
        assert forall i :: 0 <= i < |ev| ==> ev[i] == if i < |run.events| then run.events[i] else UpdateFavorite(target.id);
      }
    }
  }

  /** What one target does, as a membership fact. */
  lemma TargetStepEvents(env: Env, target: FavoriteAccount)
    ensures var ev := TargetStep(env, target).events;
      && WellFormedSaves(ev) && NoLeadingStat(ev)
      && (forall e :: e in ev ==> IsSave(e) || e == UpdateFavorite(target.id))
  {
    TargetStepShape(env, target);
  }

  /** The outer loop saves well-formed video rows. */
  lemma TargetsRunWellFormed(env: Env, targets: seq<FavoriteAccount>)
    ensures var ev := TargetsRun(env, targets).events;
      WellFormedSaves(ev) && NoLeadingStat(ev)
  {
    var steps := TargetSteps(env, targets);
    forall k | 0 <= k < |steps|
      ensures WellFormedSaves(steps[k].events) && NoLeadingStat(steps[k].events)
    {
      TargetStepEvents(env, targets[k]);
    }
    SequenceWellFormed(steps);
  }

  /** The outer loop saves and stamps only targets it was given. */
  lemma TargetsRunStamps(env: Env, targets: seq<FavoriteAccount>)
    ensures var ev := TargetsRun(env, targets).events;
      forall e :: e in ev ==> IsSave(e) || (e.UpdateFavorite? && exists t :: t in targets && t.id == e.id)
  {
    var steps := TargetSteps(env, targets);
    SequenceEventsFromSteps(steps);
    forall e | e in Sequence(steps).events
      ensures IsSave(e) || (e.UpdateFavorite? && exists t :: t in targets && t.id == e.id)
    {
      var k :| 0 <= k < |steps| && e in steps[k].events;
      TargetStepEvents(env, targets[k]);
      assert targets[k] in targets;
    }
  }

  /** Visiting targets only saves video rows and stamps targets. */
  lemma TargetsRunVisits(env: Env, targets: seq<FavoriteAccount>)
    ensures VisitEvents(TargetsRun(env, targets).events)
  {
    TargetsRunStamps(env, targets);
  }

  /** The outer loop saves well-formed video rows and stamps only targets it
      was given. */
  lemma TargetsRunShape(env: Env, targets: seq<FavoriteAccount>)
    ensures var ev := TargetsRun(env, targets).events;
      && WellFormedSaves(ev) && NoLeadingStat(ev) && VisitEvents(ev)
      && (forall e :: e in ev && e.UpdateFavorite? ==> exists t :: t in targets && t.id == e.id)
  {
    TargetsRunWellFormed(env, targets);
    TargetsRunStamps(env, targets);
  }

  // ---------------------------------------------------------------------------
  // A whole run
  // ---------------------------------------------------------------------------

  /** Whether a crawler object was constructed. */
  predicate Chosen(env: Env) {
    env.db(SelectCrawlerQuery) == Normal && AvailableCrawlerAccount(env.crawlerAccounts).Some?
  }

  /** A session ends with `stop`; `stop` happens earlier only when `start`
      failed and ran it itself. */
  lemma SessionStops(env: Env, account: CrawlerAccount, run: Step)
    requires VisitEvents(run.events)
    ensures var trace := SessionFrom(env, account, run).trace;
      && trace != [] && trace[|trace| - 1] == Stop
      && (forall i :: 0 <= i < |trace| - 1 && trace[i] == Stop ==>
            trace == [Stop, Stop] && StartSignal(env.setup, env.login) == Failure)
  {
    var trace := SessionFrom(env, account, run).trace;
    forall i | 0 <= i < |run.events|
      ensures run.events[i] != Stop
    {
      assert run.events[i] in run.events;
    }
  }

  /** A session calls `stop` once, in the `finally` clause, or twice when
      `start` failed and ran it itself. */
  lemma SessionStopCount(env: Env, account: CrawlerAccount, run: Step)
    requires VisitEvents(run.events)
    ensures StopCount(SessionFrom(env, account, run).trace) ==
      if StartSignal(env.setup, env.login) == Failure then 2 else 1
  {
    forall i | 0 <= i < |run.events|
      ensures run.events[i] != Stop
    {
      assert run.events[i] in run.events;
    }
    assert [Stop][1..] == [] && [Stop, Stop][1..] == [Stop] && [UpdateCrawler(account.id), Stop][1..] == [Stop];
    StopCountAppend(run.events, [Stop]);
    StopCountAppend(run.events, [UpdateCrawler(account.id), Stop]);
  }

  /** A session stamps the crawler account at most once, as the last statement
      before `stop`, and exactly when it finishes: every target was handled
      and the stamp took effect. */
  lemma SessionStampsCrawlerOnce(env: Env, account: CrawlerAccount, run: Step)
    requires VisitEvents(run.events)
    ensures var r := SessionFrom(env, account, run);
      forall i :: 0 <= i < |r.trace| && r.trace[i].UpdateCrawler? ==>
        i == |r.trace| - 2 && r.exit == Finished && r.trace[i].id == account.id
    ensures var r := SessionFrom(env, account, run);
      r.exit == Finished <==>
        && StartSignal(env.setup, env.login) == Normal && env.db(SelectTargetsQuery) == Normal
        && !run.interrupted && env.db(UpdateCrawlerQuery(account.id)) == Normal
    ensures var r := SessionFrom(env, account, run);
      r.exit == Finished ==> |r.trace| >= 2 && r.trace[..|r.trace| - 2] == run.events
  {
    var trace := SessionFrom(env, account, run).trace;
    forall i | 0 <= i < |run.events|
      ensures !run.events[i].UpdateCrawler?
    {
      assert run.events[i] in run.events;
    }
  }

  /** A session saves what the visits saved, well formed, and stamps only the
      targets the visits stamped. */
  lemma SessionSavesWellFormed(env: Env, account: CrawlerAccount, run: Step)
    requires VisitEvents(run.events) && WellFormedSaves(run.events)
    ensures var trace := SessionFrom(env, account, run).trace;
      && WellFormedSaves(trace)
      && (forall i :: 0 <= i < |trace| && (IsSave(trace[i]) || trace[i].UpdateFavorite?) ==>
            i < |run.events| && trace[i] == run.events[i])
  {
    var trace := SessionFrom(env, account, run).trace;
    if |trace| > 2 || (|trace| == 2 && trace != [Stop, Stop]) {
      var tail := trace[|run.events|..];
      assert trace == run.events + tail;
      assert forall i :: 0 <= i < |tail| ==> !IsSave(tail[i]) && !tail[i].UpdateFavorite?;
      assert forall i :: 0 <= i < |tail| ==> SaveWellFormedAt(tail, i);
      WellFormedConcat(run.events, tail);
    } else {
      assert forall i :: 0 <= i < |trace| ==> SaveWellFormedAt(trace, i);
    }
  }

  /** Every run that constructed a crawler ends with `stop`, and no other run
      touches anything; `stop` happens earlier only when `start` failed and
      ran it itself. */
  lemma StopEndsEverySession(env: Env)
    ensures var trace := CrawlSpec(env).trace;
      && (trace != [] <==> Chosen(env))
      && (Chosen(env) ==> trace[|trace| - 1] == Stop)
      && (forall i :: 0 <= i < |trace| - 1 && trace[i] == Stop ==>
            trace == [Stop, Stop] && StartSignal(env.setup, env.login) == Failure)
  {
    if Chosen(env) {
      var account := AvailableCrawlerAccount(env.crawlerAccounts).value;
      var run := TargetsRun(env, TargetAccounts(env.favoriteAccounts, TargetLimit));
      TargetsRunVisits(env, TargetAccounts(env.favoriteAccounts, TargetLimit));
      SessionStops(env, account, run);
      assert CrawlSpec(env) == SessionFrom(env, account, run);
    }
  }

  /** How often `main` calls `stop`: never when no crawler was constructed,
      twice when `start` failed, once otherwise. With `Orchestrator.Crawl`,
      whose `stops` is the number of `Stop` events, this counts real calls. */
  lemma StopCallsOfMain(env: Env)
    ensures StopCount(CrawlSpec(env).trace) ==
      if !Chosen(env) then 0 else if StartSignal(env.setup, env.login) == Failure then 2 else 1
  {
    if Chosen(env) {
      var account := AvailableCrawlerAccount(env.crawlerAccounts).value;
      var run := TargetsRun(env, TargetAccounts(env.favoriteAccounts, TargetLimit));
      TargetsRunVisits(env, TargetAccounts(env.favoriteAccounts, TargetLimit));
      SessionStopCount(env, account, run);
      assert CrawlSpec(env) == SessionFrom(env, account, run);
    }
  }

  /** The crawler account is stamped at most once, as the last statement
      before `stop`, with the chosen account's id, and exactly when the run
      finishes: every target was handled and the stamp took effect. */
  lemma CrawlerStampedOnceAtEnd(env: Env)
    ensures var r := CrawlSpec(env);
      forall i :: 0 <= i < |r.trace| && r.trace[i].UpdateCrawler? ==>
        && i == |r.trace| - 2 && r.exit == Finished
        && AvailableCrawlerAccount(env.crawlerAccounts).Some?
        && r.trace[i].id == AvailableCrawlerAccount(env.crawlerAccounts).value.id
    ensures var r := CrawlSpec(env);
      var run := TargetsRun(env, TargetAccounts(env.favoriteAccounts, TargetLimit));
      r.exit == Finished <==>
        && Chosen(env) && StartSignal(env.setup, env.login) == Normal
        && env.db(SelectTargetsQuery) == Normal && !run.interrupted
        && env.db(UpdateCrawlerQuery(AvailableCrawlerAccount(env.crawlerAccounts).value.id)) == Normal
    ensures var r := CrawlSpec(env);
      var run := TargetsRun(env, TargetAccounts(env.favoriteAccounts, TargetLimit));
      r.exit == Finished ==> |r.trace| >= 2 && r.trace[..|r.trace| - 2] == run.events
  {
    if Chosen(env) {
      var account := AvailableCrawlerAccount(env.crawlerAccounts).value;
      var run := TargetsRun(env, TargetAccounts(env.favoriteAccounts, TargetLimit));
      TargetsRunVisits(env, TargetAccounts(env.favoriteAccounts, TargetLimit));
      SessionStampsCrawlerOnce(env, account, run);
      assert CrawlSpec(env) == SessionFrom(env, account, run);
    }
  }

  /** Every video row a run saves is well formed: keyed by its URL's final
      segment, with null parsed columns, and stats right after their
      description; and only selected targets are stamped. */
  lemma SavedRecordsWellFormed(env: Env)
    ensures WellFormedSaves(CrawlSpec(env).trace)
    ensures forall i :: 0 <= i < |CrawlSpec(env).trace| && CrawlSpec(env).trace[i].UpdateFavorite? ==>
      exists t :: t in TargetAccounts(env.favoriteAccounts, TargetLimit) && t.id == CrawlSpec(env).trace[i].id
  {
    if Chosen(env) {
      var account := AvailableCrawlerAccount(env.crawlerAccounts).value;
      var run := TargetsRun(env, TargetAccounts(env.favoriteAccounts, TargetLimit));
      TargetsRunShape(env, TargetAccounts(env.favoriteAccounts, TargetLimit));
      SessionSavesWellFormed(env, account, run);
      assert CrawlSpec(env) == SessionFrom(env, account, run);
    }
  }

  /** Without an alive crawler account `main` raises before constructing a
      crawler: no target is visited, nothing is saved or stamped, and `stop`
      does not run. */
  lemma NoCrawlerAccountNoEffects(env: Env)
    requires env.db(SelectCrawlerQuery) == Normal
    requires forall i :: 0 <= i < |env.crawlerAccounts| ==> !env.crawlerAccounts[i].isAlive
    ensures CrawlSpec(env) == Report([], Abandoned)
  {
  }

  /** An interrupt inside the videos of a target ends that target at once:
      nothing of the later videos happens and the target is not stamped. */
  lemma VideoInterruptEndsTarget(env: Env, videos: seq<Record>, k: nat)
    requires AllHaveUrl(videos) && k < |videos|
    requires !VideosRun(env, videos[..k]).interrupted && VideoStep(env, videos[k]).interrupted
    ensures VideosRun(env, videos) ==
      Step(VideosRun(env, videos[..k]).events + VideoStep(env, videos[k]).events, true)
  {
    assert VideoSteps(env, videos[..k]) == VideoSteps(env, videos)[..k];
    SequenceInterrupted(VideoSteps(env, videos), k);
  }

  /** The same interrupt seen from the target: its step ends interrupted with
      the saves made so far, so `UpdateFavorite` for it never happens. */
  lemma VideoInterruptLeavesTargetUnstamped(env: Env, target: FavoriteAccount, k: nat)
    requires var page := env.userPage(UserUrl(target.favoriteAccountUsername));
      NavigateToUser(page.load) == Done(true) && UserVideos(page.listing, MaxVideos).Done?
    requires var videos := UserVideos(env.userPage(UserUrl(target.favoriteAccountUsername)).listing, MaxVideos).value;
      k < |videos| && !VideosRun(env, videos[..k]).interrupted && VideoStep(env, videos[k]).interrupted
    ensures var videos := UserVideos(env.userPage(UserUrl(target.favoriteAccountUsername)).listing, MaxVideos).value;
      TargetStep(env, target) == Step(VideosRun(env, videos[..k]).events + VideoStep(env, videos[k]).events, true)
    ensures UpdateFavorite(target.id) !in TargetStep(env, target).events
  {
    var videos := UserVideos(env.userPage(UserUrl(target.favoriteAccountUsername)).listing, MaxVideos).value;
    VideoInterruptEndsTarget(env, videos, k);
    TargetStepShape(env, target);
    var ev := TargetStep(env, target).events;
    forall i | 0 <= i < |ev|
      ensures ev[i] != UpdateFavorite(target.id)
    {
      VideosRunSaves(env, videos);
      assert ev[i] in VideosRun(env, videos).events;
    }
  }

  /** An interrupt while visiting target `k` ends the outer loop there. */
  lemma TargetInterruptEndsRun(env: Env, targets: seq<FavoriteAccount>, k: nat)
    requires k < |targets| && !TargetsRun(env, targets[..k]).interrupted && TargetStep(env, targets[k]).interrupted
    ensures TargetsRun(env, targets) ==
      Step(TargetsRun(env, targets[..k]).events + TargetStep(env, targets[k]).events, true)
  {
    assert TargetSteps(env, targets[..k]) == TargetSteps(env, targets)[..k];
    SequenceInterrupted(TargetSteps(env, targets), k);
  }

  /** An interrupt while visiting target `k` ends the run at once: the later
      targets are not visited, the crawler account is not stamped, and only
      `stop` follows. */
  lemma InterruptPropagates(env: Env, k: nat)
    requires Chosen(env) && StartSignal(env.setup, env.login) == Normal && env.db(SelectTargetsQuery) == Normal
    requires var targets := TargetAccounts(env.favoriteAccounts, TargetLimit);
      && k < |targets| && !TargetsRun(env, targets[..k]).interrupted && TargetStep(env, targets[k]).interrupted
    ensures var targets := TargetAccounts(env.favoriteAccounts, TargetLimit);
      CrawlSpec(env) ==
        Report(TargetsRun(env, targets[..k]).events + TargetStep(env, targets[k]).events + [Stop], Cancelled)
  {
    TargetInterruptEndsRun(env, TargetAccounts(env.favoriteAccounts, TargetLimit), k);
  }

  // ---------------------------------------------------------------------------
  // The tables
  // ---------------------------------------------------------------------------

  /** Saving the same video twice leaves the second save's columns, except
      that the URL stays the one first stored. */
  lemma UpsertMovieDescTwice(rows: seq<MovieDescRawData>, first: MovieDescRawData, second: MovieDescRawData)
    requires first.id == second.id
    ensures UpsertMovieDesc(UpsertMovieDesc(rows, first), second) ==
      UpsertMovieDesc(rows, if first.id in MovieIds(rows) then second else second.(url := first.url))
  {
    var once := UpsertMovieDesc(rows, first);
    var twice := UpsertMovieDesc(once, second);
    var direct := UpsertMovieDesc(rows, if first.id in MovieIds(rows) then second else second.(url := first.url));
    assert |twice| == |direct|;
    forall i | 0 <= i < |twice|
      ensures twice[i] == direct[i]
    {
      if i < |rows| {
        assert once[i].id == rows[i].id;
        if rows[i].id == first.id {
          assert once[i].url == rows[i].url;
        }
      }
    }
  }

  /** A stamped target ranks after every alive target never crawled, so the
      next batch prefers those. */
  lemma StampedTargetYields(rows: seq<FavoriteAccount>, accountId: int, at: Timestamp, i: nat, j: nat)
    requires i < |rows| && j < |rows| && rows[i].id == accountId && rows[j].id != accountId
    requires rows[j].lastCrawledAt.None?
    ensures var stamped := StampFavoriteById(rows, accountId, at);
      TargetNoLater(stamped[j], stamped[i]) && !TargetNoLater(stamped[i], stamped[j])
  {
    var stamped := StampFavoriteById(rows, accountId, at);
    assert stamped[i].lastCrawledAt == Some(at);
    assert stamped[j] == rows[j];
  }
}
