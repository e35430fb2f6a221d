/**
  The player page (src/pages/Home.tsx): scheduling and ordering of the
  content list, the refresh cycle run on a push event or a retry, the
  retry countdown, and the timing of the slides.
 */
module HomePage {
  import opened DeviceData
  import opened Media
  import StableSort
  import opened MediaCache
  import opened ContentDownload

  // ----- Scheduling and ordering (filterAndSortContent) -----

  /** The item's play window contains `now`; both ends are inclusive and a missing end is open. */
  predicate InWindow(item: MultimediaContent, now: Timestamp)
    ensures item.playBeginningDate.None? && item.playEndDate.None? ==> InWindow(item, now)
    ensures item.playBeginningDate.Some? && now < item.playBeginningDate.value ==> !InWindow(item, now)
    ensures item.playEndDate.Some? && item.playEndDate.value < now ==> !InWindow(item, now)
  {
    && (item.playBeginningDate.None? || now >= item.playBeginningDate.value)
    && (item.playEndDate.None? || now <= item.playEndDate.value)
  }

  /** `content.filter(...)`: the items in their window, in list order. */
  function Scheduled(content: seq<MultimediaContent>, now: Timestamp): (r: seq<MultimediaContent>)
    ensures forall x :: x in r <==> x in content && InWindow(x, now)
    ensures |r| <= |content|
  {
    if content == [] then []
    else
      assert content == [content[0]] + content[1..];
      (if InWindow(content[0], now) then [content[0]] else []) + Scheduled(content[1..], now)
  }

  /**
    The comparator of the page's sort: the difference of the positions when
    both are present, and 0 (a tie) as soon as either is missing.
   */
  function PageCompare(a: MultimediaContent, b: MultimediaContent): (r: int)
    ensures a.positionInCarousel.None? || b.positionInCarousel.None? ==> r == 0
    ensures a.positionInCarousel.Some? && b.positionInCarousel.Some? ==>
      && (r < 0 <==> a.positionInCarousel.value < b.positionInCarousel.value)
      && (r == 0 <==> a.positionInCarousel.value == b.positionInCarousel.value)
  {
    if a.positionInCarousel.Some? && b.positionInCarousel.Some? then
      a.positionInCarousel.value - b.positionInCarousel.value
    else 0
  }

  /** The list `filterAndSortContent` stores as `filteredContent`. */
  function FilterAndSortContent(content: seq<MultimediaContent>, now: Timestamp): (r: seq<MultimediaContent>)
    ensures multiset(r) == multiset(Scheduled(content, now))
    ensures forall x :: x in r <==> x in content && InWindow(x, now)
  {
    var kept := Scheduled(content, now);
    var r := StableSort.Sort(kept, PageCompare);
    assert forall x :: x in r <==> x in multiset(kept);
    r
  }

  /**
    When every kept item has a position, the result is ordered by position
    and items with equal positions keep their list order.
   */
  lemma FilterAndSortOrdered(content: seq<MultimediaContent>, now: Timestamp)
    requires forall x :: x in content && InWindow(x, now) ==> x.positionInCarousel.Some?
    ensures StableSort.SortedBy(FilterAndSortContent(content, now), PositionOrZero)
    ensures StableSort.KeepsTies(FilterAndSortContent(content, now), Scheduled(content, now), PositionOrZero)
  {
    var kept := Scheduled(content, now);
    assert StableSort.ComparesByKey(PageCompare, PositionOrZero, kept);
    StableSort.SortByKey(kept, PageCompare, PositionOrZero);
  }

  /**
    With a missing position the comparator is not consistent in the sense of
    ECMA-262 `Array.prototype.sort`: ties are not transitive, so the order
    of the result is implementation-defined and only the permutation
    property of `FilterAndSortContent` holds.
   */
  lemma PageCompareInconsistent()
    ensures exists a, b, c :: PageCompare(a, b) == 0 && PageCompare(b, c) == 0 && PageCompare(a, c) != 0
  {
    var base := MultimediaContent(None, 0, 0, "", "", None, None, None, None, None, None, None);
    var a, b, c := base.(positionInCarousel := Some(1)), base, base.(positionInCarousel := Some(2));
    assert PageCompare(a, b) == 0 && PageCompare(b, c) == 0 && PageCompare(a, c) == -1;
  }

  // ----- Slide timing -----

  /**
    How long the current slide stays: a measured duration (5000 ms when none
    is recorded) for a url matching `/\.(mp4|mov|gif)$/i`; otherwise, when
    any of hour, minute, seconds is set, `((hour || 0) * 3600 + (minute || 0) * 60
    + (seconds || 5)) * 1000`; otherwise 3500 ms.
   */
  function SlideDuration(item: MultimediaContent, videoDurations: map<nat, int>): (ms: int)
    ensures MatchesVideoPattern(item.urlContent) && item.idContent !in videoDurations ==> ms == 5000
    ensures !MatchesVideoPattern(item.urlContent) && item.hour.None? && item.minute.None? && item.seconds.None? ==> ms == 3500
    ensures (&& !MatchesVideoPattern(item.urlContent)
             && NullishDefault(item.hour, 0) >= 0 && NullishDefault(item.minute, 0) >= 0
             && NullishDefault(item.seconds, 0) >= 0) ==> ms >= 1000
  {
    if MatchesVideoPattern(item.urlContent) then
      if item.idContent in videoDurations then videoDurations[item.idContent] else 5000
    else if item.hour.Some? || item.minute.Some? || item.seconds.Some? then
      (OrDefault(item.hour, 0) * 3600 + OrDefault(item.minute, 0) * 60 + OrDefault(item.seconds, 5)) * 1000
    else 3500
  }

  /** What the slide effect does for the current list and index. */
  datatype SlideStep = NoTimer | ResetIndex | Timer(durationMs: int, nextIndex: nat)

  function NextSlide(filtered: seq<MultimediaContent>, currentIndex: nat, videoDurations: map<nat, int>): (step: SlideStep)
    ensures step.NoTimer? <==> |filtered| == 0
    ensures step.ResetIndex? <==> 0 < |filtered| <= currentIndex
    ensures step.Timer? ==> step.nextIndex < |filtered|
    ensures step.Timer? ==> step.nextIndex == (currentIndex + 1) % |filtered|
    ensures step.Timer? ==> step.durationMs == SlideDuration(filtered[currentIndex], videoDurations)
  {
    if |filtered| == 0 then NoTimer
    else if currentIndex >= |filtered| then ResetIndex
    else Timer(SlideDuration(filtered[currentIndex], videoDurations), (currentIndex + 1) % |filtered|)
  }

  /** An explicit 0 seconds is falsy for `||`: such a slide lasts the 5-second default. */
  lemma ZeroSecondsLastFiveSeconds(item: MultimediaContent, videoDurations: map<nat, int>)
    requires !MatchesVideoPattern(item.urlContent)
    requires item.hour.None? && item.minute.None? && item.seconds == Some(0)
    ensures SlideDuration(item, videoDurations) == 5000
  {
  }

  lemma ModOf(a: int, n: int, q: int, r: int)
    requires 0 < n && 0 <= r < n && a == q * n + r
    ensures a % n == r
  {
    var q', r' := a / n, a % n;
    assert a == q' * n + r';
    if q' > q {
      MulLe(n, q + 1, q');
      assert false;
    }
    if q' < q {
      MulLe(n, q' + 1, q);
      assert false;
    }
  }

  lemma ModSucc(a: nat, n: nat)
    requires 0 < n
    ensures (a % n + 1) % n == (a + 1) % n
  {
    var q, r := a / n, a % n;
    assert a == q * n + r;
    if r + 1 < n {
      ModOf(a + 1, n, q, r + 1);
      ModOf(r + 1, n, 0, r + 1);
    } else {
      ModOf(a + 1, n, q + 1, 0);
      ModOf(r + 1, n, 1, 0);
    }
  }

  /** Successive timers visit every slide in turn and come back to the first. */
  lemma {:induction false} SlidesCycle(filtered: seq<MultimediaContent>, videoDurations: map<nat, int>, k: nat)
    requires 0 < |filtered|
    ensures Advance(filtered, videoDurations, 0, k) == k % |filtered|
  {
    if k == 0 {
      ModOf(0, |filtered|, 0, 0);
    } else {
      SlidesCycle(filtered, videoDurations, k - 1);
      ModSucc(k - 1, |filtered|);
    }
  }

  /** The index after `k` timers fire, starting from `start`. */
  function Advance(filtered: seq<MultimediaContent>, videoDurations: map<nat, int>, start: nat, k: nat): (i: nat)
    requires 0 < |filtered| && start < |filtered|
    ensures i < |filtered|
  {
    if k == 0 then start
    else NextSlide(filtered, Advance(filtered, videoDurations, start, k - 1), videoDurations).nextIndex
  }

  // ----- Retry countdown -----

  /** The countdown shown with the retry modal, and whether its interval is still running. */
  datatype Countdown = Countdown(value: int, ticking: bool)

  /** `useState(10)`, and the value every cleanup of the effect restores. */
  const RetrySeconds := 10

  /** The effect's cleanup: the interval is cleared and the countdown goes back to 10. */
  function Cleanup(c: Countdown): (r: Countdown)
    ensures r.value == RetrySeconds && !r.ticking
  {
    Countdown(RetrySeconds, false)
  }

  /** Showing the retry modal starts the interval. */
  function StartRetry(c: Countdown): (r: Countdown)
    ensures r.ticking && r.value == c.value
  {
    c.(ticking := true)
  }

  /**
    One interval tick: the updater sees the value; at 1 or below it clears the
    interval, calls `handleReload` (the second component) and sets 0.
   */
  function Tick(c: Countdown): (r: (Countdown, bool))
    ensures !c.ticking ==> r == (c, false)
    ensures r.1 ==> c.ticking && c.value <= 1 && r.0 == Countdown(0, false)
    ensures c.ticking && !r.1 ==> r.0 == Countdown(c.value - 1, true) && r.0.value >= 1
  {
    if !c.ticking then (c, false)
    else if c.value <= 1 then (Countdown(0, false), true)
    else (Countdown(c.value - 1, true), false)
  }

  /**
    The countdown after `n` ticks, and how many of them fired a reload:
    once the interval is cleared nothing changes, so at most one reload
    fires.
   */
  function RunTicks(c: Countdown, n: nat): (r: (Countdown, nat))
    ensures !c.ticking ==> r == (c, 0)
    ensures r.1 <= 1
    decreases n
  {
    if n == 0 then (c, 0)
    else
      var (c1, fired) := Tick(c);
      var (c2, count) := RunTicks(c1, n - 1);
      (c2, count + if fired then 1 else 0)
  }

  lemma {:induction false} TicksFrom(v: int, n: nat)
    requires 1 <= v
    ensures RunTicks(Countdown(v, true), n)
         == if n < v then (Countdown(v - n, true), 0) else (Countdown(0, false), 1)
  {
    if n > 0 {
      if v > 1 {
        TicksFrom(v - 1, n - 1);
      }
    }
  }

  /**
    Whatever countdown an earlier run of the effect left, its cleanup resets
    it to 10; showing the modal again then counts down for nine ticks and
    the tenth fires the one reload.
   */
  lemma ReloadOnTenthTick(c: Countdown, n: nat)
    ensures RunTicks(StartRetry(Cleanup(c)), n).1 == (if n < 10 then 0 else 1)
    ensures n < 10 ==> RunTicks(StartRetry(Cleanup(c)), n).0.value == 10 - n
  {
    assert StartRetry(Cleanup(c)) == Countdown(RetrySeconds, true);
    TicksFrom(RetrySeconds, n);
  }

  // ----- The refresh cycle (handleContentUpdate, handleReload) -----

  /** The page's state together with the cache it writes through. */
  datatype PageState = PageState(
    loading: bool,
    progress: int,
    showResetDeviceModal: bool,
    cachedContent: seq<MultimediaContent>,
    filteredContent: seq<MultimediaContent>,
    currentIndex: nat,
    shownProgress: seq<int>,
    entries: map<string, MultimediaContent>,
    cachedSummary: Option<Summary>,
    ops: seq<CacheOp>)

  /** `response && response.content`: the list to download, when the response has one. */
  function ResponseContent(o: LoginOutcome): Option<seq<MultimediaContent>>
  {
    if o.LoginReturned? && o.data.Some? then o.data.value.content else None
  }

  /** `setLoading(true)` and `setProgress(0)`. */
  function Started(s: PageState): PageState
  {
    s.(loading := true, progress := 0, shownProgress := s.shownProgress + [0])
  }

  /**
    The page and cache after clearing the cached content and running the
    download loop over `items`.
   */
  function AfterDownload(s: PageState, items: seq<MultimediaContent>, b: Backend, root: string, now: Timestamp): PageState
  {
    var stored := StoredValues(b, root, items);
    var reports := ProgressReports(|stored|, |items|);
    s.(
      progress := if reports == [] then s.progress else reports[|reports| - 1],
      shownProgress := s.shownProgress + reports,
      cachedContent := stored,
      filteredContent := FilterAndSortContent(stored, now),
      currentIndex := 0,
      entries := PutAll(map[], stored),
      ops := s.ops + [ClearContent] + PutOps(stored))
  }

  /** How far one refresh cycle gets, decided by the summary, the login and the clear. */
  datatype CycleEnd = NoSummary | LoginFailed | NoContent | ClearFailed | Downloading(items: seq<MultimediaContent>)

  function CycleEndOf(summary: Option<Summary>, b: Backend): (e: CycleEnd)
    ensures e.NoSummary? <==> summary.None?
    ensures e.Downloading? <==> summary.Some? && ResponseContent(b.login(summary.value.password)).Some? && !b.clear.CallThrew?
    ensures e.Downloading? ==> e.items == ResponseContent(b.login(summary.value.password)).value
  {
    if summary.None? then NoSummary
    else
      var outcome := b.login(summary.value.password);
      if outcome.LoginThrew? then LoginFailed
      else if ResponseContent(outcome).None? then NoContent
      else if b.clear.CallThrew? then ClearFailed
      else Downloading(ResponseContent(outcome).value)
  }

  /**
    One run of `handleContentUpdate`, given the device summary its closure
    sees: nothing without a summary; otherwise loading and a progress reset,
    a login, and, for a response with content, a content-only cache clear
    followed by the download loop; a throw from the login or the clear shows
    the retry modal; `loading` ends false.
   */
  function Refreshed(s: PageState, summary: Option<Summary>, b: Backend, root: string, now: Timestamp): (r: PageState)
    ensures r.cachedSummary == s.cachedSummary
    ensures summary.Some? ==> !r.loading
  {
    match CycleEndOf(summary, b)
    case NoSummary => s
    case LoginFailed => Started(s).(showResetDeviceModal := true, loading := false)
    case NoContent => Started(s).(loading := false)
    case ClearFailed => Started(s).(showResetDeviceModal := true, loading := false)
    case Downloading(items) => AfterDownload(Started(s), items, b, root, now).(loading := false)
  }

  /** Without a device summary the handler returns before touching anything. */
  lemma RefreshWithoutSummary(s: PageState, b: Backend, root: string, now: Timestamp)
    ensures Refreshed(s, None, b, root, now) == s
  {
  }

  /**
    `handleReload` is memoised on `[navigate]` alone, so as long as
    `navigate` keeps its identity it sees the device summary of the first
    render, which is null: the reload the tenth tick fires, like the retry
    button, only hides the modal and never downloads again.
   */
  lemma CapturedReloadOnlyHidesModal(s: PageState, c: Countdown, b: Backend, root: string, now: Timestamp)
    ensures RunTicks(StartRetry(Cleanup(c)), 10).1 == 1
    ensures Refreshed(s.(showResetDeviceModal := false), None, b, root, now) == s.(showResetDeviceModal := false)
  {
    ReloadOnTenthTick(c, 10);
  }

  /**
    The cache is written only after a login response with content and a
    clear that did not throw; then the clear comes first and one save per
    kept item follows; a throwing login or clear shows the retry modal and
    leaves the cache alone; `loading` ends false.
   */
  lemma RefreshCacheDiscipline(s: PageState, summary: Summary, b: Backend, root: string, now: Timestamp)
    ensures var r := Refreshed(s, Some(summary), b, root, now);
      var outcome := b.login(summary.password);
      && !r.loading
      && (outcome.LoginThrew? ==> r.showResetDeviceModal && r.entries == s.entries && r.ops == s.ops)
      && (ResponseContent(outcome).None? ==> r.entries == s.entries && r.ops == s.ops)
      && (r.ops != s.ops ==>
            && ResponseContent(outcome).Some? && !b.clear.CallThrew?
            && r.ops[|s.ops|] == ClearContent
            && r.cachedSummary == s.cachedSummary
            && r.ops[|s.ops| + 1..] == PutOps(r.cachedContent))
  {
    var r := Refreshed(s, Some(summary), b, root, now);
    var outcome := b.login(summary.password);
    if r.ops != s.ops {
      assert r.ops == s.ops + [ClearContent] + PutOps(r.cachedContent);
      assert r.ops[|s.ops| + 1..] == PutOps(r.cachedContent);
    }
  }

  /**
    After a successful cycle the page shows exactly the items whose
    download did not throw, each one saved in the cache under its
    `content` key unless a later item used the same key.
   */
  lemma RefreshKeepsDownloadedItems(s: PageState, summary: Summary, b: Backend, root: string, now: Timestamp, v: MultimediaContent)
    requires ResponseContent(b.login(summary.password)).Some? && !b.clear.CallThrew?
    ensures var r := Refreshed(s, Some(summary), b, root, now);
      var items := ResponseContent(b.login(summary.password)).value;
      && (v in r.cachedContent <==> exists i :: 0 <= i < |items| && Downloaded(b, root, items[i]) == Some(v))
      && (v in r.filteredContent <==> v in r.cachedContent && InWindow(v, now))
      && (v in r.cachedContent ==> v.content in r.entries)
      && r.currentIndex == 0
  {
    var items := ResponseContent(b.login(summary.password)).value;
    StoredValuesExactly(b, root, items, v);
  }

  /** The progress values a cycle reports after its reset to 0. */
  function CycleReports(summary: Summary, b: Backend, root: string): (r: seq<int>)
    ensures CycleEndOf(Some(summary), b).Downloading? ==>
      var items := CycleEndOf(Some(summary), b).items;
      r == ProgressReports(|StoredValues(b, root, items)|, |items|)
    ensures !CycleEndOf(Some(summary), b).Downloading? ==> r == []
  {
    match CycleEndOf(Some(summary), b)
    case Downloading(items) => ProgressReports(|StoredValues(b, root, items)|, |items|)
    case _ => []
  }

  lemma RefreshShown(s: PageState, summary: Summary, b: Backend, root: string, now: Timestamp)
    ensures var r := Refreshed(s, Some(summary), b, root, now);
      var shown := [0] + CycleReports(summary, b, root);
      && r.shownProgress == s.shownProgress + [0] + CycleReports(summary, b, root)
      && r.progress == shown[|shown| - 1]
  {
    var r := Refreshed(s, Some(summary), b, root, now);
    var e := CycleEndOf(Some(summary), b);
    if e.Downloading? {
      var reports := ProgressReports(|StoredValues(b, root, e.items)|, |e.items|);
      assert CycleReports(summary, b, root) == reports;
    } else {
      assert CycleReports(summary, b, root) == [];
    }
  }

  /**
    The progress values a cycle shows start with the reset to 0, never
    decrease and stay within 0..100.
   */
  lemma CycleReportsWellBehaved(summary: Summary, b: Backend, root: string)
    ensures var shown := [0] + CycleReports(summary, b, root);
      && (forall i, j :: 0 <= i < j < |shown| ==> shown[i] <= shown[j])
      && (forall i :: 0 <= i < |shown| ==> 0 <= shown[i] <= 100)
  {
    var e := CycleEndOf(Some(summary), b);
    if e.Downloading? {
      var n := |StoredValues(b, root, e.items)|;
      assert CycleReports(summary, b, root) == ProgressReports(n, |e.items|);
      ProgressWellBehaved(n, |e.items|);
    } else {
      assert CycleReports(summary, b, root) == [];
    }
  }

  /**
    On the page: the values a cycle appends to the progress bar start with
    the reset to 0, never decrease, stay within 0..100, and the last one is
    what the bar keeps.
   */
  lemma RefreshProgress(s: PageState, summary: Summary, b: Backend, root: string, now: Timestamp)
    ensures var r := Refreshed(s, Some(summary), b, root, now);
      && |s.shownProgress| < |r.shownProgress|
      && (var shown := r.shownProgress[|s.shownProgress|..];
          && shown[0] == 0
          && (forall i, j :: 0 <= i < j < |shown| ==> shown[i] <= shown[j])
          && (forall i :: 0 <= i < |shown| ==> 0 <= shown[i] <= 100)
          && r.progress == shown[|shown| - 1])
  {
    var r := Refreshed(s, Some(summary), b, root, now);
    RefreshShown(s, summary, b, root, now);
    CycleReportsWellBehaved(summary, b, root);
    AppendedProgress(s.shownProgress, CycleReports(summary, b, root), r.shownProgress, r.progress);
  }

  /** When the response lists at least one item and none of them throws, the bar ends at 100. */
  lemma RefreshReachesHundred(s: PageState, summary: Summary, b: Backend, root: string, now: Timestamp)
    requires ResponseContent(b.login(summary.password)).Some? && !b.clear.CallThrew?
    requires ResponseContent(b.login(summary.password)).value != []
    requires forall x :: x in ResponseContent(b.login(summary.password)).value ==> Downloaded(b, root, x).Some?
    ensures Refreshed(s, Some(summary), b, root, now).progress == 100
  {
    var items := ResponseContent(b.login(summary.password)).value;
    AllDownloaded(b, root, items);
    var stored := StoredValues(b, root, items);
    ProgressWellBehaved(|stored|, |items|);
  }

  class Home {
    var loading: bool
    var progress: int
    var showResetDeviceModal: bool
    var cachedContent: seq<MultimediaContent>
    var filteredContent: seq<MultimediaContent>
    var currentIndex: nat
    /** Every value the progress bar was given, in order. */
    ghost var shownProgress: seq<int>
    const cache: Cache

    ghost function State(): PageState
      reads this, cache
    {
      PageState(loading, progress, showResetDeviceModal, cachedContent, filteredContent,
                currentIndex, shownProgress, cache.entries, cache.summary, cache.ops)
    }

    constructor (cache: Cache)
      ensures this.cache == cache
      ensures !loading && progress == 0 && !showResetDeviceModal && currentIndex == 0
      ensures cachedContent == [] && filteredContent == [] && shownProgress == []
    {
      this.cache := cache;
      loading, progress, showResetDeviceModal := false, 0, false;
      cachedContent, filteredContent, currentIndex := [], [], 0;
      shownProgress := [];
    }

    /**
      The part of the try block after a login response with content: clear
      the cached content, run the download loop, then store the kept records
      and their scheduled, sorted list and go back to the first slide.
     */
    method ReplaceContent(items: seq<MultimediaContent>, b: Backend, root: string, now: Timestamp)
      modifies this, cache
      ensures State() == AfterDownload(old(State()), items, b, root, now)
    {
      cache.ClearCachedContent();
      var stored, reports := FetchAndSave(cache, b, root, items);
      shownProgress := shownProgress + reports;
      if reports != [] {
        progress := reports[|reports| - 1];
      }
      cachedContent := stored;
      filteredContent := FilterAndSortContent(stored, now);
      currentIndex := 0;
    }

    /** `handleContentUpdate`, with the summary its closure sees. */
    method HandleContentUpdate(summary: Option<Summary>, b: Backend, root: string, now: Timestamp)
      modifies this, cache
      ensures State() == Refreshed(old(State()), summary, b, root, now)
    {
      if summary.None? {
        return;
      }
      ghost var s0 := State();
      loading, progress := true, 0;
      shownProgress := shownProgress + [0];
      var outcome := b.login(summary.value.password);
      if outcome.LoginThrew? {
        showResetDeviceModal := true;
        assert CycleEndOf(summary, b) == LoginFailed;
      } else if outcome.data.Some? && outcome.data.value.content.Some? {
        if b.clear.CallThrew? {
          showResetDeviceModal := true;
          assert CycleEndOf(summary, b) == ClearFailed;
        } else {
          var items := outcome.data.value.content.value;
          assert CycleEndOf(summary, b) == Downloading(items);
          assert State() == Started(s0);
          ReplaceContent(items, b, root, now);
          assert Refreshed(s0, summary, b, root, now) == State().(loading := false);
        }
      } else {
        assert CycleEndOf(summary, b) == NoContent;
      }
      loading := false;
    }

    /**
      `handleReload`: hides the retry modal, then runs the same cycle with
      the summary the memoised callback sees (the first render's null while
      `navigate` keeps its identity, see `CapturedReloadOnlyHidesModal`).
     */
    method HandleReload(summary: Option<Summary>, b: Backend, root: string, now: Timestamp)
      modifies this, cache
      ensures State() == Refreshed(old(State()).(showResetDeviceModal := false), summary, b, root, now)
    {
      showResetDeviceModal := false;
      HandleContentUpdate(summary, b, root, now);
    }
  }
}
