/**
  The carousel component driven by the auth store (src/components/Home.tsx):
  it sorts a copy of its content by position, times each slide from its
  hour/minute/seconds fields, chooses the blurred background, renders each
  slide as a video or an image, and maps the backend's socket events to a
  re-login.
 */
module HomeComponent {
  import opened DeviceData
  import opened Media
  import StableSort
  import HomePage

  // ----- Ordering (sortedContent) -----

  /** `(a.position_in_carousel ?? 0) - (b.position_in_carousel ?? 0)`. */
  function ComponentCompare(a: MultimediaContent, b: MultimediaContent): (r: int)
    ensures r < 0 <==> PositionOrZero(a) < PositionOrZero(b)
    ensures a.positionInCarousel.None? && b.positionInCarousel.None? ==> r == 0
  {
    PositionOrZero(a) - PositionOrZero(b)
  }

  /** `[...content].sort(...)`: a sorted copy; the input sequence is a value and stays as it was. */
  function SortedContent(content: seq<MultimediaContent>): (r: seq<MultimediaContent>)
    ensures multiset(r) == multiset(content)
  {
    StableSort.Sort(content, ComponentCompare)
  }

  /**
    The copy is ordered by position, a missing position counting as 0, and
    items with equal keys (a missing position and an explicit 0 included)
    keep their order in `content`.
   */
  lemma SortedContentOrdered(content: seq<MultimediaContent>)
    ensures StableSort.SortedBy(SortedContent(content), PositionOrZero)
    ensures StableSort.KeepsTies(SortedContent(content), content, PositionOrZero)
  {
    assert StableSort.ComparesByKey(ComponentCompare, PositionOrZero, content);
    StableSort.SortByKey(content, ComponentCompare, PositionOrZero);
  }

  /** Sorting the sorted copy again changes nothing. */
  lemma SortedContentIdempotent(content: seq<MultimediaContent>)
    ensures SortedContent(SortedContent(content)) == SortedContent(content)
  {
    var r := SortedContent(content);
    SortedContentOrdered(content);
    assert StableSort.ComparesByKey(ComponentCompare, PositionOrZero, r);
    StableSort.SortIdempotent(r, ComponentCompare, PositionOrZero);
  }

  /** A missing position and an explicit 0 tie, so they keep their input order. */
  lemma MissingAndZeroKeepOrder(a: MultimediaContent, b: MultimediaContent)
    requires a.positionInCarousel.None? && b.positionInCarousel == Some(0)
    ensures SortedContent([a, b]) == [a, b]
    ensures SortedContent([b, a]) == [b, a]
  {
    SortedContentIdempotentOn([a, b]);
    SortedContentIdempotentOn([b, a]);
  }

  lemma SortedContentIdempotentOn(s: seq<MultimediaContent>)
    requires StableSort.SortedBy(s, PositionOrZero)
    ensures SortedContent(s) == s
  {
    assert StableSort.ComparesByKey(ComponentCompare, PositionOrZero, s);
    StableSort.SortIdempotent(s, ComponentCompare, PositionOrZero);
  }

  // ----- Slide timing -----

  /** `((hour ?? 0) * 3600 + (minute ?? 0) * 60 + (seconds ?? 5)) * 1000`. */
  function ComponentDuration(item: MultimediaContent): (ms: int)
    ensures item.hour.None? && item.minute.None? && item.seconds.None? ==> ms == 5000
  {
    (NullishDefault(item.hour, 0) * 3600 + NullishDefault(item.minute, 0) * 60 + NullishDefault(item.seconds, 5)) * 1000
  }

  /** With `??`, an explicit 0 seconds is kept: such a slide gets a zero-length timer. */
  lemma ZeroSecondsStayZero(item: MultimediaContent)
    requires item.hour.None? && item.minute.None? && item.seconds == Some(0)
    ensures ComponentDuration(item) == 0
  {
  }

  /**
    The page and the component disagree on the same slide: with 0 seconds
    and no video extension the page waits 5 s and the component 0 s; with no
    timing field at all the page waits 3.5 s and the component 5 s.
   */
  lemma DurationsDisagree(item: MultimediaContent, videoDurations: map<nat, int>)
    requires !MatchesVideoPattern(item.urlContent)
    ensures item.hour.None? && item.minute.None? && item.seconds == Some(0) ==>
      HomePage.SlideDuration(item, videoDurations) == 5000 && ComponentDuration(item) == 0
    ensures item.hour.None? && item.minute.None? && item.seconds.None? ==>
      HomePage.SlideDuration(item, videoDurations) == 3500 && ComponentDuration(item) == 5000
  {
  }

  /**
    They agree on a non-video slide whose timing fields are set and
    non-zero: then `||` and `??` pick the same values.
   */
  lemma DurationsAgreeWithoutZeros(item: MultimediaContent, videoDurations: map<nat, int>)
    requires !MatchesVideoPattern(item.urlContent)
    requires item.hour != Some(0) && item.minute != Some(0) && item.seconds != Some(0)
    requires item.hour.Some? || item.minute.Some? || item.seconds.Some?
    ensures HomePage.SlideDuration(item, videoDurations) == ComponentDuration(item)
  {
  }

  /** What the timer effect does: nothing for an empty list, a timeout, or a crash on a missing item. */
  datatype TimerStep = NoTimer | Timer(durationMs: int, nextIndex: nat) | IndexOutOfRange

  /**
    The effect reads `sortedContent[currentIndex].hour` without a guard:
    an index past the end makes that read throw.
   */
  function ComponentSlide(sorted: seq<MultimediaContent>, currentIndex: nat): (step: TimerStep)
    ensures step.NoTimer? <==> |sorted| == 0
    ensures step.IndexOutOfRange? <==> 0 < |sorted| <= currentIndex
    ensures step.Timer? ==> step.nextIndex < |sorted| && step.durationMs == ComponentDuration(sorted[currentIndex])
    ensures step.Timer? ==> step.nextIndex == (currentIndex + 1) % |sorted|
  {
    if |sorted| == 0 then NoTimer
    else if currentIndex >= |sorted| then IndexOutOfRange
    else Timer(ComponentDuration(sorted[currentIndex]), (currentIndex + 1) % |sorted|)
  }

  /** From index 0 the timers never reach an index the effect cannot read. */
  lemma {:induction false} ComponentIndexStaysInRange(sorted: seq<MultimediaContent>, k: nat)
    requires 0 < |sorted|
    ensures ComponentIndexAfter(sorted, k) < |sorted|
    ensures ComponentSlide(sorted, ComponentIndexAfter(sorted, k)).Timer?
  {
    if k > 0 {
      ComponentIndexStaysInRange(sorted, k - 1);
    }
  }

  /** From index 0, after `k` timers the component shows slide `k` mod the list length. */
  lemma {:induction false} ComponentSlidesCycle(sorted: seq<MultimediaContent>, k: nat)
    requires 0 < |sorted|
    ensures ComponentIndexAfter(sorted, k) == k % |sorted|
  {
    if k > 0 {
      var n := |sorted|;
      var i := ComponentIndexAfter(sorted, k - 1);
      ComponentSlidesCycle(sorted, k - 1);
      assert i == (k - 1) % n < n;
      var step := ComponentSlide(sorted, i);
      assert step.Timer? && step.nextIndex == (i + 1) % n;
      assert ComponentIndexAfter(sorted, k) == (i + 1) % n;
      HomePage.ModSucc(k - 1, n);
    }
  }

  /** The index after `k` timers fire, starting from 0; a step that schedules no timer stays put. */
  function ComponentIndexAfter(sorted: seq<MultimediaContent>, k: nat): nat
    requires 0 < |sorted|
  {
    if k == 0 then 0
    else
      var i := ComponentIndexAfter(sorted, k - 1);
      var step := ComponentSlide(sorted, i);
      if step.Timer? then step.nextIndex else i
  }

  // ----- Background and slides -----

  /** The `backgroundImage` style of the blurred background. */
  datatype Background =
    | OrganizationLogo(file: string)
    | Thumbnail(dataUrl: string)
    | NoBackground
    | MediaImage(url: string)
    | BackgroundIndexOutOfRange

  /**
    An empty list shows the organization's logo; a video shows the captured
    thumbnail, or nothing while there is none (an empty data URL is falsy);
    anything else shows the media file itself.
   */
  function BackgroundImage(sorted: seq<MultimediaContent>, currentIndex: nat, thumbnail: Option<string>,
                           organization: string, root: string): (bg: Background)
    ensures |sorted| == 0 ==> bg == OrganizationLogo(organization + ".svg")
    ensures 0 < |sorted| <= currentIndex <==> bg.BackgroundIndexOutOfRange?
    ensures currentIndex < |sorted| && IsVideo(sorted[currentIndex].urlContent) ==>
      bg == (if thumbnail.Some? && thumbnail.value != "" then Thumbnail(thumbnail.value) else NoBackground)
    ensures currentIndex < |sorted| && !IsVideo(sorted[currentIndex].urlContent) ==>
      bg == MediaImage(root + sorted[currentIndex].urlContent)
  {
    if |sorted| == 0 then OrganizationLogo(organization + ".svg")
    else if currentIndex >= |sorted| then BackgroundIndexOutOfRange
    else if IsVideo(sorted[currentIndex].urlContent) then
      if thumbnail.Some? && thumbnail.value != "" then Thumbnail(thumbnail.value) else NoBackground
    else MediaImage(root + sorted[currentIndex].urlContent)
  }

  /** One element of the carousel. */
  datatype Slide =
    | VideoSlide(src: string, rotation: int, active: bool)
    | ImageSlide(src: string, rotation: int, active: bool)

  /** The carousel's children for a non-empty list: one slide per item, the current one active. */
  function Slides(sorted: seq<MultimediaContent>, currentIndex: nat, root: string): (r: seq<Slide>)
    ensures |r| == |sorted|
    ensures forall i :: 0 <= i < |sorted| ==>
      && r[i].VideoSlide? == IsVideo(sorted[i].urlContent)
      && r[i].src == root + sorted[i].urlContent
      && r[i].rotation == NullishDefault(sorted[i].rotation, 0)
      && (r[i].active <==> i == currentIndex)
  {
    seq(|sorted|, i requires 0 <= i < |sorted| =>
      var media := sorted[i];
      var rotation := NullishDefault(media.rotation, 0);
      if IsVideo(media.urlContent) then VideoSlide(root + media.urlContent, rotation, i == currentIndex)
      else ImageSlide(root + media.urlContent, rotation, i == currentIndex))
  }

  /**
    The background shows the same file as the active slide when that slide
    is an image, and the logo only when there is no slide at all.
   */
  lemma BackgroundFollowsActiveSlide(sorted: seq<MultimediaContent>, currentIndex: nat, thumbnail: Option<string>,
                                     organization: string, root: string)
    ensures var bg := BackgroundImage(sorted, currentIndex, thumbnail, organization, root);
      var slides := Slides(sorted, currentIndex, root);
      && (currentIndex < |slides| && slides[currentIndex].ImageSlide? ==> bg == MediaImage(slides[currentIndex].src))
      && (bg.OrganizationLogo? <==> slides == [])
  {
  }

  /** At most one slide is active, and exactly one when the index is in range. */
  lemma OneActiveSlide(sorted: seq<MultimediaContent>, currentIndex: nat, root: string)
    ensures var r := Slides(sorted, currentIndex, root);
      && (forall i, j :: 0 <= i < j < |r| ==> !(r[i].active && r[j].active))
      && (currentIndex < |r| <==> exists i :: 0 <= i < |r| && r[i].active)
  {
    var r := Slides(sorted, currentIndex, root);
    if currentIndex < |r| {
      assert r[currentIndex].active;
    }
  }

  // ----- Socket events -----

  /** The events the component subscribes to, all with the same handler. */
  const ContentEvents: seq<string> := [
    "onNewGlobalContent",
    "onDeletedGlobalContent",
    "onDeviceDeleted",
    "onAllContentRemoved",
    "onNewContent",
    "onRemovedContent",
    "onUpdatedContent"]

  /** What an incoming event leads to. */
  datatype SocketAction = NoAction | CallOnLogin(password: string)

  /** The handler runs for a subscribed event and calls `onLogin(password)` when the password is truthy. */
  function OnSocketEvent(event: string, password: Option<string>): (a: SocketAction)
    ensures a.CallOnLogin? <==> event in ContentEvents && password.Some? && password.value != ""
    ensures a.CallOnLogin? ==> a.password == password.value
  {
    if event in ContentEvents && password.Some? && password.value != "" then CallOnLogin(password.value)
    else NoAction
  }

  /**
    A device deletion is handled like any content change: it re-runs the
    login, and without a password no event does anything.
   */
  lemma DeviceDeletedReLogs(password: Option<string>)
    ensures OnSocketEvent("onDeviceDeleted", password) == OnSocketEvent("onNewContent", password)
    ensures password.None? ==> forall e :: OnSocketEvent(e, password) == NoAction
  {
    assert ContentEvents[2] == "onDeviceDeleted" && ContentEvents[4] == "onNewContent";
  }
}
