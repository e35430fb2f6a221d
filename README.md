# Signage player core in Dafny

This project models the core of a React digital-signage player. A device
logs in with its password, and the backend answers with a device summary
and a list of multimedia items. The device downloads every item into a
browser cache, then plays the items as a carousel: scheduled items only,
ordered by position, each shown for a duration taken from its timing fields.
Socket events from the backend trigger a fresh download cycle.

The modules follow the source files:

- `DeviceData` (`device_data.dfy`): the records of `interfaces/DeviceData.ts`, the login outcome, and JavaScript's `||` and `??` defaults on nullable numbers.
- `Media` (`media.dfy`): the video-extension tests, `endsWith` on three extensions and the case-insensitive pattern `/\.(mp4|mov|gif)$/i`.
- `StableSort` (`stable_sort.dfy`): `Array.prototype.sort`, a stable sort (ECMAScript 2019 and later) driven by the caller's comparator.
- `MediaCache` (`media_cache.dfy`): the cache, as a class with a key-to-record map, a summary slot and a ghost trace of its mutating calls.
- `ContentDownload` (`content_download.dfy`): the download loop shared by the two pages, with fetch, save and per-item progress, as an imperative method proved against `StoredValues`, `PutAll` and `ProgressReports`.
- `HomePage` (`home_page.dfy`): `pages/Home.tsx`. It covers filtering and sorting, slide timing, the retry countdown, and the refresh cycle (`handleContentUpdate`, `handleReload`) as a class whose methods are proved against the pure function `Refreshed`.
- `LoginPage` (`login_page.dfy`): `pages/Login.tsx`. The form's `handleSubmit` is a class method proved against `Submitted`.
- `HomeComponent` (`home_component.dfy`): `components/Home.tsx`. It covers the sorted copy, the slide timer, the background, the slide list and the socket handler.
- `CarouselItem` (`carousel_item.dfy`): `components/CarouselItem.tsx`. It covers the cache lookup under the decimal string of `id_content` and what the slide renders.
- `AuthStore` (`auth_store.dfy`): `store/useAuthStore.ts`, as a class with three fields that every action overwrites together.

## Modelling choices

- **Injected effects.** Everything the core awaits from outside is a parameter: the login request, `fetch` and `blob`, `URL.createObjectURL`, and the promises of the cache calls. These are collected in the `Backend` record. Each call either throws, or returns a value that the code may inspect.
- **Clocks and base URLs.** The clock (`new Date()`) is a `Timestamp` parameter. `BACKEND_ROOT` is a `root` string parameter.
- **Progress.** `Math.round((completed / total) * 100)` is computed exactly as the nearest integer, with a half rounded up (`Percent`). The rounding error of floating point is not modelled.
- **Cache calls not shown.** `clearCachedContent`, `saveDeviceSummary` and `getDeviceData` are imported from `custom-hooks/useCache.ts`, but that file does not define them. The model assumes the following:
  - `clearCache` empties records and summary alike;
  - `clearCachedContent` empties the records only;
  - `saveDeviceSummary` writes the summary slot.
- **Falsy results are only logged.** A falsy result from any cache call is only logged; a thrown one goes to the surrounding `catch`.
- **Where the code and the intended design disagree, the model follows the code:**
  - `components/Home.tsx` re-runs the login on `onDeviceDeleted` like any content event (`HomeComponent.DeviceDeletedReLogs`). `pages/Home.tsx` subscribes `handleDeviceDeleted`, a full cache clear and navigation to `/`, to the same event. Its other subscriptions come from an event list in `utils/socketEvents`, which is not part of this model, so whether it also re-runs the refresh on that event is not known.
  - The two carousel views order items differently. The page comparator ties any pair with a missing position (`HomePage.PageCompareInconsistent`). ECMA-262 then leaves the order of the sorted list implementation-defined; the model fixes it to the result of a stable insertion sort, so the page's order claims (`HomePage.FilterAndSortOrdered`) are made only when every scheduled item has a position. The component counts a missing position as 0.
  - The two views also time slides differently (`HomeComponent.DurationsDisagree`).
  - A refresh on the player page clears only the content records. A login clears the whole cache, summary included.
  - The writers key cache records by the item's `content` name, but `CarouselItem` reads them under `id_content.toString()`. When no `content` name is a decimal numeral, every lookup misses and the slide loads the remote URL (`CarouselItem.NumericKeysOnlyHit`).
  - The writers store plain records, never a Blob. So when a lookup does hit, `URL.createObjectURL` throws inside the promise nobody awaits, `setSrc` never runs, and the slide renders nothing (`CarouselItem.HitRendersNothing`).
  - `handleReload` is memoised on `[navigate]` alone. As long as `navigate` keeps its identity, the callback sees the device summary of the first render, which is null. The reload fired by the countdown and the retry button therefore only hide the modal and never download again (`HomePage.CapturedReloadOnlyHidesModal`). `HomePage.Home.HandleReload` takes the summary the callback sees as a parameter, so its contract covers this null case and the case where `navigate` changes.

## Model

| member | source | states |
|---|---|---|
| Media.LowerAsciiString | src/pages/Home.tsx:298 | the case-folded string has the same length and folds each character; this is the `i` flag of the video pattern |
| Media.IsVideo | src/components/CarouselItem.tsx:49-52 | a URL the components call a video ends in a dot and a three-letter extension |
| Media.MatchesVideoPattern | src/pages/Home.tsx:298 | a URL matching the page's video pattern ends in a dot and a three-letter extension |
| Media.LowerExtensions | src/pages/Home.tsx:298 | the three extensions fold to themselves and `MP4` folds to `mp4` |
| Media.IsVideoMatchesPattern | src/components/CarouselItem.tsx:49-52 | every URL the `endsWith` test calls a video also matches the page's case-insensitive pattern |
| Media.UpperCaseExtensionOnlyMatchesPattern | src/pages/Home.tsx:298 | some URL matches the pattern but fails the `endsWith` test (an upper-case extension), so the two tests are not equivalent |
| StableSort.Insert | src/components/Home.tsx:18-20 | inserting adds exactly one occurrence of the element to the multiset |
| StableSort.Sort | src/components/Home.tsx:18-20 | the sorted result is a permutation of the input |
| StableSort.InsertLowerBound | src/pages/Home.tsx:55-60 | insertion keeps a common lower bound on the keys |
| StableSort.InsertSorted | src/pages/Home.tsx:55-60 | inserting into a key-sorted sequence with a key-difference comparator keeps it sorted |
| StableSort.InsertWithKey | src/pages/Home.tsx:55-60 | insertion keeps the relative order of the elements with any one key |
| StableSort.SortByKey | src/pages/Home.tsx:55-60 | with a key-difference comparator the result is sorted by key, and elements with equal keys keep their input order |
| StableSort.SortIdempotent | src/components/Home.tsx:18-20 | a sequence already sorted by key is returned unchanged |
| MediaCache.PutOps | src/custom-hooks/useCache.ts:16-19 | the trace of saving a list has one entry per record |
| MediaCache.PutOpsAt | src/custom-hooks/useCache.ts:16-19 | the i-th save is under the `content` key of the i-th record |
| MediaCache.Cache.constructor | src/custom-hooks/useCache.ts:6-14 | a new cache is empty and has no summary |
| MediaCache.Cache.ClearCache | src/custom-hooks/useCache.ts:26-29 | empties records and summary and appends one clear to the trace |
| MediaCache.Cache.ClearCachedContent | src/pages/Home.tsx:109 | empties the records, keeps the summary, and appends a content clear |
| MediaCache.Cache.SaveToCache | src/custom-hooks/useCache.ts:16-19 | sets one key (overwriting) and leaves every other key and the summary as they were |
| MediaCache.Cache.SaveDeviceSummary | src/pages/Login.tsx:55 | sets the summary slot and leaves the records alone |
| DeviceData.OrDefault | src/pages/Home.tsx:305 | `x \|\| d` gives the default for a missing value and for 0, and the value otherwise |
| DeviceData.NullishDefault | src/components/Home.tsx:24-27 | `x ?? d` gives the default only for a missing value, and keeps an explicit 0 |
| ContentDownload.Downloaded | src/pages/Home.tsx:115-132 | an item is kept iff its fetch and its save do not throw; the kept record is the item with only `localUrl` replaced, and `localUrl` is set iff a blob came back |
| ContentDownload.WithLocalUrl | src/pages/Home.tsx:121 | the saved record is the item with only `localUrl` replaced, set iff a blob came back |
| ContentDownload.StoredValues | src/pages/Home.tsx:115-133 | the loop keeps at most as many records as the response lists |
| ContentDownload.PutAll | src/pages/Home.tsx:123 | the keys after saving a list are the old keys plus every record's `content` |
| ContentDownload.Percent | src/pages/Home.tsx:128 | the reported percentage is never negative |
| ContentDownload.PercentNearest | src/pages/Home.tsx:128 | the reported percentage is the integer nearest to 100·completed/total, a half rounded up |
| ContentDownload.ProgressReports | src/pages/Home.tsx:127-129 | one report per kept item, the i-th being the percentage for i+1 completed |
| ContentDownload.PercentBounds | src/pages/Login.tsx:48 | a percentage of completed ≤ total lies within 0..100 |
| ContentDownload.PercentMonotone | src/pages/Login.tsx:47-49 | more completed items never give a smaller percentage |
| ContentDownload.PercentComplete | src/pages/Login.tsx:48 | all items completed gives exactly 100 |
| ContentDownload.ProgressWellBehaved | src/pages/Home.tsx:103 | the values shown after the reset to 0 never decrease, stay within 0..100, and end at 100 when every item completed |
| ContentDownload.StoredValuesExactly | src/pages/Home.tsx:118-131 | a record is kept iff it is the download result of some item whose fetch and save did not throw |
| ContentDownload.AllDownloaded | src/pages/Home.tsx:115-133 | when no item throws, the kept list is the items' results one for one, in order |
| ContentDownload.SaveTruthinessIgnored | src/pages/Home.tsx:123-124 | only whether a save throws matters, never what it resolves to |
| ContentDownload.LastSaveWins | src/pages/Home.tsx:123 | a record whose `content` key no later record repeats is what the cache holds under that key |
| ContentDownload.PutAllKeepsOthers | src/pages/Home.tsx:123 | saves under other keys leave an existing key's record alone |
| ContentDownload.DownloadItem | src/pages/Home.tsx:116-131 | one iteration: the result is the item's download result; on success exactly one save under its `content` key, otherwise the cache and trace are unchanged; the summary is never touched |
| ContentDownload.FetchAndSave | src/pages/Login.tsx:35-53 | the loop keeps `StoredValues`, reports `ProgressReports`, leaves the cache as `PutAll` of the kept records, with one trace entry per save in order, and leaves the summary untouched |
| HomePage.Scheduled | src/pages/Home.tsx:48-53 | an item stays iff it is in the input and today is inside its (open-ended where missing) play window |
| HomePage.InWindow | src/pages/Home.tsx:49-52 | an item without dates is always in its window; one whose start is later than now, or whose end is earlier, is not |
| HomePage.FilterAndSortContent | src/pages/Home.tsx:45-63 | the result is a permutation of the scheduled items |
| HomePage.PageCompare | src/pages/Home.tsx:55-60 | a pair with a missing position ties; with both present, the sign of the result orders the positions |
| HomePage.FilterAndSortOrdered | src/pages/Home.tsx:55-60 | when every scheduled item has a position, the result is sorted by position and stable on ties |
| HomePage.PageCompareInconsistent | src/pages/Home.tsx:55-60 | the page comparator is not a consistent order: a missing position ties with two items it does not order between |
| HomePage.NextSlide | src/pages/Home.tsx:287-314 | no timer for an empty list, an index reset iff the index is past the end, otherwise a timer of the slide's duration whose next index is `(i + 1) mod n` |
| HomePage.SlideDuration | src/pages/Home.tsx:296-306 | a video without a measured duration lasts 5 s; a non-video slide without timing fields 3.5 s; a non-video slide with non-negative fields at least 1 s |
| HomePage.ZeroSecondsLastFiveSeconds | src/pages/Home.tsx:305 | with `||`, an explicit 0 seconds on a non-video slide becomes 5 s |
| HomePage.SlidesCycle | src/pages/Home.tsx:308-310 | from index 0, after k timers the page shows slide k mod n |
| HomePage.Advance | src/pages/Home.tsx:308-310 | the index the slide timer reaches always stays in range; the separate 5-second interval, which can move it out of range, is not modelled |
| HomePage.TicksFrom | src/pages/Home.tsx:203-212 | from v, n ticks count down to v−n, and the tick that reaches 1 stops the interval and fires exactly one reload |
| HomePage.StartRetry | src/pages/Home.tsx:202-203 | showing the modal starts the interval without changing the count |
| HomePage.Tick | src/pages/Home.tsx:204-211 | a stopped interval does nothing; a tick at 1 or below stops the interval, sets 0 and fires the reload; any other tick counts down by one |
| HomePage.RunTicks | src/pages/Home.tsx:203-212 | once the interval is cleared nothing changes, so any number of ticks fires at most one reload |
| HomePage.ReloadOnTenthTick | src/pages/Home.tsx:199-219 | from any countdown an earlier run left, the cleanup resets it to 10; after the modal opens, nine ticks count down to 1 and the tenth fires the only reload |
| HomePage.CapturedReloadOnlyHidesModal | src/pages/Home.tsx:151-153 | the tenth tick fires the reload, and with the null summary the callback captured the reload only hides the modal |
| HomePage.CycleEndOf | src/pages/Home.tsx:99-110 | a cycle does nothing iff there is no summary, and downloads iff the login returns a response with content and the content clear does not throw |
| HomePage.Refreshed | src/pages/Home.tsx:98-143 | a refresh never touches the cached summary, and ends with `loading` false whenever a summary is present |
| HomePage.RefreshWithoutSummary | src/pages/Home.tsx:99 | without a device summary the handler changes nothing |
| HomePage.RefreshCacheDiscipline | src/pages/Home.tsx:105-142 | a throwing login shows the retry modal and leaves the cache alone; a response without content leaves it alone; any cache write is a content clear followed by one save per kept item, the summary untouched; `loading` ends false |
| HomePage.RefreshKeepsDownloadedItems | src/pages/Home.tsx:112-136 | after a download the page holds exactly the items that downloaded, shows exactly those in their play window, has each one's key in the cache, and restarts at index 0 |
| HomePage.CycleReports | src/pages/Home.tsx:127-129 | the progress values a cycle reports are the download loop's reports, or none when it does not download |
| HomePage.RefreshShown | src/pages/Home.tsx:102-103 | the progress bar receives the reset to 0 followed by the cycle's reports, and keeps the last of them |
| HomePage.CycleReportsWellBehaved | src/pages/Home.tsx:128-129 | a cycle's reports, after the reset to 0, never decrease and stay within 0..100 |
| HomePage.RefreshProgress | src/pages/Home.tsx:102-142 | on the page, what a refresh appends to the progress bar starts at 0, never decreases, stays within 0..100, and its last value is the bar's |
| HomePage.RefreshReachesHundred | src/pages/Home.tsx:112-133 | when the response lists items and none throws, the bar ends at 100 |
| HomePage.Home.constructor | src/pages/Home.tsx:17-27 | the page starts idle, at progress 0, with no content and no retry modal |
| HomePage.Home.ReplaceContent | src/pages/Home.tsx:109-136 | clearing the content and running the download loop leaves the page and cache as `AfterDownload` describes |
| HomePage.Home.HandleContentUpdate | src/pages/Home.tsx:98-143 | the handler leaves the page and cache as `Refreshed` describes |
| HomePage.Home.HandleReload | src/pages/Home.tsx:151-197 | the reload hides the retry modal, then runs the content-update cycle with the summary the memoised callback sees, which is the initial null while `navigate` keeps its identity |
| LoginPage.SubmitEndOf | src/pages/Login.tsx:27-63 | a submission fails iff the login throws or gives a null response; it is a mismatch iff the response lacks summary or content; it downloads only after a clear that does not throw; it completes only when the summary save does not throw |
| LoginPage.Submitted | src/pages/Login.tsx:21-67 | a submission always ends with `loading` false, moves the route only to /home, and leaves no error iff it completed |
| LoginPage.RejectedLeavesCacheAlone | src/pages/Login.tsx:59-61 | a response without summary or content sets the mismatch message and leaves cache and route alone |
| LoginPage.FailedLoginLeavesCacheAlone | src/pages/Login.tsx:62-66 | a thrown login sets the generic error and leaves cache and route alone; `loading` ends false |
| LoginPage.CacheWriteOrder | src/pages/Login.tsx:30-58 | the cache is written iff the download starts, and then in the order: full clear, one save per kept item, summary save last |
| LoginPage.NavigatesAfterSummarySave | src/pages/Login.tsx:55-58 | the route changes to /home iff the submission completed, and then the summary save is the last write and no error is shown |
| LoginPage.SubmitReports | src/pages/Login.tsx:47-49 | the progress values of a submission are the download loop's reports, or none when it does not download |
| LoginPage.SubmitShown | src/pages/Login.tsx:25 | the bar receives the reset to 0 followed by the reports and keeps the last of them |
| LoginPage.SubmitReportsWellBehaved | src/pages/Login.tsx:47-49 | a submission's reports, after the reset to 0, never decrease and stay within 0..100 |
| LoginPage.SubmitProgress | src/pages/Login.tsx:21-67 | what a submission appends to the bar starts at 0, never decreases, stays within 0..100, and its last value is the bar's |
| LoginPage.SubmitReachesHundred | src/pages/Login.tsx:35-53 | when the content is non-empty and every item downloads, the bar ends at 100 |
| LoginPage.CompletedCacheContents | src/pages/Login.tsx:32-55 | after a completed submission the cache holds the summary, and every record in it is the download result of a response item |
| LoginPage.PutAllValues | src/pages/Login.tsx:44 | every record saved under a fresh key is one of the saved list |
| LoginPage.TruthinessIgnored | src/pages/Login.tsx:32-56 | what the cache calls resolve to is only logged: two backends that agree on what throws and on the object URLs give the same submission |
| LoginPage.Login.constructor | src/pages/Login.tsx:13-16 | the form starts with an empty password, not loading, at progress 0, without error |
| LoginPage.Login.ChangePassword | src/pages/Login.tsx:86 | typing replaces the password and nothing else |
| LoginPage.Login.DownloadContent | src/pages/Login.tsx:32-53 | the full clear and the download loop leave form and cache as `AfterDownload` describes |
| LoginPage.Login.HandleSubmit | src/pages/Login.tsx:21-67 | a submission leaves form, route and cache as `Submitted` describes for the typed password |
| HomeComponent.SortedContent | src/components/Home.tsx:18-20 | the sorted copy is a permutation of the content |
| HomeComponent.ComponentCompare | src/components/Home.tsx:19 | the comparator is negative iff the first position, a missing one read as 0, is smaller, and ties two missing positions |
| HomeComponent.SortedContentOrdered | src/components/Home.tsx:18-20 | the copy is sorted by position with a missing one as 0, and stable on equal positions |
| HomeComponent.SortedContentIdempotent | src/components/Home.tsx:18-20 | sorting the sorted copy again changes nothing |
| HomeComponent.MissingAndZeroKeepOrder | src/components/Home.tsx:19 | a missing position and an explicit 0 tie, so either order of the two is kept |
| HomeComponent.SortedContentIdempotentOn | src/components/Home.tsx:18-20 | content already ordered by position comes back unchanged |
| HomeComponent.ComponentDuration | src/components/Home.tsx:24-27 | a slide without timing fields lasts 5 s |
| HomeComponent.ZeroSecondsStayZero | src/components/Home.tsx:27 | with `??`, an explicit 0 seconds gives a zero-length timer |
| HomeComponent.DurationsDisagree | src/components/Home.tsx:24-27 | on the same non-video slide, the page waits 5 s and the component 0 s for an explicit 0 seconds, and 3.5 s against 5 s when no timing field is set |
| HomeComponent.DurationsAgreeWithoutZeros | src/components/Home.tsx:24-27 | the two durations agree on a non-video slide whose set timing fields are all non-zero |
| HomeComponent.ComponentSlide | src/components/Home.tsx:22-35 | no timer iff the list is empty, a crash iff the index is past the end, otherwise a timer of the slide's duration whose next index is `(i + 1) mod n` |
| HomeComponent.ComponentIndexStaysInRange | src/components/Home.tsx:29-31 | from index 0 the timers never reach an index the effect cannot read |
| HomeComponent.ComponentSlidesCycle | src/components/Home.tsx:29-31 | from index 0, after k timers the component shows slide k mod n |
| HomeComponent.BackgroundImage | src/components/Home.tsx:114-123 | the logo for an empty list, a crash past the end, the captured thumbnail (or none) for a video, the media file otherwise |
| HomeComponent.Slides | src/components/Home.tsx:130-159 | one slide per item, a video exactly for the video extensions, the remote URL as source, rotation defaulting to 0, and only the current index active |
| HomeComponent.BackgroundFollowsActiveSlide | src/components/Home.tsx:114-159 | an active image slide and the background show the same file, and the logo shows iff there is no slide |
| HomeComponent.OneActiveSlide | src/components/Home.tsx:132 | no two slides are active, and one is iff the index is in range |
| HomeComponent.OnSocketEvent | src/components/Home.tsx:41-55 | an event re-runs the login iff it is one of the seven subscribed events and the password is truthy, and then with that password |
| HomeComponent.DeviceDeletedReLogs | src/components/Home.tsx:44 | a device deletion is handled like new content, and without a password no event does anything |
| CarouselItem.DecimalString | src/components/CarouselItem.tsx:56 | the key is a non-empty string of digits without a leading zero |
| CarouselItem.DecimalRoundTrip | src/components/CarouselItem.tsx:56 | the key reads back as the id, so distinct ids give distinct keys |
| CarouselItem.AfterFetch | src/components/CarouselItem.tsx:54-66 | on a cache hit the source keeps its value, because `createObjectURL` throws on a stored record; on a miss it becomes the remote URL |
| CarouselItem.LookupKey | src/components/CarouselItem.tsx:56 | the lookup key is a string of digits that reads back as the item's id |
| CarouselItem.HitAfterCycle | src/components/CarouselItem.tsx:56-57 | after a download cycle, the lookup hits iff some saved `content` name equals the decimal string of the id |
| CarouselItem.NumericKeysOnlyHit | src/components/CarouselItem.tsx:56-61 | when no saved `content` name is a decimal numeral, every slide gets the remote URL |
| CarouselItem.HitRendersNothing | src/components/CarouselItem.tsx:56-70 | a new slide whose key hits never gets a source and renders nothing, active or not |
| CarouselItem.SavedRecordNotFound | src/components/CarouselItem.tsx:56 | the record saved under "promo.mp4" is not found for its id 7 |
| CarouselItem.Render | src/components/CarouselItem.tsx:68-94 | nothing while the source is unset or empty, a video iff the file is a video and the slide is active, otherwise an image, with rotation defaulting to 0 |
| CarouselItem.SrcTruthy | src/components/CarouselItem.tsx:68 | a truthy source is a non-empty string |
| CarouselItem.InactiveVideoIsImage | src/components/CarouselItem.tsx:72 | a video file renders as an image when inactive and as a video when active |
| CarouselItem.ItemView.constructor | src/components/CarouselItem.tsx:48 | a slide starts without a source |
| CarouselItem.ItemView.FetchCachedMedia | src/components/CarouselItem.tsx:55-65 | the effect leaves the source `AfterFetch` gives: unchanged on a hit, the remote URL on a miss |
| AuthStore.LoginTransition | src/store/useAuthStore.ts:9-22 | a thrown login or a null response changes nothing; a response with content and summary signs in with the given password and exactly that content and summary, whatever was stored; any other response signs out |
| AuthStore.LoginKeepsCoherent | src/store/useAuthStore.ts:9-22 | the three fields stay all set or all null |
| AuthStore.LoginIdempotent | src/store/useAuthStore.ts:9-22 | repeating the same login answer changes nothing more |
| AuthStore.Store.constructor | src/store/useAuthStore.ts:5-8 | the store starts with all three fields null |
| AuthStore.Store.Set | src/store/useAuthStore.ts:11-12 | one `set` replaces all three fields |
| AuthStore.Store.OnRequestDeviceData | src/store/useAuthStore.ts:9-13 | the store ends in `LoginTransition` of its old state and the login outcome, and coherence is kept |
| AuthStore.Store.OnLogin | src/store/useAuthStore.ts:14-22 | the same transition as `onRequestDeviceData` |
| AuthStore.Store.OnLogout | src/store/useAuthStore.ts:23-26 | the store ends with all three fields null |

## Left out

- Console logging, the full-screen hook, mouse-over title and button visibility, and the inactivity timer of `pages/Home.tsx`: these are presentation only.
- `captureThumbnail` in both views: a canvas snapshot of a playing video. Its result enters the model as the `thumbnail` parameter of `HomeComponent.BackgroundImage`.
- The socket connection set-up and tear-down in both views: these are network plumbing. Which event leads to which handler is modelled in `HomeComponent.OnSocketEvent`.
- `handleDeviceDeleted` and `handleFinish` in `pages/Home.tsx`: each is a full cache clear followed by navigation to `/`, so they add nothing beyond `MediaCache.Cache.ClearCache`.
- `loadCachedContent` in `pages/Home.tsx`: `getDeviceData` is not part of this model, so its result format is unknown.
- The 5-second interval effect over `cachedContent` in `pages/Home.tsx` (lines 271-279): it races with the slide timer. The model follows only the slide timer.
- The background and the list rendering in `pages/Home.tsx` (lines 320-370): JSX layout over the modelled state.
- `encodeURI`, `Date` parsing, and floating-point rounding of the progress. Dates are integer timestamps.
- ContentDownload.WithLocalUrl: `URL.createObjectURL` is the `objectUrl` field of `Backend`, an opaque `blob:` string. A saved record keeps only that string, which is valid in the document that created it, and not the media bytes. After a page reload every stored `localUrl` names nothing; the model does not track which document a URL belongs to.
- ContentDownload.Downloaded: the same URL is assumed to always give the same fetch outcome within one cycle.
- `components/Login.tsx`, `components/Login2.tsx` and the other components, the router, the axios instance and `api/login.ts` are not part of this model. The login request is a parameter of every operation that calls it.
- `useAuthStore`'s `persist` middleware (storage in `localStorage` under "device") is left out, so the model does not capture rehydrating an arbitrary stored state.
- HomePage.Home.HandleReload: the `useCallback` closure captures the device summary of the first render. The model passes the summary the closure sees as a parameter.
- The browser's `setTimeout` clamps delays above 2^31−1 ms, and negative ones, to fire at once: with `hour` of 597 or more a slide moves on immediately. The durations in `HomePage.SlideDuration` and `HomeComponent.ComponentDuration` are not clamped.
- The timer effect in `components/Home.tsx` (line 35) depends on `sortedContent`, a fresh array on every render, so any re-render restarts the current slide's timer. The model follows one timer per slide.
- ContentDownload.Downloaded: the outcome of a save is keyed by the cache key, so items that share a `content` name share one save outcome.
- DeviceData.MultimediaContent: `id_content` is a natural number, so negative and fractional ids, whose `toString()` has a sign or a point, are not modelled. Ids are assumed to be below 2^53: above that a JavaScript number is not exact, and from 10^21 `toString()` uses exponent notation ("1e+21"), neither of which `CarouselItem.DecimalString` models.
- HomePage.Home.HandleContentUpdate, HomePage.Home.HandleReload, LoginPage.Login.HandleSubmit: the source starts a handler on every content event, on every retry and on every click while a password is typed, and nothing stops a second run while one is still awaiting. Overlapping runs interleave their cache clears, saves and progress updates, so the bar can drop back to 0 partway through and the cache can hold records of both runs. Each method here is one uninterrupted run, so `HomePage.RefreshProgress`, `HomePage.RefreshCacheDiscipline`, `LoginPage.SubmitProgress` and `LoginPage.CacheWriteOrder` hold only when runs do not overlap.
