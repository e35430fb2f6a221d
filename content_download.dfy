/**
  The download loop shared by the login form's submit handler
  (src/pages/Login.tsx) and the player page's refresh handlers
  (src/pages/Home.tsx): for each content descriptor of a login response,
  fetch `BACKEND_ROOT + url_content`, attach an object URL of the blob,
  save the record under its `content` key, count it and report progress;
  an item whose try block throws is logged and skipped.

  Every foreign call (login, fetch and `res.blob()`, the cache writes)
  is an input: a `Backend` gives the outcome each call has in one cycle.
 */
module ContentDownload {
  import opened DeviceData
  import opened MediaCache

  /** `await fetch(url)` followed by `await res.blob()`. */
  datatype FetchOutcome = FetchThrew | Fetched(blob: Option<Blob>)

  /** `await saveToCache(key, value)`: it throws, or resolves to a value that is truthy or not. */
  datatype SaveOutcome = SaveThrew | SaveReturned(truthy: bool)

  /** An awaited cache call with no argument of interest (`clearCache`, `saveDeviceSummary`, ...). */
  datatype CallOutcome = CallThrew | CallReturned(truthy: bool)

  /**
    The outcome of every foreign call one refresh cycle makes.  `objectUrl`
    is `URL.createObjectURL`: an opaque `blob:` URL string that names the
    blob only inside the document that created it, so a record holding it
    holds no media.
   */
  datatype Backend = Backend(
    login: string -> LoginOutcome,
    clear: CallOutcome,
    fetch: string -> FetchOutcome,
    save: string -> SaveOutcome,
    saveSummary: CallOutcome,
    objectUrl: Blob -> string)

  /** `{ ...content, localUrl: blob ? URL.createObjectURL(blob) : null }`. */
  function WithLocalUrl(item: MultimediaContent, blob: Option<Blob>, objectUrl: Blob -> string): (r: MultimediaContent)
    ensures r.(localUrl := item.localUrl) == item
    ensures r.localUrl.Some? <==> blob.Some?
  {
    item.(localUrl := if blob.Some? then Some(objectUrl(blob.value)) else None)
  }

  /**
    What one iteration of the loop keeps: the record it saved, or None when
    its try block threw (in the fetch, in `res.blob()` or in the save).
   */
  function Downloaded(b: Backend, root: string, item: MultimediaContent): (r: Option<MultimediaContent>)
    ensures r.Some? <==> b.fetch(root + item.urlContent).Fetched? && !b.save(item.content).SaveThrew?
    ensures r.Some? ==> r.value.(localUrl := item.localUrl) == item
    ensures r.Some? ==> r.value.localUrl.Some? == b.fetch(root + item.urlContent).blob.Some?
  {
    match b.fetch(root + item.urlContent)
    case FetchThrew => None
    case Fetched(blob) =>
      var v := WithLocalUrl(item, blob, b.objectUrl);
      if b.save(v.content).SaveThrew? then None else Some(v)
  }

  /** `newContentArray` after the loop: the records of the items that did not throw, in response order. */
  function StoredValues(b: Backend, root: string, items: seq<MultimediaContent>): (r: seq<MultimediaContent>)
    ensures |r| <= |items|
  {
    if items == [] then []
    else
      var init := StoredValues(b, root, items[..|items| - 1]);
      match Downloaded(b, root, items[|items| - 1])
      case None => init
      case Some(v) => init + [v]
  }

  /** The cache entries after saving `vs` in order into `m`. */
  function PutAll(m: map<string, MultimediaContent>, vs: seq<MultimediaContent>): (r: map<string, MultimediaContent>)
    ensures r.Keys == m.Keys + set v | v in vs :: v.content
  {
    if vs == [] then m
    else
      var last := vs[|vs| - 1];
      assert forall v :: v in vs <==> v in vs[..|vs| - 1] || v == last;
      PutAll(m, vs[..|vs| - 1])[last.content := last]
  }

  /** `Math.round(completed / total * 100)`, computed exactly: the nearest integer, halves rounded up. */
  function Percent(completed: nat, total: nat): (p: int)
    requires 0 < total
    ensures 0 <= p
  {
    (200 * completed + total) / (2 * total)
  }

  /** `Percent` is the nearest integer to `100 * completed / total`, a half rounded up. */
  lemma PercentNearest(completed: nat, total: nat)
    requires 0 < total
    ensures var p := Percent(completed, total);
      2 * total * p <= 200 * completed + total < 2 * total * (p + 1)
  {
  }

  /** The values passed to `setProgress` after each of the first `completed` successes. */
  function ProgressReports(completed: nat, total: nat): (r: seq<int>)
    requires completed <= total
    ensures |r| == completed
    ensures forall i :: 0 <= i < completed ==> r[i] == Percent(i + 1, total)
  {
    if completed == 0 then [] else ProgressReports(completed - 1, total) + [Percent(completed, total)]
  }

  lemma MulLe(d: int, x: int, y: int)
    requires 0 < d && x <= y
    ensures d * x <= d * y
  {
    assert d * y - d * x == d * (y - x);
  }

  lemma PercentBounds(c: nat, n: nat)
    requires 0 < n && c <= n
    ensures 0 <= Percent(c, n) <= 100
  {
    var p, d := Percent(c, n), 2 * n;
    PercentNearest(c, n);
    if p > 100 {
      MulLe(d, 101, p);
      assert false;
    }
    if p < 0 {
      MulLe(d, p + 1, 0);
      assert false;
    }
  }

  lemma PercentMonotone(c1: nat, c2: nat, n: nat)
    requires 0 < n && c1 <= c2
    ensures Percent(c1, n) <= Percent(c2, n)
  {
    var p1, p2, d := Percent(c1, n), Percent(c2, n), 2 * n;
    PercentNearest(c1, n);
    PercentNearest(c2, n);
    if p1 > p2 {
      MulLe(d, p2 + 1, p1);
      assert false;
    }
  }

  /** Once every item has completed, the progress is exactly 100. */
  lemma PercentComplete(n: nat)
    requires 0 < n
    ensures Percent(n, n) == 100
  {
    var p, d := Percent(n, n), 2 * n;
    PercentNearest(n, n);
    if p > 100 {
      MulLe(d, 101, p);
      assert false;
    }
    if p < 100 {
      MulLe(d, p + 1, 100);
      assert false;
    }
  }

  /**
    The progress a cycle shows, starting from the reset to 0, never decreases,
    stays within 0..100, and ends at 100 when every item completed.
   */
  lemma {:induction false} ProgressWellBehaved(completed: nat, total: nat)
    requires completed <= total
    ensures var shown := [0] + ProgressReports(completed, total);
      && (forall i, j :: 0 <= i < j < |shown| ==> shown[i] <= shown[j])
      && (forall i :: 0 <= i < |shown| ==> 0 <= shown[i] <= 100)
      && (0 < completed == total ==> shown[|shown| - 1] == 100)
  {
    var r := ProgressReports(completed, total);
    var shown := [0] + r;
    forall i | 0 <= i < |shown|
      ensures 0 <= shown[i] <= 100
    {
      if i > 0 { PercentBounds(i, total); }
    }
    forall i, j | 0 <= i < j < |shown|
      ensures shown[i] <= shown[j]
    {
      PercentBounds(j, total);
      if i > 0 { PercentMonotone(i, j, total); }
    }
    if 0 < completed == total {
      PercentComplete(total);
    }
  }

  /**
    The page or form appends the reset to 0 and then a cycle's reports to
    the history of the bar: what it appended is exactly that, and behaves as
    the reports do.
   */
  lemma AppendedProgress(before: seq<int>, reports: seq<int>, after: seq<int>, progress: int)
    requires after == before + [0] + reports
    requires progress == ([0] + reports)[|reports|]
    requires forall i, j :: 0 <= i < j <= |reports| ==> ([0] + reports)[i] <= ([0] + reports)[j]
    requires forall i :: 0 <= i <= |reports| ==> 0 <= ([0] + reports)[i] <= 100
    ensures |before| < |after|
    ensures var shown := after[|before|..];
      && shown[0] == 0
      && (forall i, j :: 0 <= i < j < |shown| ==> shown[i] <= shown[j])
      && (forall i :: 0 <= i < |shown| ==> 0 <= shown[i] <= 100)
      && progress == shown[|shown| - 1]
  {
    assert after[|before|..] == [0] + reports;
  }

  /** The kept records are exactly the download results of the items that did not throw. */
  lemma {:induction false} StoredValuesExactly(b: Backend, root: string, items: seq<MultimediaContent>, v: MultimediaContent)
    ensures v in StoredValues(b, root, items)
        <==> exists i :: 0 <= i < |items| && Downloaded(b, root, items[i]) == Some(v)
  {
    if items != [] {
      var init := items[..|items| - 1];
      StoredValuesExactly(b, root, init, v);
      if exists i :: 0 <= i < |items| && Downloaded(b, root, items[i]) == Some(v) {
        var i :| 0 <= i < |items| && Downloaded(b, root, items[i]) == Some(v);
        if i < |items| - 1 {
          assert init[i] == items[i];
        }
      }
      if exists i :: 0 <= i < |init| && Downloaded(b, root, init[i]) == Some(v) {
        var i :| 0 <= i < |init| && Downloaded(b, root, init[i]) == Some(v);
        assert items[i] == init[i];
      }
    }
  }

  /** When no item throws, every item is kept, in response order. */
  lemma {:induction false} AllDownloaded(b: Backend, root: string, items: seq<MultimediaContent>)
    requires forall i :: 0 <= i < |items| ==> Downloaded(b, root, items[i]).Some?
    ensures |StoredValues(b, root, items)| == |items|
    ensures forall i :: 0 <= i < |items| ==> StoredValues(b, root, items)[i] == Downloaded(b, root, items[i]).value
  {
    if items != [] {
      var init := items[..|items| - 1];
      assert forall i :: 0 <= i < |init| ==> init[i] == items[i];
      AllDownloaded(b, root, init);
    }
  }

  /**
    A falsy save result changes nothing: two backends that differ only in
    the truthiness of what the saves return keep the same records.
   */
  lemma {:induction false} SaveTruthinessIgnored(b1: Backend, b2: Backend, root: string, items: seq<MultimediaContent>)
    requires forall url :: b1.fetch(url) == b2.fetch(url)
    requires forall blob :: b1.objectUrl(blob) == b2.objectUrl(blob)
    requires forall key :: b1.save(key).SaveThrew? == b2.save(key).SaveThrew?
    ensures StoredValues(b1, root, items) == StoredValues(b2, root, items)
  {
    if items != [] {
      SaveTruthinessIgnored(b1, b2, root, items[..|items| - 1]);
      var last := items[|items| - 1];
      assert b1.fetch(root + last.urlContent) == b2.fetch(root + last.urlContent);
      assert b1.save(last.content).SaveThrew? == b2.save(last.content).SaveThrew?;
    }
  }

  /** The record saved last under a key is the one the cache holds for it. */
  lemma {:induction false} LastSaveWins(m: map<string, MultimediaContent>, vs: seq<MultimediaContent>, i: nat)
    requires i < |vs|
    requires forall j :: i < j < |vs| ==> vs[j].content != vs[i].content
    ensures vs[i].content in PutAll(m, vs) && PutAll(m, vs)[vs[i].content] == vs[i]
  {
    if i < |vs| - 1 {
      var init := vs[..|vs| - 1];
      assert forall j :: i < j < |init| ==> init[j] == vs[j];
      LastSaveWins(m, init, i);
    }
  }

  /** Keys no saved record uses keep what the cache held before. */
  lemma {:induction false} PutAllKeepsOthers(m: map<string, MultimediaContent>, vs: seq<MultimediaContent>, k: string)
    requires k in m
    requires forall v :: v in vs ==> v.content != k
    ensures PutAll(m, vs)[k] == m[k]
  {
    if vs != [] {
      var init := vs[..|vs| - 1];
      assert forall v :: v in init ==> v in vs;
      PutAllKeepsOthers(m, init, k);
    }
  }

  /** One more item: its download result, if any, is appended to what the earlier items kept. */
  lemma StoredValuesStep(b: Backend, root: string, items: seq<MultimediaContent>, i: nat)
    requires i < |items|
    ensures StoredValues(b, root, items[..i + 1])
         == StoredValues(b, root, items[..i]) + (match Downloaded(b, root, items[i]) case None => [] case Some(v) => [v])
  {
    assert items[..i + 1][..i] == items[..i];
  }

  /** One more saved record: one more entry and one more trace step. */
  lemma SaveStep(m: map<string, MultimediaContent>, vs: seq<MultimediaContent>, v: MultimediaContent)
    ensures PutAll(m, vs + [v]) == PutAll(m, vs)[v.content := v]
    ensures PutOps(vs + [v]) == PutOps(vs) + [Put(v.content)]
  {
    assert (vs + [v])[..|vs|] == vs;
  }

  /**
    The try block of one iteration: fetch the item, attach the object URL
    and save it under its `content` key; `kept` is the saved record, or None
    when a call threw.
   */
  method DownloadItem(cache: Cache, b: Backend, root: string, item: MultimediaContent)
    returns (kept: Option<MultimediaContent>)
    modifies cache
    ensures kept == Downloaded(b, root, item)
    ensures kept.Some? ==> cache.entries == old(cache.entries)[kept.value.content := kept.value]
    ensures kept.Some? ==> cache.ops == old(cache.ops) + [Put(kept.value.content)]
    ensures kept.None? ==> cache.entries == old(cache.entries) && cache.ops == old(cache.ops)
    ensures cache.summary == old(cache.summary)
  {
    kept := None;
    var fetched := b.fetch(root + item.urlContent);
    if fetched.Fetched? {
      var blobed := WithLocalUrl(item, fetched.blob, b.objectUrl);
      var saved := b.save(blobed.content);
      if saved.SaveReturned? {
        cache.SaveToCache(blobed.content, blobed);
        kept := Some(blobed);
      }
    }
  }

  /**
    The loop itself: the records it keeps, the progress values it reports,
    and the cache after it, in terms of the functions above.
   */
  method FetchAndSave(cache: Cache, b: Backend, root: string, items: seq<MultimediaContent>)
    returns (stored: seq<MultimediaContent>, reports: seq<int>)
    modifies cache
    ensures stored == StoredValues(b, root, items)
    ensures reports == ProgressReports(|stored|, |items|)
    ensures cache.entries == PutAll(old(cache.entries), stored)
    ensures cache.summary == old(cache.summary)
    ensures cache.ops == old(cache.ops) + PutOps(stored)
  {
    ghost var entries0, summary0, ops0 := cache.entries, cache.summary, cache.ops;
    var completed := 0;
    stored, reports := [], [];
    for i := 0 to |items|
      invariant stored == StoredValues(b, root, items[..i])
      invariant completed == |stored| <= i
      invariant reports == ProgressReports(completed, |items|)
      invariant cache.entries == PutAll(entries0, stored)
      invariant cache.summary == summary0
      invariant cache.ops == ops0 + PutOps(stored)
    {
      StoredValuesStep(b, root, items, i);
      var kept := DownloadItem(cache, b, root, items[i]);
      if kept.Some? {
        SaveStep(entries0, stored, kept.value);
        stored := stored + [kept.value];
        completed := completed + 1;
        reports := reports + [Percent(completed, |items|)];
      }
    }
    assert items[..|items|] == items;
  }
}
