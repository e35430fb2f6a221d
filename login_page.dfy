/**
  The login form (src/pages/Login.tsx): `handleSubmit` logs in with the
  typed password and, for a response carrying both a summary and a
  content list, clears the whole cache, downloads and saves every item
  with progress, saves the device summary last and navigates to the
  player.  Every other outcome ends with one of two error messages.
 */
module LoginPage {
  import opened DeviceData
  import opened MediaCache
  import opened ContentDownload

  const MismatchMessage := "La contraseña no coincide con nuestros registros."
  const FetchFailedMessage := "Error al obtener y guardar los datos del dispositivo."
  const HomeRoute := "/home"

  /** The form's state together with the cache it writes through. */
  datatype LoginState = LoginState(
    loading: bool,
    progress: int,
    error: Option<string>,
    navigatedTo: Option<string>,
    shownProgress: seq<int>,
    entries: map<string, MultimediaContent>,
    cachedSummary: Option<Summary>,
    ops: seq<CacheOp>)

  /**
    How far one submission gets.  A null response makes `response.summary`
    throw inside the try block, so it ends like a thrown login.
   */
  datatype SubmitEnd =
    | LoginFailed
    | Mismatch
    | ClearFailed
    | SummaryFailed(items: seq<MultimediaContent>)
    | Completed(summary: Summary, items: seq<MultimediaContent>)

  function SubmitEndOf(password: string, b: Backend): (e: SubmitEnd)
    ensures e.LoginFailed? <==> b.login(password).LoginThrew? || b.login(password).data.None?
    ensures e.Mismatch? <==>
      && b.login(password).LoginReturned? && b.login(password).data.Some?
      && (b.login(password).data.value.summary.None? || b.login(password).data.value.content.None?)
    ensures e.SummaryFailed? || e.Completed? ==>
      && b.login(password).LoginReturned? && b.login(password).data.Some?
      && b.login(password).data.value.content == Some(e.items)
      && b.login(password).data.value.summary.Some?
      && !b.clear.CallThrew?
    ensures e.Completed? ==> b.login(password).data.value.summary == Some(e.summary) && !b.saveSummary.CallThrew?
    ensures e.SummaryFailed? ==> b.saveSummary.CallThrew?
  {
    var outcome := b.login(password);
    if outcome.LoginThrew? || outcome.data.None? then LoginFailed
    else
      var response := outcome.data.value;
      if response.summary.None? || response.content.None? then Mismatch
      else if b.clear.CallThrew? then ClearFailed
      else if b.saveSummary.CallThrew? then SummaryFailed(response.content.value)
      else Completed(response.summary.value, response.content.value)
  }

  /** `setLoading(true)`, `setError(null)`, `setProgress(0)`. */
  function Started(s: LoginState): LoginState
  {
    s.(loading := true, error := None, progress := 0, shownProgress := s.shownProgress + [0])
  }

  /** The form and cache after `clearCache` and the download loop over `items`. */
  function AfterDownload(s: LoginState, items: seq<MultimediaContent>, b: Backend, root: string): LoginState
  {
    var stored := StoredValues(b, root, items);
    var reports := ProgressReports(|stored|, |items|);
    s.(
      progress := if reports == [] then s.progress else reports[|reports| - 1],
      shownProgress := s.shownProgress + reports,
      entries := PutAll(map[], stored),
      cachedSummary := None,
      ops := s.ops + [ClearAll] + PutOps(stored))
  }

  /** One run of `handleSubmit` with the typed password; `loading` ends false on every path. */
  function Submitted(s: LoginState, password: string, b: Backend, root: string): (r: LoginState)
    ensures !r.loading
    ensures r.navigatedTo == s.navigatedTo || r.navigatedTo == Some(HomeRoute)
    ensures r.error.None? <==> SubmitEndOf(password, b).Completed?
  {
    match SubmitEndOf(password, b)
    case LoginFailed => Started(s).(error := Some(FetchFailedMessage), loading := false)
    case Mismatch => Started(s).(error := Some(MismatchMessage), loading := false)
    case ClearFailed => Started(s).(error := Some(FetchFailedMessage), loading := false)
    case SummaryFailed(items) =>
      AfterDownload(Started(s), items, b, root).(error := Some(FetchFailedMessage), loading := false)
    case Completed(summary, items) =>
      var d := AfterDownload(Started(s), items, b, root);
      d.(cachedSummary := Some(summary), ops := d.ops + [PutSummary(summary)],
         navigatedTo := Some(HomeRoute), loading := false)
  }

  /**
    A response without a summary or without a content list sets the
    mismatch message and touches neither the cache nor the route.
   */
  lemma RejectedLeavesCacheAlone(s: LoginState, password: string, b: Backend, root: string)
    requires b.login(password).LoginReturned? && b.login(password).data.Some?
    requires b.login(password).data.value.summary.None? || b.login(password).data.value.content.None?
    ensures var r := Submitted(s, password, b, root);
      && r.error == Some(MismatchMessage)
      && r.entries == s.entries && r.cachedSummary == s.cachedSummary && r.ops == s.ops
      && r.navigatedTo == s.navigatedTo
      && !r.loading
  {
    assert SubmitEndOf(password, b) == Mismatch;
  }

  /** A thrown login, or a null response, sets the generic message and leaves the cache alone. */
  lemma FailedLoginLeavesCacheAlone(s: LoginState, password: string, b: Backend, root: string)
    requires b.login(password).LoginThrew? || b.login(password).data.None?
    ensures var r := Submitted(s, password, b, root);
      && r.error == Some(FetchFailedMessage)
      && r.entries == s.entries && r.cachedSummary == s.cachedSummary && r.ops == s.ops
      && r.navigatedTo == s.navigatedTo
      && !r.loading
  {
    assert SubmitEndOf(password, b) == LoginFailed;
  }

  /**
    The order of the cache writes: whenever the cache is written at all, a
    full clear comes first, then one save per kept item, and the summary
    save, if any, comes last.
   */
  lemma CacheWriteOrder(s: LoginState, password: string, b: Backend, root: string)
    ensures var r := Submitted(s, password, b, root);
      var e := SubmitEndOf(password, b);
      && (r.ops != s.ops <==> e.SummaryFailed? || e.Completed?)
      && (e.SummaryFailed? ==> r.ops == s.ops + [ClearAll] + PutOps(StoredValues(b, root, e.items)))
      && (e.Completed? ==> r.ops == s.ops + [ClearAll] + PutOps(StoredValues(b, root, e.items)) + [PutSummary(e.summary)])
  {
    var e := SubmitEndOf(password, b);
    var r := Submitted(s, password, b, root);
    if e.SummaryFailed? || e.Completed? {
      assert r.ops[|s.ops|] == ClearAll;
    }
  }

  /**
    Navigation happens only after the summary save: the route changes to
    /home exactly when the cycle completed, and then the summary save is
    the last write, the error is cleared and the cache holds the summary.
   */
  lemma NavigatesAfterSummarySave(s: LoginState, password: string, b: Backend, root: string)
    requires s.navigatedTo != Some(HomeRoute)
    ensures var r := Submitted(s, password, b, root);
      var e := SubmitEndOf(password, b);
      && (r.navigatedTo == Some(HomeRoute) <==> e.Completed?)
      && (e.Completed? ==>
            && r.ops[|r.ops| - 1] == PutSummary(e.summary)
            && r.cachedSummary == Some(e.summary)
            && r.error.None?)
  {
  }

  /** The progress values a submission reports after its reset to 0. */
  function SubmitReports(password: string, b: Backend, root: string): (r: seq<int>)
    ensures SubmitEndOf(password, b).SummaryFailed? || SubmitEndOf(password, b).Completed? ==>
      var items := SubmitEndOf(password, b).items;
      r == ProgressReports(|StoredValues(b, root, items)|, |items|)
    ensures !(SubmitEndOf(password, b).SummaryFailed? || SubmitEndOf(password, b).Completed?) ==> r == []
  {
    match SubmitEndOf(password, b)
    case SummaryFailed(items) => ProgressReports(|StoredValues(b, root, items)|, |items|)
    case Completed(_, items) => ProgressReports(|StoredValues(b, root, items)|, |items|)
    case _ => []
  }

  lemma SubmitShown(s: LoginState, password: string, b: Backend, root: string)
    ensures var r := Submitted(s, password, b, root);
      var shown := [0] + SubmitReports(password, b, root);
      && r.shownProgress == s.shownProgress + [0] + SubmitReports(password, b, root)
      && r.progress == shown[|shown| - 1]
  {
    var e := SubmitEndOf(password, b);
    if e.SummaryFailed? || e.Completed? {
      var reports := ProgressReports(|StoredValues(b, root, e.items)|, |e.items|);
      assert SubmitReports(password, b, root) == reports;
    } else {
      assert SubmitReports(password, b, root) == [];
    }
  }

  lemma SubmitReportsWellBehaved(password: string, b: Backend, root: string)
    ensures var shown := [0] + SubmitReports(password, b, root);
      && (forall i, j :: 0 <= i < j < |shown| ==> shown[i] <= shown[j])
      && (forall i :: 0 <= i < |shown| ==> 0 <= shown[i] <= 100)
  {
    var e := SubmitEndOf(password, b);
    if e.SummaryFailed? || e.Completed? {
      var n := |StoredValues(b, root, e.items)|;
      assert SubmitReports(password, b, root) == ProgressReports(n, |e.items|);
      ProgressWellBehaved(n, |e.items|);
    } else {
      assert SubmitReports(password, b, root) == [];
    }
  }

  /**
    The values a submission gives the progress bar start with the reset to
    0, never decrease, stay within 0..100, and the last one is what the bar
    keeps.
   */
  lemma SubmitProgress(s: LoginState, password: string, b: Backend, root: string)
    ensures var r := Submitted(s, password, b, root);
      && |s.shownProgress| < |r.shownProgress|
      && (var shown := r.shownProgress[|s.shownProgress|..];
          && shown[0] == 0
          && (forall i, j :: 0 <= i < j < |shown| ==> shown[i] <= shown[j])
          && (forall i :: 0 <= i < |shown| ==> 0 <= shown[i] <= 100)
          && r.progress == shown[|shown| - 1])
  {
    var r := Submitted(s, password, b, root);
    SubmitShown(s, password, b, root);
    SubmitReportsWellBehaved(password, b, root);
    AppendedProgress(s.shownProgress, SubmitReports(password, b, root), r.shownProgress, r.progress);
  }

  /** When the content list is non-empty and every item downloads, the bar ends at 100. */
  lemma SubmitReachesHundred(s: LoginState, password: string, b: Backend, root: string)
    requires SubmitEndOf(password, b).SummaryFailed? || SubmitEndOf(password, b).Completed?
    requires SubmitEndOf(password, b).items != []
    requires forall x :: x in SubmitEndOf(password, b).items ==> Downloaded(b, root, x).Some?
    ensures Submitted(s, password, b, root).progress == 100
  {
    var items := SubmitEndOf(password, b).items;
    AllDownloaded(b, root, items);
    ProgressWellBehaved(|StoredValues(b, root, items)|, |items|);
  }

  /**
    After a completed submission the cache holds the summary and, under
    each kept record's `content` key, a record of a response item whose
    download did not throw.
   */
  lemma CompletedCacheContents(s: LoginState, password: string, b: Backend, root: string, key: string)
    requires SubmitEndOf(password, b).Completed?
    ensures var r := Submitted(s, password, b, root);
      var items := SubmitEndOf(password, b).items;
      && r.cachedSummary == Some(SubmitEndOf(password, b).summary)
      && (key in r.entries ==>
            exists i :: 0 <= i < |items| && Downloaded(b, root, items[i]) == Some(r.entries[key]))
  {
    var items := SubmitEndOf(password, b).items;
    var stored := StoredValues(b, root, items);
    var r := Submitted(s, password, b, root);
    if key in r.entries {
      assert r.entries == PutAll(map[], stored);
      PutAllValues(map[], stored, key);
      StoredValuesExactly(b, root, items, r.entries[key]);
    }
  }

  /** Every value of `PutAll(m, vs)` under a key `m` lacks is one of `vs`. */
  lemma {:induction false} PutAllValues(m: map<string, MultimediaContent>, vs: seq<MultimediaContent>, key: string)
    requires key in PutAll(m, vs) && key !in m
    ensures PutAll(m, vs)[key] in vs
  {
    if vs != [] {
      var init := vs[..|vs| - 1];
      if key != vs[|vs| - 1].content {
        PutAllValues(m, init, key);
      }
    }
  }

  /**
    Falsy results of the cache calls are only logged: two backends that
    differ only in what `clearCache`, `saveToCache` and `saveDeviceSummary`
    resolve to give the same submission.
   */
  lemma TruthinessIgnored(s: LoginState, password: string, b1: Backend, b2: Backend, root: string)
    requires forall p :: b1.login(p) == b2.login(p)
    requires forall url :: b1.fetch(url) == b2.fetch(url)
    requires forall blob :: b1.objectUrl(blob) == b2.objectUrl(blob)
    requires forall key :: b1.save(key).SaveThrew? == b2.save(key).SaveThrew?
    requires b1.clear.CallThrew? == b2.clear.CallThrew?
    requires b1.saveSummary.CallThrew? == b2.saveSummary.CallThrew?
    ensures Submitted(s, password, b1, root) == Submitted(s, password, b2, root)
  {
    var e1, e2 := SubmitEndOf(password, b1), SubmitEndOf(password, b2);
    assert e1 == e2;
    if e1.SummaryFailed? || e1.Completed? {
      SaveTruthinessIgnored(b1, b2, root, e1.items);
    }
  }

  class Login {
    var password: string
    var loading: bool
    var progress: int
    var error: Option<string>
    var navigatedTo: Option<string>
    /** Every value the progress bar was given, in order. */
    ghost var shownProgress: seq<int>
    const cache: Cache

    ghost function State(): LoginState
      reads this, cache
    {
      LoginState(loading, progress, error, navigatedTo, shownProgress, cache.entries, cache.summary, cache.ops)
    }

    constructor (cache: Cache)
      ensures this.cache == cache && password == ""
      ensures !loading && progress == 0 && error.None? && navigatedTo.None? && shownProgress == []
    {
      this.cache := cache;
      password, loading, progress := "", false, 0;
      error, navigatedTo := None, None;
      shownProgress := [];
    }

    /** The input's `onChange`: `setPassword(e.target.value)`. */
    method ChangePassword(value: string)
      modifies this
      ensures password == value
      ensures loading == old(loading) && progress == old(progress) && error == old(error)
      ensures navigatedTo == old(navigatedTo) && shownProgress == old(shownProgress)
    {
      password := value;
    }

    /** The part of the try block after a complete response: clear the cache, then the download loop. */
    method DownloadContent(items: seq<MultimediaContent>, b: Backend, root: string)
      modifies this, cache
      ensures State() == AfterDownload(old(State()), items, b, root)
      ensures password == old(password)
    {
      cache.ClearCache();
      var stored, reports := FetchAndSave(cache, b, root, items);
      shownProgress := shownProgress + reports;
      if reports != [] {
        progress := reports[|reports| - 1];
      }
    }

    /** `handleSubmit`. */
    method HandleSubmit(b: Backend, root: string)
      modifies this, cache
      ensures State() == Submitted(old(State()), old(password), b, root)
      ensures password == old(password)
    {
      ghost var s0 := State();
      loading, error, progress := true, None, 0;
      shownProgress := shownProgress + [0];
      var outcome := b.login(password);
      if outcome.LoginThrew? || outcome.data.None? {
        error := Some(FetchFailedMessage);
        assert SubmitEndOf(password, b) == LoginFailed;
      } else {
        var response := outcome.data.value;
        if response.summary.Some? && response.content.Some? {
          if b.clear.CallThrew? {
            error := Some(FetchFailedMessage);
            assert SubmitEndOf(password, b) == ClearFailed;
          } else {
            var items := response.content.value;
            assert State() == Started(s0);
            DownloadContent(items, b, root);
            ghost var d := State();
            assert d == AfterDownload(Started(s0), items, b, root);
            if b.saveSummary.CallThrew? {
              error := Some(FetchFailedMessage);
              assert SubmitEndOf(password, b) == SummaryFailed(items);
            } else {
              cache.SaveDeviceSummary(response.summary.value);
              navigatedTo := Some(HomeRoute);
              assert SubmitEndOf(password, b) == Completed(response.summary.value, items);
              assert State() == d.(cachedSummary := Some(response.summary.value),
                                   ops := d.ops + [PutSummary(response.summary.value)],
                                   navigatedTo := Some(HomeRoute));
            }
          }
        } else {
          error := Some(MismatchMessage);
          assert SubmitEndOf(password, b) == Mismatch;
        }
      }
      loading := false;
    }
  }
}
