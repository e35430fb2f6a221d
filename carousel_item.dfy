/**
  One slide of the player page (src/components/CarouselItem.tsx): it looks
  its media up in the cache under the decimal string of `id_content`,
  sets the remote URL when the lookup misses and no source when it hits,
  renders nothing until a source is set, and renders a video only for
  the active slide of a video file.
 */
module CarouselItem {
  import opened DeviceData
  import opened Media
  import opened MediaCache
  import opened ContentDownload

  // ----- The cache key (`media.id_content.toString()`) -----

  function DigitChar(d: nat): char
    requires d < 10
  {
    ('0' as int + d) as char
  }

  predicate IsDigit(c: char)
  {
    '0' <= c <= '9'
  }

  /** `Number.prototype.toString()` of a non-negative integer: its decimal numeral, without leading zeros. */
  function DecimalString(n: nat): (s: string)
    ensures |s| >= 1 && forall i :: 0 <= i < |s| ==> IsDigit(s[i])
    ensures s[0] == '0' ==> n == 0
  {
    if n < 10 then [DigitChar(n)] else DecimalString(n / 10) + [DigitChar(n % 10)]
  }

  /** The value of a string of decimal digits. */
  function DecimalValue(s: string): int
    requires forall i :: 0 <= i < |s| ==> IsDigit(s[i])
  {
    if s == [] then 0 else 10 * DecimalValue(s[..|s| - 1]) + (s[|s| - 1] as int - '0' as int)
  }

  /** The numeral names the number it was made from, so distinct ids give distinct keys. */
  lemma {:induction false} DecimalRoundTrip(n: nat)
    ensures DecimalValue(DecimalString(n)) == n
  {
    if n >= 10 {
      DecimalRoundTrip(n / 10);
      var s := DecimalString(n);
      assert s[..|s| - 1] == DecimalString(n / 10);
    }
  }

  /** The key `getFromCache` is called with: a decimal numeral that reads back as the id. */
  function LookupKey(media: MultimediaContent): (key: string)
    ensures |key| >= 1 && forall i :: 0 <= i < |key| ==> IsDigit(key[i])
    ensures DecimalValue(key) == media.idContent
  {
    DecimalRoundTrip(media.idContent);
    DecimalString(media.idContent)
  }

  // ----- The source (`fetchCachedMedia`) -----

  /**
    What one run of the effect leaves in `src`. The writers store plain
    records (`{ ...content, localUrl }`), never a Blob, so on a cache hit
    `URL.createObjectURL(cachedMedia)` throws, the promise nobody awaits
    rejects and `setSrc` never runs: `src` keeps its value. On a miss it
    becomes the remote URL `BACKEND_ROOT + url_content` (whose `encodeURI`
    escaping is not modelled).
   */
  function AfterFetch(src: Option<string>, entries: map<string, MultimediaContent>, media: MultimediaContent,
                      root: string): (r: Option<string>)
    ensures LookupKey(media) in entries ==> r == src
    ensures LookupKey(media) !in entries ==> r == Some(root + media.urlContent)
  {
    if LookupKey(media) in entries then src else Some(root + media.urlContent)
  }

  /**
    After a refresh or login cycle saved `stored` into an emptied cache, the
    lookup hits exactly when some saved record's `content` key happens to
    equal the decimal numeral of the item's `id_content`.
   */
  lemma HitAfterCycle(stored: seq<MultimediaContent>, media: MultimediaContent)
    ensures LookupKey(media) in PutAll(map[], stored)
        <==> exists v :: v in stored && v.content == LookupKey(media)
  {
    var key := LookupKey(media);
    if key in PutAll(map[], stored) {
      assert key in set v | v in stored :: v.content;
    }
    if exists v :: v in stored && v.content == key {
      var v :| v in stored && v.content == key;
      assert key in set v | v in stored :: v.content;
    }
  }

  /**
    The writers key records by `content` and this reader by `id_content`:
    when no saved `content` key is a decimal numeral, every lookup misses
    and the slide loads the remote URL.
   */
  lemma NumericKeysOnlyHit(stored: seq<MultimediaContent>, src: Option<string>, media: MultimediaContent, root: string)
    requires forall v :: v in stored ==> !(|v.content| >= 1 && forall i :: 0 <= i < |v.content| ==> IsDigit(v.content[i]))
    ensures AfterFetch(src, PutAll(map[], stored), media, root) == Some(root + media.urlContent)
  {
    HitAfterCycle(stored, media);
  }

  /**
    When the lookup does hit, the slide never gets a source: a new slide
    whose key is in the cache renders nothing, active or not.
   */
  lemma HitRendersNothing(stored: seq<MultimediaContent>, media: MultimediaContent, root: string, isActive: bool)
    requires exists v :: v in stored && v.content == LookupKey(media)
    ensures Render(AfterFetch(None, PutAll(map[], stored), media, root), media, isActive) == Nothing
  {
    HitAfterCycle(stored, media);
  }

  /** A concrete case: the record saved under "promo.mp4" is not found for its id 7. */
  lemma SavedRecordNotFound(root: string)
    ensures var v := MultimediaContent(None, 1, 7, "promo.mp4", "/media/promo.mp4", None, None, None, None, None, None, None);
      && "promo.mp4" in PutAll(map[], [v])
      && AfterFetch(None, PutAll(map[], [v]), v, root) == Some(root + "/media/promo.mp4")
  {
    var v := MultimediaContent(None, 1, 7, "promo.mp4", "/media/promo.mp4", None, None, None, None, None, None, None);
    assert LookupKey(v) == "7";
    assert PutAll(map[], [v]) == map["promo.mp4" := v];
  }

  // ----- Rendering -----

  datatype Rendered =
    | Nothing
    | VideoElement(src: string, rotation: int, active: bool)
    | ImageElement(src: string, rotation: int, active: bool)

  /** `src` is falsy while unset and when it is the empty string. */
  predicate SrcTruthy(src: Option<string>)
    ensures SrcTruthy(src) ==> src.Some? && |src.value| >= 1
  {
    src.Some? && src.value != ""
  }

  function Render(src: Option<string>, media: MultimediaContent, isActive: bool): (r: Rendered)
    ensures r.Nothing? <==> !SrcTruthy(src)
    ensures r.VideoElement? <==> SrcTruthy(src) && IsVideo(media.urlContent) && isActive
    ensures !r.Nothing? ==> r.src == src.value && r.active == isActive && r.rotation == NullishDefault(media.rotation, 0)
  {
    if !SrcTruthy(src) then Nothing
    else if IsVideo(media.urlContent) && isActive then VideoElement(src.value, NullishDefault(media.rotation, 0), isActive)
    else ImageElement(src.value, NullishDefault(media.rotation, 0), isActive)
  }

  /** Inactive slides never play: a video file that is not the current slide shows as an image. */
  lemma InactiveVideoIsImage(src: Option<string>, media: MultimediaContent)
    requires SrcTruthy(src) && IsVideo(media.urlContent)
    ensures Render(src, media, false).ImageElement?
    ensures Render(src, media, true).VideoElement?
  {
  }

  /** The slide's own state: the `src` its effect sets. */
  class ItemView {
    var src: Option<string>

    /** `useState<string | null>(null)`. */
    constructor ()
      ensures src.None?
    {
      src := None;
    }

    /** `fetchCachedMedia`: one cache read, then `setSrc` on a miss only. */
    method FetchCachedMedia(cache: Cache, media: MultimediaContent, root: string)
      modifies this
      ensures src == AfterFetch(old(src), cache.entries, media, root)
    {
      var key := LookupKey(media);
      if key !in cache.entries {
        src := Some(root + media.urlContent);
      }
    }
  }
}
