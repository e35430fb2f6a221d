/**
  Classification of media by the extension of `url_content`.  The carousel
  components test three suffixes case-sensitively with `endsWith`
  (src/components/Home.tsx, src/components/CarouselItem.tsx); the page that
  times the slides uses the regular expression `/\.(mp4|mov|gif)$/i`
  instead (src/pages/Home.tsx), which ignores ASCII case.
 */
module Media {

  predicate EndsWith(s: string, suffix: string)
  {
    |suffix| <= |s| && s[|s| - |suffix|..] == suffix
  }

  /** `url.endsWith(".mp4") || url.endsWith(".gif") || url.endsWith(".mov")`. */
  predicate IsVideo(url: string)
    ensures IsVideo(url) ==> |url| >= 4 && url[|url| - 4] == '.'
  {
    EndsWith(url, ".mp4") || EndsWith(url, ".gif") || EndsWith(url, ".mov")
  }

  function LowerAscii(c: char): char
  {
    if 'A' <= c <= 'Z' then (c as int + 32) as char else c
  }

  function LowerAsciiString(s: string): (r: string)
    ensures |r| == |s|
    ensures forall i :: 0 <= i < |s| ==> r[i] == LowerAscii(s[i])
  {
    if s == [] then [] else [LowerAscii(s[0])] + LowerAsciiString(s[1..])
  }

  /**
    `url.match(/\.(mp4|mov|gif)$/i)` succeeds: a dot and one of the three
    extensions, in any ASCII case, at the very end of the string.
   */
  predicate MatchesVideoPattern(url: string)
    ensures MatchesVideoPattern(url) ==> |url| >= 4 && url[|url| - 4] == '.'
  {
    |url| >= 4 && url[|url| - 4] == '.' &&
    LowerAsciiString(url[|url| - 3..]) in {"mp4", "mov", "gif"}
  }

  lemma LowerExtensions()
    ensures LowerAsciiString("mp4") == "mp4"
    ensures LowerAsciiString("gif") == "gif"
    ensures LowerAsciiString("mov") == "mov"
    ensures LowerAsciiString("MP4") == "mp4"
  {
    assert LowerAsciiString("4") == "4";
    assert LowerAsciiString("p4") == "p4";
    assert LowerAsciiString("P4") == "p4";
    assert LowerAsciiString("f") == "f";
    assert LowerAsciiString("if") == "if";
    assert LowerAsciiString("v") == "v";
    assert LowerAsciiString("ov") == "ov";
  }

  /** Every url the components call a video is also a video for the page's timer. */
  lemma IsVideoMatchesPattern(url: string)
    ensures IsVideo(url) ==> MatchesVideoPattern(url)
  {
    if IsVideo(url) {
      var tail := url[|url| - 4..];
      assert url[|url| - 4] == tail[0];
      assert url[|url| - 3..] == tail[1..];
      LowerExtensions();
    }
  }

  /** The converse fails: an upper-case extension is a video only for the page's timer. */
  lemma UpperCaseExtensionOnlyMatchesPattern()
    ensures exists url :: MatchesVideoPattern(url) && !IsVideo(url)
  {
    var url := "clip.MP4";
    LowerExtensions();
    assert url[|url| - 3..] == "MP4";
    assert url[|url| - 4..] == ".MP4";
    assert MatchesVideoPattern(url) && !IsVideo(url);
  }
}
