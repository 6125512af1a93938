/**
 * The post-processing of `transcribe_audio` and `save_transcription`: the
 * speech-recognition model's segments (an input here) become the
 * transcription record, and the record is written as plain text, JSON,
 * SubRip or WebVTT.
 */
module Transcribe {
  import opened Wrappers
  import opened Text
  import opened Clock
  import opened Transcript
  import ApplyLabels

  /** One segment the speech-recognition model yields. */
  datatype WhisperSegment = WhisperSegment(start: real, end: real, text: string)

  /** The `info` the model returns with its segments. */
  datatype TranscriptionInfo = TranscriptionInfo(language: string, languageProbability: real, duration: real)

  /** The record `transcribe_audio` returns. */
  datatype TranscriptionResult = TranscriptionResult(
    language: string,
    languageProbability: real,
    duration: real,
    segments: seq<TextSegment>,
    text: string)

  /** The segment texts as the model gave them. */
  function RawTexts(segs: seq<WhisperSegment>): (r: seq<string>)
    ensures |r| == |segs|
  {
    seq(|segs|, k requires 0 <= k < |segs| => segs[k].text)
  }

  /** The stripped segment texts: `full_text`. */
  function StrippedTexts(segs: seq<WhisperSegment>): (r: seq<string>)
    ensures |r| == |segs|
  {
    seq(|segs|, k requires 0 <= k < |segs| => Strip(segs[k].text))
  }

  /**
   * The segment and full-text collection of `transcribe_audio`: one record
   * per model segment, in order, with its text stripped, and the stripped
   * texts joined by single spaces.
   */
  method TranscribeAudio(segments: seq<WhisperSegment>, info: TranscriptionInfo) returns (result: TranscriptionResult)
    ensures |result.segments| == |segments|
    ensures forall i :: 0 <= i < |segments| ==>
      result.segments[i] == TextSegment(segments[i].start, segments[i].end, Strip(segments[i].text))
    ensures result.text == Join(StrippedTexts(segments), " ")
    ensures result.language == info.language && result.languageProbability == info.languageProbability
    ensures result.duration == info.duration
  {
    var allSegments: seq<TextSegment> := [];
    var fullText: seq<string> := [];
    for i := 0 to |segments|
      invariant |allSegments| == i && |fullText| == i
      invariant forall j :: 0 <= j < i ==>
        allSegments[j] == TextSegment(segments[j].start, segments[j].end, Strip(segments[j].text))
      invariant forall j :: 0 <= j < i ==> fullText[j] == Strip(segments[j].text)
    {
      var segment := segments[i];
      allSegments := allSegments + [TextSegment(segment.start, segment.end, Strip(segment.text))];
      fullText := fullText + [Strip(segment.text)];
    }
    assert fullText == StrippedTexts(segments);
    result := TranscriptionResult(info.language, info.languageProbability, info.duration, allSegments, Join(fullText, " "));
  }

  /**
   * The full text loses only whitespace: its non-whitespace characters are
   * those of the model's texts, in order.
   */
  lemma FullTextKeepsNonSpace(segs: seq<WhisperSegment>)
    ensures NonSpace(Join(StrippedTexts(segs), " ")) == NonSpace(Concat(RawTexts(segs)))
  {
    JoinWithSpaceKeepsNonSpace(StrippedTexts(segs));
    StrippedConcatKeepsNonSpace(segs);
  }

  lemma {:induction false} StrippedConcatKeepsNonSpace(segs: seq<WhisperSegment>)
    ensures NonSpace(Concat(StrippedTexts(segs))) == NonSpace(Concat(RawTexts(segs)))
  {
    if segs != [] {
      var rest := segs[1..];
      assert StrippedTexts(segs)[1..] == StrippedTexts(rest);
      assert RawTexts(segs)[1..] == RawTexts(rest);
      StrippedConcatKeepsNonSpace(rest);
      NonSpaceConcat(Strip(segs[0].text), Concat(StrippedTexts(rest)));
      NonSpaceConcat(segs[0].text, Concat(RawTexts(rest)));
      StripKeepsNonSpace(segs[0].text);
    }
  }

  /** `format_timestamp`: `HH:MM:SS,mmm`. */
  function FormatTimestamp(s: real): (r: string)
    ensures StampShaped(r, ',')
  {
    FormatClock(s, ',')
  }

  /**
   * `format_timestamp` is the SubRip formatter of the labelling renderer,
   * and a non-negative time reads back, with a comma, to the time truncated
   * to whole milliseconds.
   */
  lemma FormatTimestampIsSrt(s: real)
    ensures FormatTimestamp(s) == ApplyLabels.FormatSrtTimestamp(s)
    ensures s >= 0.0 ==> ParseClock(FormatTimestamp(s), ',') == Some((s * 1000.0).Floor)
  {
    if s >= 0.0 {
      FormatClockRoundTrip(s, ',', '.');
    }
  }

  /** The `k`-th group of `size` lines. */
  function Group(lines: seq<string>, k: nat, size: nat): seq<string>
    requires size * k + size <= |lines|
  {
    lines[size * k..size * k + size]
  }

  /** Appending lines leaves the earlier groups as they were. */
  lemma GroupOfPrefix(p: seq<string>, c: seq<string>, k: nat, size: nat)
    requires size * k + size <= |p|
    ensures Group(p + c, k, size) == Group(p, k, size)
  {
  }

  /** Appending one group's worth of lines after `k` whole groups makes it group `k`. */
  lemma GroupOfLast(p: seq<string>, c: seq<string>, k: nat, size: nat)
    requires |p| == size * k && |c| == size
    ensures Group(p + c, k, size) == c
  {
  }

  /** One SubRip cue: number, time range, text, blank line. */
  function SrtCue(number: nat, seg: TextSegment, stamp: real -> string): seq<string> {
    [NatToString(number), stamp(seg.start) + " --> " + stamp(seg.end), seg.text, ""]
  }

  /** The SubRip lines of `save_transcription`: a cue for every segment, numbered from 1. */
  function SrtLines(segs: seq<TextSegment>, stamp: real -> string): seq<string> {
    if segs == [] then []
    else SrtLines(segs[..|segs| - 1], stamp) + SrtCue(|segs|, segs[|segs| - 1], stamp)
  }

  /**
   * Every segment has a cue, blank ones included, and the `k`-th cue is
   * numbered `k + 1`: the numbering is contiguous.
   */
  lemma {:induction false} SrtCuesContiguous(segs: seq<TextSegment>, stamp: real -> string)
    ensures |SrtLines(segs, stamp)| == 4 * |segs|
    ensures forall k :: 0 <= k < |segs| ==> Group(SrtLines(segs, stamp), k, 4) == SrtCue(k + 1, segs[k], stamp)
  {
    if segs != [] {
      var init := segs[..|segs| - 1];
      SrtCuesContiguous(init, stamp);
      var p, last := SrtLines(init, stamp), SrtCue(|segs|, segs[|segs| - 1], stamp);
      assert SrtLines(segs, stamp) == p + last;
      forall k | 0 <= k < |segs| ensures Group(p + last, k, 4) == SrtCue(k + 1, segs[k], stamp) {
        if k < |init| {
          GroupOfPrefix(p, last, k, 4);
          assert segs[k] == init[k];
        } else {
          GroupOfLast(p, last, k, 4);
        }
      }
    }
  }

  lemma SrtLinesSnoc(segs: seq<TextSegment>, i: nat, stamp: real -> string)
    requires i < |segs|
    ensures SrtLines(segs[..i + 1], stamp) == SrtLines(segs[..i], stamp) + SrtCue(i + 1, segs[i], stamp)
  {
    assert segs[..i + 1][..i] == segs[..i];
  }

  /** The SubRip loop of `save_transcription`. */
  method BuildSrt(segs: seq<TextSegment>, stamp: real -> string) returns (out: string)
    ensures out == Join(SrtLines(segs, stamp), "\n")
  {
    var lines: seq<string> := [];
    for i := 0 to |segs|
      invariant lines == SrtLines(segs[..i], stamp)
    {
      var seg := segs[i];
      SrtLinesSnoc(segs, i, stamp);
      lines := lines + [NatToString(i + 1)];
      lines := lines + [stamp(seg.start) + " --> " + stamp(seg.end)];
      lines := lines + [seg.text];
      lines := lines + [""];
    }
    assert segs[..|segs|] == segs;
    out := Join(lines, "\n");
  }

  /** One WebVTT cue: time range, text, blank line. */
  function VttCue(seg: TextSegment, stamp: real -> string): seq<string> {
    [stamp(seg.start) + " --> " + stamp(seg.end), seg.text, ""]
  }

  /** The cue lines after the `WEBVTT` header: one cue for every segment. */
  function VttLines(segs: seq<TextSegment>, stamp: real -> string): seq<string> {
    if segs == [] then []
    else VttLines(segs[..|segs| - 1], stamp) + VttCue(segs[|segs| - 1], stamp)
  }

  /** Every segment has a cue of three lines, in order. */
  lemma {:induction false} VttCuesInOrder(segs: seq<TextSegment>, stamp: real -> string)
    ensures |VttLines(segs, stamp)| == 3 * |segs|
    ensures forall k :: 0 <= k < |segs| ==> Group(VttLines(segs, stamp), k, 3) == VttCue(segs[k], stamp)
  {
    if segs != [] {
      var init := segs[..|segs| - 1];
      VttCuesInOrder(init, stamp);
      var p, last := VttLines(init, stamp), VttCue(segs[|segs| - 1], stamp);
      assert VttLines(segs, stamp) == p + last;
      forall k | 0 <= k < |segs| ensures Group(p + last, k, 3) == VttCue(segs[k], stamp) {
        if k < |init| {
          GroupOfPrefix(p, last, k, 3);
          assert segs[k] == init[k];
        } else {
          GroupOfLast(p, last, k, 3);
        }
      }
    }
  }

  lemma VttLinesSnoc(segs: seq<TextSegment>, i: nat, stamp: real -> string)
    requires i < |segs|
    ensures VttLines(segs[..i + 1], stamp) == VttLines(segs[..i], stamp) + VttCue(segs[i], stamp)
  {
    assert segs[..i + 1][..i] == segs[..i];
  }

  /** The WebVTT loop of `save_transcription`. */
  method BuildVtt(segs: seq<TextSegment>, stamp: real -> string) returns (out: string)
    ensures out == Join(["WEBVTT", ""] + VttLines(segs, stamp), "\n")
  {
    var lines: seq<string> := ["WEBVTT", ""];
    for i := 0 to |segs|
      invariant lines == ["WEBVTT", ""] + VttLines(segs[..i], stamp)
    {
      var seg := segs[i];
      VttLinesSnoc(segs, i, stamp);
      lines := lines + [stamp(seg.start) + " --> " + stamp(seg.end)];
      lines := lines + [seg.text];
      lines := lines + [""];
    }
    assert segs[..|segs|] == segs;
    out := Join(lines, "\n");
  }

  /** What `save_transcription` writes: text, the JSON record, or nothing for an unknown format. */
  datatype Written = TextFile(content: string) | JsonFile(record: TranscriptionResult) | NothingWritten

  /**
   * `save_transcription`. Both subtitle formats use `format_timestamp`, so
   * the WebVTT cues carry comma stamps.
   */
  method SaveTranscription(result: TranscriptionResult, format: string) returns (w: Written)
    ensures format == "txt" ==> w == TextFile(result.text)
    ensures format == "json" ==> w == JsonFile(result)
    ensures format == "srt" ==> w == TextFile(Join(SrtLines(result.segments, FormatTimestamp), "\n"))
    ensures format == "vtt" ==> w == TextFile(Join(["WEBVTT", ""] + VttLines(result.segments, FormatTimestamp), "\n"))
    ensures w == NothingWritten <==> format !in {"txt", "json", "srt", "vtt"}
  {
    if format == "txt" {
      w := TextFile(result.text);
    } else if format == "json" {
      w := JsonFile(result);
    } else if format == "srt" {
      var content := BuildSrt(result.segments, FormatTimestamp);
      w := TextFile(content);
    } else if format == "vtt" {
      var content := BuildVtt(result.segments, FormatTimestamp);
      w := TextFile(content);
    } else {
      w := NothingWritten;
    }
  }

  /**
   * As written, a segment from 0 s to 1.5 s gets a WebVTT cue whose end
   * stamp reads back as 1500 ms with a comma and is refused with a full
   * stop.
   */
  lemma AsWrittenVttCue()
    ensures var seg := TextSegment(0.0, 1.5, "hi");
      VttLines([seg], FormatTimestamp) == [FormatTimestamp(0.0) + " --> " + FormatTimestamp(1.5), "hi", ""]
      && FormatTimestamp(1.5) == "00:00:01" + [','] + "500"
      && ParseClock(FormatTimestamp(1.5), ',') == Some(1500)
      && ParseClock(FormatTimestamp(1.5), '.') == None
  {
    FormatClockHalfExample(',');
    var seg := TextSegment(0.0, 1.5, "hi");
    FormatClockRoundTrip(1.5, ',', '.');
    assert (1.5 * 1000.0).Floor == 1500;
    assert [seg][..0] == [];
  }

  /**
   * No `format_timestamp` stamp of a non-negative time is a WebVTT
   * timestamp (`HH:MM:SS.mmm`).
   */
  lemma AsWrittenVttStampRejected(s: real)
    requires s >= 0.0
    ensures ParseClock(FormatTimestamp(s), '.') == None
  {
    FormatClockRoundTrip(s, ',', '.');
  }

  /** The WebVTT file with the full-stop stamps the format requires. */
  method SaveWebVtt(result: TranscriptionResult) returns (w: Written)
    ensures w == TextFile(Join(["WEBVTT", ""] + VttLines(result.segments, ApplyLabels.FormatVttTimestamp), "\n"))
  {
    var content := BuildVtt(result.segments, ApplyLabels.FormatVttTimestamp);
    w := TextFile(content);
  }

  /**
   * With the WebVTT stamp a segment's cue starts with a stamp that reads
   * back with a full stop, for every non-negative start.
   */
  lemma CorrectedVttCue(seg: TextSegment)
    requires seg.start >= 0.0
    ensures VttLines([seg], ApplyLabels.FormatVttTimestamp)
      == [ApplyLabels.FormatVttTimestamp(seg.start) + " --> " + ApplyLabels.FormatVttTimestamp(seg.end), seg.text, ""]
    ensures ParseClock(ApplyLabels.FormatVttTimestamp(seg.start), '.') == Some((seg.start * 1000.0).Floor)
  {
    FormatClockRoundTrip(seg.start, '.', ',');
    assert [seg][..0] == [];
  }
}
