/**
 * Applying speaker labels to a merged transcript and rendering it as plain
 * text, Markdown, a structured JSON record, SubRip (SRT) or WebVTT.
 */
module ApplyLabels {
  import opened Wrappers
  import opened Text
  import opened Clock
  import opened Transcript

  /**
   * The display name of a speaker: the label's name when the speaker has a
   * label with a name, and the raw id otherwise. Never fails.
   */
  function GetSpeakerName(speakerId: string, labels: map<string, LabelEntry>): (name: string)
    ensures speakerId in labels && labels[speakerId].name.Some? ==> name == labels[speakerId].name.value
    ensures !(speakerId in labels && labels[speakerId].name.Some?) ==> name == speakerId
  {
    if speakerId in labels then
      match labels[speakerId].name
      case Some(n) => n
      case None => speakerId
    else speakerId
  }

  /** Relabelling one speaker changes the name of that speaker only. */
  lemma RelabelOne(labels: map<string, LabelEntry>, id: string, e: LabelEntry, other: string)
    requires e.name.Some? && other != id
    ensures GetSpeakerName(id, labels[id := e]) == e.name.value
    ensures GetSpeakerName(other, labels[id := e]) == GetSpeakerName(other, labels)
  {
  }

  /** A segment whose stripped text is empty; every renderer but JSON skips it. */
  predicate Blank(seg: Segment) {
    IsBlank(seg.text)
  }

  /** Positions of the non-blank segments. */
  function Kept(segs: seq<Segment>): (r: seq<nat>)
    ensures forall k :: 0 <= k < |r| ==> r[k] < |segs|
  {
    if segs == [] then []
    else
      var init := segs[..|segs| - 1];
      Kept(init) + if Blank(segs[|segs| - 1]) then [] else [|segs| - 1]
  }

  /** `Kept` lists every non-blank position and no other, in ascending order. */
  lemma {:induction false} KeptExactly(segs: seq<Segment>)
    ensures forall k :: 0 <= k < |Kept(segs)| ==> !Blank(segs[Kept(segs)[k]])
    ensures forall k, l :: 0 <= k < l < |Kept(segs)| ==> Kept(segs)[k] < Kept(segs)[l]
    ensures forall j :: 0 <= j < |segs| && !Blank(segs[j]) ==> j in Kept(segs)
  {
    if segs != [] {
      var init := segs[..|segs| - 1];
      KeptExactly(init);
      forall j | 0 <= j < |segs| && !Blank(segs[j]) ensures j in Kept(segs) {
        if j < |init| {
          assert segs[j] == init[j];
        }
      }
    }
  }

  /** A non-blank segment as rendered: resolved name and stripped text. */
  datatype Utterance = Utterance(name: string, text: string)

  function Utter(seg: Segment, labels: map<string, LabelEntry>): Utterance {
    Utterance(GetSpeakerName(seg.speakerId, labels), Strip(seg.text))
  }

  /** The non-blank segments as utterances, in order. */
  function Utterances(segs: seq<Segment>, labels: map<string, LabelEntry>): seq<Utterance> {
    if segs == [] then []
    else
      var init := segs[..|segs| - 1];
      Utterances(init, labels) + if Blank(segs[|segs| - 1]) then [] else [Utter(segs[|segs| - 1], labels)]
  }

  /** The utterances of the segments at the given positions, in that order. */
  function UttersAt(segs: seq<Segment>, keys: seq<nat>, labels: map<string, LabelEntry>): seq<Utterance>
    requires forall k :: 0 <= k < |keys| ==> keys[k] < |segs|
  {
    if keys == [] then []
    else UttersAt(segs, keys[..|keys| - 1], labels) + [Utter(segs[keys[|keys| - 1]], labels)]
  }

  lemma {:induction false} UttersAtPrefix(segs: seq<Segment>, n: nat, keys: seq<nat>, labels: map<string, LabelEntry>)
    requires n <= |segs| && forall k :: 0 <= k < |keys| ==> keys[k] < n
    ensures UttersAt(segs, keys, labels) == UttersAt(segs[..n], keys, labels)
  {
    if keys != [] {
      UttersAtPrefix(segs, n, keys[..|keys| - 1], labels);
    }
  }

  /** The utterances are those of the non-blank segments, in order. */
  lemma {:induction false} UtterancesAreKept(segs: seq<Segment>, labels: map<string, LabelEntry>)
    ensures Utterances(segs, labels) == UttersAt(segs, Kept(segs), labels)
  {
    if segs != [] {
      var n := |segs| - 1;
      var init := segs[..n];
      var ks := Kept(init);
      UtterancesAreKept(init, labels);
      UttersAtPrefix(segs, n, ks, labels);
      assert Utterances(segs, labels) == Utterances(init, labels) + if Blank(segs[n]) then [] else [Utter(segs[n], labels)];
      if !Blank(segs[n]) {
        var keys := ks + [n];
        assert Kept(segs) == keys;
        assert keys[..|keys| - 1] == ks;
        assert UttersAt(segs, keys, labels) == UttersAt(segs, ks, labels) + [Utter(segs[n], labels)];
      } else {
        assert Kept(segs) == ks;
      }
    }
  }

  /** The header piece that opens a speaker's block. */
  function Header(u: Utterance, md: bool): string {
    if md then "\n**" + u.name + "**: " + u.text else "\n[" + u.name + "] " + u.text
  }

  /** The name of the last utterance: `current_speaker` after the loop. */
  function LastName(us: seq<Utterance>): Option<string> {
    if us == [] then None else Some(us[|us| - 1].name)
  }

  /** The piece for `u` when the previously emitted name was `previous`. */
  function Piece(previous: Option<string>, u: Utterance, md: bool): string {
    if previous != Some(u.name) then Header(u, md) else u.text
  }

  /** The pieces of the txt/md rendering, one per utterance. */
  function GroupedPieces(us: seq<Utterance>, md: bool): seq<string> {
    if us == [] then []
    else
      var init := us[..|us| - 1];
      GroupedPieces(init, md) + [Piece(LastName(init), us[|us| - 1], md)]
  }

  /** The name of the utterance before position `k`, if any. */
  function Previous(us: seq<Utterance>, k: nat): Option<string>
    requires k < |us|
  {
    if k == 0 then None else Some(us[k - 1].name)
  }

  /**
   * One piece per utterance: a header exactly when its name differs from
   * that of the previous utterance (the first always gets one), otherwise
   * the bare text; so two ids with the same label share a block.
   */
  lemma {:induction false} GroupedPiecesAt(us: seq<Utterance>, md: bool)
    ensures |GroupedPieces(us, md)| == |us|
    ensures forall k :: 0 <= k < |us| ==> GroupedPieces(us, md)[k] == Piece(Previous(us, k), us[k], md)
  {
    if us != [] {
      var n := |us| - 1;
      var init := us[..n];
      GroupedPiecesAt(init, md);
      forall k | 0 <= k < |us| ensures GroupedPieces(us, md)[k] == Piece(Previous(us, k), us[k], md) {
        GroupedPiecesLast(us, k, md);
      }
    }
  }

  /** One step of `GroupedPiecesAt`: a piece of the whole from a piece of the prefix, or the last one. */
  lemma GroupedPiecesLast(us: seq<Utterance>, k: nat, md: bool)
    requires k < |us|
    requires |GroupedPieces(us[..|us| - 1], md)| == |us| - 1
    requires k < |us| - 1 ==> GroupedPieces(us[..|us| - 1], md)[k] == Piece(Previous(us[..|us| - 1], k), us[k], md)
    ensures GroupedPieces(us, md)[k] == Piece(Previous(us, k), us[k], md)
  {
    var init := us[..|us| - 1];
    if k < |init| {
      assert Previous(us, k) == Previous(init, k);
    } else {
      assert LastName(init) == Previous(us, k);
    }
  }

  lemma UtterancesSnoc(segs: seq<Segment>, i: nat, labels: map<string, LabelEntry>)
    requires i < |segs|
    ensures Utterances(segs[..i + 1], labels) ==
      Utterances(segs[..i], labels) + if Blank(segs[i]) then [] else [Utter(segs[i], labels)]
  {
    assert segs[..i + 1][..i] == segs[..i];
  }

  lemma GroupedPiecesSnoc(us: seq<Utterance>, u: Utterance, md: bool)
    ensures GroupedPieces(us + [u], md) == GroupedPieces(us, md) + [Piece(LastName(us), u, md)]
    ensures LastName(us + [u]) == Some(u.name)
  {
    assert (us + [u])[..|us|] == us;
  }

  /** The txt/md loop of `apply_labels_to_transcript`. */
  method RenderGrouped(segs: seq<Segment>, labels: map<string, LabelEntry>, md: bool) returns (out: string)
    ensures out == Strip(Join(GroupedPieces(Utterances(segs, labels), md), " "))
  {
    var lines: seq<string> := [];
    var currentSpeaker: Option<string> := None;
    for i := 0 to |segs|
      invariant lines == GroupedPieces(Utterances(segs[..i], labels), md)
      invariant currentSpeaker == LastName(Utterances(segs[..i], labels))
    {
      var seg := segs[i];
      var speakerName := GetSpeakerName(seg.speakerId, labels);
      var text := Strip(seg.text);
      UtterancesSnoc(segs, i, labels);
      StripEmptyIffBlank(seg.text);
      if text == [] {
        assert Utterances(segs[..i + 1], labels) == Utterances(segs[..i], labels);
        continue;
      }
      ghost var u := Utterance(speakerName, text);
      assert Utter(seg, labels) == u;
      GroupedPiecesSnoc(Utterances(segs[..i], labels), u, md);
      assert Utterances(segs[..i + 1], labels) == Utterances(segs[..i], labels) + [u];
      ghost var next := lines + [Piece(currentSpeaker, u, md)];
      if currentSpeaker != Some(speakerName) {
        if md {
          lines := lines + ["\n**" + speakerName + "**: " + text];
        } else {
          lines := lines + ["\n[" + speakerName + "] " + text];
        }
        currentSpeaker := Some(speakerName);
      } else {
        lines := lines + [text];
      }
      assert lines == next;
    }
    assert segs[..|segs|] == segs;
    out := Strip(Join(lines, " "));
  }

  /** `format_srt_timestamp`: `HH:MM:SS,mmm`. */
  function FormatSrtTimestamp(s: real): (r: string)
    ensures StampShaped(r, ',')
  {
    FormatClock(s, ',')
  }

  /** `format_vtt_timestamp`: `HH:MM:SS.mmm`. */
  function FormatVttTimestamp(s: real): (r: string)
    ensures StampShaped(r, '.')
  {
    FormatClock(s, '.')
  }

  /**
   * The two stamps of a time have the same length and agree everywhere but
   * at the separator, the fourth character from the end.
   */
  lemma SrtVttDifferOnlyInSeparator(s: real)
    ensures |FormatSrtTimestamp(s)| == |FormatVttTimestamp(s)| >= 12
    ensures FormatSrtTimestamp(s)[|FormatSrtTimestamp(s)| - 4] == ','
    ensures FormatVttTimestamp(s)[|FormatVttTimestamp(s)| - 4] == '.'
    ensures forall i :: 0 <= i < |FormatSrtTimestamp(s)| && i != |FormatSrtTimestamp(s)| - 4 ==>
      FormatSrtTimestamp(s)[i] == FormatVttTimestamp(s)[i]
  {
    ClockFieldsInRange(s);
    SeparatorOnly(ClockFields(s), FormatSrtTimestamp(s), FormatVttTimestamp(s));
  }

  lemma SeparatorOnly(f: Fields, x: string, y: string)
    requires 0 <= f.minutes < 60 && 0 <= f.seconds < 60 && 0 <= f.millis < 1000
    requires x == Stamp(f, ',') && y == Stamp(f, '.')
    ensures |x| == |y| >= 12 && x[|x| - 4] == ',' && y[|y| - 4] == '.'
    ensures forall i :: 0 <= i < |x| && i != |x| - 4 ==> x[i] == y[i]
  {
    StampSeparatorOnly(f, ',', '.');
  }

  /** 3725.25 seconds: `01:02:05,250` in SubRip and `01:02:05.250` in WebVTT. */
  lemma TimestampExample()
    ensures FormatSrtTimestamp(3725.25) == "01:02:05" + [','] + "250"
    ensures FormatVttTimestamp(3725.25) == "01:02:05" + ['.'] + "250"
  {
    FormatClockExample(',');
    FormatClockExample('.');
  }

  /**
   * Non-negative times read back to the time truncated to whole
   * milliseconds, each with its own separator only.
   */
  lemma SubtitleTimestampsRoundTrip(s: real)
    requires s >= 0.0
    ensures ParseClock(FormatSrtTimestamp(s), ',') == Some((s * 1000.0).Floor)
    ensures ParseClock(FormatVttTimestamp(s), '.') == Some((s * 1000.0).Floor)
    ensures ParseClock(FormatSrtTimestamp(s), '.') == None
    ensures ParseClock(FormatVttTimestamp(s), ',') == None
  {
    FormatClockRoundTrip(s, ',', '.');
    FormatClockRoundTrip(s, '.', ',');
  }

  /**
   * One SRT cue: number, time range, labelled text, blank line. The cue
   * builders take the timestamp formatter as a parameter; the dispatcher
   * passes `FormatSrtTimestamp` or `FormatVttTimestamp`.
   */
  function SrtCue(number: nat, seg: Segment, labels: map<string, LabelEntry>, stamp: real -> string): seq<string> {
    [NatToString(number),
     stamp(seg.start) + " --> " + stamp(seg.end),
     "[" + GetSpeakerName(seg.speakerId, labels) + "] " + Strip(seg.text),
     ""]
  }

  /** The SRT lines: a cue for each non-blank segment, numbered by its 1-based position in the whole list. */
  function SrtLines(segs: seq<Segment>, labels: map<string, LabelEntry>, stamp: real -> string): seq<string> {
    if segs == [] then []
    else
      var init := segs[..|segs| - 1];
      SrtLines(init, labels, stamp) + if Blank(segs[|segs| - 1]) then [] else SrtCue(|segs|, segs[|segs| - 1], labels, stamp)
  }

  /** The cues of the segments at the given positions, each numbered by its position plus one. */
  function SrtCuesAt(segs: seq<Segment>, keys: seq<nat>, labels: map<string, LabelEntry>, stamp: real -> string): seq<string>
    requires forall k :: 0 <= k < |keys| ==> keys[k] < |segs|
  {
    if keys == [] then []
    else
      var j := keys[|keys| - 1];
      SrtCuesAt(segs, keys[..|keys| - 1], labels, stamp) + SrtCue(j + 1, segs[j], labels, stamp)
  }

  lemma {:induction false} SrtCuesAtPrefix(segs: seq<Segment>, n: nat, keys: seq<nat>, labels: map<string, LabelEntry>, stamp: real -> string)
    requires n <= |segs| && forall k :: 0 <= k < |keys| ==> keys[k] < n
    ensures SrtCuesAt(segs, keys, labels, stamp) == SrtCuesAt(segs[..n], keys, labels, stamp)
  {
    if keys != [] {
      SrtCuesAtPrefix(segs, n, keys[..|keys| - 1], labels, stamp);
    }
  }

  /**
   * The SRT lines are the cues of the non-blank segments, in order, each
   * numbered by the segment's 1-based position in the whole list, so blank
   * segments leave gaps in the numbering.
   */
  lemma {:induction false} SrtCuesNumberedByPosition(segs: seq<Segment>, labels: map<string, LabelEntry>, stamp: real -> string)
    ensures SrtLines(segs, labels, stamp) == SrtCuesAt(segs, Kept(segs), labels, stamp)
  {
    if segs != [] {
      var n := |segs| - 1;
      var init := segs[..n];
      var ks := Kept(init);
      SrtCuesNumberedByPosition(init, labels, stamp);
      SrtCuesAtPrefix(segs, n, ks, labels, stamp);
      assert SrtLines(segs, labels, stamp) == SrtLines(init, labels, stamp) + if Blank(segs[n]) then [] else SrtCue(n + 1, segs[n], labels, stamp);
      if !Blank(segs[n]) {
        assert Kept(segs) == ks + [n];
        SrtCuesAtSnoc(segs, ks, n, labels, stamp);
      } else {
        assert Kept(segs) == ks;
      }
    }
  }

  lemma SrtCuesAtSnoc(segs: seq<Segment>, keys: seq<nat>, n: nat, labels: map<string, LabelEntry>, stamp: real -> string)
    requires n < |segs| && forall k :: 0 <= k < |keys| ==> keys[k] < |segs|
    ensures SrtCuesAt(segs, keys + [n], labels, stamp) == SrtCuesAt(segs, keys, labels, stamp) + SrtCue(n + 1, segs[n], labels, stamp)
  {
    assert (keys + [n])[..|keys|] == keys;
  }

  /** Every SRT cue is four lines. */
  lemma {:induction false} SrtCuesAtLength(segs: seq<Segment>, keys: seq<nat>, labels: map<string, LabelEntry>, stamp: real -> string)
    requires forall k :: 0 <= k < |keys| ==> keys[k] < |segs|
    ensures |SrtCuesAt(segs, keys, labels, stamp)| == 4 * |keys|
  {
    if keys != [] {
      SrtCuesAtLength(segs, keys[..|keys| - 1], labels, stamp);
    }
  }

  lemma SrtLinesSnoc(segs: seq<Segment>, i: nat, labels: map<string, LabelEntry>, stamp: real -> string)
    requires i < |segs|
    ensures SrtLines(segs[..i + 1], labels, stamp) ==
      SrtLines(segs[..i], labels, stamp) + if Blank(segs[i]) then [] else SrtCue(i + 1, segs[i], labels, stamp)
  {
    assert segs[..i + 1][..i] == segs[..i];
  }

  /** Appending the lines of a cue one by one appends the cue. */
  lemma AppendedLines(prior: seq<string>, cue: seq<string>, lines: seq<string>)
    requires 3 <= |cue| <= 4
    requires |cue| == 4 ==> lines == prior + [cue[0]] + [cue[1]] + [cue[2]] + [cue[3]]
    requires |cue| == 3 ==> lines == prior + [cue[0]] + [cue[1]] + [cue[2]]
    ensures lines == prior + cue
  {
  }

  /** The SRT loop of `apply_labels_to_transcript`. */
  method RenderSrt(segs: seq<Segment>, labels: map<string, LabelEntry>, stamp: real -> string) returns (out: string)
    ensures out == Join(SrtLines(segs, labels, stamp), "\n")
  {
    var lines: seq<string> := [];
    for i := 0 to |segs|
      invariant lines == SrtLines(segs[..i], labels, stamp)
    {
      var seg := segs[i];
      var speakerName := GetSpeakerName(seg.speakerId, labels);
      var text := Strip(seg.text);
      SrtLinesSnoc(segs, i, labels, stamp);
      StripEmptyIffBlank(seg.text);
      if text == [] {
        assert Blank(seg);
        continue;
      }
      ghost var prior := lines;
      var startTime := stamp(seg.start);
      var endTime := stamp(seg.end);
      lines := lines + [NatToString(i + 1)];
      lines := lines + [startTime + " --> " + endTime];
      lines := lines + ["[" + speakerName + "] " + text];
      lines := lines + [""];
      AppendedLines(prior, [NatToString(i + 1), startTime + " --> " + endTime, "[" + speakerName + "] " + text, ""], lines);
      assert !Blank(seg) && lines == SrtLines(segs[..i + 1], labels, stamp);
    }
    assert segs[..|segs|] == segs;
    out := Join(lines, "\n");
  }

  /** One WebVTT cue: time range, labelled text, blank line; no cue number. */
  function VttCue(seg: Segment, labels: map<string, LabelEntry>, stamp: real -> string): seq<string> {
    [stamp(seg.start) + " --> " + stamp(seg.end),
     "[" + GetSpeakerName(seg.speakerId, labels) + "] " + Strip(seg.text),
     ""]
  }

  /** The cue lines after the `WEBVTT` header: one cue per non-blank segment. */
  function VttCues(segs: seq<Segment>, labels: map<string, LabelEntry>, stamp: real -> string): seq<string> {
    if segs == [] then []
    else
      var init := segs[..|segs| - 1];
      VttCues(init, labels, stamp) + if Blank(segs[|segs| - 1]) then [] else VttCue(segs[|segs| - 1], labels, stamp)
  }

  /** The WebVTT cues of the segments at the given positions. */
  function VttCuesAt(segs: seq<Segment>, keys: seq<nat>, labels: map<string, LabelEntry>, stamp: real -> string): seq<string>
    requires forall k :: 0 <= k < |keys| ==> keys[k] < |segs|
  {
    if keys == [] then []
    else VttCuesAt(segs, keys[..|keys| - 1], labels, stamp) + VttCue(segs[keys[|keys| - 1]], labels, stamp)
  }

  lemma {:induction false} VttCuesAtPrefix(segs: seq<Segment>, n: nat, keys: seq<nat>, labels: map<string, LabelEntry>, stamp: real -> string)
    requires n <= |segs| && forall k :: 0 <= k < |keys| ==> keys[k] < n
    ensures VttCuesAt(segs, keys, labels, stamp) == VttCuesAt(segs[..n], keys, labels, stamp)
  {
    if keys != [] {
      VttCuesAtPrefix(segs, n, keys[..|keys| - 1], labels, stamp);
    }
  }

  /** The WebVTT cue lines are the cues of the non-blank segments, in order, without numbers. */
  lemma {:induction false} VttCuesFollowSegments(segs: seq<Segment>, labels: map<string, LabelEntry>, stamp: real -> string)
    ensures VttCues(segs, labels, stamp) == VttCuesAt(segs, Kept(segs), labels, stamp)
  {
    if segs != [] {
      var n := |segs| - 1;
      var init := segs[..n];
      var ks := Kept(init);
      VttCuesFollowSegments(init, labels, stamp);
      VttCuesAtPrefix(segs, n, ks, labels, stamp);
      assert VttCues(segs, labels, stamp) == VttCues(init, labels, stamp) + if Blank(segs[n]) then [] else VttCue(segs[n], labels, stamp);
      if !Blank(segs[n]) {
        var keys := ks + [n];
        assert Kept(segs) == keys;
        assert keys[..|keys| - 1] == ks;
        assert VttCuesAt(segs, keys, labels, stamp) == VttCuesAt(segs, ks, labels, stamp) + VttCue(segs[n], labels, stamp);
      } else {
        assert Kept(segs) == ks;
      }
    }
  }

  /** Every WebVTT cue is three lines. */
  lemma {:induction false} VttCuesAtLength(segs: seq<Segment>, keys: seq<nat>, labels: map<string, LabelEntry>, stamp: real -> string)
    requires forall k :: 0 <= k < |keys| ==> keys[k] < |segs|
    ensures |VttCuesAt(segs, keys, labels, stamp)| == 3 * |keys|
  {
    if keys != [] {
      VttCuesAtLength(segs, keys[..|keys| - 1], labels, stamp);
    }
  }

  lemma VttCuesSnoc(segs: seq<Segment>, i: nat, labels: map<string, LabelEntry>, stamp: real -> string)
    requires i < |segs|
    ensures VttCues(segs[..i + 1], labels, stamp) ==
      VttCues(segs[..i], labels, stamp) + if Blank(segs[i]) then [] else VttCue(segs[i], labels, stamp)
  {
    assert segs[..i + 1][..i] == segs[..i];
  }

  lemma VttHeaderAppend(done: seq<string>, cue: seq<string>)
    ensures ["WEBVTT", ""] + done + cue == ["WEBVTT", ""] + (done + cue)
  {
  }

  /** The WebVTT loop of `apply_labels_to_transcript`. */
  method RenderVtt(segs: seq<Segment>, labels: map<string, LabelEntry>, stamp: real -> string) returns (out: string)
    ensures out == Join(["WEBVTT", ""] + VttCues(segs, labels, stamp), "\n")
  {
    var lines: seq<string> := ["WEBVTT", ""];
    for i := 0 to |segs|
      invariant lines == ["WEBVTT", ""] + VttCues(segs[..i], labels, stamp)
    {
      var seg := segs[i];
      var speakerName := GetSpeakerName(seg.speakerId, labels);
      var text := Strip(seg.text);
      VttCuesSnoc(segs, i, labels, stamp);
      StripEmptyIffBlank(seg.text);
      if text == [] {
        assert Blank(seg);
        continue;
      }
      ghost var prior := lines;
      var startTime := stamp(seg.start);
      var endTime := stamp(seg.end);
      lines := lines + [startTime + " --> " + endTime];
      lines := lines + ["[" + speakerName + "] " + text];
      lines := lines + [""];
      AppendedLines(prior, [startTime + " --> " + endTime, "[" + speakerName + "] " + text, ""], lines);
      VttHeaderAppend(VttCues(segs[..i], labels, stamp), VttCue(seg, labels, stamp));
    }
    assert segs[..|segs|] == segs;
    out := Join(lines, "\n");
  }

  /** One entry of the JSON rendering. */
  datatype JsonSegment = JsonSegment(speaker: string, speakerId: string, start: real, end: real, text: string)

  /** The JSON rendering, as the record `json.dumps` serialises. */
  datatype JsonTranscript = JsonTranscript(
    audioFile: Option<string>,
    duration: Option<real>,
    language: Option<string>,
    numSpeakers: Option<int>,
    segments: seq<JsonSegment>,
    labels: map<string, LabelEntry>)

  /** The JSON branch of `apply_labels_to_transcript`: blank segments are kept, texts are not stripped. */
  method RenderJson(doc: Document) returns (out: JsonTranscript)
    ensures |out.segments| == |doc.segments|
    ensures forall i :: 0 <= i < |doc.segments| ==>
      var seg, e := doc.segments[i], out.segments[i];
      e.speaker == GetSpeakerName(seg.speakerId, doc.labels) && e.speakerId == seg.speakerId
      && e.start == seg.start && e.end == seg.end && e.text == seg.text
    ensures out.audioFile == doc.audioFile && out.duration == doc.duration && out.language == doc.language
    ensures out.numSpeakers == doc.numSpeakers && out.labels == doc.labels
  {
    var segments := doc.segments;
    var labels := doc.labels;
    var outputSegments: seq<JsonSegment> := [];
    for i := 0 to |segments|
      invariant |outputSegments| == i
      invariant forall j :: 0 <= j < i ==>
        outputSegments[j] == JsonSegment(GetSpeakerName(segments[j].speakerId, labels), segments[j].speakerId,
          segments[j].start, segments[j].end, segments[j].text)
    {
      var seg := segments[i];
      var speakerName := GetSpeakerName(seg.speakerId, labels);
      outputSegments := outputSegments + [JsonSegment(speakerName, seg.speakerId, seg.start, seg.end, seg.text)];
    }
    out := JsonTranscript(doc.audioFile, doc.duration, doc.language, doc.numSpeakers, outputSegments, labels);
  }

  datatype Rendered = Plain(text: string) | Json(record: JsonTranscript)

  datatype RenderError = UnsupportedFormat(format: string)

  /**
   * `apply_labels_to_transcript`: dispatch on the format name; any other
   * name is an error. The document is a value, so rendering cannot change it.
   */
  method ApplyLabelsToTranscript(doc: Document, format: string) returns (r: Result<Rendered, RenderError>)
    ensures format == "txt" ==> r == Ok(Plain(Strip(Join(GroupedPieces(Utterances(doc.segments, doc.labels), false), " "))))
    ensures format == "md" ==> r == Ok(Plain(Strip(Join(GroupedPieces(Utterances(doc.segments, doc.labels), true), " "))))
    ensures format == "json" ==> r.Ok? && r.value.Json? && |r.value.record.segments| == |doc.segments|
    ensures format == "srt" ==> r == Ok(Plain(Join(SrtLines(doc.segments, doc.labels, FormatSrtTimestamp), "\n")))
    ensures format == "vtt" ==> r == Ok(Plain(Join(["WEBVTT", ""] + VttCues(doc.segments, doc.labels, FormatVttTimestamp), "\n")))
    ensures r.Err? <==> format !in {"txt", "md", "json", "srt", "vtt"}
    ensures r.Err? ==> r.error == UnsupportedFormat(format)
  {
    var segments := doc.segments;
    var labels := doc.labels;
    if format == "txt" || format == "md" {
      var text := RenderGrouped(segments, labels, format == "md");
      r := Ok(Plain(text));
    } else if format == "json" {
      var record := RenderJson(doc);
      r := Ok(Json(record));
    } else if format == "srt" {
      var text := RenderSrt(segments, labels, FormatSrtTimestamp);
      r := Ok(Plain(text));
    } else if format == "vtt" {
      var text := RenderVtt(segments, labels, FormatVttTimestamp);
      r := Ok(Plain(text));
    } else {
      r := Err(UnsupportedFormat(format));
    }
  }
}
