/**
 * The post-processing of `diarize_audio`: the speaker turns the
 * diarization pipeline yields become segments, per-speaker statistics and
 * the diarization record. The turns themselves are an input.
 */
module Diarize {
  import opened Transcript

  const DiarizationModel := "pyannote/speaker-diarization-3.1"

  /** One `(turn, track, speaker)` of `itertracks`; the track name plays no part. */
  datatype Turn = Turn(speaker: string, start: real, end: real)

  /** One entry of the record's `segments`. */
  datatype DiarizedSegment = DiarizedSegment(speakerId: string, start: real, end: real, duration: real)

  /** `speaker_stats[speaker]` of a diarization record. */
  datatype TrackStats = TrackStats(totalTime: real, segmentCount: nat)

  /** The record `diarize_audio` returns. */
  datatype DiarizationResult = DiarizationResult(
    version: string,
    audioFile: string,
    audioPath: string,
    duration: real,
    diarizationModel: string,
    numSpeakers: nat,
    createdAt: string,
    segments: seq<DiarizedSegment>,
    speakerStats: map<string, TrackStats>,
    labels: map<string, LabelEntry>,
    source: string)

  /** The segment a turn becomes. */
  function SegmentOf(t: Turn): DiarizedSegment {
    DiarizedSegment(t.speaker, t.start, t.end, t.end - t.start)
  }

  /** The two `+=` updates of one segment on its speaker's entry. */
  function Tally(s: TrackStats, seg: DiarizedSegment): TrackStats {
    TrackStats(s.totalTime + seg.duration, s.segmentCount + 1)
  }

  /** One segment folded into the statistics (a new speaker starts at zero). */
  function AddToStats(m: map<string, TrackStats>, seg: DiarizedSegment): map<string, TrackStats> {
    var s := if seg.speakerId in m then m[seg.speakerId] else TrackStats(0.0, 0);
    m[seg.speakerId := Tally(s, seg)]
  }

  /** The statistics after folding the segments in order. */
  function StatsOf(segs: seq<DiarizedSegment>): map<string, TrackStats> {
    if segs == [] then map[] else AddToStats(StatsOf(segs[..|segs| - 1]), segs[|segs| - 1])
  }

  /**
   * The segments of `sp`, in order: those the `speaker_stats` loop of
   * `diarize_audio` adds to the entry of `sp`.
   */
  function OfSpeaker(segs: seq<DiarizedSegment>, sp: string): (r: seq<DiarizedSegment>)
    ensures |r| <= |segs|
    ensures forall s :: s in r ==> s in segs && s.speakerId == sp
  {
    if segs == [] then []
    else OfSpeaker(segs[..|segs| - 1], sp) + (if segs[|segs| - 1].speakerId == sp then [segs[|segs| - 1]] else [])
  }

  /** Sum of the `duration` fields. */
  function TotalDuration(segs: seq<DiarizedSegment>): real {
    if segs == [] then 0.0 else TotalDuration(segs[..|segs| - 1]) + segs[|segs| - 1].duration
  }

  function SpeakerIds(segs: seq<DiarizedSegment>): set<string> {
    set s | s in segs :: s.speakerId
  }

  /**
   * The `speaker_stats` loop of `diarize_audio` creates one entry per
   * speaker that has a turn, and no other.
   */
  lemma {:induction false} StatsKeys(segs: seq<DiarizedSegment>)
    ensures StatsOf(segs).Keys == SpeakerIds(segs)
  {
    if segs != [] {
      var init, x := segs[..|segs| - 1], segs[|segs| - 1];
      assert segs == init + [x];
      StatsKeys(init);
      assert SpeakerIds(segs) == SpeakerIds(init) + {x.speakerId};
    }
  }

  /**
   * A speaker the `speaker_stats` loop of `diarize_audio` never meets has
   * no segments, so its first tally starts from zero.
   */
  lemma {:induction false} NoneOfSpeaker(segs: seq<DiarizedSegment>, sp: string)
    requires sp !in SpeakerIds(segs)
    ensures OfSpeaker(segs, sp) == []
  {
    if segs != [] {
      var init := segs[..|segs| - 1];
      assert SpeakerIds(init) <= SpeakerIds(segs);
      NoneOfSpeaker(init, sp);
    }
  }

  /** Each entry is the summed duration and the count of exactly that speaker's segments. */
  lemma {:induction false} StatsEntry(segs: seq<DiarizedSegment>, sp: string)
    requires sp in StatsOf(segs)
    ensures StatsOf(segs)[sp] == TrackStats(TotalDuration(OfSpeaker(segs, sp)), |OfSpeaker(segs, sp)|)
  {
    var init, x := segs[..|segs| - 1], segs[|segs| - 1];
    var o := OfSpeaker(segs, sp);
    if sp != x.speakerId {
      assert o == OfSpeaker(init, sp);
      StatsEntry(init, sp);
    } else {
      assert o == OfSpeaker(init, sp) + [x];
      assert o[..|o| - 1] == OfSpeaker(init, sp);
      if sp in StatsOf(init) {
        StatsEntry(init, sp);
      } else {
        StatsKeys(init);
        NoneOfSpeaker(init, sp);
      }
    }
  }

  /** `max(seg["end"] for seg in segments)` of a non-empty list. */
  function MaxEnd(segs: seq<DiarizedSegment>): real
    requires segs != []
  {
    if |segs| == 1 then segs[0].end
    else
      var m := MaxEnd(segs[..|segs| - 1]);
      if segs[|segs| - 1].end > m then segs[|segs| - 1].end else m
  }

  /** The maximum is the end of some segment and no segment ends later. */
  lemma {:induction false} MaxEndIsMaximum(segs: seq<DiarizedSegment>)
    requires segs != []
    ensures forall k :: 0 <= k < |segs| ==> segs[k].end <= MaxEnd(segs)
    ensures exists k :: 0 <= k < |segs| && segs[k].end == MaxEnd(segs)
  {
    if |segs| > 1 {
      var init := segs[..|segs| - 1];
      MaxEndIsMaximum(init);
      var k :| 0 <= k < |init| && init[k].end == MaxEnd(init);
      assert segs[k] == init[k];
      var n := |segs| - 1;
      if segs[n].end > MaxEnd(init) {
        assert segs[n].end == MaxEnd(segs);
      } else {
        assert segs[k].end == MaxEnd(segs);
      }
      forall j | 0 <= j < |segs| ensures segs[j].end <= MaxEnd(segs) {
        if j < |init| {
          assert segs[j] == init[j];
        }
      }
    } else {
      assert segs[0].end == MaxEnd(segs);
    }
  }

  /** The recorded duration: the latest end, or 0 without segments. */
  function Duration(segs: seq<DiarizedSegment>): real {
    if segs == [] then 0.0 else MaxEnd(segs)
  }

  /**
   * `diarize_audio` after the pipeline has run: one segment per turn, in
   * order, with the statistics folded in the same loop; the file name,
   * absolute path and creation time are given.
   */
  method DiarizeAudio(turns: seq<Turn>, audioFile: string, audioPath: string, createdAt: string)
    returns (result: DiarizationResult)
    ensures |result.segments| == |turns|
    ensures forall i :: 0 <= i < |turns| ==> result.segments[i] == SegmentOf(turns[i])
    ensures result.speakerStats == StatsOf(result.segments)
    ensures result.speakerStats.Keys == SpeakerIds(result.segments)
    ensures result.numSpeakers == |SpeakerIds(result.segments)|
    ensures result.duration == Duration(result.segments)
    ensures result.version == "1.0" && result.diarizationModel == DiarizationModel
    ensures result.labels == map[] && result.source == "local_diarization"
    ensures result.audioFile == audioFile && result.audioPath == audioPath && result.createdAt == createdAt
  {
    var segments: seq<DiarizedSegment> := [];
    var speakerStats: map<string, TrackStats> := map[];
    for i := 0 to |turns|
      invariant |segments| == i
      invariant forall j :: 0 <= j < i ==> segments[j] == SegmentOf(turns[j])
      invariant speakerStats == StatsOf(segments)
    {
      var turn := turns[i];
      var speaker := turn.speaker;
      var seg := DiarizedSegment(speaker, turn.start, turn.end, turn.end - turn.start);
      ghost var before, prior := speakerStats, segments;
      segments := segments + [seg];
      if speaker !in speakerStats {
        speakerStats := speakerStats[speaker := TrackStats(0.0, 0)];
      }
      var s := speakerStats[speaker];
      speakerStats := speakerStats[speaker := Tally(s, seg)];
      assert speakerStats == AddToStats(before, seg);
      assert segments[..i] == prior;
    }
    var duration := if segments == [] then 0.0 else MaxEnd(segments);
    StatsKeys(segments);
    result := DiarizationResult("1.0", audioFile, audioPath, duration, DiarizationModel,
      |speakerStats|, createdAt, segments, speakerStats, map[], "local_diarization");
  }
}
