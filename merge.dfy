/**
 * The merge engine: every transcribed utterance gets the speaker whose turn
 * contains its start time (first such turn in list order), or else the
 * nearest turn (first on a tie), or "UNKNOWN" when there are no turns; then
 * per-speaker statistics are folded over the merged utterances.
 */
module Merge {
  import opened Wrappers
  import opened Text
  import opened Transcript

  const Unknown: string := "UNKNOWN"

  /** `start <= t <= end`, inclusive at both ends. */
  predicate Contains(iv: SpeakerInterval, t: real) {
    iv.start <= t <= iv.end
  }

  /** Distance from `t` to the turn: before it, after it, or 0 inside it. */
  function Distance(iv: SpeakerInterval, t: real): real {
    if t < iv.start then iv.start - t else if t > iv.end then t - iv.end else 0.0
  }

  /** Index of the first turn that contains `t`. */
  function FirstContaining(t: real, ivs: seq<SpeakerInterval>): (r: Option<nat>)
    ensures r.Some? ==> r.value < |ivs| && Contains(ivs[r.value], t)
    ensures r.Some? ==> forall j :: 0 <= j < r.value ==> !Contains(ivs[j], t)
    ensures r.None? <==> forall j :: 0 <= j < |ivs| ==> !Contains(ivs[j], t)
  {
    if ivs == [] then None
    else if Contains(ivs[0], t) then Some(0)
    else match FirstContaining(t, ivs[1..])
      case None => None
      case Some(k) => Some(k + 1)
  }

  /** Index of the first turn at minimum distance from `t`. */
  function Nearest(t: real, ivs: seq<SpeakerInterval>): (k: nat)
    requires ivs != []
    ensures k < |ivs|
    ensures forall j :: 0 <= j < |ivs| ==> Distance(ivs[k], t) <= Distance(ivs[j], t)
    ensures forall j :: 0 <= j < k ==> Distance(ivs[k], t) < Distance(ivs[j], t)
  {
    if |ivs| == 1 then 0
    else
      var k := Nearest(t, ivs[..|ivs| - 1]);
      if Distance(ivs[|ivs| - 1], t) < Distance(ivs[k], t) then |ivs| - 1 else k
  }

  /** The speaker assigned to an utterance starting at `t`. */
  function SpeakerAt(t: real, ivs: seq<SpeakerInterval>): (r: string)
    ensures ivs == [] ==> r == Unknown
    ensures ivs != [] ==> exists k :: 0 <= k < |ivs| && r == ivs[k].speakerId
  {
    match FirstContaining(t, ivs)
    case Some(i) => ivs[i].speakerId
    case None => if ivs == [] then Unknown else ivs[Nearest(t, ivs)].speakerId
  }

  /**
   * `find_speaker_at_time`: a containment scan with early return, then a
   * nearest-turn scan with a running minimum (`None` plays `float('inf')`).
   */
  method FindSpeakerAtTime(t: real, ivs: seq<SpeakerInterval>) returns (speaker: string)
    ensures speaker == SpeakerAt(t, ivs)
    ensures (exists i :: 0 <= i < |ivs| && Contains(ivs[i], t)) ==> (
      (exists i :: 0 <= i < |ivs| && Contains(ivs[i], t) && speaker == ivs[i].speakerId
        && (forall j :: 0 <= j < i ==> !Contains(ivs[j], t))))
  {
    for i := 0 to |ivs|
      invariant forall j :: 0 <= j < i ==> !Contains(ivs[j], t)
    {
      if ivs[i].start <= t <= ivs[i].end {
        FirstContainingIs(t, ivs, i);
        return ivs[i].speakerId;
      }
    }
    speaker := ScanNearest(t, ivs);
  }

  lemma FirstContainingIs(t: real, ivs: seq<SpeakerInterval>, i: nat)
    requires i < |ivs| && Contains(ivs[i], t) && forall j :: 0 <= j < i ==> !Contains(ivs[j], t)
    ensures FirstContaining(t, ivs) == Some(i)
  {
  }

  /** The nearest turn of a longer prefix: the new turn only when strictly closer. */
  lemma NearestSnoc(t: real, ivs: seq<SpeakerInterval>, i: nat)
    requires 0 < i < |ivs|
    ensures Nearest(t, ivs[..i + 1]) ==
      if Distance(ivs[i], t) < Distance(ivs[Nearest(t, ivs[..i])], t) then i else Nearest(t, ivs[..i])
  {
    assert ivs[..i + 1][..i] == ivs[..i];
  }

  /** The second scan of `find_speaker_at_time`, reached when no turn contains `t`. */
  method ScanNearest(t: real, ivs: seq<SpeakerInterval>) returns (speaker: string)
    requires forall j :: 0 <= j < |ivs| ==> !Contains(ivs[j], t)
    ensures speaker == SpeakerAt(t, ivs)
  {
    var minDistance: Option<real> := None;
    speaker := Unknown;
    for i := 0 to |ivs|
      invariant i == 0 ==> minDistance == None && speaker == Unknown
      invariant i > 0 ==> minDistance == Some(Distance(ivs[Nearest(t, ivs[..i])], t))
      invariant i > 0 ==> speaker == ivs[Nearest(t, ivs[..i])].speakerId
    {
      var distance: real;
      if t < ivs[i].start {
        distance := ivs[i].start - t;
      } else if t > ivs[i].end {
        distance := t - ivs[i].end;
      } else {
        distance := 0.0;
      }
      assert distance == Distance(ivs[i], t);
      if i > 0 {
        NearestSnoc(t, ivs, i);
      }
      if minDistance.None? || distance < minDistance.value {
        minDistance := Some(distance);
        speaker := ivs[i].speakerId;
      }
    }
    assert ivs[..|ivs|] == ivs;
    SpeakerAtUncontained(t, ivs);
  }

  lemma SpeakerAtUncontained(t: real, ivs: seq<SpeakerInterval>)
    requires forall j :: 0 <= j < |ivs| ==> !Contains(ivs[j], t)
    ensures SpeakerAt(t, ivs) == if ivs == [] then Unknown else ivs[Nearest(t, ivs)].speakerId
  {
    assert FirstContaining(t, ivs).None?;
  }

  /**
   * When no turn contains `t` and there are turns, the speaker is that of a
   * turn at minimum distance, and no earlier turn is as close.
   */
  lemma SpeakerAtNearest(t: real, ivs: seq<SpeakerInterval>)
    requires ivs != [] && forall j :: 0 <= j < |ivs| ==> !Contains(ivs[j], t)
    ensures exists k :: (0 <= k < |ivs| && SpeakerAt(t, ivs) == ivs[k].speakerId
      && (forall j :: 0 <= j < |ivs| ==> Distance(ivs[k], t) <= Distance(ivs[j], t))
      && (forall j :: 0 <= j < k ==> Distance(ivs[k], t) < Distance(ivs[j], t)))
  {
    var k := Nearest(t, ivs);
    assert SpeakerAt(t, ivs) == ivs[k].speakerId;
  }

  /** The utterance with the speaker its start time is attributed to; end and text play no part. */
  function Attribute(ivs: seq<SpeakerInterval>, ts: TextSegment): (s: Segment)
    ensures s.start == ts.start && s.end == ts.end && s.text == ts.text
    ensures s.speakerId == SpeakerAt(ts.start, ivs)
  {
    Segment(SpeakerAt(ts.start, ivs), ts.start, ts.end, ts.text)
  }

  /** One merged utterance folded into the statistics (a new speaker starts at zero). */
  function AddToStats(m: map<string, SpeakerStats>, seg: Segment): map<string, SpeakerStats> {
    var s := if seg.speakerId in m then m[seg.speakerId] else SpeakerStats(0.0, 0, 0);
    m[seg.speakerId := Tally(s, seg)]
  }

  /** The three `+=` updates of one utterance on its speaker's entry. */
  function Tally(s: SpeakerStats, seg: Segment): SpeakerStats {
    SpeakerStats(s.totalTime + (seg.end - seg.start), s.segmentCount + 1, s.wordCount + |Split(seg.text)|)
  }

  /** The statistics after folding the utterances in order. */
  function StatsOf(segs: seq<Segment>): map<string, SpeakerStats> {
    if segs == [] then map[] else AddToStats(StatsOf(segs[..|segs| - 1]), segs[|segs| - 1])
  }

  /**
   * The utterances attributed to `sp`, in order: those the `speaker_stats`
   * loop of `merge_diarization_transcription` adds to the entry of `sp`.
   */
  function OfSpeaker(segs: seq<Segment>, sp: string): (r: seq<Segment>)
    ensures |r| <= |segs|
    ensures forall s :: s in r ==> s in segs && s.speakerId == sp
  {
    if segs == [] then []
    else OfSpeaker(segs[..|segs| - 1], sp) + (if segs[|segs| - 1].speakerId == sp then [segs[|segs| - 1]] else [])
  }

  /** Sum of `end - start`. */
  function TotalTime(segs: seq<Segment>): real {
    if segs == [] then 0.0 else TotalTime(segs[..|segs| - 1]) + (segs[|segs| - 1].end - segs[|segs| - 1].start)
  }

  /** Sum of `len(text.split())`. */
  function TotalWords(segs: seq<Segment>): nat {
    if segs == [] then 0 else TotalWords(segs[..|segs| - 1]) + |Split(segs[|segs| - 1].text)|
  }

  function SpeakerIds(segs: seq<Segment>): set<string> {
    set s | s in segs :: s.speakerId
  }

  /**
   * The `speaker_stats` loop of `merge_diarization_transcription` creates
   * one entry per assigned speaker and no other.
   */
  lemma {:induction false} StatsKeys(segs: seq<Segment>)
    ensures StatsOf(segs).Keys == SpeakerIds(segs)
  {
    if segs != [] {
      var init, x := segs[..|segs| - 1], segs[|segs| - 1];
      assert segs == init + [x];
      StatsKeys(init);
      assert SpeakerIds(segs) == SpeakerIds(init) + {x.speakerId};
    }
  }

  /**
   * Each entry is the total time, the count and the words of exactly that
   * speaker's utterances.
   */
  lemma {:induction false} StatsEntry(segs: seq<Segment>, sp: string)
    requires sp in StatsOf(segs)
    ensures StatsOf(segs)[sp] ==
      SpeakerStats(TotalTime(OfSpeaker(segs, sp)), |OfSpeaker(segs, sp)|, TotalWords(OfSpeaker(segs, sp)))
  {
    var init, x := segs[..|segs| - 1], segs[|segs| - 1];
    var p := OfSpeaker(init, sp);
    if sp != x.speakerId {
      assert OfSpeaker(segs, sp) == p;
      StatsEntry(init, sp);
    } else {
      assert OfSpeaker(segs, sp) == p + [x];
      TallyLast(p, x);
      if sp in StatsOf(init) {
        StatsEntry(init, sp);
      } else {
        StatsKeys(init);
        NoneOfSpeaker(init, sp);
      }
    }
  }

  /** Appending one utterance adds its time, one to the count and its words. */
  lemma TallyLast(p: seq<Segment>, x: Segment)
    ensures SpeakerStats(TotalTime(p + [x]), |p + [x]|, TotalWords(p + [x]))
      == Tally(SpeakerStats(TotalTime(p), |p|, TotalWords(p)), x)
  {
    assert (p + [x])[..|p|] == p;
  }

  /**
   * An id the `speaker_stats` loop of `merge_diarization_transcription`
   * never meets has no utterances, so its first tally starts from zero.
   */
  lemma {:induction false} NoneOfSpeaker(segs: seq<Segment>, sp: string)
    requires sp !in SpeakerIds(segs)
    ensures OfSpeaker(segs, sp) == []
  {
    if segs != [] {
      var init := segs[..|segs| - 1];
      assert SpeakerIds(init) <= SpeakerIds(segs);
      NoneOfSpeaker(init, sp);
    }
  }

  /** Speakers in order of first appearance: the key order of the stats dict. */
  function FirstAppearance(segs: seq<Segment>): seq<string> {
    if segs == [] then []
    else
      var keys := FirstAppearance(segs[..|segs| - 1]);
      if segs[|segs| - 1].speakerId in keys then keys else keys + [segs[|segs| - 1].speakerId]
  }

  predicate Distinct(keys: seq<string>) {
    forall i, j :: 0 <= i < j < |keys| ==> keys[i] != keys[j]
  }

  /** Sum of the segment counts of the listed speakers. */
  function CountSum(keys: seq<string>, m: map<string, SpeakerStats>): nat
    requires forall k :: k in keys ==> k in m
  {
    if keys == [] then 0 else CountSum(keys[..|keys| - 1], m) + m[keys[|keys| - 1]].segmentCount
  }

  /** The segment counts of all speakers add up to the number of merged utterances. */
  lemma {:induction false} SegmentCountsSum(segs: seq<Segment>)
    ensures Distinct(FirstAppearance(segs))
    ensures forall k :: k in FirstAppearance(segs) <==> k in StatsOf(segs)
    ensures CountSum(FirstAppearance(segs), StatsOf(segs)) == |segs|
  {
    if segs != [] {
      var init, x := segs[..|segs| - 1], segs[|segs| - 1];
      SegmentCountsSum(init);
      var keys, m := FirstAppearance(init), StatsOf(init);
      var m' := StatsOf(segs);
      var prior := if x.speakerId in m then m[x.speakerId] else SpeakerStats(0.0, 0, 0);
      var v := Tally(prior, x);
      assert m' == m[x.speakerId := v];
      if x.speakerId in keys {
        CountSumUpdate(keys, m, x.speakerId, v);
      } else {
        CountSumUnrelated(keys, m, x.speakerId, v);
        var keys' := keys + [x.speakerId];
        assert keys'[..|keys'| - 1] == keys;
      }
    }
  }

  lemma {:induction false} CountSumUnrelated(keys: seq<string>, m: map<string, SpeakerStats>, k: string, v: SpeakerStats)
    requires forall j :: j in keys ==> j in m
    requires k !in keys
    ensures CountSum(keys, m[k := v]) == CountSum(keys, m)
  {
    if keys != [] {
      CountSumUnrelated(keys[..|keys| - 1], m, k, v);
    }
  }

  lemma {:induction false} CountSumUpdate(keys: seq<string>, m: map<string, SpeakerStats>, k: string, v: SpeakerStats)
    requires forall j :: j in keys ==> j in m
    requires Distinct(keys) && k in keys
    ensures CountSum(keys, m[k := v]) + m[k].segmentCount == CountSum(keys, m) + v.segmentCount
  {
    var init, last := keys[..|keys| - 1], keys[|keys| - 1];
    if last == k {
      CountSumUnrelated(init, m, k, v);
    } else {
      assert k in init;
      CountSumUpdate(init, m, k, v);
    }
  }

  /** The first loop of `merge_diarization_transcription`. */
  method AttributeAll(speakerSegments: seq<SpeakerInterval>, transcriptionSegments: seq<TextSegment>)
    returns (merged: seq<Segment>)
    ensures |merged| == |transcriptionSegments|
    ensures forall j :: 0 <= j < |merged| ==> merged[j] == Attribute(speakerSegments, transcriptionSegments[j])
  {
    merged := [];
    for i := 0 to |transcriptionSegments|
      invariant |merged| == i
      invariant forall j :: 0 <= j < i ==> merged[j] == Attribute(speakerSegments, transcriptionSegments[j])
    {
      var transSeg := transcriptionSegments[i];
      var speakerId := FindSpeakerAtTime(transSeg.start, speakerSegments);
      merged := merged + [Segment(speakerId, transSeg.start, transSeg.end, transSeg.text)];
    }
  }

  /** The statistics loop of `merge_diarization_transcription`. */
  method ComputeStats(merged: seq<Segment>) returns (stats: map<string, SpeakerStats>)
    ensures stats == StatsOf(merged)
    ensures stats.Keys == SpeakerIds(merged)
  {
    stats := map[];
    for i := 0 to |merged|
      invariant stats == StatsOf(merged[..i])
    {
      var seg := merged[i];
      var speaker := seg.speakerId;
      ghost var before := stats;
      if speaker !in stats {
        stats := stats[speaker := SpeakerStats(0.0, 0, 0)];
      }
      ghost var mid := stats;
      var s := stats[speaker];
      stats := stats[speaker := Tally(s, seg)];
      EntryThenTally(before, mid, seg);
      StatsOfSnoc(merged, i);
    }
    assert merged[..|merged|] == merged;
    StatsKeys(merged);
  }

  /** Creating a zero entry when missing and then tallying is one `AddToStats`. */
  lemma EntryThenTally(m: map<string, SpeakerStats>, mid: map<string, SpeakerStats>, seg: Segment)
    requires mid == if seg.speakerId in m then m else m[seg.speakerId := SpeakerStats(0.0, 0, 0)]
    ensures mid[seg.speakerId := Tally(mid[seg.speakerId], seg)] == AddToStats(m, seg)
  {
  }

  lemma StatsOfSnoc(segs: seq<Segment>, i: nat)
    requires i < |segs|
    ensures StatsOf(segs[..i + 1]) == AddToStats(StatsOf(segs[..i]), segs[i])
  {
    assert segs[..i + 1][..i] == segs[..i];
  }

  /**
   * `merge_diarization_transcription`: one merged utterance per transcribed
   * utterance, in order, then the statistics fold, then the result record.
   */
  method MergeDiarizationTranscription(diarization: DiarizationInput, transcription: TranscriptionInput, createdAt: string)
    returns (result: Document)
    ensures |result.segments| == |transcription.segments|
    ensures forall i :: 0 <= i < |result.segments| ==>
      result.segments[i] == Attribute(diarization.segments, transcription.segments[i])
    ensures result.speakerStats == StatsOf(result.segments)
    ensures result.version == "1.0" && result.transcriptionModel == "faster-whisper"
    ensures result.labels == map[] && result.source == "merged" && result.createdAt == createdAt
    ensures result.numSpeakers == diarization.numSpeakers
    ensures result.duration == if transcription.duration.Some? then transcription.duration else diarization.duration
    ensures result.audioFile == diarization.audioFile && result.audioPath == diarization.audioPath
    ensures result.language == transcription.language && result.diarizationModel == diarization.diarizationModel
  {
    var merged := AttributeAll(diarization.segments, transcription.segments);
    var stats := ComputeStats(merged);
    var duration := if transcription.duration.Some? then transcription.duration else diarization.duration;
    result := Document("1.0", diarization.audioFile, diarization.audioPath, duration, transcription.language,
      diarization.diarizationModel, "faster-whisper", diarization.numSpeakers, createdAt,
      merged, stats, map[], "merged");
  }
}
