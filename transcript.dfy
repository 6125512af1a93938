/**
 * The records the pipeline stages exchange as JSON documents. A key that a
 * stage reads with `dict.get` is an `Option`; a key it indexes directly is
 * a plain field.
 */
module Transcript {
  import opened Wrappers

  /** One speaker turn from the diarization stage. */
  datatype SpeakerInterval = SpeakerInterval(speakerId: string, start: real, end: real)

  /** One utterance from the transcription stage. */
  datatype TextSegment = TextSegment(start: real, end: real, text: string)

  /** An utterance with the speaker it was attributed to. */
  datatype Segment = Segment(speakerId: string, start: real, end: real, text: string)

  /** `speaker_stats[speaker_id]` of a merged document. */
  datatype SpeakerStats = SpeakerStats(totalTime: real, segmentCount: nat, wordCount: nat)

  datatype LabelSource = Manual | Skipped | OtherSource(tag: string)

  /** `labels[speaker_id]`; `name` may be missing from a hand-edited file. */
  datatype LabelEntry = LabelEntry(
    name: Option<string>,
    email: Option<string>,
    role: Option<string>,
    source: LabelSource,
    labeledAt: string)

  /** What the merge stage reads from a diarization file. */
  datatype DiarizationInput = DiarizationInput(
    audioFile: Option<string>,
    audioPath: Option<string>,
    duration: Option<real>,
    diarizationModel: Option<string>,
    numSpeakers: Option<int>,
    segments: seq<SpeakerInterval>)

  /** What the merge stage reads from a transcription file. */
  datatype TranscriptionInput = TranscriptionInput(
    duration: Option<real>,
    language: Option<string>,
    segments: seq<TextSegment>)

  /** The merged (and later labelled) transcript document. */
  datatype Document = Document(
    version: string,
    audioFile: Option<string>,
    audioPath: Option<string>,
    duration: Option<real>,
    language: Option<string>,
    diarizationModel: Option<string>,
    transcriptionModel: string,
    numSpeakers: Option<int>,
    createdAt: string,
    segments: seq<Segment>,
    speakerStats: map<string, SpeakerStats>,
    labels: map<string, LabelEntry>,
    source: string)
}
