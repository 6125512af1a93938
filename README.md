# hushnote in Dafny

A verified model of the data-processing core of hushnote, a local meeting
transcription pipeline:

- **diarize** turns the speaker turns of a diarization model into
  segments, per-speaker statistics and a duration.
- **transcribe** turns the segments of a speech-recognition model into a
  transcription record. It writes that record as text, JSON, SubRip or
  WebVTT.
- **merge** attributes every transcribed utterance to a speaker by its
  start time, then folds per-speaker statistics.
- **label** checks a merged document and picks sample quotes per speaker.
  It runs the interactive prompt loop that names each speaker, and
  derives the output file name.
- **apply-labels** resolves display names and renders the labelled
  transcript as txt, md, a JSON record, SRT or WebVTT.

Modules:

| file | module | models |
|---|---|---|
| `wrappers.dfy` | `Wrappers` | `Option`, `Result` |
| `text.dfy` | `Text` | Python's `str.strip`, `str.split()`, `" ".join`, `str(n)`, `format(n, "02d")`, `sorted(set(...))` on strings, `str.replace(pat, "")` |
| `clock.dfy` | `Clock` | the `HH:MM:SS<sep>mmm` timestamp arithmetic shared by three formatters, its read-back, and `format_time` |
| `transcript.dfy` | `Transcript` | the JSON documents the stages exchange, as records |
| `merge.dfy` | `Merge` | `merge_diarization.py` |
| `apply_labels.dfy` | `ApplyLabels` | `apply_labels.py` |
| `label.dfy` | `Label` | `label.py` |
| `transcribe.dfy` | `Transcribe` | `transcribe.py` |
| `diarize.dfy` | `Diarize` | `diarize.py` |

Modelling choices:

- Times are `real` seconds. Python's `//` and `%` on floats are written
  with `.Floor`. Every `HH:MM:SS` formatter is proved to print the fields of the
  time truncated to whole milliseconds. A parser `Clock.ParseClock` reads a
  stamp back.
- Code that loops in the source is a `method` with a loop, proved against
  a specification in one of three ways:
  - A loop that accumulates is proved equal to a recursive function, of
    the input read so far or of the input still to read, and the
    properties are proved about that function. These are
    the `speaker_stats` loops of both scripts, the nearest-speaker scan of
    `find_speaker_at_time`, the grouped, SRT and VTT renderers, the prompt
    loop and the session loop.
  - A loop that builds one output per input carries a pointwise invariant,
    and its `ensures` state each output element. These are
    `Merge.AttributeAll`, `ApplyLabels.RenderJson`,
    `Transcribe.TranscribeAudio` and the segments of `Diarize.DiarizeAudio`.
  - The containment scan of `find_speaker_at_time` keeps the invariant
    that no earlier interval contains the time.
- A JSON key read with `dict.get` is an `Option`; a missing key is `None`.
- The model-library output, the clock and the typed lines are parameters.
  These are the turns of the diarization pipeline, the segments and `info`
  of the speech model, `datetime.now`, and the answers to `input()`.

Where the code and the design description disagree, the model follows the
code:

- An empty speaker-turn list gives `"UNKNOWN"` for every utterance and is
  not an error. An empty transcription gives an empty merged document.
- `num_speakers` of a merged document is copied from the diarization input,
  not recounted from the segments.
- SRT cue numbers in `apply_labels.py` are 1-based positions in the full
  segment list. A blank segment therefore leaves a gap in the numbering.
- The JSON rendering keeps blank segments and their unstripped text.
- Negative times are formatted, with negative hours, not refused.
- Random sampling draws from the speaker's non-blank segments only.
- An interrupted labelling session exits without writing anything. Labels
  committed for earlier speakers are therefore lost too (`Interrupted`).
- `transcribe.py` writes WebVTT with comma stamps (see Findings).

## Model

| member | source | states |
|---|---|---|
| Merge.FirstContaining | merge_diarization.py:35-37 | the index found contains `t` (inclusive at both ends) and no earlier turn does; `None` exactly when no turn contains `t` |
| Merge.Nearest | merge_diarization.py:43-54 | the index found is at minimum distance from `t`, and every earlier turn is strictly farther (ties go to the first) |
| Merge.SpeakerAt | merge_diarization.py:35-56 | with no turns the speaker is `"UNKNOWN"`; otherwise it is the speaker of some turn |
| Merge.FindSpeakerAtTime | merge_diarization.py:24-56 | the two scans return `SpeakerAt`; when some turn contains `t`, the result is the speaker of a containing turn with no containing turn before it |
| Merge.ScanNearest | merge_diarization.py:40-56 | the running-minimum scan returns the speaker of the first nearest turn, or `"UNKNOWN"` when there are no turns |
| Merge.FirstContainingIs | merge_diarization.py:35-37 | a containing turn preceded by no containing turn is the one the first scan returns |
| Merge.NearestSnoc | merge_diarization.py:52-54 | a later turn replaces the running choice only when it is strictly closer |
| Merge.SpeakerAtUncontained | merge_diarization.py:39-56 | when no turn contains `t`, the speaker comes from the nearest-turn scan |
| Merge.SpeakerAtNearest | merge_diarization.py:43-54 | without a containing turn, the speaker is that of a turn at minimum distance, and every earlier turn is strictly farther |
| Merge.Attribute | merge_diarization.py:80-91 | start, end and text are copied unchanged; the speaker depends only on the start time |
| Merge.AttributeAll | merge_diarization.py:80-91 | one merged utterance per transcribed one, in the same order, each attributed by its start |
| Merge.StatsKeys | merge_diarization.py:94-102 | the statistics keys are exactly the assigned speaker ids |
| Merge.StatsEntry | merge_diarization.py:104-106 | each entry holds the total `end - start`, the count and the word count of exactly that speaker's utterances |
| Merge.TallyLast | merge_diarization.py:104-106 | one more utterance adds its time, one to the count and its word count |
| Merge.NoneOfSpeaker | merge_diarization.py:94-106 | an id that was never assigned has no utterances |
| Merge.SegmentCountsSum | merge_diarization.py:94-105 | the speakers in first-appearance order are distinct and are exactly the keys; their segment counts add up to the number of merged utterances |
| Merge.CountSumUnrelated | merge_diarization.py:105 | updating a speaker outside the list leaves the count sum unchanged |
| Merge.CountSumUpdate | merge_diarization.py:105 | updating one listed speaker changes the count sum by the difference of its counts |
| Merge.ComputeStats | merge_diarization.py:94-106 | the in-place dictionary updates produce the fold of the merged utterances, keyed by exactly the assigned speakers |
| Merge.EntryThenTally | merge_diarization.py:97-106 | creating a zero entry when it is missing and then adding to it is one fold step |
| Merge.StatsOfSnoc | merge_diarization.py:95-106 | the statistics of one more utterance are one fold step more |
| Merge.MergeDiarizationTranscription | merge_diarization.py:75-122 | merged utterances as above; statistics as above; `labels` empty; source `"merged"`; `num_speakers` copied; duration from the transcription when present, otherwise from the diarization |
| ApplyLabels.GetSpeakerName | apply_labels.py:41-43 | never fails: the label's name when the id has a label with a name, the id otherwise |
| ApplyLabels.RelabelOne | apply_labels.py:30-43 | relabelling one id changes the resolved name of that id only |
| ApplyLabels.KeptExactly | apply_labels.py:67-70 | the kept positions are exactly the non-blank segments, in ascending order |
| ApplyLabels.UtterancesAreKept | apply_labels.py:64-70 | the rendered utterances are those of the non-blank segments, in order, with resolved names and stripped text |
| ApplyLabels.UttersAtPrefix | apply_labels.py:64-70 | utterances at positions before `n` do not depend on the segments from `n` on |
| ApplyLabels.GroupedPiecesAt | apply_labels.py:73-81 | one piece per utterance; a header exactly when the name differs from the previous utterance's (the first always gets one), bare text otherwise |
| ApplyLabels.GroupedPiecesLast | apply_labels.py:73-81 | appending an utterance keeps the earlier pieces and their headers |
| ApplyLabels.GroupedPiecesSnoc | apply_labels.py:73-81 | the next piece compares against the last emitted name, which becomes the new utterance's |
| ApplyLabels.UtterancesSnoc | apply_labels.py:64-70 | a blank segment adds no utterance; any other adds exactly one |
| ApplyLabels.RenderGrouped | apply_labels.py:60-83 | the txt/md loop returns the grouped pieces joined by single spaces, then stripped |
| ApplyLabels.TimestampExample | apply_labels.py:157-172 | 3725.25 s renders as `01:02:05,250` in SRT and `01:02:05.250` in WebVTT |
| ApplyLabels.SrtVttDifferOnlyInSeparator | apply_labels.py:157-172 | the SRT and WebVTT stamps of a time have the same length (at least 12) and differ only at the separator, `,` versus `.` |
| ApplyLabels.FormatSrtTimestamp | apply_labels.py:155-161 | the stamp is `HH:MM:SS,mmm`: at least two hour characters, colons, a comma fourth from the end, and two, two and three digits in the fixed fields; `SubtitleTimestampsRoundTrip` gives its value |
| ApplyLabels.FormatVttTimestamp | apply_labels.py:164-170 | the stamp is `HH:MM:SS.mmm`, with a full stop fourth from the end and the same fixed fields; `SubtitleTimestampsRoundTrip` gives its value |
| ApplyLabels.SubtitleTimestampsRoundTrip | apply_labels.py:157-172 | for a non-negative time, each stamp reads back as the time in whole milliseconds, and only with its own separator |
| ApplyLabels.SrtCuesNumberedByPosition | apply_labels.py:112-127 | the SRT lines are the 4-line cues of the non-blank segments, each numbered by its 1-based position in the full list |
| ApplyLabels.SrtCuesAtPrefix | apply_labels.py:112-127 | cues of positions before `n` do not depend on later segments |
| ApplyLabels.SrtCuesAtSnoc | apply_labels.py:112-127 | one more kept position adds that segment's cue at the end |
| ApplyLabels.SrtCuesAtLength | apply_labels.py:124-127 | every cue is 4 lines |
| ApplyLabels.SrtLinesSnoc | apply_labels.py:112-127 | a blank segment adds no cue; any other adds its own cue |
| ApplyLabels.RenderSrt | apply_labels.py:111-129 | the SRT loop returns the cue lines joined by newlines |
| ApplyLabels.VttCuesFollowSegments | apply_labels.py:133-149 | after the header, the WebVTT lines are the 3-line cues of the non-blank segments, in order, without numbers |
| ApplyLabels.VttCuesAtPrefix | apply_labels.py:135-149 | cues of positions before `n` do not depend on later segments |
| ApplyLabels.VttCuesAtLength | apply_labels.py:147-149 | every cue is 3 lines |
| ApplyLabels.VttCuesSnoc | apply_labels.py:135-149 | a blank segment adds no cue; any other adds its own cue |
| ApplyLabels.RenderVtt | apply_labels.py:133-151 | the WebVTT loop returns `WEBVTT`, a blank line and the cues, joined by newlines |
| ApplyLabels.RenderJson | apply_labels.py:87-107 | one entry per segment, blanks included, each with the resolved name, the raw id and the unstripped text; the metadata and the full labels are copied |
| ApplyLabels.ApplyLabelsToTranscript | apply_labels.py:57-154 | each known format gives its rendering; an error exactly for a format outside txt, md, json, srt and vtt, and that error names the format |
| Label.CheckDiarized | label.py:25-34 | rejects a missing or empty segment list, then a first segment without text; otherwise accepts the segments unchanged |
| Label.OutputFileName | label.py:228-232 | a stem ending in `_diarized` gives a name ending in `_speakers_labeled.json`; any other stem gets `_labeled.json` appended |
| Label.OutputNameSplice | label.py:228-230 | for a stem ending in `_diarized`, the text before the first `_diarized` is kept, that occurrence is dropped, and the rest is named as on its own; with `DiarizedSuffixReplaced` this removes every occurrence |
| Label.OutputNameExample | label.py:228-230 | `a_diarized_b_diarized` becomes `a_b_speakers_labeled.json`: both occurrences are removed |
| Label.DiarizedSuffixReplaced | label.py:228-230 | when `_diarized` occurs only as the suffix, it is replaced: `base_diarized` becomes `base_speakers_labeled.json` |
| Label.RemoveDiarizedSplice | label.py:229 | `replace("_diarized", "")` on `base + "_diarized" + rest` keeps `base`, drops that occurrence and continues on `rest`, when `base` has no occurrence of its own |
| Label.EligibleExactly | label.py:59-62 | the eligible segments are exactly those of the speaker whose stripped text is non-empty |
| Label.GetSpeakerSamples | label.py:59-86 | samples are eligible segments; no eligible segment gives none; random mode gives min(count, n) samples, and exactly the eligible list, in order, when there are at most `n`; positional mode with fewer than `n` gives all of them in order |
| Label.PositionalPicks | label.py:74-81 | with at least `n` eligible segments, the positional picks are the first, the one at `count // 2` and the last |
| Label.RandomPicks | label.py:67-71 | with more than `n` eligible segments, the random picks are the `n` distinct drawn positions |
| Label.SpeakersVisitedOnceInOrder | label.py:116 | speakers are visited in strictly ascending order, so once each, and they are exactly the ids that have a segment; none only when there are no segments |
| Label.AskCommits | label.py:151-181 | a committed label is either manual, named by the last answer (non-empty, stripped, not `m`), or skipped by a `y`/`Y` that directly follows an empty answer, keeping the id as its name; email and role are empty, and the stamp is the time of the last answer |
| Label.UnconfirmedBlankReprompts | label.py:169-172 | an empty answer followed by anything but `y`/`Y` commits nothing: the speaker is asked again from the next line |
| Label.LabelAllCovers | label.py:127-194 | a completed session labels every visited speaker (manual or skipped), keeps the labels of ids it did not visit, and adds no other key |
| Label.LabelAllCommits | label.py:160-181 | each visited speaker ends with a label of the committed form (a manual name from the line that ended it, or a confirmed skip), ended by a line after those already consumed, whatever label the id had before |
| Label.LabelAllPrompts | label.py:127-185 | for distinct speakers, a completed session cuts the lines from the start position to where it stops into consecutive blocks, one per speaker in order; each block is that speaker's own prompt and the label it commits is the speaker's final label |
| Label.SessionPrompts | label.py:116-185 | the session over the sorted speaker ids reads the typed lines from the first in one block per speaker, and each speaker ends with the label of its own block |
| Label.AskExample | label.py:148-168 | answers `m`, empty, `n`, ` Ada ` commit the manual label `Ada` after the fourth line |
| Label.SkipExample | label.py:169-181 | a blank answer confirmed by `Y` commits a skip that keeps the id as its name |
| Label.PromptSpeaker | label.py:146-185 | the prompt loop for one speaker returns what `Ask` specifies, or `None` when the input runs out |
| Label.InteractiveLabelSpeakers | label.py:116-196 | no speakers gives an error; otherwise the document comes back with the labels of the whole session, or an interruption error when the input runs out |
| Clock.FormatMinutes | label.py:39-43 | the text is the minutes, a colon and two digits of seconds, for any time; `FormatMinutesReadsBack` gives their values |
| Clock.FormatMinutesReadsBack | label.py:39-43 | `format_time` prints the whole minutes, a colon, then the seconds within the minute as two digits |
| Clock.MinutesSplit | label.py:41-43 | the minutes and seconds fields are the whole seconds divided by 60 and the remainder |
| Clock.ClockFieldsTruncateToMillis | apply_labels.py:159-162 | hours, minutes, seconds and millis are those of the time truncated to whole milliseconds |
| Clock.ClockFieldsInRange | apply_labels.py:160-162 | minutes and seconds lie in [0, 60) and millis in [0, 1000) for every time |
| Clock.MinutesField | apply_labels.py:160 | `(s % 3600) // 60` is the minute within the hour of the truncated time |
| Clock.SecondsField | apply_labels.py:161 | `s % 60` truncated is the second within the minute of the truncated time |
| Clock.MillisField | apply_labels.py:162 | `(s % 1) * 1000` truncated is the millisecond within the second |
| Clock.ClockFieldsExample | apply_labels.py:159-162 | 3725.25 s is 1 h, 2 min, 5 s and 250 ms |
| Clock.FormatClockExample | apply_labels.py:163 | 3725.25 s prints as `01:02:05`, the separator, then `250` |
| Clock.StampExample | apply_labels.py:163 | the fields 1, 2, 5 and 250 print as `01:02:05`, the separator, then `250` |
| Clock.FormatClockHalfExample | transcribe.py:84 | 1.5 s prints as `00:00:01`, the separator, then `500` |
| Clock.FormatClockRoundTrip | apply_labels.py:157-163 | a non-negative time's stamp reads back as the time in whole milliseconds, and not with another separator |
| Clock.MillisFieldsRecompose | apply_labels.py:159-162 | the fields of a millisecond count are in range and recompose to that count |
| Clock.StampRoundTrip | apply_labels.py:163 | in-range fields printed and read back give the same milliseconds; the other separator is refused |
| Clock.StampSeparatorOnly | apply_labels.py:161-170 | two stamps of the same fields differ only at the separator, the fourth character from the end |
| Text.StripEmptyIffBlank | apply_labels.py:67-70 | `strip()` is empty exactly when the text is all whitespace |
| Text.StripEnds | apply_labels.py:67 | a non-empty stripped text begins and ends with a non-space |
| Text.TrimStartShape | apply_labels.py:67 | the left-trimmed text is a suffix of the input, preceded only by whitespace, and starts with a non-space |
| Text.TrimEndShape | apply_labels.py:67 | the right-trimmed text is a prefix of the input, followed only by whitespace, and ends with a non-space |
| Text.StripKeepsNonSpace | transcribe.py:65 | stripping removes whitespace only |
| Text.SplitEmptyIffBlank | merge_diarization.py:106 | `split()` has no words exactly when the text is all whitespace |
| Text.SplitKeepsNonSpace | merge_diarization.py:106 | the words of `split()`, concatenated, are the non-space characters of the text |
| Text.SplitAtSpace | merge_diarization.py:106 | a whitespace character separates words: `split()` of `a + c + b` is the words of `a` followed by the words of `b`, so no word spans whitespace |
| Text.SplitWord | merge_diarization.py:106 | a non-empty run without whitespace is one word, so words are maximal runs |
| Text.SplitExample | merge_diarization.py:106 | `"a b".split()` is `["a", "b"]`, two words |
| Text.JoinWithSpaceKeepsNonSpace | transcribe.py:74 | joining with spaces adds only whitespace |
| Text.NatToStringRoundTrip | apply_labels.py:124 | `str(n)` reads back as `n` |
| Text.FormatIntRoundTrip | apply_labels.py:163 | a zero-padded number reads back as the number |
| Text.InsertSortedCorrect | label.py:116 | inserting into a strictly sorted list keeps it strictly sorted and adds exactly the new element |
| Text.SortedDistinctCorrect | label.py:116 | `sorted(set(xs))` is strictly sorted and has exactly the elements of `xs` |
| Text.LexLessIrreflexive | label.py:116 | string order is irreflexive |
| Text.LexLessTransitive | label.py:116 | string order is transitive |
| Text.LexLessTotal | label.py:116 | two different strings are ordered one way or the other |
| Text.LexLessAsymmetric | label.py:116 | string order is asymmetric |
| Text.RemoveAllAbsent | label.py:229 | removing a pattern that does not occur changes nothing |
| Transcribe.TranscribeAudio | transcribe.py:57-75 | one record per model segment, in order, with times copied and text stripped; `text` is the stripped texts joined by single spaces; language and duration are copied from `info` |
| Transcribe.FullTextKeepsNonSpace | transcribe.py:61-74 | the full text has exactly the non-space characters of the model's segment texts, in order |
| Transcribe.StrippedConcatKeepsNonSpace | transcribe.py:65-67 | stripping each text loses no non-space character |
| Transcribe.FormatTimestamp | transcribe.py:78-84 | the stamp is `HH:MM:SS,mmm`, with a comma fourth from the end and the fixed fields in place, for any time |
| Transcribe.FormatTimestampIsSrt | transcribe.py:78-84 | `format_timestamp` is the SRT formatter of `apply_labels.py` for every time, and a non-negative time reads back with a comma |
| Transcribe.SrtCuesContiguous | transcribe.py:97-104 | 4 lines per segment, blanks included; cue `k` is numbered `k + 1`, so numbering is contiguous |
| Transcribe.GroupOfPrefix | transcribe.py:97-112 | appending lines leaves earlier cues in place |
| Transcribe.GroupOfLast | transcribe.py:97-112 | an appended cue is the next group of lines |
| Transcribe.SrtLinesSnoc | transcribe.py:99-103 | each segment adds its own cue, numbered by its position |
| Transcribe.BuildSrt | transcribe.py:97-104 | the SRT loop returns the cue lines joined by newlines |
| Transcribe.VttCuesInOrder | transcribe.py:106-112 | 3 lines per segment, in order, without numbers |
| Transcribe.VttLinesSnoc | transcribe.py:108-111 | each segment adds its own cue |
| Transcribe.BuildVtt | transcribe.py:106-112 | the WebVTT loop returns `WEBVTT`, a blank line and the cues, joined by newlines |
| Transcribe.SaveTranscription | transcribe.py:87-112 | txt writes only the full text; json writes the record; srt and vtt write their lines with `format_timestamp`; nothing is written exactly for another format |
| Transcribe.AsWrittenVttCue | transcribe.py:106-112 | as written, the WebVTT cue of a segment from 0 s to 1.5 s ends with `00:00:01,500`; that stamp is refused as a WebVTT stamp |
| Transcribe.AsWrittenVttStampRejected | transcribe.py:109 | as written, no WebVTT cue stamp of a non-negative time has the full stop WebVTT requires |
| Transcribe.SaveWebVtt | transcribe.py:106-112 | the corrected WebVTT file uses the full-stop formatter |
| Transcribe.CorrectedVttCue | transcribe.py:106-112 | with the correction, a cue's start stamp reads back with a full stop as the start in whole milliseconds |
| Diarize.StatsKeys | diarize.py:89-94 | the statistics keys are exactly the speakers that have a turn |
| Diarize.NoneOfSpeaker | diarize.py:89-96 | a speaker without a turn has no segments |
| Diarize.StatsEntry | diarize.py:95-96 | each entry holds the summed duration and the count of exactly that speaker's segments |
| Diarize.MaxEndIsMaximum | diarize.py:99 | the duration is the end of some segment, and no segment ends later |
| Diarize.DiarizeAudio | diarize.py:73-113 | one segment per turn, in order, with `duration == end - start`; statistics as above; `num_speakers` is the number of keys; duration is the latest end, or 0 without turns; version `"1.0"`, empty labels, source `"local_diarization"` |

## Left out

- summarize.py is not part of this model. It is an HTTP call to a language model plus prompt templating.
- The diarization and speech-recognition model calls are not modelled. Their output is the input sequence of `Diarize.DiarizeAudio` and `Transcribe.TranscribeAudio`.
- Not modelled: file I/O, the `json.loads`/`json.dumps` text, argparse, `print` and `display_quotes`. The JSON outputs are records (`ApplyLabels.JsonTranscript`, `Transcribe.Written`).
- The conditions under which the scripts stop with `sys.exit` are modelled as `Err` results. The exit codes and the messages written to stderr are not.
- A `KeyError` from a missing required key is not modelled: `seg["text"]` in `get_speaker_samples` and `seg["speaker_id"]` in the renderers of apply_labels.py read fields that the record types always hold, so a segment without them cannot be represented.
- `datetime.now` is a parameter: `createdAt`, and `now(k)` read after `k` typed lines.
- The audio file's name and absolute path are parameters of `Diarize.DiarizeAudio`.
- `random.sample` is not modelled. Its result is the `draw` parameter: distinct positions of the eligible list.
- Float rounding is not modelled. Times are exact reals, so `(s % 1) * 1000` is not subject to binary rounding.
- `KeyboardInterrupt` is not modelled. `EOFError` is the end of the scripted lines and gives the `Interrupted` outcome.
- A JSON key that is present with the value `null` is treated like a missing key.
- ApplyLabels.ApplyLabelsToTranscript: for `json`, states only that the record has one entry per segment. `ApplyLabels.RenderJson`, which it calls, states each entry.
- Transcribe.CorrectedVttCue: states the read-back of the start stamp only. The end stamp follows from the same `Clock.FormatClockRoundTrip`.
- Label.OutputFileName: its own contract gives only the suffix for a stem ending in `_diarized`. The removal of every occurrence is stated by `OutputNameSplice` and `DiarizedSuffixReplaced` together.
- Clock.FormatMinutesReadsBack: states the printed fields as the quotient and remainder of the whole seconds by 60. It does not recombine them into the seconds.

## Findings

| source | as written | input that shows it | evidently intended | confidence | as-written member | corrected member |
|---|---|---|---|---|---|---|
| transcribe.py:106-112 | the WebVTT cues use `format_timestamp`, which puts a comma before the milliseconds | a segment from 0 s to 1.5 s gets a cue whose end stamp is `00:00:01,500` | WebVTT timestamps `HH:MM:SS.mmm` with a full stop (section 4 of the W3C WebVTT specification), as `format_vtt_timestamp` in apply_labels.py prints them | high, not executed | Transcribe.AsWrittenVttCue | Transcribe.SaveWebVtt |
