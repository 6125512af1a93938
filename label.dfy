/**
 * The interactive labelling step: checking the diarized document it is
 * given, choosing sample quotes of a speaker, the per-speaker prompt loop
 * driven by the lines the user types, and the name of the file it writes.
 */
module Label {
  import opened Wrappers
  import opened Text
  import opened Transcript

  /** One entry of `segments` as read from disk: `text` may be missing. */
  datatype RawSegment = RawSegment(speakerId: string, start: real, end: real, text: Option<string>)

  datatype LoadError = NoSegments | NoText

  /**
   * The checks of `load_diarized_json`: `segments` must be present and
   * non-empty, and its first entry must carry `text`. Later entries are not
   * inspected.
   */
  function CheckDiarized(segments: Option<seq<RawSegment>>): (r: Result<seq<RawSegment>, LoadError>)
    ensures r == Err(NoSegments) <==> segments.None? || segments.value == []
    ensures r == Err(NoText) <==> segments.Some? && segments.value != [] && segments.value[0].text.None?
    ensures r.Ok? ==> segments.Some? && r.value == segments.value && r.value[0].text.Some?
  {
    match segments
    case None => Err(NoSegments)
    case Some(segs) =>
      if segs == [] then Err(NoSegments)
      else if segs[0].text.None? then Err(NoText)
      else Ok(segs)
  }

  const Diarized := "_diarized"

  /**
   * The default output name in `main`, given the stem of the input file:
   * a stem ending in `_diarized` loses every occurrence of `_diarized` and
   * gets `_speakers_labeled.json`; any other stem gets `_labeled.json`.
   */
  function OutputFileName(stem: string): (name: string)
    ensures EndsWith(stem, Diarized) ==> EndsWith(name, "_speakers_labeled.json")
    ensures !EndsWith(stem, Diarized) ==> name == stem + "_labeled.json"
  {
    if EndsWith(stem, Diarized) then RemoveAll(stem, Diarized) + "_speakers_labeled.json"
    else stem + "_labeled.json"
  }

  /**
   * When `_diarized` occurs only as the suffix, the output name is the stem
   * with that suffix replaced: `meeting_diarized` becomes
   * `meeting_speakers_labeled.json`.
   */
  lemma DiarizedSuffixReplaced(base: string)
    requires !Occurs(base, Diarized)
    ensures OutputFileName(base + Diarized) == base + "_speakers_labeled.json"
  {
    var stem := base + Diarized;
    EndsWithAfter(base, Diarized, Diarized);
    RemoveDiarizedSplice(base, []);
    AppendNothing(stem);
    assert RemoveAll([], Diarized) == [];
    assert OutputFileName(stem) == RemoveAll(stem, Diarized) + "_speakers_labeled.json";
  }

  lemma AppendNothing(x: string)
    ensures x + [] == x
  {
  }

  /**
   * Every earlier `_diarized` goes too: up to its first occurrence the stem
   * is kept, the occurrence is dropped, and the rest of the stem is named
   * as it would be on its own.
   */
  lemma OutputNameSplice(base: string, rest: string)
    requires !Occurs(base, Diarized) && EndsWith(rest, Diarized)
    ensures OutputFileName(base + Diarized + rest) == base + OutputFileName(rest)
  {
    var stem := base + Diarized + rest;
    EndsWithAfter(base + Diarized, rest, Diarized);
    RemoveDiarizedSplice(base, rest);
    assert OutputFileName(stem) == RemoveAll(stem, Diarized) + "_speakers_labeled.json";
    assert OutputFileName(rest) == RemoveAll(rest, Diarized) + "_speakers_labeled.json";
    AppendAssoc(base, RemoveAll(rest, Diarized), "_speakers_labeled.json");
  }

  lemma AppendAssoc(x: string, y: string, z: string)
    ensures (x + y) + z == x + (y + z)
  {
  }

  lemma EndsWithAfter(front: string, rest: string, suffix: string)
    requires EndsWith(rest, suffix)
    ensures EndsWith(front + rest, suffix)
  {
    assert (front + rest)[|front + rest| - |suffix|..] == rest[|rest| - |suffix|..];
  }

  /** `a_diarized_b_diarized` becomes `a_b_speakers_labeled.json`. */
  lemma OutputNameExample()
    ensures OutputFileName("a" + Diarized + ("_b" + Diarized)) == "a" + ("_b" + "_speakers_labeled.json")
  {
    assert !Occurs("a", Diarized);
    assert !Occurs("_b", Diarized);
    DiarizedSuffixReplaced("_b");
    assert EndsWith("_b" + Diarized, Diarized);
    OutputNameSplice("a", "_b" + Diarized);
  }

  /**
   * `_diarized` starts with the only underscore it contains, so no
   * occurrence of it can straddle the end of `base`: `replace` keeps
   * `base`, drops the occurrence and carries on with `rest`.
   */
  lemma {:induction false} RemoveDiarizedSplice(base: string, rest: string)
    requires !Occurs(base, Diarized)
    ensures RemoveAll(base + Diarized + rest, Diarized) == base + RemoveAll(rest, Diarized)
    decreases |base|
  {
    var s := base + Diarized + rest;
    SpliceSlices(base, rest, s);
    if base == [] {
      RemoveAllMatch(s, Diarized);
    } else {
      if |base| >= |Diarized| {
        assert !OccursAt(base, Diarized, 0);
      } else {
        assert s[..|Diarized|][|base|] == '_' != Diarized[|base|];
      }
      RemoveAllMiss(s, Diarized);
      AbsentFromTail(base, Diarized);
      RemoveDiarizedSplice(base[1..], rest);
      ConsAssoc(base[0], base[1..], RemoveAll(rest, Diarized));
    }
  }

  /** `replace` drops an occurrence at the front. */
  lemma RemoveAllMatch(s: string, pat: string)
    requires pat != [] && |s| >= |pat| && s[..|pat|] == pat
    ensures RemoveAll(s, pat) == RemoveAll(s[|pat|..], pat)
  {
  }

  /** `replace` keeps the first character when no occurrence starts there. */
  lemma RemoveAllMiss(s: string, pat: string)
    requires pat != [] && |s| >= |pat| && s[..|pat|] != pat
    ensures RemoveAll(s, pat) == [s[0]] + RemoveAll(s[1..], pat)
  {
  }

  lemma ConsAssoc(c: char, x: string, y: string)
    ensures [c] + (x + y) == ([c] + x) + y
  {
  }

  /** The slices of `base + "_diarized" + rest` that `replace` looks at. */
  lemma SpliceSlices(base: string, rest: string, s: string)
    requires s == base + Diarized + rest
    ensures |s| >= |Diarized|
    ensures base == [] ==> s[..|Diarized|] == Diarized && s[|Diarized|..] == rest
    ensures base != [] ==>
      (s[0] == base[0] && s[1..] == base[1..] + Diarized + rest && base == [base[0]] + base[1..])
    ensures |base| >= |Diarized| ==> s[..|Diarized|] == base[..|Diarized|]
    ensures 0 < |base| < |Diarized| ==> s[..|Diarized|][|base|] == '_'
  {
  }

  /** A segment of `sp` whose stripped text is non-empty (`StripEmptyIffBlank`). */
  predicate Quotable(seg: Segment, sp: string) {
    seg.speakerId == sp && !IsBlank(seg.text)
  }

  /** `speaker_segments`: the quotable segments of `sp`, in order. */
  function Eligible(segs: seq<Segment>, sp: string): (r: seq<Segment>)
    ensures |r| <= |segs|
  {
    if segs == [] then []
    else
      var last := segs[|segs| - 1];
      Eligible(segs[..|segs| - 1], sp) + if Quotable(last, sp) then [last] else []
  }

  /** The eligible segments are exactly the quotable ones. */
  lemma {:induction false} EligibleExactly(segs: seq<Segment>, sp: string)
    ensures forall x :: x in Eligible(segs, sp) <==> x in segs && Quotable(x, sp)
  {
    if segs != [] {
      var init := segs[..|segs| - 1];
      EligibleExactly(init, sp);
      assert segs == init + [segs[|segs| - 1]];
    }
  }

  /**
   * `random.sample(speaker_segments, n)` is taken as the positions it
   * draws: `n` distinct positions of the eligible list.
   */
  predicate IsDraw(draw: seq<nat>, count: nat, n: nat) {
    |draw| == n
    && (forall k :: 0 <= k < n ==> draw[k] < count)
    && (forall k, l :: 0 <= k < l < n ==> draw[k] != draw[l])
  }

  /**
   * `get_speaker_samples`. Positional mode takes first, middle and last when
   * there are at least `numSamples` eligible segments (three picks whatever
   * `numSamples` is) and all of them otherwise; random mode takes all of
   * them when there are at most `numSamples`, otherwise the drawn ones.
   */
  function GetSpeakerSamples(segs: seq<Segment>, sp: string, numSamples: nat, randomSamples: bool, draw: seq<nat>): (r: seq<Segment>)
    requires randomSamples && |Eligible(segs, sp)| > numSamples ==> IsDraw(draw, |Eligible(segs, sp)|, numSamples)
    ensures forall x :: x in r ==> x in segs && Quotable(x, sp)
    ensures Eligible(segs, sp) == [] ==> r == []
    ensures randomSamples ==> |r| == if |Eligible(segs, sp)| <= numSamples then |Eligible(segs, sp)| else numSamples
    ensures randomSamples && |Eligible(segs, sp)| <= numSamples ==> r == Eligible(segs, sp)
    ensures !randomSamples && |Eligible(segs, sp)| < numSamples ==> r == Eligible(segs, sp)
  {
    var el := Eligible(segs, sp);
    EligibleExactly(segs, sp);
    if el == [] then []
    else if randomSamples then
      if |el| <= numSamples then el
      else seq(numSamples, k requires 0 <= k < numSamples => el[draw[k]])
    else if |el| >= numSamples then [el[0], el[|el| / 2], el[|el| - 1]]
    else el
  }

  /**
   * In positional mode with enough eligible segments the picks are the
   * first, the middle (position `count / 2`) and the last eligible one, in
   * that order of the talk.
   */
  lemma PositionalPicks(segs: seq<Segment>, sp: string, numSamples: nat)
    requires Eligible(segs, sp) != [] && |Eligible(segs, sp)| >= numSamples
    ensures var el, r := Eligible(segs, sp), GetSpeakerSamples(segs, sp, numSamples, false, []);
      |r| == 3 && r[0] == el[0] && r[1] == el[|el| / 2] && r[2] == el[|el| - 1]
      && 0 <= |el| / 2 <= |el| - 1
  {
  }

  /** In random mode the drawn samples are distinct positions of the eligible list. */
  lemma RandomPicks(segs: seq<Segment>, sp: string, numSamples: nat, draw: seq<nat>)
    requires |Eligible(segs, sp)| > numSamples && IsDraw(draw, |Eligible(segs, sp)|, numSamples)
    ensures var el, r := Eligible(segs, sp), GetSpeakerSamples(segs, sp, numSamples, true, draw);
      |r| == numSamples && forall k :: 0 <= k < numSamples ==> r[k] == el[draw[k]]
  {
  }

  /** The speaker ids of the segments, in order, repeats included. */
  function SpeakerIdsOf(segs: seq<Segment>): (ids: seq<string>)
    ensures |ids| == |segs|
  {
    seq(|segs|, k requires 0 <= k < |segs| => segs[k].speakerId)
  }

  /** `sorted(set(seg["speaker_id"] for seg in segments))` */
  function Speakers(segs: seq<Segment>): seq<string> {
    SortedDistinct(SpeakerIdsOf(segs))
  }

  /** Every speaker that has a segment is visited, once, in ascending order. */
  lemma SpeakersVisitedOnceInOrder(segs: seq<Segment>)
    ensures StrictlySorted(Speakers(segs))
    ensures forall id :: id in Speakers(segs) <==> exists k :: 0 <= k < |segs| && segs[k].speakerId == id
    ensures Speakers(segs) == [] <==> segs == []
  {
    var ids := SpeakerIdsOf(segs);
    SortedDistinctCorrect(ids);
    forall id ensures id in ids <==> exists k :: 0 <= k < |segs| && segs[k].speakerId == id {
      if id in ids {
        var k :| 0 <= k < |ids| && ids[k] == id;
        assert segs[k].speakerId == id;
      }
      if exists k :: 0 <= k < |segs| && segs[k].speakerId == id {
        var k :| 0 <= k < |segs| && segs[k].speakerId == id;
        assert ids[k] == id;
      }
    }
    if segs != [] {
      assert ids[0] in Speakers(segs);
    }
  }

  /** `response.lower() == 'm'` */
  predicate IsMore(response: string) {
    response == "m" || response == "M"
  }

  /** `skip.lower() == 'y'` */
  predicate IsYes(answer: string) {
    answer == "y" || answer == "Y"
  }

  function ManualEntry(name: string, at: string): LabelEntry {
    LabelEntry(Some(name), None, None, Manual, at)
  }

  function SkippedEntry(id: string, at: string): LabelEntry {
    LabelEntry(Some(id), None, None, Skipped, at)
  }

  /** The label a speaker's prompt loop commits and the position of the next unread line. */
  datatype Prompted = Prompted(entry: LabelEntry, next: nat)

  /**
   * The prompt loop for speaker `sp`, reading `lines` from position `pos`,
   * one line per step: `confirming` is set after an empty answer, when the
   * next line answers "Skip this speaker?". `now(k)` is the clock reading
   * once `k` lines have been read. `None` when the input runs out first
   * (end of input aborts the session).
   */
  function Ask(sp: string, lines: seq<string>, pos: nat, confirming: bool, now: nat -> string): (r: Option<Prompted>)
    ensures r.Some? ==> pos < r.value.next <= |lines|
    decreases |lines| - pos
  {
    if pos >= |lines| then None
    else
      var answer := Strip(lines[pos]);
      if confirming then
        if IsYes(answer) then Some(Prompted(SkippedEntry(sp, now(pos + 1)), pos + 1))
        else Ask(sp, lines, pos + 1, false, now)
      else if IsMore(answer) then Ask(sp, lines, pos + 1, false, now)
      else if answer != [] then Some(Prompted(ManualEntry(answer, now(pos + 1)), pos + 1))
      else Ask(sp, lines, pos + 1, true, now)
  }

  /**
   * A committed label is either a manual one, named by the last line read,
   * stripped, when that is non-empty and not `m`/`M`, or a skip that keeps
   * the speaker's id as its name, confirmed by `y`/`Y` right after an empty
   * answer; either way it is stamped with the time its last line was read.
   */
  predicate Commits(sp: string, lines: seq<string>, now: nat -> string, p: Prompted)
    requires 0 < p.next <= |lines|
  {
    var e, last := p.entry, Strip(lines[p.next - 1]);
    e.email.None? && e.role.None? && e.labeledAt == now(p.next) && e.name.Some?
    && ((e.source == Manual && e.name.value == last && last != [] && !IsMore(last))
        || (e.source == Skipped && e.name.value == sp && IsYes(last)
            && p.next >= 2 && Strip(lines[p.next - 2]) == []))
  }

  /**
   * Whatever a prompt returns is committed. The prompt starts either fresh
   * or confirming a skip, and it only confirms right after an empty answer.
   */
  lemma {:induction false} AskCommits(sp: string, lines: seq<string>, pos: nat, confirming: bool, now: nat -> string)
    requires Ask(sp, lines, pos, confirming, now).Some?
    requires confirming ==> 0 < pos && Strip(lines[pos - 1]) == []
    ensures Commits(sp, lines, now, Ask(sp, lines, pos, confirming, now).value)
    decreases |lines| - pos
  {
    var r := Ask(sp, lines, pos, confirming, now);
    var answer := Strip(lines[pos]);
    if confirming {
      if IsYes(answer) {
        assert r.value == Prompted(SkippedEntry(sp, now(pos + 1)), pos + 1);
      } else {
        assert r == Ask(sp, lines, pos + 1, false, now);
        AskCommits(sp, lines, pos + 1, false, now);
      }
    } else if IsMore(answer) {
      assert r == Ask(sp, lines, pos + 1, false, now);
      AskCommits(sp, lines, pos + 1, false, now);
    } else if answer != [] {
      assert r.value == Prompted(ManualEntry(answer, now(pos + 1)), pos + 1);
    } else {
      assert r == Ask(sp, lines, pos + 1, true, now);
      AskCommits(sp, lines, pos + 1, true, now);
    }
  }

  /**
   * An empty answer followed by anything but `y`/`Y` re-asks the same
   * speaker from scratch: the pair of lines commits nothing.
   */
  lemma UnconfirmedBlankReprompts(sp: string, lines: seq<string>, pos: nat, now: nat -> string)
    requires pos + 1 < |lines| && Strip(lines[pos]) == [] && !IsYes(Strip(lines[pos + 1]))
    ensures Ask(sp, lines, pos, false, now) == Ask(sp, lines, pos + 2, false, now)
  {
  }

  datatype Outcome = Labelled(labels: map<string, LabelEntry>, consumed: nat) | Interrupted

  /** The whole session: each speaker in turn, from the labels the document already had. */
  function LabelAll(speakers: seq<string>, lines: seq<string>, pos: nat, labels: map<string, LabelEntry>, now: nat -> string): Outcome
    decreases |speakers|
  {
    if speakers == [] then Labelled(labels, pos)
    else
      match Ask(speakers[0], lines, pos, false, now)
      case None => Interrupted
      case Some(p) => LabelAll(speakers[1..], lines, p.next, labels[speakers[0] := p.entry], now)
  }

  /**
   * A completed session labels every visited speaker with a manual or
   * skipped entry and keeps every earlier label of an id it did not visit.
   */
  lemma {:induction false} LabelAllCovers(speakers: seq<string>, lines: seq<string>, pos: nat, labels: map<string, LabelEntry>, now: nat -> string)
    requires LabelAll(speakers, lines, pos, labels, now).Labelled?
    ensures forall id :: id in LabelAll(speakers, lines, pos, labels, now).labels <==> id in labels || id in speakers
    ensures forall sp :: sp in speakers ==> LabelAll(speakers, lines, pos, labels, now).labels[sp].source in {Manual, Skipped}
    ensures forall id :: id in labels && id !in speakers ==> LabelAll(speakers, lines, pos, labels, now).labels[id] == labels[id]
    decreases |speakers|
  {
    if speakers != [] {
      var sp0 := speakers[0];
      var p := Ask(sp0, lines, pos, false, now).value;
      AskCommits(sp0, lines, pos, false, now);
      var next := labels[sp0 := p.entry];
      var rest := speakers[1..];
      LabelAllCovers(rest, lines, p.next, next, now);
      var out := LabelAll(rest, lines, p.next, next, now).labels;
      assert LabelAll(speakers, lines, pos, labels, now).labels == out;
      assert forall id :: id in speakers <==> id == sp0 || id in rest;
    }
  }

  /**
   * Each visited speaker ends the session with a label of the committed
   * form, ended by a line after those already read, whatever label it had
   * before. That the line belongs to the speaker's own prompt is
   * `LabelAllPrompts`.
   */
  lemma {:induction false} LabelAllCommits(speakers: seq<string>, lines: seq<string>, pos: nat, labels: map<string, LabelEntry>, now: nat -> string)
    requires LabelAll(speakers, lines, pos, labels, now).Labelled?
    ensures forall sp :: sp in speakers ==>
      (sp in LabelAll(speakers, lines, pos, labels, now).labels
       && exists q :: pos < q <= |lines| && Commits(sp, lines, now, Prompted(LabelAll(speakers, lines, pos, labels, now).labels[sp], q)))
    decreases |speakers|
  {
    if speakers != [] {
      var sp0 := speakers[0];
      var p := Ask(sp0, lines, pos, false, now).value;
      AskCommits(sp0, lines, pos, false, now);
      var next := labels[sp0 := p.entry];
      var rest := speakers[1..];
      LabelAllCovers(rest, lines, p.next, next, now);
      LabelAllCommits(rest, lines, p.next, next, now);
      var out := LabelAll(rest, lines, p.next, next, now).labels;
      assert LabelAll(speakers, lines, pos, labels, now).labels == out;
      forall sp | sp in speakers
        ensures sp in out && exists q :: pos < q <= |lines| && Commits(sp, lines, now, Prompted(out[sp], q))
      {
        if sp in rest {
          var q :| p.next < q <= |lines| && Commits(sp, lines, now, Prompted(out[sp], q));
        } else {
          assert sp == sp0 && out[sp] == p.entry;
          assert Prompted(out[sp], p.next) == p;
        }
      }
    }
  }

  /**
   * Speaker `sp`'s own prompt reads the lines from `from` up to `to`, and the
   * label it commits there is the one `sp` holds in `final`.
   */
  predicate OwnPrompt(sp: string, lines: seq<string>, now: nat -> string, from: nat, to: nat, final: map<string, LabelEntry>) {
    var a := Ask(sp, lines, from, false, now);
    a.Some? && a.value.next == to && sp in final && final[sp] == a.value.entry
  }

  /**
   * `b` cuts the lines into consecutive blocks, one per speaker in order,
   * each the speaker's own prompt.
   */
  predicate PromptBlocks(speakers: seq<string>, lines: seq<string>, now: nat -> string, b: seq<nat>, final: map<string, LabelEntry>) {
    |b| == |speakers| + 1
    && forall i :: 0 <= i < |speakers| ==> OwnPrompt(speakers[i], lines, now, b[i], b[i + 1], final)
  }

  lemma PromptBlocksCons(speakers: seq<string>, lines: seq<string>, now: nat -> string, b0: nat, c: seq<nat>, final: map<string, LabelEntry>)
    requires speakers != [] && PromptBlocks(speakers[1..], lines, now, c, final)
    requires OwnPrompt(speakers[0], lines, now, b0, c[0], final)
    ensures PromptBlocks(speakers, lines, now, [b0] + c, final)
  {
    var b := [b0] + c;
    forall i | 0 <= i < |speakers| ensures OwnPrompt(speakers[i], lines, now, b[i], b[i + 1], final) {
      if i > 0 {
        assert speakers[i] == speakers[1..][i - 1] && b[i] == c[i - 1] && b[i + 1] == c[i];
      }
    }
  }

  lemma DistinctTail(speakers: seq<string>)
    requires speakers != []
    requires forall i, j :: 0 <= i < j < |speakers| ==> speakers[i] != speakers[j]
    ensures forall i, j :: 0 <= i < j < |speakers[1..]| ==> speakers[1..][i] != speakers[1..][j]
    ensures speakers[0] !in speakers[1..]
  {
    var rest := speakers[1..];
    forall i, j | 0 <= i < j < |rest| ensures rest[i] != rest[j] {
      assert rest[i] == speakers[i + 1] && rest[j] == speakers[j + 1];
    }
    forall k | 0 <= k < |rest| ensures rest[k] != speakers[0] {
      assert rest[k] == speakers[k + 1];
    }
  }

  /**
   * A completed session over distinct speakers reads the lines in
   * consecutive blocks, one per speaker in order, from `pos` to where the
   * session stops, and each speaker's final label is the one committed in
   * its own block.
   */
  lemma {:induction false} LabelAllPrompts(speakers: seq<string>, lines: seq<string>, pos: nat, labels: map<string, LabelEntry>, now: nat -> string)
    requires LabelAll(speakers, lines, pos, labels, now).Labelled?
    requires forall i, j :: 0 <= i < j < |speakers| ==> speakers[i] != speakers[j]
    ensures exists b: seq<nat> ::
      (PromptBlocks(speakers, lines, now, b, LabelAll(speakers, lines, pos, labels, now).labels)
       && b[0] == pos && b[|speakers|] == LabelAll(speakers, lines, pos, labels, now).consumed)
    decreases |speakers|
  {
    var out := LabelAll(speakers, lines, pos, labels, now);
    if speakers == [] {
      var b: seq<nat> := [pos];
      assert PromptBlocks(speakers, lines, now, b, out.labels) && b[0] == pos && b[0] == out.consumed;
    } else {
      var sp0 := speakers[0];
      var p := Ask(sp0, lines, pos, false, now).value;
      var next := labels[sp0 := p.entry];
      var rest := speakers[1..];
      assert out == LabelAll(rest, lines, p.next, next, now);
      DistinctTail(speakers);
      LabelAllCovers(rest, lines, p.next, next, now);
      LabelAllPrompts(rest, lines, p.next, next, now);
      var c: seq<nat> :| PromptBlocks(rest, lines, now, c, out.labels) && c[0] == p.next && c[|rest|] == out.consumed;
      assert OwnPrompt(sp0, lines, now, pos, c[0], out.labels);
      PromptBlocksCons(speakers, lines, now, pos, c, out.labels);
      var b := [pos] + c;
      assert b[0] == pos && b[|speakers|] == c[|rest|];
    }
  }

  /**
   * The session of `interactive_label_speakers` meets the requirement of
   * `LabelAllPrompts`: the sorted speaker ids are distinct.
   */
  lemma SessionPrompts(doc: Document, lines: seq<string>, now: nat -> string)
    requires LabelAll(Speakers(doc.segments), lines, 0, doc.labels, now).Labelled?
    ensures exists b: seq<nat> ::
      (PromptBlocks(Speakers(doc.segments), lines, now, b, LabelAll(Speakers(doc.segments), lines, 0, doc.labels, now).labels)
       && b[0] == 0 && b[|Speakers(doc.segments)|] == LabelAll(Speakers(doc.segments), lines, 0, doc.labels, now).consumed)
  {
    var speakers := Speakers(doc.segments);
    SpeakersVisitedOnceInOrder(doc.segments);
    forall i, j | 0 <= i < j < |speakers| ensures speakers[i] != speakers[j] {
      LexLessIrreflexive(speakers[i]);
    }
    LabelAllPrompts(speakers, lines, 0, doc.labels, now);
  }

  /**
   * An example session: `m` asks for more quotes, an empty answer followed
   * by anything but `y` asks again, a padded name is stripped and committed.
   */
  lemma AskExample(now: nat -> string)
    ensures Ask("SPEAKER_00", ["m", "", "n", " Ada "], 0, false, now) == Some(Prompted(ManualEntry("Ada", now(4)), 4))
  {
    assert Strip("m") == "m";
    assert Strip("") == "";
    assert Strip("n") == "n";
    assert Strip(" Ada ") == "Ada";
  }

  /** An example skip: an empty answer confirmed by `Y` keeps the id as the name. */
  lemma SkipExample(now: nat -> string)
    ensures Ask("SPEAKER_01", ["  ", "Y"], 0, false, now) == Some(Prompted(SkippedEntry("SPEAKER_01", now(2)), 2))
  {
    assert Strip("  ") == "";
    assert Strip("Y") == "Y";
  }

  /** The prompt loop of `interactive_label_speakers` for one speaker. */
  method PromptSpeaker(sp: string, lines: seq<string>, pos: nat, now: nat -> string) returns (r: Option<Prompted>)
    ensures r == Ask(sp, lines, pos, false, now)
  {
    var at := pos;
    while true
      invariant Ask(sp, lines, pos, false, now) == Ask(sp, lines, at, false, now)
      decreases |lines| - at
    {
      if at >= |lines| {
        return None;
      }
      var response := Strip(lines[at]);
      at := at + 1;
      if IsMore(response) {
        continue;
      }
      if response != [] {
        return Some(Prompted(ManualEntry(response, now(at)), at));
      }
      if at >= |lines| {
        return None;
      }
      var skip := Strip(lines[at]);
      at := at + 1;
      if IsYes(skip) {
        return Some(Prompted(SkippedEntry(sp, now(at)), at));
      }
    }
  }

  datatype LabelError = NoSpeakers | LabellingInterrupted

  /**
   * `interactive_label_speakers`: the prompt loop over every speaker in
   * sorted order, reading the scripted `lines`; the document comes back
   * with its labels replaced, or not at all when the input runs out.
   */
  method InteractiveLabelSpeakers(doc: Document, lines: seq<string>, now: nat -> string) returns (r: Result<Document, LabelError>)
    ensures Speakers(doc.segments) == [] ==> r == Err(NoSpeakers)
    ensures Speakers(doc.segments) != [] ==>
      match LabelAll(Speakers(doc.segments), lines, 0, doc.labels, now)
      case Interrupted => r == Err(LabellingInterrupted)
      case Labelled(labels, _) => r == Ok(doc.(labels := labels))
  {
    var speakers := Speakers(doc.segments);
    if speakers == [] {
      return Err(NoSpeakers);
    }
    var labels := doc.labels;
    var pos := 0;
    for i := 0 to |speakers|
      invariant LabelAll(speakers, lines, 0, doc.labels, now) == LabelAll(speakers[i..], lines, pos, labels, now)
    {
      var sp := speakers[i];
      assert speakers[i..][1..] == speakers[i + 1..];
      var prompted := PromptSpeaker(sp, lines, pos, now);
      if prompted.None? {
        return Err(LabellingInterrupted);
      }
      labels := labels[sp := prompted.value.entry];
      pos := prompted.value.next;
    }
    r := Ok(doc.(labels := labels));
  }
}
