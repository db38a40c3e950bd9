/** `merge_diarisation` (server.py:264-394): attributes each transcript
    segment to a diarization turn in one forward sweep with two cursors,
    labels every speaker it meets, gives it a colour and counts its lines
    and words; what the sweep leaves over goes to "Unknown". */
module Diarisation {
  import opened Text
  import opened Transcript

  // ---------------------------------------------------------------- data

  /** A diarization turn: the `(turn, _, speaker)` triples of `itertracks`. */
  datatype Turn = Turn(start: real, end: real, speaker: string)

  /** One value of `speakers_info`; `name` is its "label" key. */
  datatype SpeakerInfo = SpeakerInfo(
    name: string, id: string, color: string, style: string,
    sample: Interval, subtitleLines: nat, wordCount: nat)

  /** `speakers_info` keeps its keys in insertion order, as a Python dict does;
      it is the list of its (key, value) pairs. */
  datatype Entry = Entry(key: string, info: SpeakerInfo)

  /** The registry the sweep threads through: `speakers_info`, the colours
      not yet handed out and `speaker_counter`. */
  datatype Registry = Registry(entries: seq<Entry>, colors: seq<string>, counter: nat)

  /** A segment of `new_segments`. */
  datatype LabelledSegment = LabelledSegment(start: real, end: real, speaker: string, text: string, words: seq<Word>)

  /** An entry of `diarization_segments`. */
  datatype DiarisationSegment = DiarisationSegment(speaker: string, start: real, end: real)

  datatype TopSpeaker = TopSpeaker(name: string, id: string, percentage: nat)

  /** What the transcription stage hands over. */
  datatype Transcription = Transcription(text: string, language: string, segments: seq<Segment>)

  datatype MergeResult = MergeResult(
    text: string, language: string, speakers: seq<SpeakerInfo>, topSpeaker: TopSpeaker,
    segments: seq<LabelledSegment>, diarization: seq<DiarisationSegment>)

  /** `max` of an empty list raises `ValueError`; a zero `len` in the
      percentage would raise `ZeroDivisionError`. */
  datatype MergeError = NoSpeakers | ZeroDivision

  datatype Merged = Ok(value: MergeResult) | Err(error: MergeError)

  /** The sweep's variables: both cursors, the registry and the two output lists. */
  datatype SweepState = SweepState(
    i: nat, j: nat, reg: Registry, out: seq<LabelledSegment>, diar: seq<DiarisationSegment>)

  const Palette: seq<string> := [
    "#0062ec", "#ed63d4", "#8b5eed", "#1a8bed", "#308800",
    "#886d4e", "#cb0000", "#6cb18c", "#d57312", "#000000"]

  const Unknown: string := "Unknown"

  // ---------------------------------------------------------- registry

  /** `f"Speaker {n}"`. */
  function SpeakerLabel(n: nat): string {
    "Speaker " + Decimal(n)
  }

  /** Where `key` sits in the dict, or the dict's length when it is absent
      (`key not in speakers_info`). */
  function IndexOf(es: seq<Entry>, key: string): (k: nat)
    ensures k <= |es|
    ensures k < |es| ==> es[k].key == key
    ensures forall n :: 0 <= n < k ==> es[n].key != key
  {
    if es == [] then 0 else if es[0].key == key then 0 else 1 + IndexOf(es[1..], key)
  }

  /** Python's `list.remove(x)`: drops the first occurrence of `x`. */
  function RemoveFirst(s: seq<string>, x: string): seq<string> {
    if s == [] then [] else if s[0] == x then s[1..] else [s[0]] + RemoveFirst(s[1..], x)
  }

  /** The colour of the `n`-th new speaker, where `r` stands for the random
      draw: `random.choice` on what is left of the palette, removed from it;
      once the palette is used up, `random.randint(0, 0xFFFFFF)` formatted
      as `#rrggbb`. */
  function PickColor(colors: seq<string>, r: nat): (string, seq<string>) {
    if |colors| > 0 then
      var c := colors[r % |colors|];
      (c, RemoveFirst(colors, c))
    else
      (HexColor(r % 0x1000000), colors)
  }

  /** Adds a new speaker with no lines yet; `draw(n)` is the random draw of
      the `n`-th speaker created. */
  function Enter(reg: Registry, key: string, name: string, style: string, seg: Segment, draw: nat -> nat): Registry {
    var (c, rest) := PickColor(reg.colors, draw(|reg.entries|));
    Registry(
      reg.entries + [Entry(key, SpeakerInfo(name, name, c, style, Interval(seg.start, seg.end), 0, 0))],
      rest, reg.counter)
  }

  /** One more line, and the segment's words, for the speaker at `k`. */
  function Record(reg: Registry, k: nat, seg: Segment): Registry
    requires k < |reg.entries|
  {
    var e := reg.entries[k];
    reg.(entries := reg.entries[k := e.(info := e.info.(
      subtitleLines := e.info.subtitleLines + 1, wordCount := e.info.wordCount + |seg.words|))])
  }

  /** Attribute `seg` to `key`: create the entry if it is absent, then count
      it. Afterwards the key is present at its old place or as the last
      speaker; its lines grow by one and its words by the segment's words;
      a new speaker starts from zero, and every other speaker is untouched. */
  function Register(reg: Registry, key: string, name: string, style: string, seg: Segment, draw: nat -> nat): (r: Registry)
    ensures var k := IndexOf(reg.entries, key);
      && k < |r.entries| && r.entries[k].key == key
      && |r.entries| == (if k < |reg.entries| then |reg.entries| else |reg.entries| + 1)
      && r.entries[k].info.subtitleLines == (if k < |reg.entries| then reg.entries[k].info.subtitleLines else 0) + 1
      && r.entries[k].info.wordCount == (if k < |reg.entries| then reg.entries[k].info.wordCount else 0) + |seg.words|
      && (forall n :: 0 <= n < |reg.entries| && n != k ==> r.entries[n] == reg.entries[n])
  {
    var k := IndexOf(reg.entries, key);
    var reg1 := if k < |reg.entries| then reg else Enter(reg, key, name, style, seg, draw);
    Record(reg1, k, seg)
  }

  // ------------------------------------------------------------- sweep

  function Labelled(seg: Segment, speaker: string): LabelledSegment {
    LabelledSegment(seg.start, seg.end, speaker, seg.text, seg.words)
  }

  /** The overlapping branch: the segment goes to the turn's speaker, and
      only the segment cursor moves on. */
  function Commit(s: SweepState, seg: Segment, turn: Turn, draw: nat -> nat): SweepState {
    var k := IndexOf(s.reg.entries, turn.speaker);
    var isNew := k == |s.reg.entries|;
    var speakerLabel := if isNew then SpeakerLabel(s.reg.counter) else s.reg.entries[k].info.name;
    var reg := Register(s.reg, turn.speaker, speakerLabel, "Outline", seg, draw);
    SweepState(
      s.i + 1, s.j,
      reg.(counter := if isNew then s.reg.counter + 1 else s.reg.counter),
      s.out + [Labelled(seg, speakerLabel)],
      s.diar + [DiarisationSegment(speakerLabel, turn.start, turn.end)])
  }

  /** One turn of the `while` loop; exactly one cursor moves, by one. */
  function Step(segs: seq<Segment>, turns: seq<Turn>, draw: nat -> nat, s: SweepState): (r: SweepState)
    requires s.i < |segs| && s.j < |turns|
    ensures (r.i == s.i && r.j == s.j + 1) || (r.i == s.i + 1 && r.j == s.j)
  {
    var seg, turn := segs[s.i], turns[s.j];
    if turn.end <= seg.start then s.(j := s.j + 1)
    else if seg.end <= turn.start then s.(i := s.i + 1)
    else if seg.end - turn.end >= turn.end - seg.start && s.j < |turns| then s.(j := s.j + 1)
    else Commit(s, seg, turn, draw)
  }

  function Sweep(segs: seq<Segment>, turns: seq<Turn>, draw: nat -> nat, s: SweepState): SweepState
    requires s.i <= |segs| && s.j <= |turns|
    decreases |segs| - s.i + |turns| - s.j
  {
    if s.i < |segs| && s.j < |turns| then Sweep(segs, turns, draw, Step(segs, turns, draw, s)) else s
  }

  /** One turn of the `for` loop over `transcript_segments[i:]`. */
  function TailStep(segs: seq<Segment>, draw: nat -> nat, s: SweepState): SweepState
    requires s.i < |segs|
  {
    var seg := segs[s.i];
    s.(i := s.i + 1,
       reg := Register(s.reg, Unknown, Unknown, "outline", seg, draw),
       out := s.out + [Labelled(seg, Unknown)])
  }

  function Tail(segs: seq<Segment>, draw: nat -> nat, s: SweepState): SweepState
    requires s.i <= |segs|
    decreases |segs| - s.i
  {
    if s.i < |segs| then Tail(segs, draw, TailStep(segs, draw, s)) else s
  }

  function Start(): SweepState {
    SweepState(0, 0, Registry([], Palette, 1), [], [])
  }

  /** The state when the `while` loop ends. */
  function Swept(segs: seq<Segment>, turns: seq<Turn>, draw: nat -> nat): SweepState {
    Sweep(segs, turns, draw, Start())
  }

  /** The state when the `for` loop ends. */
  function Finished(segs: seq<Segment>, turns: seq<Turn>, draw: nat -> nat): SweepState {
    var sw := Swept(segs, turns, draw);
    assert sw.i <= |segs| by { SweepFacts(segs, turns, draw, Start()); }
    Tail(segs, draw, sw)
  }

  // ------------------------------------------------------- top speaker

  function Infos(es: seq<Entry>): (r: seq<SpeakerInfo>)
    ensures |r| == |es| && forall n :: 0 <= n < |es| ==> r[n] == es[n].info
  {
    seq(|es|, n requires 0 <= n < |es| => es[n].info)
  }

  /** `max(speakers_list, key=subtitle_lines)`: the first speaker, in
      insertion order, with the most lines. */
  function TopIndex(sp: seq<SpeakerInfo>): (k: nat)
    requires |sp| > 0
    ensures k < |sp|
    ensures forall n :: 0 <= n < |sp| ==> sp[n].subtitleLines <= sp[k].subtitleLines
    ensures forall n :: 0 <= n < k ==> sp[n].subtitleLines < sp[k].subtitleLines
  {
    if |sp| == 1 then 0
    else
      var k := TopIndex(sp[..|sp| - 1]);
      if sp[|sp| - 1].subtitleLines > sp[k].subtitleLines then |sp| - 1 else k
  }

  /** `r` is the integer nearest to `num / den`, the even one on a tie. */
  predicate RoundsTo(num: nat, den: nat, r: nat)
    requires den > 0
  {
    && num * 2 <= (2 * r + 1) * den
    && (r == 0 || (2 * r - 1) * den <= num * 2)
    && (num * 2 == (2 * r + 1) * den || num * 2 == (2 * r - 1) * den ==> r % 2 == 0)
  }

  /** `round(num / den)` on the exact quotient. */
  function RoundHalfEven(num: nat, den: nat): (r: nat)
    requires den > 0
    ensures RoundsTo(num, den, r)
  {
    var q, rem := num / den, num % den;
    assert num == q * den + rem;
    Distribute(q, den);
    if 2 * rem < den then q
    else if 2 * rem > den then q + 1
    else if q % 2 == 0 then q else q + 1
  }

  /** The products `RoundsTo` compares, for the quotient and the one above it. */
  lemma Distribute(q: nat, den: nat)
    ensures (2 * q + 1) * den == 2 * (q * den) + den
    ensures (2 * q - 1) * den == 2 * (q * den) - den
    ensures (2 * (q + 1) + 1) * den == 2 * (q * den) + 3 * den
    ensures (2 * (q + 1) - 1) * den == 2 * (q * den) + den
  {
  }

  // ------------------------------------------------------------- merge

  /** `merge_diarisation`, with `draw` standing for the random draws. */
  function Merge(t: Transcription, turns: seq<Turn>, draw: nat -> nat): Merged {
    var f := Finished(t.segments, turns, draw);
    var speakers := Infos(f.reg.entries);
    if |speakers| == 0 then Err(NoSpeakers)
    else
      var top := speakers[TopIndex(speakers)];
      if |t.segments| == 0 then Err(ZeroDivision)
      else
        Ok(MergeResult(
          t.text, t.language, speakers,
          TopSpeaker(top.name, top.id, RoundHalfEven(100 * top.subtitleLines, |t.segments|)),
          f.out, f.diar))
  }

  /** The colour choice both loops repeat, as the loop body runs it: a
      palette colour, taken out of the palette, while one is left, else a
      random `#rrggbb`. `PickColor` is the same choice as a value. */
  method ChooseColor(colors: seq<string>, r: nat) returns (color: string, rest: seq<string>)
    ensures (color, rest) == PickColor(colors, r)
  {
    if |colors| > 0 {
      color := colors[r % |colors|];
      rest := RemoveFirst(colors, color);
    } else {
      color := HexColor(r % 0x1000000);
      rest := colors;
    }
  }

  /** What both loops do with `speakers_info` for one segment, as the loop
      body updates it in place: create the entry under `key` with a fresh
      colour when it is missing, then add a line and the segment's words to
      it. `Register` is the same update as a value. */
  method CountLine(speakers: seq<Entry>, colors: seq<string>, key: string, name: string, style: string,
                   segment: Segment, draw: nat -> nat)
    returns (speakers': seq<Entry>, colors': seq<string>)
    ensures forall counter :: Registry(speakers', colors', counter) == Register(Registry(speakers, colors, counter), key, name, style, segment, draw)
  {
    speakers', colors' := speakers, colors;
    var k := IndexOf(speakers, key);
    if k == |speakers| {
      var color;
      color, colors' := ChooseColor(colors, draw(|speakers|));
      speakers' := speakers + [Entry(key, SpeakerInfo(name, name, color, style, Interval(segment.start, segment.end), 0, 0))];
    }
    var entry := speakers'[k];
    speakers' := speakers'[k := entry.(info := entry.info.(
      subtitleLines := entry.info.subtitleLines + 1, wordCount := entry.info.wordCount + |segment.words|))];
  }

  /** The loops of `merge_diarisation` as the server runs them. */
  method MergeDiarisation(transcript: Transcription, turns: seq<Turn>, draw: nat -> nat) returns (result: Merged)
    ensures result == Merge(transcript, turns, draw)
  {
    var colors := Palette;
    var speakers: seq<Entry> := [];
    var counter := 1;
    var newSegments: seq<LabelledSegment> := [];
    var segs := transcript.segments;
    var diarSegments: seq<DiarisationSegment> := [];

    var i, j := 0, 0;
    while i < |segs| && j < |turns|
      invariant i <= |segs| && j <= |turns|
      invariant Sweep(segs, turns, draw, SweepState(i, j, Registry(speakers, colors, counter), newSegments, diarSegments))
             == Swept(segs, turns, draw)
      decreases |segs| - i + |turns| - j
    {
      ghost var before := SweepState(i, j, Registry(speakers, colors, counter), newSegments, diarSegments);
      var segment := segs[i];
      var turn := turns[j];
      var segStart, segEnd := segment.start, segment.end;
      var diarStart, diarEnd := turn.start, turn.end;

      if diarEnd <= segStart {
        j := j + 1;
      } else if segEnd <= diarStart {
        i := i + 1;
      } else if segEnd - diarEnd >= diarEnd - segStart && j < |turns| {
        j := j + 1;
      } else {
        var k := IndexOf(speakers, turn.speaker);
        var speakerLabel := if k < |speakers| then speakers[k].info.name else SpeakerLabel(counter);
        newSegments := newSegments + [Labelled(segment, speakerLabel)];
        diarSegments := diarSegments + [DiarisationSegment(speakerLabel, diarStart, diarEnd)];
        if k == |speakers| {
          counter := counter + 1;
        }
        speakers, colors := CountLine(speakers, colors, turn.speaker, speakerLabel, "Outline", segment, draw);
        i := i + 1;
      }
      assert SweepState(i, j, Registry(speakers, colors, counter), newSegments, diarSegments)
          == Step(segs, turns, draw, before);
    }

    ghost var swept := SweepState(i, j, Registry(speakers, colors, counter), newSegments, diarSegments);
    var n := i;
    while n < |segs|
      invariant i <= n <= |segs|
      invariant Tail(segs, draw, SweepState(n, j, Registry(speakers, colors, counter), newSegments, diarSegments))
             == Finished(segs, turns, draw)
    {
      ghost var before := SweepState(n, j, Registry(speakers, colors, counter), newSegments, diarSegments);
      var segment := segs[n];
      newSegments := newSegments + [Labelled(segment, Unknown)];
      speakers, colors := CountLine(speakers, colors, Unknown, Unknown, "outline", segment, draw);
      n := n + 1;
      assert SweepState(n, j, Registry(speakers, colors, counter), newSegments, diarSegments)
          == TailStep(segs, draw, before);
    }

    var speakersList := Infos(speakers);
    if |speakersList| == 0 {
      return Err(NoSpeakers);
    }
    var top := speakersList[TopIndex(speakersList)];
    if |segs| == 0 {
      return Err(ZeroDivision);
    }
    result := Ok(MergeResult(
      transcript.text, transcript.language, speakersList,
      TopSpeaker(top.name, top.id, RoundHalfEven(100 * top.subtitleLines, |segs|)),
      newSegments, diarSegments));
  }

  // ------------------------------------------------------ sweep facts

  /** The sweep only moves forward and stops when either list is used up. */
  lemma {:induction false} SweepFacts(segs: seq<Segment>, turns: seq<Turn>, draw: nat -> nat, s: SweepState)
    requires s.i <= |segs| && s.j <= |turns|
    ensures var r := Sweep(segs, turns, draw, s);
      && s.i <= r.i <= |segs| && s.j <= r.j <= |turns|
      && (r.i == |segs| || r.j == |turns|)
    decreases |segs| - s.i + |turns| - s.j
  {
    if s.i < |segs| && s.j < |turns| {
      SweepFacts(segs, turns, draw, Step(segs, turns, draw, s));
    }
  }
}
