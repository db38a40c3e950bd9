/** Small transcripts run through `merge_diarisation` by hand: each shows
    one way the sweep of server.py:264-394 behaves that a reader of its
    documentation would not expect. */
module MergeExamples {
  import opened Text
  import opened Transcript
  import opened Diarisation

  /** Every random draw picks the first colour left in the palette. */
  function FirstColor(n: nat): nat { 0 }

  lemma SpeakerOne()
    ensures SpeakerLabel(1) == "Speaker 1"
  {
    assert Decimal(1) == "1";
  }

  /** The first speaker of an empty registry takes the first palette colour
      and has one line. */
  lemma FirstEntry(counter: nat, key: string, name: string, style: string, seg: Segment)
    ensures Register(Registry([], Palette, counter), key, name, style, seg, FirstColor).entries
         == [Entry(key, SpeakerInfo(name, name, "#0062ec", style, Interval(seg.start, seg.end), 1, |seg.words|))]
  {
    var reg := Registry([], Palette, counter);
    assert IndexOf([], key) == 0;
    assert PickColor(Palette, 0).0 == "#0062ec";
    assert Enter(reg, key, name, style, seg, FirstColor).entries == [Entry(key, SpeakerInfo(name, name, "#0062ec", style, Interval(seg.start, seg.end), 0, 0))];
  }

  /** Counting another line for the only speaker, under its own key. */
  lemma CountAgain(reg: Registry, key: string, name: string, style: string, seg: Segment, draw: nat -> nat)
    requires |reg.entries| == 1 && reg.entries[0].key == key
    ensures var e := reg.entries[0];
      Register(reg, key, name, style, seg, draw).entries
        == [e.(info := e.info.(subtitleLines := e.info.subtitleLines + 1, wordCount := e.info.wordCount + |seg.words|))]
  {
    assert IndexOf(reg.entries, key) == 0;
  }

  /** A segment that ends before the current turn starts is passed over and
      never labelled: it is in neither the merged segments nor the tallies. */
  lemma DroppedSegment()
    ensures
      var t := Transcription("a b", "en", [Segment(0.0, 1.0, "a", []), Segment(5.0, 6.0, "b", [])]);
      var turns := [Turn(2.0, 3.0, "A"), Turn(5.0, 6.0, "A")];
      var sp := SpeakerInfo("Speaker 1", "Speaker 1", "#0062ec", "Outline", Interval(5.0, 6.0), 1, 0);
      Merge(t, turns, FirstColor) == Ok(MergeResult(
        "a b", "en", [sp], TopSpeaker("Speaker 1", "Speaker 1", 50),
        [LabelledSegment(5.0, 6.0, "Speaker 1", "b", [])],
        [DiarisationSegment("Speaker 1", 5.0, 6.0)]))
  {
    var segs := [Segment(0.0, 1.0, "a", []), Segment(5.0, 6.0, "b", [])];
    var turns := [Turn(2.0, 3.0, "A"), Turn(5.0, 6.0, "A")];
    SpeakerOne();
    var s0 := Start();
    var s1 := Step(segs, turns, FirstColor, s0);
    assert s1 == s0.(i := 1);
    var s2 := Step(segs, turns, FirstColor, s1);
    assert s2 == s1.(j := 1);
    var s3 := Step(segs, turns, FirstColor, s2);
    assert s3 == Commit(s2, segs[1], turns[1], FirstColor);
    FirstEntry(1, "A", "Speaker 1", "Outline", segs[1]);
    var e := Entry("A", SpeakerInfo("Speaker 1", "Speaker 1", "#0062ec", "Outline", Interval(5.0, 6.0), 1, 0));
    assert s3.reg.entries == [e];
    assert Sweep(segs, turns, FirstColor, s0) == Sweep(segs, turns, FirstColor, s1)
        == Sweep(segs, turns, FirstColor, s2) == Sweep(segs, turns, FirstColor, s3) == s3;
    assert Tail(segs, FirstColor, s3) == s3;
    assert Finished(segs, turns, FirstColor) == s3;
    assert RoundHalfEven(100, 2) == 50;
  }

  /** A diarization id that is literally "Unknown" shares its dict key with
      the fallback speaker: the leftover segment is counted for the labelled
      speaker yet itself labelled "Unknown". */
  lemma UnknownIdShared()
    ensures
      var t := Transcription("a b", "en", [Segment(0.0, 1.0, "a", []), Segment(2.0, 3.0, "b", [])]);
      var turns := [Turn(0.0, 1.0, "Unknown")];
      var sp := SpeakerInfo("Speaker 1", "Speaker 1", "#0062ec", "Outline", Interval(0.0, 1.0), 2, 0);
      Merge(t, turns, FirstColor) == Ok(MergeResult(
        "a b", "en", [sp], TopSpeaker("Speaker 1", "Speaker 1", 100),
        [LabelledSegment(0.0, 1.0, "Speaker 1", "a", []), LabelledSegment(2.0, 3.0, "Unknown", "b", [])],
        [DiarisationSegment("Speaker 1", 0.0, 1.0)]))
  {
    var segs := [Segment(0.0, 1.0, "a", []), Segment(2.0, 3.0, "b", [])];
    var turns := [Turn(0.0, 1.0, "Unknown")];
    SpeakerOne();
    var s0 := Start();
    var s1 := Step(segs, turns, FirstColor, s0);
    assert s1 == Commit(s0, segs[0], turns[0], FirstColor);
    FirstEntry(1, "Unknown", "Speaker 1", "Outline", segs[0]);
    var e := Entry("Unknown", SpeakerInfo("Speaker 1", "Speaker 1", "#0062ec", "Outline", Interval(0.0, 1.0), 1, 0));
    assert s1.reg.entries == [e];
    var s2 := Step(segs, turns, FirstColor, s1);
    assert s2 == s1.(j := 1);
    assert Sweep(segs, turns, FirstColor, s0) == Sweep(segs, turns, FirstColor, s1) == Sweep(segs, turns, FirstColor, s2) == s2;
    var s3 := TailStep(segs, FirstColor, s2);
    CountAgain(s2.reg, Unknown, Unknown, "outline", segs[1], FirstColor);
    assert s3.reg.entries == [e.(info := e.info.(subtitleLines := 2))];
    assert Tail(segs, FirstColor, s2) == Tail(segs, FirstColor, s3) == s3;
    assert Finished(segs, turns, FirstColor) == s3;
    assert RoundHalfEven(200, 2) == 100;
  }

  /** The `j < len(diarization_list)` guard always holds, so a segment that
      is at least as much after its turn's end as inside the turn moves on
      to the next turn even when none is left; with one turn the segment
      ends up "Unknown" although the turn overlaps it. */
  lemma LastTurnPassedOver()
    ensures
      var t := Transcription("a", "en", [Segment(0.0, 4.0, "a", [])]);
      var turns := [Turn(0.0, 1.0, "A")];
      var sp := SpeakerInfo("Unknown", "Unknown", "#0062ec", "outline", Interval(0.0, 4.0), 1, 0);
      Merge(t, turns, FirstColor) == Ok(MergeResult(
        "a", "en", [sp], TopSpeaker("Unknown", "Unknown", 100),
        [LabelledSegment(0.0, 4.0, "Unknown", "a", [])], []))
  {
    var segs := [Segment(0.0, 4.0, "a", [])];
    var turns := [Turn(0.0, 1.0, "A")];
    var s0 := Start();
    var s1 := Step(segs, turns, FirstColor, s0);
    assert s1 == s0.(j := 1);
    assert Sweep(segs, turns, FirstColor, s0) == Sweep(segs, turns, FirstColor, s1) == s1;
    var s2 := TailStep(segs, FirstColor, s1);
    FirstEntry(1, Unknown, Unknown, "outline", segs[0]);
    assert s2.reg.entries == [Entry("Unknown", SpeakerInfo("Unknown", "Unknown", "#0062ec", "outline", Interval(0.0, 4.0), 1, 0))];
    assert Tail(segs, FirstColor, s1) == Tail(segs, FirstColor, s2) == s2;
    assert Finished(segs, turns, FirstColor) == s2;
    assert RoundHalfEven(100, 1) == 100;
  }

  /** When a segment straddles two turns equally, it goes to the later one. */
  lemma TieGoesToLaterTurn()
    ensures
      var t := Transcription("a", "en", [Segment(0.0, 4.0, "a", [])]);
      var turns := [Turn(0.0, 2.0, "A"), Turn(2.0, 4.0, "B")];
      var r := Merge(t, turns, FirstColor);
      && r.Ok?
      && r.value.segments == [LabelledSegment(0.0, 4.0, "Speaker 1", "a", [])]
      && r.value.diarization == [DiarisationSegment("Speaker 1", 2.0, 4.0)]
  {
    var segs := [Segment(0.0, 4.0, "a", [])];
    var turns := [Turn(0.0, 2.0, "A"), Turn(2.0, 4.0, "B")];
    SpeakerOne();
    var s0 := Start();
    var s1 := Step(segs, turns, FirstColor, s0);
    assert s1 == s0.(j := 1);
    var s2 := Step(segs, turns, FirstColor, s1);
    assert s2 == Commit(s1, segs[0], turns[1], FirstColor);
    FirstEntry(1, "B", "Speaker 1", "Outline", segs[0]);
    assert s2.reg.entries != [];
    assert Sweep(segs, turns, FirstColor, s0) == Sweep(segs, turns, FirstColor, s1)
        == Sweep(segs, turns, FirstColor, s2) == s2;
    assert Tail(segs, FirstColor, s2) == s2;
    assert Finished(segs, turns, FirstColor) == s2;
  }
}
