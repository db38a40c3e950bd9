/** The non-speech intervals of `get_speech_segments` (server.py:583-591):
    a forward pass over the speech intervals from the voice-activity
    detector, remembering where the previous one ended. */
module NonSpeech {
  import opened Transcript

  /** The gaps the loop still emits over `speech` when the previous speech
      interval ended at `prevEnd`. */
  function GapsFrom(speech: seq<Interval>, prevEnd: real): seq<Interval> {
    if speech == [] then []
    else
      (if speech[0].start > prevEnd then [Interval(prevEnd, speech[0].start)] else [])
      + GapsFrom(speech[1..], speech[0].end)
  }

  /** The loop starts with `prev_end = 0`. */
  function Gaps(speech: seq<Interval>): seq<Interval> {
    GapsFrom(speech, 0.0)
  }

  /** The loop itself: a gap in front of each speech interval that starts
      after the previous one ended. `prev_end` is overwritten with each end,
      never maximised, and nothing is emitted after the last interval. */
  method NonSpeechSegments(speech: seq<Interval>) returns (gaps: seq<Interval>)
    ensures gaps == Gaps(speech)
  {
    gaps := [];
    var prevEnd := 0.0;
    for k := 0 to |speech|
      invariant gaps + GapsFrom(speech[k..], prevEnd) == Gaps(speech)
    {
      var start, end := speech[k].start, speech[k].end;
      if start > prevEnd {
        gaps := gaps + [Interval(prevEnd, start)];
      }
      prevEnd := end;
      assert speech[k..][1..] == speech[k + 1..];
    }
    assert speech[|speech|..] == [];
  }

  // ---- an independent description: one candidate gap per speech interval ----

  /** Where the speech before interval `k` ended, as the loop sees it. */
  function PrevEnd(speech: seq<Interval>, k: nat): real
    requires k <= |speech|
  {
    if k == 0 then 0.0 else speech[k - 1].end
  }

  /** The stretch between the previous speech end and the start of interval `k`. */
  function Before(speech: seq<Interval>, k: nat): Interval
    requires k < |speech|
  {
    Interval(PrevEnd(speech, k), speech[k].start)
  }

  /** The candidates that are non-empty, in order. */
  function Proper(cs: seq<Interval>): seq<Interval> {
    if cs == [] then []
    else (if cs[0].start < cs[0].end then [cs[0]] else []) + Proper(cs[1..])
  }

  function Candidates(speech: seq<Interval>): (cs: seq<Interval>)
    ensures |cs| == |speech| && forall k :: 0 <= k < |speech| ==> cs[k] == Before(speech, k)
  {
    seq(|speech|, k requires 0 <= k < |speech| => Before(speech, k))
  }

  lemma {:induction false} GapsFromIsProper(speech: seq<Interval>, k: nat)
    requires k <= |speech|
    ensures GapsFrom(speech[k..], PrevEnd(speech, k)) == Proper(Candidates(speech)[k..])
    decreases |speech| - k
  {
    if k < |speech| {
      GapsFromIsProper(speech, k + 1);
      assert speech[k..][1..] == speech[k + 1..];
      assert Candidates(speech)[k..][1..] == Candidates(speech)[k + 1..];
    }
  }

  /** The loop emits exactly the non-empty stretches from the previous
      speech end (0 for the first) to the next speech start, in order. */
  lemma GapsAreProperCandidates(speech: seq<Interval>)
    ensures Gaps(speech) == Proper(Candidates(speech))
  {
    GapsFromIsProper(speech, 0);
    assert speech[0..] == speech;
    assert Candidates(speech)[0..] == Candidates(speech);
  }

  lemma {:induction false} ProperFacts(cs: seq<Interval>)
    ensures |Proper(cs)| <= |cs|
    ensures forall g :: g in Proper(cs) ==> g in cs && g.start < g.end
  {
    if cs != [] {
      ProperFacts(cs[1..]);
    }
  }

  /** Every gap is non-empty, begins where some speech interval (or time 0)
      left off and ends where a speech interval starts; there are at most
      as many gaps as speech intervals. */
  lemma GapsBounded(speech: seq<Interval>)
    ensures |Gaps(speech)| <= |speech|
    ensures forall g :: g in Gaps(speech) ==>
      && g.start < g.end
      && exists k :: 0 <= k < |speech| && g == Before(speech, k)
  {
    GapsAreProperCandidates(speech);
    ProperFacts(Candidates(speech));
    forall g | g in Gaps(speech)
      ensures exists k :: 0 <= k < |speech| && g == Before(speech, k)
    {
      var k :| 0 <= k < |speech| && Candidates(speech)[k] == g;
    }
  }

  /** Speech intervals as the detector reports them: non-negative, each
      non-empty, in time order and not overlapping. */
  ghost predicate Ordered(speech: seq<Interval>) {
    && (forall k :: 0 <= k < |speech| ==> 0.0 <= speech[k].start < speech[k].end)
    && (forall a, b :: 0 <= a < b < |speech| ==> speech[a].end <= speech[b].start)
  }

  /** On ordered speech the gaps are exactly the silence: no gap meets any
      speech interval, and every instant before the last speech end lies in
      a speech interval or in a gap. */
  lemma {:induction false} GapsComplementSpeech(speech: seq<Interval>, t: real)
    requires Ordered(speech)
    ensures forall g, s :: g in Gaps(speech) && s in speech ==> g.end <= s.start || s.end <= g.start
    ensures 0.0 <= t && |speech| > 0 && t < speech[|speech| - 1].end ==>
      (exists s :: s in speech && s.start <= t < s.end) || (exists g :: g in Gaps(speech) && g.start <= t < g.end)
  {
    GapsBounded(speech);
    forall g, s | g in Gaps(speech) && s in speech
      ensures g.end <= s.start || s.end <= g.start
    {
      var k :| 0 <= k < |speech| && g == Before(speech, k);
      var b :| 0 <= b < |speech| && speech[b] == s;
      if b < k {
        assert s.end <= PrevEnd(speech, k);
      } else if b > k {
        assert g.end <= s.start;
      } else {
        assert g.end == s.start;
      }
    }
    if 0.0 <= t && |speech| > 0 && t < speech[|speech| - 1].end {
      Covered(speech, 0, t);
      assert speech[0..] == speech;
    }
  }

  /** The instants from the previous end up to the last speech end are
      covered by the remaining speech intervals and their gaps. */
  lemma {:induction false} Covered(speech: seq<Interval>, k: nat, t: real)
    requires Ordered(speech)
    requires k < |speech| && PrevEnd(speech, k) <= t < speech[|speech| - 1].end
    ensures (exists s :: s in speech[k..] && s.start <= t < s.end)
         || (exists g :: g in GapsFrom(speech[k..], PrevEnd(speech, k)) && g.start <= t < g.end)
    decreases |speech| - k
  {
    var p := PrevEnd(speech, k);
    var rest := GapsFrom(speech[k + 1..], speech[k].end);
    assert speech[k..][1..] == speech[k + 1..];
    assert GapsFrom(speech[k..], p) ==
      (if speech[k].start > p then [Interval(p, speech[k].start)] else []) + rest;
    if t < speech[k].start {
      assert Interval(p, speech[k].start) in GapsFrom(speech[k..], p);
    } else if t < speech[k].end {
      assert speech[k] in speech[k..];
    } else {
      assert k + 1 < |speech|;
      Covered(speech, k + 1, t);
      if s :| s in speech[k + 1..] && s.start <= t < s.end {
        assert s in speech[k..];
      } else {
        var g :| g in rest && g.start <= t < g.end;
        assert g in GapsFrom(speech[k..], p);
      }
    }
  }

  /** The detector's example: speech at 1-2 s and 4-6 s leaves silence at
      0-1 s and 2-4 s, and none after 6 s. */
  lemma Example()
    ensures Gaps([Interval(1.0, 2.0), Interval(4.0, 6.0)]) == [Interval(0.0, 1.0), Interval(2.0, 4.0)]
  {
    var speech := [Interval(1.0, 2.0), Interval(4.0, 6.0)];
    assert speech[1..][1..] == [];
  }

  /** `prev_end` is not a running maximum: after a long interval a shorter
      one inside it makes a "gap" that is in fact speech. */
  lemma GapInsideSpeech()
    ensures Gaps([Interval(0.0, 5.0), Interval(1.0, 2.0), Interval(3.0, 4.0)]) == [Interval(2.0, 3.0)]
  {
    var speech := [Interval(0.0, 5.0), Interval(1.0, 2.0), Interval(3.0, 4.0)];
    assert speech[1..][1..] == [Interval(3.0, 4.0)];
    assert speech[1..][1..][1..] == [];
  }
}
