/** What `merge_diarisation` (server.py:264-394) guarantees: the merged
    segments keep transcript order, every speaker has a unique label and a
    colour of its own while the palette lasts, the counters add up to the
    lines and words emitted, and the top speaker's share is a percentage. */
module MergeProperties {
  import opened Text
  import opened Transcript
  import opened Diarisation

  // ------------------------------------------------ sequence vocabulary

  predicate Distinct(s: seq<string>) {
    forall a, b :: 0 <= a < b < |s| ==> s[a] != s[b]
  }

  /** `a` is `b` with some elements left out, order kept. */
  predicate IsSubseq(a: seq<Segment>, b: seq<Segment>)
    decreases |b|
  {
    if a == [] then true
    else if b == [] then false
    else (a[|a| - 1] == b[|b| - 1] && IsSubseq(a[..|a| - 1], b[..|b| - 1])) || IsSubseq(a, b[..|b| - 1])
  }

  lemma SubseqSkip(a: seq<Segment>, b: seq<Segment>, x: Segment)
    requires IsSubseq(a, b)
    ensures IsSubseq(a, b + [x])
  {
    assert (b + [x])[..|b|] == b;
  }

  lemma SubseqKeep(a: seq<Segment>, b: seq<Segment>, x: Segment)
    requires IsSubseq(a, b)
    ensures IsSubseq(a + [x], b + [x])
  {
    assert (a + [x])[..|a|] == a;
    assert (b + [x])[..|b|] == b;
  }

  lemma {:induction false} SubseqLength(a: seq<Segment>, b: seq<Segment>)
    requires IsSubseq(a, b)
    ensures |a| <= |b|
    decreases |b|
  {
    if a != [] && b != [] {
      if a[|a| - 1] == b[|b| - 1] && IsSubseq(a[..|a| - 1], b[..|b| - 1]) {
        SubseqLength(a[..|a| - 1], b[..|b| - 1]);
      } else {
        SubseqLength(a, b[..|b| - 1]);
      }
    }
  }

  // --------------------------------------------- registry vocabulary

  /** No two speakers share a key: the dict's keys. */
  predicate DistinctKeys(es: seq<Entry>) {
    forall a, b :: 0 <= a < b < |es| ==> es[a].key != es[b].key
  }

  predicate DistinctNames(es: seq<Entry>) {
    forall a, b :: 0 <= a < b < |es| ==> es[a].info.name != es[b].info.name
  }

  predicate HasName(es: seq<Entry>, x: string) {
    exists k :: 0 <= k < |es| && es[k].info.name == x
  }

  function SumLines(es: seq<Entry>): nat {
    if es == [] then 0 else SumLines(es[..|es| - 1]) + es[|es| - 1].info.subtitleLines
  }

  function SumWords(es: seq<Entry>): nat {
    if es == [] then 0 else SumWords(es[..|es| - 1]) + es[|es| - 1].info.wordCount
  }

  /** The words of the emitted segments, all together. */
  function WordTotal(out: seq<LabelledSegment>): nat {
    if out == [] then 0 else WordTotal(out[..|out| - 1]) + |out[|out| - 1].words|
  }

  /** Everything about a speaker except its counters. */
  predicate SameSpeaker(a: Entry, b: Entry) {
    && a.key == b.key && a.info.name == b.info.name && a.info.id == b.info.id
    && a.info.color == b.info.color && a.info.style == b.info.style && a.info.sample == b.info.sample
  }

  /** `after` holds every speaker of `before`, at the same place, with the
      same key, label, id, colour, style and sample. */
  predicate Keeps(before: seq<Entry>, after: seq<Entry>) {
    |before| <= |after| && forall k :: 0 <= k < |before| ==> SameSpeaker(before[k], after[k])
  }

  /** The colours still on offer: one palette colour fewer for each of the
      first ten speakers, none repeated. */
  predicate PaletteLeft(colors: seq<string>, es: seq<Entry>) {
    && (if |es| <= 10 then |colors| + |es| == 10 else colors == [])
    && Distinct(colors)
    && (forall c :: c in colors ==> c in Palette)
  }

  /** The first ten speakers have distinct palette colours no longer on offer. */
  predicate FirstTenDistinct(colors: seq<string>, es: seq<Entry>) {
    && (forall k :: 0 <= k < |es| && k < 10 ==> es[k].info.color in Palette && es[k].info.color !in colors)
    && (forall a, b :: 0 <= a < b < |es| && b < 10 ==> es[a].info.color != es[b].info.color)
  }

  /** Every colour is a `#rrggbb` code. */
  predicate AllCodes(es: seq<Entry>) {
    forall k :: 0 <= k < |es| ==> IsColorCode(es[k].info.color)
  }

  /** Colours are taken without replacement while the palette lasts. */
  predicate ColorsOk(colors: seq<string>, es: seq<Entry>) {
    PaletteLeft(colors, es) && FirstTenDistinct(colors, es) && AllCodes(es)
  }

  /** The counters add up to what has been emitted, and every speaker has a line. */
  predicate Counted(es: seq<Entry>, out: seq<LabelledSegment>) {
    && SumLines(es) == |out|
    && SumWords(es) == WordTotal(out)
    && forall k :: 0 <= k < |es| ==> es[k].info.subtitleLines >= 1
  }

  /** `o` carries the speaker's label and spans the speaker's sample. */
  predicate SampleOf(e: Entry, o: LabelledSegment) {
    o.speaker == e.info.name && e.info.sample == Interval(o.start, o.end)
  }

  /** The speaker's sample is the span of one of its own lines. */
  predicate HasSample(e: Entry, out: seq<LabelledSegment>) {
    exists n :: 0 <= n < |out| && SampleOf(e, out[n])
  }

  predicate Sampled(es: seq<Entry>, out: seq<LabelledSegment>) {
    forall k :: 0 <= k < |es| ==> HasSample(es[k], out)
  }

  predicate RegOk(reg: Registry, out: seq<LabelledSegment>) {
    && DistinctKeys(reg.entries)
    && ColorsOk(reg.colors, reg.entries)
    && Counted(reg.entries, out)
    && Sampled(reg.entries, out)
  }

  lemma SumsAppend(es: seq<Entry>, e: Entry)
    ensures SumLines(es + [e]) == SumLines(es) + e.info.subtitleLines
    ensures SumWords(es + [e]) == SumWords(es) + e.info.wordCount
  {
    assert (es + [e])[..|es|] == es;
  }

  lemma {:induction false} SumsUpdate(es: seq<Entry>, k: nat, e: Entry)
    requires k < |es|
    ensures SumLines(es[k := e]) + es[k].info.subtitleLines == SumLines(es) + e.info.subtitleLines
    ensures SumWords(es[k := e]) + es[k].info.wordCount == SumWords(es) + e.info.wordCount
  {
    var t := es[k := e];
    if k < |es| - 1 {
      assert t[..|t| - 1] == es[..|es| - 1][k := e];
      SumsUpdate(es[..|es| - 1], k, e);
    } else {
      assert t[..|t| - 1] == es[..|es| - 1];
    }
  }

  lemma {:induction false} LinesBound(es: seq<Entry>, k: nat)
    requires k < |es|
    ensures es[k].info.subtitleLines <= SumLines(es)
  {
    if k < |es| - 1 {
      LinesBound(es[..|es| - 1], k);
    }
  }

  lemma WordTotalAppend(out: seq<LabelledSegment>, o: LabelledSegment)
    ensures WordTotal(out + [o]) == WordTotal(out) + |o.words|
  {
    assert (out + [o])[..|out|] == out;
  }

  // ------------------------------------------------- registry lemmas

  lemma PaletteFacts()
    ensures |Palette| == 10 && Distinct(Palette)
    ensures forall c :: c in Palette ==> IsColorCode(c)
  {
  }

  /** On a list without repeats `remove` takes out exactly the chosen element. */
  lemma {:induction false} RemoveAt(s: seq<string>, k: nat)
    requires Distinct(s) && k < |s|
    ensures RemoveFirst(s, s[k]) == s[..k] + s[k + 1..]
  {
    if k > 0 {
      RemoveAt(s[1..], k - 1);
      assert s[1..][..k - 1] + s[1..][k..] == s[1..k] + s[k + 1..];
      assert [s[0]] + s[1..k] == s[..k];
    }
  }

  /** Handing a colour to a new speaker keeps the colour bookkeeping. */
  lemma PickOk(colors: seq<string>, es: seq<Entry>, r: nat, e: Entry)
    requires ColorsOk(colors, es)
    requires e.info.color == PickColor(colors, r).0
    ensures ColorsOk(PickColor(colors, r).1, es + [e])
  {
    var es' := es + [e];
    if |colors| > 0 {
      var k := r % |colors|;
      RemoveAt(colors, k);
      PickFromPalette(colors, es, k, e);
    } else {
      assert |es| >= 10;
      assert forall n :: 0 <= n < |es| ==> es'[n] == es[n];
    }
  }

  lemma PickFromPalette(colors: seq<string>, es: seq<Entry>, k: nat, e: Entry)
    requires ColorsOk(colors, es)
    requires k < |colors| && e.info.color == colors[k]
    ensures ColorsOk(colors[..k] + colors[k + 1..], es + [e])
  {
    var es' := es + [e];
    var rest := colors[..k] + colors[k + 1..];
    assert |es| < 10;
    assert forall n :: 0 <= n < |es| ==> es'[n] == es[n];
    assert forall c :: c in rest ==> c in colors && c != colors[k];
    assert PaletteLeft(rest, es') by {
      assert forall a, b :: 0 <= a < b < |rest| ==> rest[a] != rest[b] by {
        forall a, b | 0 <= a < b < |rest|
          ensures rest[a] != rest[b]
        {
          var a' := if a < k then a else a + 1;
          var b' := if b < k then b else b + 1;
          assert rest[a] == colors[a'] && rest[b] == colors[b'];
        }
      }
    }
    assert FirstTenDistinct(rest, es') by {
      forall a, b | 0 <= a < b < |es'| && b < 10
        ensures es'[a].info.color != es'[b].info.color
      {
        if b == |es| {
          assert es'[b].info.color in colors;
        }
      }
    }
    assert AllCodes(es') by {
      PaletteFacts();
      assert e.info.color in Palette;
    }
  }

  /** Only the colours matter to the colour bookkeeping. */
  lemma ColorsTransfer(colors: seq<string>, a: seq<Entry>, b: seq<Entry>)
    requires ColorsOk(colors, a)
    requires |a| == |b| && forall n :: 0 <= n < |a| ==> a[n].info.color == b[n].info.color
    ensures ColorsOk(colors, b)
  {
  }

  /** Creating an absent speaker appends it with no lines yet. */
  lemma EnterFacts(reg: Registry, key: string, name: string, style: string, seg: Segment, draw: nat -> nat)
    requires ColorsOk(reg.colors, reg.entries)
    ensures var r := Enter(reg, key, name, style, seg, draw);
      && |r.entries| == |reg.entries| + 1 && r.entries == reg.entries + [r.entries[|reg.entries|]]
      && r.entries[|reg.entries|] == Entry(key, SpeakerInfo(name, name, r.entries[|reg.entries|].info.color, style,
           Interval(seg.start, seg.end), 0, 0))
      && ColorsOk(r.colors, r.entries)
      && r.counter == reg.counter
  {
    var r := Enter(reg, key, name, style, seg, draw);
    PickOk(reg.colors, reg.entries, draw(|reg.entries|), r.entries[|reg.entries|]);
  }

  /** Counting a line changes the counters of one speaker and nothing else. */
  lemma RecordFacts(reg: Registry, k: nat, seg: Segment, out: seq<LabelledSegment>, o: LabelledSegment)
    requires k < |reg.entries|
    requires SumLines(reg.entries) == |out| && SumWords(reg.entries) == WordTotal(out)
    requires forall n :: 0 <= n < |reg.entries| && n != k ==> reg.entries[n].info.subtitleLines >= 1
    requires |o.words| == |seg.words|
    ensures var r := Record(reg, k, seg);
      && |r.entries| == |reg.entries| && r.colors == reg.colors && r.counter == reg.counter
      && (forall n :: 0 <= n < |reg.entries| ==> SameSpeaker(reg.entries[n], r.entries[n]))
      && Counted(r.entries, out + [o])
  {
    var es := reg.entries;
    var r := Record(reg, k, seg);
    SumsUpdate(es, k, r.entries[k]);
    WordTotalAppend(out, o);
  }

  /** Attributing a segment to `key`: the registry invariants hold with the
      emitted segment `o` appended, every speaker keeps its identity, and
      the key's speaker is either the one already there or a new last one. */
  lemma RegisterOk(reg: Registry, out: seq<LabelledSegment>, key: string, name: string, style: string,
                   seg: Segment, draw: nat -> nat, o: LabelledSegment)
    requires RegOk(reg, out)
    requires o.start == seg.start && o.end == seg.end && |o.words| == |seg.words|
    requires IndexOf(reg.entries, key) == |reg.entries| ==> o.speaker == name
    ensures var r := Register(reg, key, name, style, seg, draw); var k := IndexOf(reg.entries, key);
      && RegOk(r, out + [o])
      && Keeps(reg.entries, r.entries)
      && r.counter == reg.counter
      && r.entries[k].key == key
      && (k == |reg.entries| ==> r.entries[k].info.name == name && r.entries[k].info.id == name
                                 && r.entries[k].info.style == style)
  {
    if IndexOf(reg.entries, key) < |reg.entries| {
      RegisterExisting(reg, out, key, name, style, seg, draw, o);
    } else {
      RegisterNew(reg, out, key, name, style, seg, draw, o);
    }
  }

  lemma RegisterExisting(reg: Registry, out: seq<LabelledSegment>, key: string, name: string, style: string,
                         seg: Segment, draw: nat -> nat, o: LabelledSegment)
    requires RegOk(reg, out)
    requires o.start == seg.start && o.end == seg.end && |o.words| == |seg.words|
    requires IndexOf(reg.entries, key) < |reg.entries|
    ensures var r := Register(reg, key, name, style, seg, draw); var k := IndexOf(reg.entries, key);
      && RegOk(r, out + [o]) && Keeps(reg.entries, r.entries)
      && r.counter == reg.counter && r.entries[k].key == key
  {
    var k := IndexOf(reg.entries, key);
    assert Register(reg, key, name, style, seg, draw) == Record(reg, k, seg);
    RecordOk(reg, k, seg, out, o);
  }

  lemma RegisterNew(reg: Registry, out: seq<LabelledSegment>, key: string, name: string, style: string,
                    seg: Segment, draw: nat -> nat, o: LabelledSegment)
    requires RegOk(reg, out)
    requires o.start == seg.start && o.end == seg.end && |o.words| == |seg.words|
    requires IndexOf(reg.entries, key) == |reg.entries| && o.speaker == name
    ensures var r := Register(reg, key, name, style, seg, draw); var k := |reg.entries|;
      && RegOk(r, out + [o]) && Keeps(reg.entries, r.entries)
      && r.counter == reg.counter && r.entries[k].key == key
      && r.entries[k].info.name == name && r.entries[k].info.id == name && r.entries[k].info.style == style
  {
    var k := |reg.entries|;
    var reg1 := Enter(reg, key, name, style, seg, draw);
    assert Register(reg, key, name, style, seg, draw) == Record(reg1, k, seg);
    EnterOk(reg, key, name, style, seg, draw, out, o);
    RecordOk(reg1, k, seg, out, o);
    KeepsTrans(reg.entries, reg1.entries, Record(reg1, k, seg).entries);
  }

  /** The registry invariants with the speaker at `k` allowed to have no line
      yet and its sample in the segment `o` about to be emitted. */
  predicate AlmostOk(reg: Registry, out: seq<LabelledSegment>, k: nat, o: LabelledSegment) {
    && k < |reg.entries|
    && DistinctKeys(reg.entries)
    && ColorsOk(reg.colors, reg.entries)
    && SumLines(reg.entries) == |out| && SumWords(reg.entries) == WordTotal(out)
    && (forall n :: 0 <= n < |reg.entries| && n != k ==> reg.entries[n].info.subtitleLines >= 1)
    && (forall n :: 0 <= n < |reg.entries| && n != k ==> HasSample(reg.entries[n], out))
    && (HasSample(reg.entries[k], out) || SampleOf(reg.entries[k], o))
  }

  lemma EnterOk(reg: Registry, key: string, name: string, style: string, seg: Segment, draw: nat -> nat,
                out: seq<LabelledSegment>, o: LabelledSegment)
    requires RegOk(reg, out)
    requires IndexOf(reg.entries, key) == |reg.entries|
    requires o.start == seg.start && o.end == seg.end && o.speaker == name
    ensures var r := Enter(reg, key, name, style, seg, draw); var k := |reg.entries|;
      && AlmostOk(r, out, k, o) && Keeps(reg.entries, r.entries) && r.counter == reg.counter
      && r.entries[k].key == key && r.entries[k].info.name == name && r.entries[k].info.id == name
      && r.entries[k].info.style == style
  {
    var es := reg.entries;
    var r := Enter(reg, key, name, style, seg, draw);
    EnterFacts(reg, key, name, style, seg, draw);
    var e := r.entries[|es|];
    AppendOk(es, e, r.colors, out, o);
  }

  /** Appending a speaker with a fresh key, no lines and its sample in `o`. */
  lemma AppendOk(es: seq<Entry>, e: Entry, colors: seq<string>, out: seq<LabelledSegment>, o: LabelledSegment)
    requires DistinctKeys(es) && Counted(es, out) && Sampled(es, out)
    requires ColorsOk(colors, es + [e])
    requires forall n :: 0 <= n < |es| ==> es[n].key != e.key
    requires e.info.subtitleLines == 0 && e.info.wordCount == 0 && SampleOf(e, o)
    ensures forall counter :: AlmostOk(Registry(es + [e], colors, counter), out, |es|, o)
    ensures Keeps(es, es + [e])
  {
    var es1 := es + [e];
    assert forall n :: 0 <= n < |es| ==> es1[n] == es[n];
    SumsAppend(es, e);
  }

  lemma RecordOk(reg: Registry, k: nat, seg: Segment, out: seq<LabelledSegment>, o: LabelledSegment)
    requires AlmostOk(reg, out, k, o) || (RegOk(reg, out) && k < |reg.entries|)
    requires |o.words| == |seg.words|
    ensures var r := Record(reg, k, seg);
      && RegOk(r, out + [o]) && Keeps(reg.entries, r.entries)
      && r.counter == reg.counter && r.entries[k].key == reg.entries[k].key
      && r.entries[k].info == reg.entries[k].info.(subtitleLines := r.entries[k].info.subtitleLines,
                                                   wordCount := r.entries[k].info.wordCount)
  {
    var es := reg.entries;
    var r := Record(reg, k, seg);
    RecordFacts(reg, k, seg, out, o);
    ColorsTransfer(reg.colors, es, r.entries);
    SampledRecord(es, r.entries, out, o, k);
  }

  lemma SampledRecord(es: seq<Entry>, es1: seq<Entry>, out: seq<LabelledSegment>, o: LabelledSegment, k: nat)
    requires k < |es| == |es1|
    requires forall n :: 0 <= n < |es| ==> SameSpeaker(es[n], es1[n])
    requires forall n :: 0 <= n < |es| && n != k ==> HasSample(es[n], out)
    requires HasSample(es[k], out) || SampleOf(es[k], o)
    ensures Sampled(es1, out + [o])
  {
    var out1 := out + [o];
    forall n | 0 <= n < |es1|
      ensures HasSample(es1[n], out1)
    {
      if HasSample(es[n], out) {
        var m :| 0 <= m < |out| && SampleOf(es[n], out[m]);
        assert out1[m] == out[m];
        assert SampleOf(es1[n], out1[m]);
      } else {
        assert SampleOf(es1[n], out1[|out|]);
      }
    }
  }

  lemma KeepsTrans(a: seq<Entry>, b: seq<Entry>, c: seq<Entry>)
    requires Keeps(a, b) && Keeps(b, c)
    ensures Keeps(a, c)
  {
  }

  lemma KeepsNames(a: seq<Entry>, b: seq<Entry>, x: string)
    requires Keeps(a, b) && HasName(a, x)
    ensures HasName(b, x)
  {
    var k :| 0 <= k < |a| && a[k].info.name == x;
    assert b[k].info.name == x;
  }

  // ---------------------------------------------------------- labels

  lemma SpeakerLabelDigits(n: nat)
    ensures SpeakerLabel(n)[..8] == "Speaker " && SpeakerLabel(n)[8..] == Decimal(n)
  {
  }

  /** Different counters give different labels. */
  lemma SpeakerLabelInjective(a: nat, b: nat)
    requires SpeakerLabel(a) == SpeakerLabel(b)
    ensures a == b
  {
    SpeakerLabelDigits(a);
    SpeakerLabelDigits(b);
    DecimalRoundTrip(a);
    DecimalRoundTrip(b);
  }

  lemma SpeakerLabelDistinct(a: nat, b: nat)
    requires a != b
    ensures SpeakerLabel(a) != SpeakerLabel(b)
  {
    if SpeakerLabel(a) == SpeakerLabel(b) {
      SpeakerLabelInjective(a, b);
    }
  }

  lemma SpeakerLabelNotUnknown(n: nat)
    ensures SpeakerLabel(n) != Unknown
  {
    assert SpeakerLabel(n)[0] == 'S';
  }

  /** The speakers of the sweep: the `n`-th is "Speaker n", styled "Outline",
      and the counter is the next number. */
  predicate SweepLabels(reg: Registry) {
    && reg.counter == |reg.entries| + 1
    && forall k :: 0 <= k < |reg.entries| ==>
      var info := reg.entries[k].info;
      info.name == SpeakerLabel(k + 1) && info.id == info.name && info.style == "Outline"
  }

  /** The speakers after the tail: the `m` speakers of the sweep, then at most
      the "Unknown" speaker, styled "outline". */
  predicate LabelsOk(es: seq<Entry>, m: nat) {
    && |es| <= m + 1
    && forall k :: 0 <= k < |es| ==>
      var info := es[k].info;
      && info.id == info.name
      && (k < m ==> info.name == SpeakerLabel(k + 1) && info.style == "Outline")
      && (k == m ==> es[k].key == Unknown && info.name == Unknown && info.style == "outline")
  }

  /** Labels are unique. */
  lemma LabelsDistinct(es: seq<Entry>, m: nat)
    requires LabelsOk(es, m)
    ensures DistinctNames(es)
  {
    forall a, b | 0 <= a < b < |es|
      ensures es[a].info.name != es[b].info.name
    {
      if b < m {
        if es[a].info.name == es[b].info.name {
          SpeakerLabelInjective(a + 1, b + 1);
        }
      } else {
        SpeakerLabelNotUnknown(a + 1);
      }
    }
  }

  // ----------------------------------------------------------- sweep

  function Unlabel(out: seq<LabelledSegment>): (r: seq<Segment>)
    ensures |r| == |out|
    ensures forall n :: 0 <= n < |out| ==> r[n] == Segment(out[n].start, out[n].end, out[n].text, out[n].words)
  {
    seq(|out|, n requires 0 <= n < |out| => Segment(out[n].start, out[n].end, out[n].text, out[n].words))
  }

  /** Some turn carries the diarization id `key`. */
  predicate HasTurn(turns: seq<Turn>, key: string) {
    exists j :: 0 <= j < |turns| && turns[j].speaker == key
  }

  /** The turn `d` overlaps the segment `o` and ends past its midpoint. */
  predicate Backs(d: DiarisationSegment, o: LabelledSegment) {
    d.start < o.end && o.start < d.end && o.end - d.end < d.end - o.start
  }

  /** One diarization entry per committed segment, with the same label,
      spanning a turn that backs it. */
  predicate Attributed(out: seq<LabelledSegment>, diar: seq<DiarisationSegment>) {
    |diar| == |out| && forall n :: 0 <= n < |out| ==> diar[n].speaker == out[n].speaker && Backs(diar[n], out[n])
  }

  predicate Named(es: seq<Entry>, out: seq<LabelledSegment>) {
    forall n :: 0 <= n < |out| ==> HasName(es, out[n].speaker)
  }

  predicate KeysFrom(es: seq<Entry>, turns: seq<Turn>) {
    forall k :: 0 <= k < |es| ==> HasTurn(turns, es[k].key)
  }

  /** The emitted segments of the sweep: transcript segments in their
      order, each backed by the turn it was attributed to. */
  predicate OutInv(segs: seq<Segment>, turns: seq<Turn>, s: SweepState) {
    && s.i <= |segs| && s.j <= |turns|
    && IsSubseq(Unlabel(s.out), segs[..s.i])
    && Attributed(s.out, s.diar)
  }

  /** The speakers of the sweep: numbered in order of appearance, keyed by
      diarization ids, and naming every emitted segment. */
  predicate NameInv(turns: seq<Turn>, s: SweepState) {
    && SweepLabels(s.reg)
    && Named(s.reg.entries, s.out)
    && KeysFrom(s.reg.entries, turns)
  }

  lemma StartInv(segs: seq<Segment>, turns: seq<Turn>)
    ensures OutInv(segs, turns, Start()) && RegOk(Start().reg, Start().out) && NameInv(turns, Start())
  {
    PaletteFacts();
    assert segs[..0] == [];
  }

  /** What a commit does to the sweep state. */
  lemma CommitShape(s: SweepState, seg: Segment, turn: Turn, draw: nat -> nat)
    ensures var r := Commit(s, seg, turn, draw);
      var es := s.reg.entries;
      var k := IndexOf(es, turn.speaker);
      var used := if k == |es| then SpeakerLabel(s.reg.counter) else es[k].info.name;
      && r.i == s.i + 1 && r.j == s.j
      && r.out == s.out + [Labelled(seg, used)]
      && r.diar == s.diar + [DiarisationSegment(used, turn.start, turn.end)]
      && r.reg == Register(s.reg, turn.speaker, used, "Outline", seg, draw).(
           counter := if k == |es| then s.reg.counter + 1 else s.reg.counter)
  {
  }

  lemma CommitOut(segs: seq<Segment>, turns: seq<Turn>, draw: nat -> nat, s: SweepState)
    requires OutInv(segs, turns, s) && s.i < |segs| && s.j < |turns|
    requires segs[s.i].start < turns[s.j].end && turns[s.j].start < segs[s.i].end
    requires segs[s.i].end - turns[s.j].end < turns[s.j].end - segs[s.i].start
    ensures OutInv(segs, turns, Commit(s, segs[s.i], turns[s.j], draw))
  {
    var seg, turn := segs[s.i], turns[s.j];
    var es := s.reg.entries;
    var k := IndexOf(es, turn.speaker);
    var used := if k == |es| then SpeakerLabel(s.reg.counter) else es[k].info.name;
    var o := Labelled(seg, used);
    var d := DiarisationSegment(used, turn.start, turn.end);
    assert Backs(d, o);
    CommitShape(s, seg, turn, draw);
    SubseqCommit(segs, s.i, s.out, used);
    AttributedAppend(s.out, s.diar, o, d);
  }

  lemma CommitReg(segs: seq<Segment>, turns: seq<Turn>, draw: nat -> nat, s: SweepState)
    requires RegOk(s.reg, s.out) && s.i < |segs| && s.j < |turns|
    ensures var r := Commit(s, segs[s.i], turns[s.j], draw); RegOk(r.reg, r.out)
  {
    var seg, turn := segs[s.i], turns[s.j];
    var es := s.reg.entries;
    var k := IndexOf(es, turn.speaker);
    var used := if k == |es| then SpeakerLabel(s.reg.counter) else es[k].info.name;
    var o := Labelled(seg, used);
    var reg1 := Register(s.reg, turn.speaker, used, "Outline", seg, draw);
    CommitShape(s, seg, turn, draw);
    RegisterOk(s.reg, s.out, turn.speaker, used, "Outline", seg, draw, o);
    CounterIrrelevant(reg1, Commit(s, seg, turn, draw).reg, s.out + [o]);
  }

  lemma CommitNames(segs: seq<Segment>, turns: seq<Turn>, draw: nat -> nat, s: SweepState)
    requires NameInv(turns, s) && s.i < |segs| && s.j < |turns|
    ensures var r := Commit(s, segs[s.i], turns[s.j], draw);
      NameInv(turns, r) && Keeps(s.reg.entries, r.reg.entries)
  {
    var seg, turn := segs[s.i], turns[s.j];
    var es := s.reg.entries;
    var k := IndexOf(es, turn.speaker);
    var used := if k == |es| then SpeakerLabel(s.reg.counter) else es[k].info.name;
    var o := Labelled(seg, used);
    var r := Commit(s, seg, turn, draw);
    CommitShape(s, seg, turn, draw);
    RegisterShape(s.reg, turn.speaker, used, "Outline", seg, draw);
    LabelsAfterCommit(s.reg, r.reg, k, used);
    NamedAfterCommit(es, r.reg.entries, s.out, o, k);
    KeysAfterCommit(es, r.reg.entries, turns, s.j);
  }

  /** Attributing a segment keeps every speaker's identity; the key's speaker
      is the one already there, with its label, or a new last one. */
  lemma RegisterShape(reg: Registry, key: string, name: string, style: string, seg: Segment, draw: nat -> nat)
    ensures var r := Register(reg, key, name, style, seg, draw); var k := IndexOf(reg.entries, key);
      && Keeps(reg.entries, r.entries) && r.counter == reg.counter && r.entries[k].key == key
      && (k < |reg.entries| ==> r.entries[k].info.name == reg.entries[k].info.name)
      && (k == |reg.entries| ==> r.entries[k].info.name == name && r.entries[k].info.id == name
                                 && r.entries[k].info.style == style)
  {
    var es := reg.entries;
    var k := IndexOf(es, key);
    if k == |es| {
      var reg1 := Enter(reg, key, name, style, seg, draw);
      assert forall n :: 0 <= n < |es| ==> reg1.entries[n] == es[n];
    }
  }

  lemma CounterIrrelevant(reg1: Registry, reg2: Registry, out: seq<LabelledSegment>)
    requires RegOk(reg1, out) && reg2.entries == reg1.entries && reg2.colors == reg1.colors
    ensures RegOk(reg2, out)
  {
  }

  lemma LabelsAfterCommit(reg: Registry, r: Registry, k: nat, used: string)
    requires SweepLabels(reg) && Keeps(reg.entries, r.entries) && k <= |reg.entries|
    requires |r.entries| == if k == |reg.entries| then k + 1 else |reg.entries|
    requires r.counter == if k == |reg.entries| then reg.counter + 1 else reg.counter
    requires k == |reg.entries| ==>
      r.entries[k].info.name == used && used == SpeakerLabel(reg.counter)
      && r.entries[k].info.id == used && r.entries[k].info.style == "Outline"
    ensures SweepLabels(r)
  {
  }

  lemma NamedAfterCommit(es: seq<Entry>, es1: seq<Entry>, out: seq<LabelledSegment>, o: LabelledSegment, k: nat)
    requires Named(es, out) && Keeps(es, es1) && k < |es1| && es1[k].info.name == o.speaker
    ensures Named(es1, out + [o])
  {
    var out1 := out + [o];
    forall n | 0 <= n < |out1|
      ensures HasName(es1, out1[n].speaker)
    {
      if n < |out| {
        assert out1[n] == out[n];
        KeepsNames(es, es1, out[n].speaker);
      }
    }
  }

  lemma KeysAfterCommit(es: seq<Entry>, es1: seq<Entry>, turns: seq<Turn>, j: nat)
    requires KeysFrom(es, turns) && Keeps(es, es1) && |es1| <= |es| + 1 && j < |turns|
    requires |es1| == |es| + 1 ==> es1[|es|].key == turns[j].speaker
    ensures KeysFrom(es1, turns)
  {
    forall n | 0 <= n < |es1|
      ensures HasTurn(turns, es1[n].key)
    {
      if n < |es| {
        assert es1[n].key == es[n].key;
      }
    }
  }

  lemma UnlabelAppend(out: seq<LabelledSegment>, seg: Segment, x: string)
    ensures Unlabel(out + [Labelled(seg, x)]) == Unlabel(out) + [seg]
  {
  }

  /** A committed segment extends the emitted ones in transcript order. */
  lemma SubseqCommit(segs: seq<Segment>, i: nat, out: seq<LabelledSegment>, x: string)
    requires i < |segs| && IsSubseq(Unlabel(out), segs[..i])
    ensures IsSubseq(Unlabel(out + [Labelled(segs[i], x)]), segs[..i + 1])
  {
    UnlabelAppend(out, segs[i], x);
    assert segs[..i + 1] == segs[..i] + [segs[i]];
    SubseqKeep(Unlabel(out), segs[..i], segs[i]);
  }

  /** A passed-over segment is left out. */
  lemma SubseqPass(segs: seq<Segment>, i: nat, out: seq<LabelledSegment>)
    requires i < |segs| && IsSubseq(Unlabel(out), segs[..i])
    ensures IsSubseq(Unlabel(out), segs[..i + 1])
  {
    assert segs[..i + 1] == segs[..i] + [segs[i]];
    SubseqSkip(Unlabel(out), segs[..i], segs[i]);
  }

  lemma AttributedAppend(out: seq<LabelledSegment>, diar: seq<DiarisationSegment>, o: LabelledSegment, d: DiarisationSegment)
    requires Attributed(out, diar) && d.speaker == o.speaker && Backs(d, o)
    ensures Attributed(out + [o], diar + [d])
  {
  }


  /** Each turn of the loop keeps the invariants. */
  lemma StepOut(segs: seq<Segment>, turns: seq<Turn>, draw: nat -> nat, s: SweepState)
    requires OutInv(segs, turns, s) && s.i < |segs| && s.j < |turns|
    ensures OutInv(segs, turns, Step(segs, turns, draw, s))
  {
    var seg, turn := segs[s.i], turns[s.j];
    if turn.end <= seg.start {
    } else if seg.end <= turn.start {
      SubseqPass(segs, s.i, s.out);
    } else if seg.end - turn.end >= turn.end - seg.start {
    } else {
      CommitOut(segs, turns, draw, s);
    }
  }

  lemma StepReg(segs: seq<Segment>, turns: seq<Turn>, draw: nat -> nat, s: SweepState)
    requires RegOk(s.reg, s.out) && s.i < |segs| && s.j < |turns|
    ensures var r := Step(segs, turns, draw, s); RegOk(r.reg, r.out)
  {
    var seg, turn := segs[s.i], turns[s.j];
    if !(turn.end <= seg.start) && !(seg.end <= turn.start) && !(seg.end - turn.end >= turn.end - seg.start) {
      CommitReg(segs, turns, draw, s);
    }
  }

  lemma StepNames(segs: seq<Segment>, turns: seq<Turn>, draw: nat -> nat, s: SweepState)
    requires NameInv(turns, s) && s.i < |segs| && s.j < |turns|
    ensures var r := Step(segs, turns, draw, s); NameInv(turns, r) && Keeps(s.reg.entries, r.reg.entries)
  {
    var seg, turn := segs[s.i], turns[s.j];
    if !(turn.end <= seg.start) && !(seg.end <= turn.start) && !(seg.end - turn.end >= turn.end - seg.start) {
      CommitNames(segs, turns, draw, s);
    }
  }

  lemma {:induction false} SweepOut(segs: seq<Segment>, turns: seq<Turn>, draw: nat -> nat, s: SweepState)
    requires OutInv(segs, turns, s)
    ensures OutInv(segs, turns, Sweep(segs, turns, draw, s))
    decreases |segs| - s.i + |turns| - s.j
  {
    if s.i < |segs| && s.j < |turns| {
      StepOut(segs, turns, draw, s);
      SweepOut(segs, turns, draw, Step(segs, turns, draw, s));
    }
  }

  lemma {:induction false} SweepReg(segs: seq<Segment>, turns: seq<Turn>, draw: nat -> nat, s: SweepState)
    requires s.i <= |segs| && s.j <= |turns| && RegOk(s.reg, s.out)
    ensures var r := Sweep(segs, turns, draw, s); RegOk(r.reg, r.out)
    decreases |segs| - s.i + |turns| - s.j
  {
    if s.i < |segs| && s.j < |turns| {
      StepReg(segs, turns, draw, s);
      SweepReg(segs, turns, draw, Step(segs, turns, draw, s));
    }
  }

  lemma {:induction false} SweepNames(segs: seq<Segment>, turns: seq<Turn>, draw: nat -> nat, s: SweepState)
    requires s.i <= |segs| && s.j <= |turns| && NameInv(turns, s)
    ensures var r := Sweep(segs, turns, draw, s); NameInv(turns, r) && Keeps(s.reg.entries, r.reg.entries)
    decreases |segs| - s.i + |turns| - s.j
  {
    if s.i < |segs| && s.j < |turns| {
      var s' := Step(segs, turns, draw, s);
      StepNames(segs, turns, draw, s);
      SweepNames(segs, turns, draw, s');
      KeepsTrans(s.reg.entries, s'.reg.entries, Sweep(segs, turns, draw, s').reg.entries);
    }
  }

  // ------------------------------------------------------------ tail

  /** The tail's output: each remaining segment labelled "Unknown". */
  function UnknownTail(rest: seq<Segment>): (r: seq<LabelledSegment>)
    ensures |r| == |rest| && forall n :: 0 <= n < |rest| ==> r[n] == Labelled(rest[n], Unknown)
  {
    seq(|rest|, n requires 0 <= n < |rest| => Labelled(rest[n], Unknown))
  }

  lemma TailStepOut(segs: seq<Segment>, draw: nat -> nat, s: SweepState)
    requires s.i < |segs|
    ensures var r := TailStep(segs, draw, s);
      r.i == s.i + 1 && r.out == s.out + [Labelled(segs[s.i], Unknown)] && r.diar == s.diar
  {
  }

  lemma UnknownTailCons(segs: seq<Segment>, i: nat)
    requires i < |segs|
    ensures UnknownTail(segs[i..]) == [Labelled(segs[i], Unknown)] + UnknownTail(segs[i + 1..])
  {
  }

  lemma {:induction false} TailOut(segs: seq<Segment>, draw: nat -> nat, s: SweepState)
    requires s.i <= |segs|
    ensures Tail(segs, draw, s).out == s.out + UnknownTail(segs[s.i..])
    ensures Tail(segs, draw, s).diar == s.diar
    decreases |segs| - s.i
  {
    if s.i < |segs| {
      var s' := TailStep(segs, draw, s);
      var o := Labelled(segs[s.i], Unknown);
      assert Tail(segs, draw, s) == Tail(segs, draw, s');
      TailStepOut(segs, draw, s);
      TailOut(segs, draw, s');
      UnknownTailCons(segs, s.i);
      assert (s.out + [o]) + UnknownTail(segs[s.i + 1..]) == s.out + ([o] + UnknownTail(segs[s.i + 1..]));
    } else {
      assert UnknownTail(segs[s.i..]) == [];
    }
  }

  lemma TailRegStep(segs: seq<Segment>, draw: nat -> nat, s: SweepState)
    requires s.i < |segs| && RegOk(s.reg, s.out)
    ensures var r := TailStep(segs, draw, s); RegOk(r.reg, r.out)
  {
    RegisterOk(s.reg, s.out, Unknown, Unknown, "outline", segs[s.i], draw, Labelled(segs[s.i], Unknown));
  }

  lemma TailNamesStep(segs: seq<Segment>, draw: nat -> nat, s: SweepState, m: nat)
    requires s.i < |segs| && LabelsOk(s.reg.entries, m) && m <= |s.reg.entries|
    ensures var r := TailStep(segs, draw, s);
      LabelsOk(r.reg.entries, m) && m <= |r.reg.entries| && Keeps(s.reg.entries, r.reg.entries)
  {
    var es := s.reg.entries;
    RegisterShape(s.reg, Unknown, Unknown, "outline", segs[s.i], draw);
    assert |es| > m ==> es[m].key == Unknown;
  }

  lemma {:induction false} TailReg(segs: seq<Segment>, draw: nat -> nat, s: SweepState)
    requires s.i <= |segs| && RegOk(s.reg, s.out)
    ensures var r := Tail(segs, draw, s); RegOk(r.reg, r.out)
    decreases |segs| - s.i
  {
    if s.i < |segs| {
      TailRegStep(segs, draw, s);
      TailReg(segs, draw, TailStep(segs, draw, s));
    }
  }

  lemma {:induction false} TailNames(segs: seq<Segment>, draw: nat -> nat, s: SweepState, m: nat)
    requires s.i <= |segs| && LabelsOk(s.reg.entries, m) && m <= |s.reg.entries|
    ensures var r := Tail(segs, draw, s); LabelsOk(r.reg.entries, m) && Keeps(s.reg.entries, r.reg.entries)
    decreases |segs| - s.i
  {
    if s.i < |segs| {
      var s' := TailStep(segs, draw, s);
      TailNamesStep(segs, draw, s, m);
      TailNames(segs, draw, s', m);
      KeepsTrans(s.reg.entries, s'.reg.entries, Tail(segs, draw, s').reg.entries);
    }
  }

  lemma SweepLabelsOk(reg: Registry)
    requires SweepLabels(reg)
    ensures LabelsOk(reg.entries, |reg.entries|)
  {
  }

  // ------------------------------------- attribution to turns and speakers

  /** How many of the segments carry the label `x`. */
  function LinesOf(out: seq<LabelledSegment>, x: string): nat {
    if out == [] then 0 else LinesOf(out[..|out| - 1], x) + (if out[|out| - 1].speaker == x then 1 else 0)
  }

  /** How many words the segments carrying the label `x` hold. */
  function WordsOf(out: seq<LabelledSegment>, x: string): nat {
    if out == [] then 0 else WordsOf(out[..|out| - 1], x) + (if out[|out| - 1].speaker == x then |out[|out| - 1].words| else 0)
  }

  lemma OfAppend(out: seq<LabelledSegment>, o: LabelledSegment, x: string)
    ensures LinesOf(out + [o], x) == LinesOf(out, x) + (if o.speaker == x then 1 else 0)
    ensures WordsOf(out + [o], x) == WordsOf(out, x) + (if o.speaker == x then |o.words| else 0)
  {
    assert (out + [o])[..|out|] == out;
  }

  /** A label on no segment counts no line and no word. */
  lemma {:induction false} OfAbsent(out: seq<LabelledSegment>, x: string)
    requires forall n :: 0 <= n < |out| ==> out[n].speaker != x
    ensures LinesOf(out, x) == 0 && WordsOf(out, x) == 0
  {
    if out != [] {
      OfAbsent(out[..|out| - 1], x);
    }
  }

  /** Every speaker's counters are the number of segments carrying its
      label and the number of their words. */
  predicate Tallied(es: seq<Entry>, out: seq<LabelledSegment>) {
    forall k :: 0 <= k < |es| ==>
      es[k].info.subtitleLines == LinesOf(out, es[k].info.name) && es[k].info.wordCount == WordsOf(out, es[k].info.name)
  }

  /** The diarization entry `d` spans turn `j`, and the speaker registered
      at `k` under that turn's id is the one that labels `o`. */
  predicate Via(turns: seq<Turn>, es: seq<Entry>, d: DiarisationSegment, o: LabelledSegment, j: int, k: int) {
    && 0 <= j < |turns| && 0 <= k < |es|
    && d.start == turns[j].start && d.end == turns[j].end
    && es[k].key == turns[j].speaker && es[k].info.name == o.speaker
  }

  /** Each diarization entry comes from an input turn, and the segment
      emitted with it carries the label of that turn's speaker. */
  ghost predicate FromTurns(turns: seq<Turn>, es: seq<Entry>, out: seq<LabelledSegment>, diar: seq<DiarisationSegment>) {
    |diar| <= |out| && forall n :: 0 <= n < |diar| ==> Traced(turns, es, diar[n], out[n])
  }

  ghost predicate Traced(turns: seq<Turn>, es: seq<Entry>, d: DiarisationSegment, o: LabelledSegment) {
    exists j, k :: Via(turns, es, d, o, j, k)
  }

  ghost predicate AttrInv(turns: seq<Turn>, s: SweepState) {
    |s.diar| == |s.out| && FromTurns(turns, s.reg.entries, s.out, s.diar) && Tallied(s.reg.entries, s.out)
  }

  /** Counting a segment labelled `name` for the speaker under `key` keeps
      the counters equal to the labelled lines, provided `name` is that
      speaker's label and no other speaker's, and a new speaker's label is
      on no earlier segment. */
  lemma TalliedRegister(reg: Registry, out: seq<LabelledSegment>, key: string, name: string, style: string,
                        seg: Segment, draw: nat -> nat, o: LabelledSegment)
    requires Tallied(reg.entries, out)
    requires o.speaker == name && |o.words| == |seg.words|
    requires IndexOf(reg.entries, key) < |reg.entries| ==> reg.entries[IndexOf(reg.entries, key)].info.name == name
    requires forall n :: 0 <= n < |reg.entries| && n != IndexOf(reg.entries, key) ==> reg.entries[n].info.name != name
    requires IndexOf(reg.entries, key) == |reg.entries| ==> forall n :: 0 <= n < |out| ==> out[n].speaker != name
    ensures Tallied(Register(reg, key, name, style, seg, draw).entries, out + [o])
  {
    var es := reg.entries;
    var k := IndexOf(es, key);
    var r := Register(reg, key, name, style, seg, draw).entries;
    RegisterShape(reg, key, name, style, seg, draw);
    if k == |es| {
      OfAbsent(out, name);
    }
    forall n | 0 <= n < |r|
      ensures r[n].info.subtitleLines == LinesOf(out + [o], r[n].info.name)
           && r[n].info.wordCount == WordsOf(out + [o], r[n].info.name)
    {
      OfAppend(out, o, r[n].info.name);
    }
  }

  /** Speakers keep their keys and labels, and segments already emitted stay. */
  lemma FromTurnsGrow(turns: seq<Turn>, es: seq<Entry>, es1: seq<Entry>, out: seq<LabelledSegment>,
                      out1: seq<LabelledSegment>, diar: seq<DiarisationSegment>)
    requires FromTurns(turns, es, out, diar) && Keeps(es, es1)
    requires |out| <= |out1| && forall n :: 0 <= n < |out| ==> out1[n] == out[n]
    ensures FromTurns(turns, es1, out1, diar)
  {
    forall n | 0 <= n < |diar|
      ensures Traced(turns, es1, diar[n], out1[n])
    {
      var j, k :| Via(turns, es, diar[n], out[n], j, k);
      assert Via(turns, es1, diar[n], out1[n], j, k);
    }
  }

  lemma FromTurnsAppend(turns: seq<Turn>, es: seq<Entry>, out: seq<LabelledSegment>, diar: seq<DiarisationSegment>,
                        o: LabelledSegment, d: DiarisationSegment, j: int, k: int)
    requires FromTurns(turns, es, out, diar) && |diar| == |out| && Via(turns, es, d, o, j, k)
    ensures FromTurns(turns, es, out + [o], diar + [d])
  {
    var out1, diar1 := out + [o], diar + [d];
    forall n | 0 <= n < |diar1|
      ensures Traced(turns, es, diar1[n], out1[n])
    {
      if n < |diar| {
        var j', k' :| Via(turns, es, diar[n], out[n], j', k');
        assert Via(turns, es, diar1[n], out1[n], j', k');
      } else {
        assert Via(turns, es, diar1[n], out1[n], j, k);
      }
    }
  }

  /** The label a commit uses is the registered speaker's own, shared with
      no other speaker, and a fresh label is on no emitted segment. */
  lemma CommitLabelFresh(reg: Registry, out: seq<LabelledSegment>, k: nat)
    requires SweepLabels(reg) && Named(reg.entries, out) && k <= |reg.entries|
    ensures var es := reg.entries;
      var used := if k == |es| then SpeakerLabel(reg.counter) else es[k].info.name;
      && (forall n :: 0 <= n < |es| && n != k ==> es[n].info.name != used)
      && (k == |es| ==> forall n :: 0 <= n < |out| ==> out[n].speaker != used)
  {
    var es := reg.entries;
    var used := if k == |es| then SpeakerLabel(reg.counter) else es[k].info.name;
    forall n | 0 <= n < |es| && n != k
      ensures es[n].info.name != used
    {
      SpeakerLabelDistinct(n + 1, if k == |es| then reg.counter else k + 1);
    }
    if k == |es| {
      forall n | 0 <= n < |out|
        ensures out[n].speaker != used
      {
        var m :| 0 <= m < |es| && es[m].info.name == out[n].speaker;
        SpeakerLabelDistinct(m + 1, reg.counter);
      }
    }
  }

  lemma CommitAttr(segs: seq<Segment>, turns: seq<Turn>, draw: nat -> nat, s: SweepState)
    requires NameInv(turns, s) && AttrInv(turns, s) && s.i < |segs| && s.j < |turns|
    ensures AttrInv(turns, Commit(s, segs[s.i], turns[s.j], draw))
  {
    var seg, turn := segs[s.i], turns[s.j];
    var es := s.reg.entries;
    var k := IndexOf(es, turn.speaker);
    var used := if k == |es| then SpeakerLabel(s.reg.counter) else es[k].info.name;
    var o := Labelled(seg, used);
    var d := DiarisationSegment(used, turn.start, turn.end);
    var r := Commit(s, seg, turn, draw);
    CommitShape(s, seg, turn, draw);
    RegisterShape(s.reg, turn.speaker, used, "Outline", seg, draw);
    FromTurnsGrow(turns, es, r.reg.entries, s.out, s.out, s.diar);
    assert Via(turns, r.reg.entries, d, o, s.j, k);
    FromTurnsAppend(turns, r.reg.entries, s.out, s.diar, o, d, s.j, k);
    CommitLabelFresh(s.reg, s.out, k);
    TalliedRegister(s.reg, s.out, turn.speaker, used, "Outline", seg, draw, o);
  }

  lemma StepAttr(segs: seq<Segment>, turns: seq<Turn>, draw: nat -> nat, s: SweepState)
    requires NameInv(turns, s) && AttrInv(turns, s) && s.i < |segs| && s.j < |turns|
    ensures AttrInv(turns, Step(segs, turns, draw, s))
  {
    var seg, turn := segs[s.i], turns[s.j];
    if !(turn.end <= seg.start) && !(seg.end <= turn.start) && !(seg.end - turn.end >= turn.end - seg.start) {
      CommitAttr(segs, turns, draw, s);
    }
  }

  lemma {:induction false} SweepAttr(segs: seq<Segment>, turns: seq<Turn>, draw: nat -> nat, s: SweepState)
    requires s.i <= |segs| && s.j <= |turns| && NameInv(turns, s) && AttrInv(turns, s)
    ensures AttrInv(turns, Sweep(segs, turns, draw, s))
    decreases |segs| - s.i + |turns| - s.j
  {
    if s.i < |segs| && s.j < |turns| {
      StepAttr(segs, turns, draw, s);
      StepNames(segs, turns, draw, s);
      SweepAttr(segs, turns, draw, Step(segs, turns, draw, s));
    }
  }

  /** The tail keeps every diarization entry tied to its turn and label. */
  lemma {:induction false} TailFromTurns(segs: seq<Segment>, turns: seq<Turn>, draw: nat -> nat, s: SweepState)
    requires s.i <= |segs| && FromTurns(turns, s.reg.entries, s.out, s.diar)
    ensures var r := Tail(segs, draw, s); FromTurns(turns, r.reg.entries, r.out, r.diar)
    decreases |segs| - s.i
  {
    if s.i < |segs| {
      var s' := TailStep(segs, draw, s);
      TailStepOut(segs, draw, s);
      RegisterShape(s.reg, Unknown, Unknown, "outline", segs[s.i], draw);
      FromTurnsGrow(turns, s.reg.entries, s'.reg.entries, s.out, s'.out, s.diar);
      TailFromTurns(segs, turns, draw, s');
    }
  }

  /** The tail's speakers: the `m` numbered ones of the sweep, keyed by ids
      other than "Unknown", then at most the "Unknown" one. */
  predicate TailInv(es: seq<Entry>, out: seq<LabelledSegment>, m: nat) {
    && LabelsOk(es, m) && m <= |es|
    && (forall k :: 0 <= k < m ==> es[k].key != Unknown)
    && Named(es, out) && Tallied(es, out)
  }

  lemma TailTallyStep(segs: seq<Segment>, draw: nat -> nat, s: SweepState, m: nat)
    requires s.i < |segs| && TailInv(s.reg.entries, s.out, m)
    ensures var r := TailStep(segs, draw, s); TailInv(r.reg.entries, r.out, m)
  {
    var es := s.reg.entries;
    var seg := segs[s.i];
    var o := Labelled(seg, Unknown);
    var r := TailStep(segs, draw, s);
    var k := IndexOf(es, Unknown);
    assert k == m by {
      if |es| > m {
        assert es[m].key == Unknown;
      }
    }
    forall n | 0 <= n < |es| && n != m
      ensures es[n].info.name != Unknown
    {
      SpeakerLabelNotUnknown(n + 1);
    }
    if k == |es| {
      forall n | 0 <= n < |s.out|
        ensures s.out[n].speaker != Unknown
      {
        var q :| 0 <= q < |es| && es[q].info.name == s.out[n].speaker;
        SpeakerLabelNotUnknown(q + 1);
      }
    }
    TalliedRegister(s.reg, s.out, Unknown, Unknown, "outline", seg, draw, o);
    RegisterShape(s.reg, Unknown, Unknown, "outline", seg, draw);
    TailNamesStep(segs, draw, s, m);
    NamedAfterCommit(es, r.reg.entries, s.out, o, m);
  }

  lemma {:induction false} TailTally(segs: seq<Segment>, draw: nat -> nat, s: SweepState, m: nat)
    requires s.i <= |segs| && TailInv(s.reg.entries, s.out, m)
    ensures var r := Tail(segs, draw, s); TailInv(r.reg.entries, r.out, m)
    decreases |segs| - s.i
  {
    if s.i < |segs| {
      TailTallyStep(segs, draw, s, m);
      TailTally(segs, draw, TailStep(segs, draw, s), m);
    }
  }

  /** With distinct keys, the lookup of a speaker's key finds that speaker. */
  lemma IndexOfKey(es: seq<Entry>, k: nat)
    requires DistinctKeys(es) && k < |es|
    ensures IndexOf(es, es[k].key) == k
  {
  }

  // ------------------------------------------------- whole merge

  /** The merged segments are the committed ones, in transcript order and
      each backed by the turn it was attributed to, followed by every
      segment from the final cursor on, labelled "Unknown"; a segment passed
      over by the sweep is not emitted, so there are at most as many merged
      segments as transcript segments. The sweep stops only when one of the
      two lists is used up. */
  lemma MergedSegments(segs: seq<Segment>, turns: seq<Turn>, draw: nat -> nat)
    ensures var sw, f := Swept(segs, turns, draw), Finished(segs, turns, draw);
      && sw.i <= |segs| && sw.j <= |turns| && (sw.i == |segs| || sw.j == |turns|)
      && IsSubseq(Unlabel(sw.out), segs[..sw.i])
      && f.out == sw.out + UnknownTail(segs[sw.i..])
      && f.diar == sw.diar && Attributed(sw.out, f.diar)
      && |f.out| <= |segs|
  {
    var sw := Swept(segs, turns, draw);
    StartInv(segs, turns);
    SweepOut(segs, turns, draw, Start());
    SweepFacts(segs, turns, draw, Start());
    TailOut(segs, draw, sw);
    SubseqLength(Unlabel(sw.out), segs[..sw.i]);
  }

  /** Speakers of the merge: the `n`-th diarization id met is "Speaker n"
      (styled "Outline"), an "Unknown" speaker (styled "outline") can only
      come last, labels and keys are unique, and every committed segment
      carries the label of a registered speaker: the one the dict holds
      under the id of the turn its diarization entry spans. */
  lemma MergedSpeakers(segs: seq<Segment>, turns: seq<Turn>, draw: nat -> nat)
    ensures var sw, f := Swept(segs, turns, draw), Finished(segs, turns, draw);
      && LabelsOk(f.reg.entries, |sw.reg.entries|)
      && DistinctNames(f.reg.entries) && DistinctKeys(f.reg.entries)
      && Keeps(sw.reg.entries, f.reg.entries)
      && |sw.out| <= |f.out|
      && (forall n :: 0 <= n < |sw.out| ==> HasName(f.reg.entries, f.out[n].speaker))
      && |f.diar| == |sw.out|
      && (forall n :: 0 <= n < |f.diar| ==> SpeakerOfTurn(turns, f.reg.entries, f.diar[n], f.out[n]))
  {
    var sw, f := Swept(segs, turns, draw), Finished(segs, turns, draw);
    StartInv(segs, turns);
    SweepFacts(segs, turns, draw, Start());
    SweepNames(segs, turns, draw, Start());
    SweepLabelsOk(sw.reg);
    TailNames(segs, draw, sw, |sw.reg.entries|);
    LabelsDistinct(f.reg.entries, |sw.reg.entries|);
    MergedTallies(segs, turns, draw);
    MergedSegments(segs, turns, draw);
    MergedAttribution(segs, turns, draw);
    forall n | 0 <= n < |sw.out|
      ensures HasName(f.reg.entries, f.out[n].speaker)
    {
      assert f.out[n] == sw.out[n];
      KeepsNames(sw.reg.entries, f.reg.entries, sw.out[n].speaker);
    }
  }

  /** Tallies of the merge: the first ten speakers have distinct palette
      colours, every colour is a `#rrggbb` code, every speaker has at least
      one line, the lines add up to the merged segments and the word counts
      to their words, and each speaker's sample is one of its lines. */
  lemma MergedTallies(segs: seq<Segment>, turns: seq<Turn>, draw: nat -> nat)
    ensures var f := Finished(segs, turns, draw);
      && FirstTenDistinct(f.reg.colors, f.reg.entries) && AllCodes(f.reg.entries)
      && Counted(f.reg.entries, f.out)
      && Sampled(f.reg.entries, f.out)
      && DistinctKeys(f.reg.entries)
  {
    var sw := Swept(segs, turns, draw);
    StartInv(segs, turns);
    SweepFacts(segs, turns, draw, Start());
    SweepReg(segs, turns, draw, Start());
    TailReg(segs, draw, sw);
  }

  /** The diarization entry `d` spans some input turn, and `o` carries the
      label of the speaker the dict holds under that turn's id. */
  predicate SpeakerOfTurn(turns: seq<Turn>, es: seq<Entry>, d: DiarisationSegment, o: LabelledSegment) {
    exists j ::
      && 0 <= j < |turns|
      && d.start == turns[j].start && d.end == turns[j].end
      && IndexOf(es, turns[j].speaker) < |es|
      && es[IndexOf(es, turns[j].speaker)].info.name == o.speaker
  }

  /** Which speaker a committed segment goes to: its diarization entry spans
      an input turn, and its label is the one registered under that turn's
      diarization id, so every commit under one id carries one label. */
  lemma MergedAttribution(segs: seq<Segment>, turns: seq<Turn>, draw: nat -> nat)
    ensures var f := Finished(segs, turns, draw); var es := f.reg.entries;
      && |f.diar| <= |f.out|
      && forall n :: 0 <= n < |f.diar| ==> SpeakerOfTurn(turns, es, f.diar[n], f.out[n])
  {
    var f := Finished(segs, turns, draw);
    var es := f.reg.entries;
    FinishedFromTurns(segs, turns, draw);
    assert DistinctKeys(es) by {
      MergedTallies(segs, turns, draw);
    }
    forall n | 0 <= n < |f.diar|
      ensures SpeakerOfTurn(turns, es, f.diar[n], f.out[n])
    {
      TracedByIndex(turns, es, f.diar[n], f.out[n]);
    }
  }

  lemma FinishedFromTurns(segs: seq<Segment>, turns: seq<Turn>, draw: nat -> nat)
    ensures var f := Finished(segs, turns, draw); FromTurns(turns, f.reg.entries, f.out, f.diar)
  {
    var sw := Swept(segs, turns, draw);
    StartInv(segs, turns);
    SweepFacts(segs, turns, draw, Start());
    SweepAttr(segs, turns, draw, Start());
    TailFromTurns(segs, turns, draw, sw);
  }

  /** With distinct keys, the speaker a turn's id is registered under is
      the one the dict lookup finds. */
  lemma TracedByIndex(turns: seq<Turn>, es: seq<Entry>, d: DiarisationSegment, o: LabelledSegment)
    requires DistinctKeys(es) && Traced(turns, es, d, o)
    ensures SpeakerOfTurn(turns, es, d, o)
  {
    var j, k :| Via(turns, es, d, o, j, k);
    IndexOfKey(es, k);
  }

  /** Per speaker, the counters are what was attributed to it: each speaker
      of the sweep has as many lines as committed segments carry its label,
      and as many words as they hold; when no diarization id is "Unknown",
      this holds of every speaker over all merged segments. */
  lemma SpeakerTallies(segs: seq<Segment>, turns: seq<Turn>, draw: nat -> nat)
    ensures Tallied(Swept(segs, turns, draw).reg.entries, Swept(segs, turns, draw).out)
    ensures (forall j :: 0 <= j < |turns| ==> turns[j].speaker != Unknown) ==>
      Tallied(Finished(segs, turns, draw).reg.entries, Finished(segs, turns, draw).out)
  {
    var sw := Swept(segs, turns, draw);
    var es := sw.reg.entries;
    StartInv(segs, turns);
    SweepFacts(segs, turns, draw, Start());
    SweepAttr(segs, turns, draw, Start());
    if forall j :: 0 <= j < |turns| ==> turns[j].speaker != Unknown {
      SweepNames(segs, turns, draw, Start());
      SweepLabelsOk(sw.reg);
      forall k | 0 <= k < |es|
        ensures es[k].key != Unknown
      {
        var j :| 0 <= j < |turns| && turns[j].speaker == es[k].key;
      }
      TailTally(segs, draw, sw, |es|);
    }
  }

  /** When no diarization id is "Unknown" and the sweep leaves segments
      over, the last speaker is the "Unknown" one, and it labels them. */
  lemma UnknownSpeaker(segs: seq<Segment>, turns: seq<Turn>, draw: nat -> nat)
    requires forall j :: 0 <= j < |turns| ==> turns[j].speaker != Unknown
    requires Swept(segs, turns, draw).i < |segs|
    ensures var m, es := |Swept(segs, turns, draw).reg.entries|, Finished(segs, turns, draw).reg.entries;
      && |es| == m + 1
      && es[m].key == Unknown && es[m].info.name == Unknown && es[m].info.style == "outline"
  {
    var sw, f := Swept(segs, turns, draw), Finished(segs, turns, draw);
    var es := sw.reg.entries;
    StartInv(segs, turns);
    SweepFacts(segs, turns, draw, Start());
    SweepNames(segs, turns, draw, Start());
    SweepLabelsOk(sw.reg);
    assert forall k :: 0 <= k < |es| ==> es[k].key != Unknown by {
      forall k | 0 <= k < |es|
        ensures es[k].key != Unknown
      {
        var j :| 0 <= j < |turns| && turns[j].speaker == es[k].key;
      }
    }
    var s1 := TailStep(segs, draw, sw);
    RegisterShape(sw.reg, Unknown, Unknown, "outline", segs[sw.i], draw);
    TailNamesStep(segs, draw, sw, |es|);
    TailNames(segs, draw, s1, |es|);
  }

  lemma {:induction false} NoLinesNoSpeakers(es: seq<Entry>, out: seq<LabelledSegment>)
    requires Counted(es, out)
    ensures es == [] <==> out == []
  {
    if es != [] {
      LinesBound(es, 0);
    }
  }

  /** The merge fails exactly when nothing was emitted (an empty transcript,
      or every segment passed over by the sweep), and then as `max` of an
      empty list does: the division by the transcript length is never
      reached with zero. On success the result carries the speakers in
      order of appearance, the merged segments and the diarization entries. */
  lemma MergeOutcome(t: Transcription, turns: seq<Turn>, draw: nat -> nat)
    ensures var r, f := Merge(t, turns, draw), Finished(t.segments, turns, draw);
      && (r.Err? <==> f.out == [])
      && (r.Err? ==> r.error == NoSpeakers)
      && (r.Ok? ==> r.value.text == t.text && r.value.language == t.language
                    && r.value.speakers == Infos(f.reg.entries)
                    && r.value.segments == f.out && r.value.diarization == f.diar)
  {
    var f := Finished(t.segments, turns, draw);
    MergedTallies(t.segments, turns, draw);
    MergedSegments(t.segments, turns, draw);
    NoLinesNoSpeakers(f.reg.entries, f.out);
  }

  lemma PercentBound(lines: nat, total: nat, r: nat)
    requires 0 < total && lines <= total && RoundsTo(100 * lines, total, r)
    ensures r <= 100
  {
    if r > 100 {
      MulMono(201, 2 * r - 1, total);
    }
  }

  lemma MulMono(a: nat, b: nat, c: nat)
    requires a <= b
    ensures a * c <= b * c
  {
  }

  /** The top speaker is the first speaker, in order of appearance, with the
      most lines; its percentage is its share of the transcript segments,
      rounded to the nearest integer (ties to even), and at most 100. */
  lemma TopSpeakerIsFirstMax(t: Transcription, turns: seq<Turn>, draw: nat -> nat)
    requires Merge(t, turns, draw).Ok?
    ensures var v := Merge(t, turns, draw).value; var sp, top := v.speakers, v.topSpeaker;
      && top.percentage <= 100
      && (exists k ::
            && 0 <= k < |sp|
            && top.name == sp[k].name && top.id == sp[k].id
            && (forall n :: 0 <= n < |sp| ==> sp[n].subtitleLines <= sp[k].subtitleLines)
            && (forall n :: 0 <= n < k ==> sp[n].subtitleLines < sp[k].subtitleLines)
            && RoundsTo(100 * sp[k].subtitleLines, |t.segments|, top.percentage))
  {
    var f := Finished(t.segments, turns, draw);
    var sp := Infos(f.reg.entries);
    var k := TopIndex(sp);
    MergeOutcome(t, turns, draw);
    MergedTallies(t.segments, turns, draw);
    MergedSegments(t.segments, turns, draw);
    LinesBound(f.reg.entries, k);
    PercentBound(sp[k].subtitleLines, |t.segments|, Merge(t, turns, draw).value.topSpeaker.percentage);
  }

  /** Without any diarization turn every transcript segment is labelled
      "Unknown", in order, and there are no diarization entries. */
  lemma NoTurnsAllUnknown(segs: seq<Segment>, draw: nat -> nat)
    ensures Finished(segs, [], draw).out == UnknownTail(segs)
    ensures Finished(segs, [], draw).diar == []
  {
    assert Swept(segs, [], draw) == Start();
    TailOut(segs, draw, Start());
    assert segs[0..] == segs;
  }
}
