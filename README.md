# Transcription server core, modelled in Dafny

This project models the four algorithms at the heart of the transcription
server (`Transcription-Server/server.py`) and proves what they guarantee.

- **Speaker merge** (`merge_diarisation`). It runs a two-cursor sweep over the
  transcript segments and the diarization turns.
  - Each segment goes to the first turn, in sweep order, that overlaps it
    and ends past its midpoint. Otherwise it is passed over or left to the
    tail.
  - What the sweep leaves goes to the "Unknown" speaker.
  - A dict-based registry names speakers "Speaker 1", "Speaker 2", … and
    hands out palette colours without replacement.
  - The registry counts lines and words per speaker.
  - The merge reports the top speaker and that speaker's share of lines.

  The server's loops are a `method` (`Diarisation.MergeDiarisation`),
  proved equal to a functional description (`Merge`). Properties are proved
  about that description in `MergeProperties`, and worked examples are in
  `MergeExamples`.
- **Non-speech gaps** (`get_speech_segments`). The loop that derives
  silences from the voice-activity intervals. It is a `method` proved equal
  to a recursive function, with an independent characterisation of the gaps.
- **Word censorship** (`is_sensitive`, `censor_word` and their application
  in `modify_result`). Functions over timed words.
- **Model resolution** (in `transcribe`). The language rule and the
  platform's model table.

`Text` spells out the Python string primitives the core relies on:
`str.isspace`, ASCII `lower`, `strip`, `replace`, `str(n)` and
`"#{:06x}"`. `Transcript` holds the shared value types.

## Behaviour worth knowing

The model keeps each of these as the code does.

- **Passed-over segments are lost.** When a segment ends before the current
  turn starts (server.py:291-292), only the segment cursor moves. The tail
  loop, commented "any remaining transcript segments" (server.py:342),
  starts at the final cursor (server.py:343). So such a segment is never
  emitted, and the merged list can be shorter than the transcript
  (`MergeProperties.MergedSegments`, `MergeExamples.DroppedSegment`). When
  every segment is dropped, `max` fails on an empty list (server.py:378).
- **The guard on the third branch always holds.** The test
  `j < len(diarization_turns)` at server.py:293 is always true inside the
  loop. So a segment that extends past the last turn by at least its
  overlap goes to "Unknown" (`MergeExamples.LastTurnPassedOver`).
- **No maximal-overlap matching.** A segment goes to the first turn, in
  sweep order, that overlaps it and ends past its midpoint
  (server.py:289-295). This need not be the turn it overlaps most.
- **Censored words keep their whitespace.** `str.replace` at server.py:427
  rewrites only the stripped core. The comment at server.py:426 speaks of
  every character, but surrounding whitespace is kept and the word keeps
  its length (`Censor.CensorWord`).
- **Sensitive entries are not stripped.** server.py:420 lower-cases the
  entries but strips only the word. So an entry with leading whitespace
  never matches (`Censor.PaddedEntryNeverMatches`).
- **"Unknown" as a diarization id.** Speakers are keyed by the raw
  diarization id (server.py:315), and the tail uses the key "Unknown"
  (server.py:354). A turn whose id is literally "Unknown" therefore shares
  its entry with the fallback speaker (`MergeExamples.UnknownIdShared`).
- **Ties for top speaker.** `max` at server.py:378-379 keeps the first
  maximum in insertion order (`Diarisation.TopIndex`).

## Model

| member | source | states |
|---|---|---|
| Text.StripSplits | Transcription-Server/server.py:425-427 | a string is its leading whitespace, its stripped core and its trailing whitespace; the core neither starts nor ends with whitespace |
| Text.TrimStartDropsSpace | Transcription-Server/server.py:420 | what `lstrip` drops is whitespace, and what it keeps does not start with whitespace |
| Text.TrimEndDropsSpace | Transcription-Server/server.py:420 | what `rstrip` drops is whitespace, and what it keeps does not end with whitespace |
| Text.StripLowerCommute | Transcription-Server/server.py:420-427 | lower-casing then stripping equals stripping then lower-casing, so the word `is_sensitive` compares is the lower-cased core that `censor_word` replaces |
| Text.ReplaceCore | Transcription-Server/server.py:427 | `word.replace(word.strip(), rep)` replaces exactly the stripped core and keeps the whitespace on both sides |
| Text.DecimalRoundTrip | Transcription-Server/server.py:297-298 | `str(n)` reads back as `n`, so different counters give different texts |
| Text.HexColor | Transcription-Server/server.py:322 | `"#{:06x}"` of a value up to 0xFFFFFF is `#` and six hex digits that read back as the value |
| Censor.SensitiveIff | Transcription-Server/server.py:419-427 | a word is sensitive iff some entry, lower-cased, equals the lower-cased stripped core, the text that `censor_word` overwrites |
| Censor.SensitiveByCore | Transcription-Server/server.py:420 | two words with the same stripped core are both sensitive or both not: surrounding whitespace never matters |
| Censor.PaddedEntryNeverMatches | Transcription-Server/server.py:420 | an entry that starts with whitespace matches no word, because entries are not stripped |
| Censor.CensorWord | Transcription-Server/server.py:423-427 | the censored word keeps its timing, its length and its leading and trailing whitespace; its core becomes asterisks |
| Censor.CensorResult | Transcription-Server/server.py:430-437 | every word keeps its timing and length; sensitive words get an asterisk core when the list is non-empty; every other word, and every word when the list is empty, is unchanged |
| Censor.CensorWordIdempotent | Transcription-Server/server.py:423-427 | censoring a censored word changes nothing |
| Censor.CensorResultIdempotent | Transcription-Server/server.py:430-437 | censoring twice with the same list equals censoring once |
| Models.Resolve | Transcription-Server/server.py:495-507 | succeeds iff the rewritten key is in the platform's table, and returns that table's repo; "en" appends ".en" and forces "transcribe"; otherwise the task passes through; the key changes only for "en" or German large off Windows; a failure reports the rewritten key, which is missing from the table |
| Models.EverySizeResolves | Transcription-Server/server.py:110-135 | every size in tiny..large resolves for any language, task and platform |
| Models.GermanLarge | Transcription-Server/server.py:498-507 | German with "large" picks the German fine-tune on macOS and the plain large model on Windows |
| Models.EnglishTwice | Transcription-Server/server.py:495-507 | "tiny.en" under English becomes "tiny.en.en" and fails |
| NonSpeech.NonSpeechSegments | Transcription-Server/server.py:583-591 | the loop returns exactly the gaps of the recursive description |
| NonSpeech.GapsFromIsProper | Transcription-Server/server.py:584-589 | from any interval on, the loop's gaps are the non-empty candidate stretches from that point |
| NonSpeech.GapsAreProperCandidates | Transcription-Server/server.py:583-591 | the gaps are, in order, the non-empty stretches from the previous speech end (0 first) to the next speech start |
| NonSpeech.GapsBounded | Transcription-Server/server.py:583-591 | every gap is non-empty and lies between a previous end and a next start; there are at most as many gaps as speech intervals |
| NonSpeech.GapsComplementSpeech | Transcription-Server/server.py:583-591 | on ordered speech, no gap overlaps speech, and every instant before the last speech end is in speech or in a gap |
| NonSpeech.Example | Transcription-Server/server.py:583-591 | speech at 1-2 s and 4-6 s gives gaps 0-1 s and 2-4 s and none after 6 s |
| NonSpeech.GapInsideSpeech | Transcription-Server/server.py:589 | `prev_end` is overwritten, not maximised, so a short interval inside a long one yields a "gap" that is speech |
| Diarisation.IndexOf | Transcription-Server/server.py:315 | the key's position in the dict, or the dict's length iff the key is absent |
| Diarisation.Register | Transcription-Server/server.py:314-339 | the key is present afterwards, at its old place or appended; the dict grows by one iff the key was absent; that speaker's lines grow by one and its words by the segment's words, from zero for a new speaker; every other speaker is unchanged |
| Diarisation.Step | Transcription-Server/server.py:280-340 | each turn of the loop advances exactly one cursor, by one |
| Diarisation.SweepFacts | Transcription-Server/server.py:279-280 | the cursors only move forward, stay in range, and the loop stops only when one list is used up |
| Diarisation.TopIndex | Transcription-Server/server.py:378-379 | `max` by lines: a speaker with the most lines, and no earlier speaker has as many |
| Diarisation.RoundHalfEven | Transcription-Server/server.py:389 | the integer nearest to the quotient, the even one on a tie |
| Diarisation.ChooseColor | Transcription-Server/server.py:317-322 | picks the drawn palette colour and removes it, or formats a random `#rrggbb` once the palette is empty |
| Diarisation.CountLine | Transcription-Server/server.py:314-339 | creates the entry with a new colour when absent, then adds one line and the segment's words |
| Diarisation.MergeDiarisation | Transcription-Server/server.py:264-394 | the two loops and the summary compute exactly `Merge` |
| MergeProperties.RemoveAt | Transcription-Server/server.py:319 | on a palette without repeats, `remove` takes out exactly the chosen colour |
| MergeProperties.PickOk | Transcription-Server/server.py:315-322 | handing out a colour keeps the first ten colours distinct and taken from the palette, and every colour a `#rrggbb` code |
| MergeProperties.RegisterOk | Transcription-Server/server.py:314-339 | counting a segment keeps keys unique, colours without replacement, lines and words summing to the emitted segments, and each sample one of the speaker's lines |
| MergeProperties.SpeakerLabelInjective | Transcription-Server/server.py:297-298 | different counters give different "Speaker N" labels |
| MergeProperties.SpeakerLabelNotUnknown | Transcription-Server/server.py:297-298 | no "Speaker N" label is "Unknown" |
| MergeProperties.LabelsDistinct | Transcription-Server/server.py:297-298 | the sweep's speakers followed by at most an "Unknown" one have unique labels |
| MergeProperties.SweepOut | Transcription-Server/server.py:280-340 | the committed segments are transcript segments in order; each has one diarization entry with its label and the turn that overlaps it past its midpoint |
| MergeProperties.TalliedRegister | Transcription-Server/server.py:314-339 | counting a segment for a speaker keeps every speaker's lines and words equal to the lines carrying its label, when the label is that speaker's alone and a new label is on no earlier line |
| MergeProperties.SweepAttr | Transcription-Server/server.py:280-340 | the loop keeps each diarization entry spanning an input turn whose id is registered under the label of its segment, and each speaker's counters equal to the lines carrying its label |
| MergeProperties.SweepReg | Transcription-Server/server.py:280-340 | the loop keeps the registry invariants of `RegisterOk` |
| MergeProperties.SweepNames | Transcription-Server/server.py:297-336 | the n-th id met is "Speaker n", styled "Outline"; keys come from the turns; every segment carries a registered label; speakers keep their label, colour and sample |
| MergeProperties.TailOut | Transcription-Server/server.py:343-351 | the tail appends every remaining segment, labelled "Unknown", and no diarization entry |
| MergeProperties.TailReg | Transcription-Server/server.py:353-374 | the tail keeps the registry invariants |
| MergeProperties.TailNames | Transcription-Server/server.py:353-371 | after the tail, at most one speaker follows the sweep's: "Unknown", styled "outline" |
| MergeProperties.MergedSegments | Transcription-Server/server.py:279-351 | the merged list is the committed segments in order, then every segment from the final cursor labelled "Unknown"; it is at most as long as the transcript |
| MergeProperties.MergedSpeakers | Transcription-Server/server.py:297-371 | speakers are "Speaker 1", "Speaker 2", … then at most "Unknown"; labels and keys are unique; there is one diarization entry per committed segment, and that segment's label is the one the dict holds under the id of the turn the entry spans |
| MergeProperties.MergedAttribution | Transcription-Server/server.py:297-315 | each diarization entry carries the start and end of an input turn, and its segment carries the label registered under that turn's id, so an id keeps one label across commits |
| MergeProperties.MergedTallies | Transcription-Server/server.py:314-374 | the first ten speakers have distinct palette colours; all colours are codes; every speaker has a line; lines sum to the merged segments and words to their words; each sample is one of the speaker's lines |
| MergeProperties.SpeakerTallies | Transcription-Server/server.py:314-374 | each speaker of the sweep has as many lines as committed segments carry its label, and their words; with no diarization id "Unknown", every speaker's lines and words are those of the merged segments carrying its label |
| MergeProperties.UnknownSpeaker | Transcription-Server/server.py:342-374 | when no id is "Unknown" and segments are left over, the last speaker is "Unknown", styled "outline" |
| MergeProperties.NoLinesNoSpeakers | Transcription-Server/server.py:377-379 | there are no speakers iff nothing was emitted |
| MergeProperties.MergeOutcome | Transcription-Server/server.py:377-394 | the merge fails iff nothing was emitted, and then because `max` has no speakers; on success it carries the text, language, speakers in order, merged segments and diarization entries |
| MergeProperties.PercentBound | Transcription-Server/server.py:389 | a rounded share of at most all segments is at most 100 |
| MergeProperties.TopSpeakerIsFirstMax | Transcription-Server/server.py:377-389 | the top speaker is the first with the most lines; its percentage is the rounded share of transcript segments, at most 100 |
| MergeProperties.NoTurnsAllUnknown | Transcription-Server/server.py:342-351 | without diarization turns every segment is labelled "Unknown", in order, with no diarization entries |
| MergeExamples.DroppedSegment | Transcription-Server/server.py:291-292 | a segment before the current turn is missing from the result, and the top speaker has 50% |
| MergeExamples.UnknownIdShared | Transcription-Server/server.py:354 | with a turn id "Unknown", a leftover segment is labelled "Unknown" but counted for "Speaker 1" |
| MergeExamples.LastTurnPassedOver | Transcription-Server/server.py:293-294 | a segment extending past the only turn by at least its overlap goes to "Unknown" |
| MergeExamples.TieGoesToLaterTurn | Transcription-Server/server.py:293-294 | a segment split evenly between two turns goes to the later one |

## Left out

- I/O, HTTP endpoints, request models, JSON files and `sanitize_result` are transport and persistence.
- Process setup and environment variables are also left out.
- The speech, diarization and voice-activity engines are opaque. Their outputs (segments, turns, speech intervals) are inputs to the model.
- Model download and validation are network calls and are left out.
- Device selection is hardware probing and is left out.
- `process_audio` runs two producers concurrently; concurrency is not modelled.
- `result.pad()`, `split_by_length`, `reset` and `to_dict` are library calls whose code is not part of this model.
- The library's `custom_operation` traversal is taken to visit every word of every segment once. It is modelled as a map over `seq<seq<Word>>`.
- Randomness: the n-th speaker created takes the random draw `draw(n)`. `random.choice` takes palette index `draw(n) % len`. `random.randint` takes `draw(n) % 0x1000000`. Only the structure of the result is proved, not its distribution.
- Diarisation.RoundHalfEven: rounds the exact rational `100 * lines / total` half to even. The float `(lines / total) * 100` that Python rounds can differ on exact ties.
- Text.Lower: lower-cases ASCII letters only. Python's full Unicode case mapping is not modelled.
- Censor.CensorWord: returns a new word instead of assigning `word.word` in place; aliasing of word objects is not modelled.
- MergeProperties.SpeakerTallies: per-speaker tallies over all merged segments are stated only when no diarization id is "Unknown". Otherwise the tail's lines count for that id's "Speaker N" entry (`MergeExamples.UnknownIdShared`).
- MergeProperties.UnknownSpeaker: stated only for diarization ids other than "Unknown". `MergeExamples.UnknownIdShared` shows what happens otherwise.
- Transcript and turn fields the merge does not read are not modelled.
- Times are exact reals, not floats.
- `speakers_info` is a sequence of (key, value) entries in insertion order, as a Python dict keeps them.
- The model does not assume that segments or turns are sorted. `NonSpeech.GapsComplementSpeech` alone requires ordered speech.
- `ZeroDivisionError` in the percentage is modelled but unreachable. An empty transcript has no speakers, so `max` fails first.
