/** Word censorship of `modify_result` (server.py:416-437): every word whose
    lower-cased, stripped text is one of the lower-cased sensitive words has
    its stripped core overwritten by asterisks. */
module Censor {
  import opened Text
  import opened Transcript

  function LowerAll(entries: seq<string>): (r: seq<string>)
    ensures |r| == |entries| && forall k :: 0 <= k < |entries| ==> r[k] == Lower(entries[k])
  {
    seq(|entries|, k requires 0 <= k < |entries| => Lower(entries[k]))
  }

  /** `is_sensitive`: the word is lower-cased and then stripped, the list
      entries are only lower-cased. */
  predicate IsSensitive(w: Word, sensitive: seq<string>) {
    Strip(Lower(w.word)) in LowerAll(sensitive)
  }

  /** `censor_word`: `word.replace(core, '*' * len(core))` with `core` the
      stripped word. The word keeps its length, its timing and the
      whitespace around it; only the core becomes asterisks. */
  function CensorWord(w: Word): (r: Word)
    ensures r.start == w.start && r.end == w.end
    ensures r.word == Leading(w.word) + Repeat('*', |Strip(w.word)|) + Trailing(w.word)
    ensures |r.word| == |w.word|
  {
    var core := Strip(w.word);
    StripSplits(w.word);
    if core == [] then
      InsertNothing(w.word);
      w.(word := Replace(w.word, core, Repeat('*', |core|)))
    else
      ReplaceCore(w.word, Repeat('*', |core|));
      w.(word := Replace(w.word, core, Repeat('*', |core|)))
  }

  /** The word-level `custom_operation` with `is_sensitive` as operator and
      `censor_word` as method, run only when the list is non-empty. Every
      word keeps its timing and length; a sensitive word has its core turned
      to asterisks, every other word is left exactly as it was, and an empty
      list changes nothing. */
  function CensorResult(result: seq<seq<Word>>, sensitive: seq<string>): (r: seq<seq<Word>>)
    ensures |r| == |result|
    ensures forall i :: 0 <= i < |result| ==> |r[i]| == |result[i]|
    ensures forall i, j :: 0 <= i < |result| && 0 <= j < |result[i]| ==>
      var w, w' := result[i][j], r[i][j];
      && w'.start == w.start && w'.end == w.end && |w'.word| == |w.word|
      && (|sensitive| > 0 && IsSensitive(w, sensitive) ==>
            w'.word == Leading(w.word) + Repeat('*', |Strip(w.word)|) + Trailing(w.word))
      && (|sensitive| == 0 || !IsSensitive(w, sensitive) ==> w' == w)
  {
    if |sensitive| > 0 then
      seq(|result|, i requires 0 <= i < |result| =>
        seq(|result[i]|, j requires 0 <= j < |result[i]| =>
          if IsSensitive(result[i][j], sensitive) then CensorWord(result[i][j]) else result[i][j]))
    else result
  }

  /** A word is sensitive exactly when some list entry, lower-cased, equals
      the lower-cased stripped core of the word, the very text that
      `censor_word` overwrites. */
  lemma {:induction false} SensitiveIff(w: Word, sensitive: seq<string>)
    ensures IsSensitive(w, sensitive) <==>
      exists k :: 0 <= k < |sensitive| && Lower(sensitive[k]) == Lower(Strip(w.word))
  {
    StripLowerCommute(w.word);
    var l := LowerAll(sensitive);
    if IsSensitive(w, sensitive) {
      var k :| 0 <= k < |l| && l[k] == Strip(Lower(w.word));
      assert Lower(sensitive[k]) == Lower(Strip(w.word));
    }
  }

  /** Whether a word is sensitive depends only on its stripped core: the
      whitespace around it never matters. */
  lemma SensitiveByCore(w1: Word, w2: Word, sensitive: seq<string>)
    requires Strip(w1.word) == Strip(w2.word)
    ensures IsSensitive(w1, sensitive) <==> IsSensitive(w2, sensitive)
  {
    StripLowerCommute(w1.word);
    StripLowerCommute(w2.word);
  }

  /** Entries are not stripped: an entry that starts with whitespace can
      never match, because a stripped word never starts with whitespace. */
  lemma {:induction false} PaddedEntryNeverMatches(w: Word, entry: string)
    requires entry != [] && IsSpace(entry[0])
    ensures !IsSensitive(w, [entry])
  {
    var stripped := Strip(Lower(w.word));
    StripCore(Lower(w.word));
    SpaceIsLower(entry[0]);
    assert Lower(entry)[0] == entry[0];
    assert LowerAll([entry]) == [Lower(entry)];
    assert stripped != Lower(entry);
  }

  lemma SpaceIsLower(c: char)
    requires IsSpace(c)
    ensures LowerChar(c) == c
  {
  }

  /** Stripping whitespace around a core that neither starts nor ends with
      whitespace gives back that core, and the whitespace on each side. */
  lemma {:induction false} StripPadded(lead: string, core: string, trail: string)
    requires AllSpace(lead) && AllSpace(trail)
    requires core != [] && !IsSpace(core[0]) && !IsSpace(core[|core| - 1])
    ensures Strip(lead + core + trail) == core
    ensures Leading(lead + core + trail) == lead
    ensures Trailing(lead + core + trail) == trail
  {
    TrimStartPadded(lead, core + trail);
    assert lead + core + trail == lead + (core + trail);
    TrimEndPadded(core, trail);
  }

  lemma {:induction false} TrimStartPadded(lead: string, rest: string)
    requires AllSpace(lead)
    requires rest != [] && !IsSpace(rest[0])
    ensures TrimStart(lead + rest) == rest
  {
    if lead != [] {
      assert (lead + rest)[0] == lead[0];
      assert (lead + rest)[1..] == lead[1..] + rest;
      TrimStartPadded(lead[1..], rest);
    } else {
      assert lead + rest == rest;
    }
  }

  lemma {:induction false} TrimEndPadded(core: string, trail: string)
    requires AllSpace(trail)
    requires core != [] && !IsSpace(core[|core| - 1])
    ensures TrimEnd(core + trail) == core
  {
    if trail != [] {
      var s := core + trail;
      assert s[|s| - 1] == trail[|trail| - 1];
      assert s[..|s| - 1] == core + trail[..|trail| - 1];
      TrimEndPadded(core, trail[..|trail| - 1]);
    } else {
      assert core + trail == core;
    }
  }

  /** Censoring a censored word changes nothing: its core is already all
      asterisks and its whitespace is where it was. */
  lemma CensorWordIdempotent(w: Word)
    ensures CensorWord(CensorWord(w)) == CensorWord(w)
  {
    var core := Strip(w.word);
    var c := CensorWord(w);
    var stars := Repeat('*', |core|);
    StripSplits(w.word);
    if core == [] {
      assert c.word == Leading(w.word) + Trailing(w.word);
      assert c.word == w.word;
    } else {
      assert !IsSpace('*');
      StripPadded(Leading(w.word), stars, Trailing(w.word));
    }
  }

  /** Censoring twice with the same list is the same as censoring once. */
  lemma CensorResultIdempotent(result: seq<seq<Word>>, sensitive: seq<string>)
    ensures CensorResult(CensorResult(result, sensitive), sensitive) == CensorResult(result, sensitive)
  {
    var once := CensorResult(result, sensitive);
    var twice := CensorResult(once, sensitive);
    forall i, j | 0 <= i < |result| && 0 <= j < |result[i]|
      ensures twice[i][j] == once[i][j]
    {
      if |sensitive| > 0 && IsSensitive(result[i][j], sensitive) {
        CensorWordIdempotent(result[i][j]);
      }
    }
    assert forall i :: 0 <= i < |result| ==> twice[i] == once[i];
  }
}
