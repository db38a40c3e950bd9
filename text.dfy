/** String primitives the server relies on, written out as Python defines them:
    `str.isspace`, `str.lower` (ASCII part), `str.strip`, `str.replace`,
    `str(n)` for a natural number and the `"#{:06x}"` colour format. */
module Text {

  /** The characters for which Python's `str.isspace()` is true. */
  predicate IsSpace(c: char) {
    || c == '\t' || c == '\n' || c == '\U{B}' || c == '\U{C}' || c == '\r'
    || ('\U{1C}' <= c <= '\U{1F}') || c == ' '
    || c == '\U{85}' || c == '\U{A0}' || c == '\U{1680}'
    || ('\U{2000}' <= c <= '\U{200A}')
    || c == '\U{2028}' || c == '\U{2029}' || c == '\U{202F}' || c == '\U{205F}' || c == '\U{3000}'
  }

  predicate AllSpace(s: string) {
    forall k :: 0 <= k < |s| ==> IsSpace(s[k])
  }

  function LowerChar(c: char): char {
    if 'A' <= c <= 'Z' then (c as int + 32) as char else c
  }

  /** `str.lower()` on the ASCII letters; every other character is kept. */
  function Lower(s: string): (r: string)
    ensures |r| == |s|
    ensures forall k :: 0 <= k < |s| ==> r[k] == LowerChar(s[k])
  {
    seq(|s|, k requires 0 <= k < |s| => LowerChar(s[k]))
  }

  /** How many whitespace characters `s` starts with. */
  function LeadCount(s: string): (n: nat)
    ensures n <= |s|
  {
    if |s| > 0 && IsSpace(s[0]) then 1 + LeadCount(s[1..]) else 0
  }

  /** How many whitespace characters `s` ends with. */
  function TrailCount(s: string): (n: nat)
    ensures n <= |s|
  {
    if |s| > 0 && IsSpace(s[|s| - 1]) then 1 + TrailCount(s[..|s| - 1]) else 0
  }

  /** `str.lstrip()`: drops the leading whitespace. */
  function TrimStart(s: string): string {
    s[LeadCount(s)..]
  }

  /** `str.rstrip()`: drops the trailing whitespace. */
  function TrimEnd(s: string): string {
    s[..|s| - TrailCount(s)]
  }

  /** What `TrimStart` drops is all whitespace and what it keeps does not
      start with whitespace. */
  lemma {:induction false} TrimStartDropsSpace(s: string)
    ensures AllSpace(s[..LeadCount(s)])
    ensures TrimStart(s) == [] || !IsSpace(TrimStart(s)[0])
  {
    if |s| > 0 && IsSpace(s[0]) {
      var t := s[1..];
      TrimStartDropsSpace(t);
      var n := LeadCount(s);
      assert LeadCount(t) == n - 1;
      assert s[n..] == t[n - 1..];
      forall k | 0 <= k < n
        ensures IsSpace(s[..n][k])
      {
        if k > 0 {
          assert s[..n][k] == t[..n - 1][k - 1];
        }
      }
    }
  }

  /** What `TrimEnd` drops is all whitespace and what it keeps does not
      end with whitespace. */
  lemma {:induction false} TrimEndDropsSpace(s: string)
    ensures AllSpace(s[|s| - TrailCount(s)..])
    ensures TrimEnd(s) == [] || !IsSpace(TrimEnd(s)[|TrimEnd(s)| - 1])
  {
    if |s| > 0 && IsSpace(s[|s| - 1]) {
      var p := s[..|s| - 1];
      TrimEndDropsSpace(p);
      var n := |s| - TrailCount(s);
      assert s[..n] == p[..n];
      assert s[n..] == p[n..] + [s[|s| - 1]];
    }
  }

  /** `str.strip()` with no argument. */
  function Strip(s: string): string {
    TrimEnd(TrimStart(s))
  }

  /** The whitespace `Strip` removes in front of the word. */
  function Leading(s: string): string {
    s[..LeadCount(s)]
  }

  /** The whitespace `Strip` removes behind the word. */
  function Trailing(s: string): string {
    var t := TrimStart(s);
    t[|t| - TrailCount(t)..]
  }

  /** Every string is its leading whitespace, its stripped core and its
      trailing whitespace, and the core neither starts nor ends with
      whitespace. */
  lemma StripSplits(s: string)
    ensures s == Leading(s) + Strip(s) + Trailing(s)
    ensures AllSpace(Leading(s)) && AllSpace(Trailing(s))
    ensures Strip(s) == [] || (!IsSpace(Strip(s)[0]) && !IsSpace(Strip(s)[|Strip(s)| - 1]))
  {
    StripConcat(s);
    TrimStartDropsSpace(s);
    TrimEndDropsSpace(TrimStart(s));
    StripCore(s);
  }

  lemma StripConcat(s: string)
    ensures s == Leading(s) + Strip(s) + Trailing(s)
  {
    var t := TrimStart(s);
    assert s == Leading(s) + t;
    assert t == Strip(s) + Trailing(s);
  }

  lemma StripCore(s: string)
    ensures Strip(s) == [] || (!IsSpace(Strip(s)[0]) && !IsSpace(Strip(s)[|Strip(s)| - 1]))
  {
    var t := TrimStart(s);
    TrimStartDropsSpace(s);
    TrimEndDropsSpace(t);
    if Strip(s) != [] {
      assert Strip(s)[0] == t[0];
    }
  }

  /** `n` copies of `c`, Python's `c * n`. */
  function Repeat(c: char, n: nat): (r: string)
    ensures |r| == n && forall k :: 0 <= k < n ==> r[k] == c
  {
    seq(n, _ => c)
  }

  /** Python's `s.replace("", rep)`: `rep` before every character and at the end. */
  function InsertEverywhere(s: string, rep: string): string {
    if s == [] then rep else rep + [s[0]] + InsertEverywhere(s[1..], rep)
  }

  /** Python's `s.replace(pat, rep)`: every non-overlapping occurrence of
      `pat`, scanned from the left, becomes `rep`. */
  function Replace(s: string, pat: string, rep: string): string
    decreases |s|
  {
    if pat == [] then InsertEverywhere(s, rep)
    else if |pat| <= |s| && s[..|pat|] == pat then rep + Replace(s[|pat|..], pat, rep)
    else if s == [] then []
    else [s[0]] + Replace(s[1..], pat, rep)
  }

  lemma {:induction false} InsertNothing(s: string)
    ensures InsertEverywhere(s, []) == s
  {
    if s != [] {
      InsertNothing(s[1..]);
    }
  }

  /** A pattern cannot occur at a position holding a character other than
      its first, so a prefix without that character is copied unchanged. */
  lemma {:induction false} ReplaceSkips(p: string, rest: string, pat: string, rep: string)
    requires pat != [] && pat[0] !in p
    ensures Replace(p + rest, pat, rep) == p + Replace(rest, pat, rep)
  {
    if p != [] {
      var s := p + rest;
      assert s[0] == p[0] != pat[0];
      assert !(|pat| <= |s| && s[..|pat|] == pat);
      assert Replace(s, pat, rep) == [s[0]] + Replace(s[1..], pat, rep);
      assert s[1..] == p[1..] + rest;
      ReplaceSkips(p[1..], rest, pat, rep);
      assert p == [s[0]] + p[1..];
    } else {
      assert p + rest == rest;
    }
  }

  /** Replacing the stripped core of a string touches exactly that core:
      the one occurrence of the core sits between the leading and trailing
      whitespace. */
  lemma {:induction false} ReplaceCore(s: string, rep: string)
    requires Strip(s) != []
    ensures Replace(s, Strip(s), rep) == Leading(s) + rep + Trailing(s)
  {
    var lead, core, trail := Leading(s), Strip(s), Trailing(s);
    StripSplits(s);
    assert !IsSpace(core[0]);
    assert core[0] !in lead && core[0] !in trail;
    assert s == lead + (core + trail);
    ReplaceSkips(lead, core + trail, core, rep);
    assert (core + trail)[..|core|] == core;
    assert (core + trail)[|core|..] == trail;
    assert Replace(core + trail, core, rep) == rep + Replace(trail, core, rep);
    assert trail + [] == trail;
    ReplaceSkips(trail, [], core, rep);
    assert Replace([], core, rep) == [];
    calc {
      Replace(s, core, rep);
      lead + Replace(core + trail, core, rep);
      lead + (rep + Replace(trail, core, rep));
      lead + (rep + trail);
      lead + rep + trail;
    }
  }

  /** Lower-casing neither creates nor removes whitespace. */
  lemma LowerKeepsSpace(c: char)
    ensures IsSpace(LowerChar(c)) <==> IsSpace(c)
  {
  }

  lemma {:induction false} LeadCountLower(s: string)
    ensures LeadCount(Lower(s)) == LeadCount(s)
  {
    if |s| > 0 {
      LowerKeepsSpace(s[0]);
      assert Lower(s)[1..] == Lower(s[1..]);
      LeadCountLower(s[1..]);
    }
  }

  lemma {:induction false} TrailCountLower(s: string)
    ensures TrailCount(Lower(s)) == TrailCount(s)
  {
    if |s| > 0 {
      LowerKeepsSpace(s[|s| - 1]);
      assert Lower(s)[..|s| - 1] == Lower(s[..|s| - 1]);
      TrailCountLower(s[..|s| - 1]);
    }
  }

  /** `w.lower().strip()` and `w.strip().lower()` agree: the word that
      `is_sensitive` compares is the lower-cased core that `censor_word`
      replaces. */
  lemma StripLowerCommute(s: string)
    ensures Strip(Lower(s)) == Lower(Strip(s))
  {
    var n := LeadCount(s);
    LeadCountLower(s);
    assert TrimStart(Lower(s)) == Lower(TrimStart(s));
    var t := TrimStart(s);
    TrailCountLower(t);
    assert TrimEnd(Lower(t)) == Lower(TrimEnd(t));
  }

  // ---- decimal rendering of a natural number: Python's str(n) ----

  function DigitChar(d: nat): char
    requires d < 10
  {
    "0123456789"[d]
  }

  predicate IsDigit(c: char) {
    '0' <= c <= '9'
  }

  function Decimal(n: nat): (s: string)
    ensures |s| > 0 && forall k :: 0 <= k < |s| ==> IsDigit(s[k])
  {
    if n < 10 then [DigitChar(n)] else Decimal(n / 10) + [DigitChar(n % 10)]
  }

  function DigitValue(c: char): nat
    requires IsDigit(c)
  {
    c as int - '0' as int
  }

  function ParseDecimal(s: string): nat
    requires forall k :: 0 <= k < |s| ==> IsDigit(s[k])
  {
    if s == [] then 0 else ParseDecimal(s[..|s| - 1]) * 10 + DigitValue(s[|s| - 1])
  }

  /** Reading back the decimal rendering gives the number: the rendering is injective. */
  lemma {:induction false} DecimalRoundTrip(n: nat)
    ensures ParseDecimal(Decimal(n)) == n
  {
    if n >= 10 {
      var s := Decimal(n);
      assert s[..|s| - 1] == Decimal(n / 10);
      DecimalRoundTrip(n / 10);
    }
  }

  // ---- "#{:06x}".format(n) ----

  function HexChar(d: nat): char
    requires d < 16
  {
    "0123456789abcdef"[d]
  }

  predicate IsHexChar(c: char) {
    ('0' <= c <= '9') || ('a' <= c <= 'f')
  }

  function HexValue(c: char): nat
    requires IsHexChar(c)
  {
    if '0' <= c <= '9' then c as int - '0' as int else c as int - 'a' as int + 10
  }

  function Pow16(w: nat): nat {
    if w == 0 then 1 else 16 * Pow16(w - 1)
  }

  /** The low `w` hexadecimal digits of `n`, most significant first. */
  function HexDigits(n: nat, w: nat): (s: string)
    ensures |s| == w && forall k :: 0 <= k < w ==> IsHexChar(s[k])
  {
    if w == 0 then [] else HexDigits(n / 16, w - 1) + [HexChar(n % 16)]
  }

  function ParseHex(s: string): nat
    requires forall k :: 0 <= k < |s| ==> IsHexChar(s[k])
  {
    if s == [] then 0 else ParseHex(s[..|s| - 1]) * 16 + HexValue(s[|s| - 1])
  }

  lemma {:induction false} HexRoundTrip(n: nat, w: nat)
    requires n < Pow16(w)
    ensures ParseHex(HexDigits(n, w)) == n
  {
    if w > 0 {
      var s := HexDigits(n, w);
      assert s[..|s| - 1] == HexDigits(n / 16, w - 1);
      assert n / 16 < Pow16(w - 1);
      HexRoundTrip(n / 16, w - 1);
    }
  }

  /** A colour as the client reads it: `#` and six lower-case hex digits. */
  predicate IsColorCode(s: string) {
    |s| == 7 && s[0] == '#' && forall k :: 1 <= k < 7 ==> IsHexChar(s[k])
  }

  /** `"#{:06x}".format(n)` for `0 <= n <= 0xFFFFFF`: a colour code that
      denotes `n`. */
  function HexColor(n: nat): (r: string)
    requires n < 0x1000000
    ensures IsColorCode(r) && ParseHex(r[1..]) == n
  {
    assert Pow16(6) == 0x1000000;
    HexRoundTrip(n, 6);
    assert ("#" + HexDigits(n, 6))[1..] == HexDigits(n, 6);
    "#" + HexDigits(n, 6)
  }
}
