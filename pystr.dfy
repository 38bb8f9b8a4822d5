/**
 * The pieces of Python's `str` behaviour that the reconciliation core relies on:
 * whitespace (`str.isspace`), `strip`, `split()`/`" ".join`, `upper()`, substring
 * tests and `int(float(s))`.
 */
module PyStr {
  import opened Wrappers

  /** The characters for which Python's `str.isspace()` holds; `split()`, `strip()`
      and the regular-expression class `\s` use exactly this set. */
  predicate IsSpace(c: char) {
    c == ' ' || ('\t' <= c <= '\r') || ('\U{1C}' <= c <= '\U{1F}')
    || c == '\U{85}' || c == '\U{A0}' || c == '\U{1680}'
    || ('\U{2000}' <= c <= '\U{200A}') || c == '\U{2028}' || c == '\U{2029}'
    || c == '\U{202F}' || c == '\U{205F}' || c == '\U{3000}'
  }

  predicate IsDigit(c: char) { '0' <= c <= '9' }

  predicate IsAsciiUpper(c: char) { 'A' <= c <= 'Z' }

  predicate AllDigits(s: string) { forall i :: 0 <= i < |s| ==> IsDigit(s[i]) }

  /** `str.upper()` on one character, for ASCII and the Latin-1 letters. */
  function UpperChar(c: char): char {
    if 'a' <= c <= 'z' then (c as int - 32) as char
    else if '\U{E0}' <= c <= '\U{FE}' && c != '\U{F7}' then (c as int - 32) as char
    else c
  }

  lemma UpperCharIdempotent(c: char)
    ensures UpperChar(UpperChar(c)) == UpperChar(c)
  {
  }

  /** `str.upper()`: same length, every character mapped by `UpperChar`. */
  function Upper(s: string): (r: string)
    ensures |r| == |s|
    ensures forall i :: 0 <= i < |s| ==> r[i] == UpperChar(s[i])
  {
    seq(|s|, i requires 0 <= i < |s| => UpperChar(s[i]))
  }

  predicate UpperFixed(s: string) { forall i :: 0 <= i < |s| ==> UpperChar(s[i]) == s[i] }

  lemma UpperOfFixed(s: string)
    requires UpperFixed(s)
    ensures Upper(s) == s
  {
  }

  // ---------------------------------------------------------------------
  // strip

  function LStrip(s: string): (r: string)
    ensures |r| <= |s| && r == s[|s| - |r|..]
    ensures r == [] || !IsSpace(r[0])
    ensures forall i :: 0 <= i < |s| - |r| ==> IsSpace(s[i])
  {
    if s != [] && IsSpace(s[0]) then LStrip(s[1..]) else s
  }

  function RStrip(s: string): (r: string)
    ensures |r| <= |s| && r == s[..|r|]
    ensures r == [] || !IsSpace(r[|r| - 1])
    ensures forall i :: |r| <= i < |s| ==> IsSpace(s[i])
  {
    if s != [] && IsSpace(s[|s| - 1]) then RStrip(s[..|s| - 1]) else s
  }

  /** `str.strip()`: drops leading and trailing whitespace and nothing else. */
  function Strip(s: string): (r: string)
    ensures r == [] || (!IsSpace(r[0]) && !IsSpace(r[|r| - 1]))
    ensures exists k :: 0 <= k <= |s| - |r| && Sub(s, k, |r|) == r
  {
    var l := LStrip(s);
    var r := RStrip(l);
    StripSlice(s, l, r);
    r
  }

  lemma StripSlice(s: string, l: string, r: string)
    requires |l| <= |s| && l == s[|s| - |l|..]
    requires |r| <= |l| && r == l[..|r|]
    ensures r != [] ==> r[0] == l[0]
    ensures exists k :: 0 <= k <= |s| - |r| && Sub(s, k, |r|) == r
  {
    var k := |s| - |l|;
    assert Sub(s, k, |r|) == r;
  }

  /** The `n` characters of `s` starting at `k` (a slice `s[k:k + n]`). */
  function Sub(s: string, k: int, n: nat): string
    requires 0 <= k <= |s| - n
  {
    s[k..k + n]
  }

  /** A string that `strip()` turns into the empty string. */
  predicate IsBlank(s: string) { forall i :: 0 <= i < |s| ==> IsSpace(s[i]) }

  lemma LStripOfBlank(s: string)
    requires IsBlank(s)
    ensures LStrip(s) == []
  {
    if s != [] { LStripOfBlank(s[1..]); }
  }

  lemma StripEmptyIffBlank(s: string)
    ensures Strip(s) == [] <==> IsBlank(s)
  {
    var l := LStrip(s);
    if IsBlank(s) {
      LStripOfBlank(s);
    }
    if Strip(s) == [] {
      assert RStrip(l) == [];
      assert l == [];
    }
  }

  // ---------------------------------------------------------------------
  // maximal runs: str.split() and re.findall("[A-Z0-9]+", ...)

  /** Length of the longest prefix of `s` whose characters satisfy `inRun`. */
  function RunLen(s: string, inRun: char -> bool): (n: nat)
    ensures n <= |s|
    ensures forall i :: 0 <= i < n ==> inRun(s[i])
    ensures n < |s| ==> !inRun(s[n])
  {
    if s == [] || !inRun(s[0]) then 0 else 1 + RunLen(s[1..], inRun)
  }

  /** The maximal runs of characters satisfying `inRun`, left to right. */
  function Runs(s: string, inRun: char -> bool): seq<string>
    decreases |s|
  {
    if s == [] then []
    else if !inRun(s[0]) then Runs(s[1..], inRun)
    else
      var n := RunLen(s, inRun);
      [s[..n]] + Runs(s[n..], inRun)
  }

  predicate NotSpace(c: char) { !IsSpace(c) }

  /** `str.split()` with no separator: the maximal whitespace-free runs. */
  function Words(s: string): seq<string> { Runs(s, NotSpace) }

  /** `sep.join(ws)`. */
  function Join(ws: seq<string>, sep: string): string {
    if ws == [] then "" else if |ws| == 1 then ws[0] else ws[0] + sep + Join(ws[1..], sep)
  }

  /** Every run is non-empty and made of characters of `s` satisfying `inRun`. */
  lemma {:induction false} RunsShape(s: string, inRun: char -> bool)
    ensures forall w :: w in Runs(s, inRun) ==> w != [] && (forall i :: 0 <= i < |w| ==> inRun(w[i]) && w[i] in s)
    decreases |s|
  {
    if s == [] {
    } else if !inRun(s[0]) {
      RunsShape(s[1..], inRun);
      forall w | w in Runs(s[1..], inRun) ensures forall i :: 0 <= i < |w| ==> w[i] in s {
        forall i | 0 <= i < |w| ensures w[i] in s { assert w[i] in s[1..]; }
      }
    } else {
      var n := RunLen(s, inRun);
      RunsShape(s[n..], inRun);
      forall w | w in Runs(s[n..], inRun) ensures forall i :: 0 <= i < |w| ==> w[i] in s {
        forall i | 0 <= i < |w| ensures w[i] in s { assert w[i] in s[n..]; }
      }
      forall i | 0 <= i < n ensures s[..n][i] in s { assert s[..n][i] == s[i]; }
    }
  }

  /** A string made only of run characters is a single run. */
  lemma {:induction false} RunLenOfRun(w: string, t: string, inRun: char -> bool)
    requires forall i :: 0 <= i < |w| ==> inRun(w[i])
    requires t == [] || !inRun(t[0])
    ensures RunLen(w + t, inRun) == |w|
  {
    var s := w + t;
    var n := RunLen(s, inRun);
    assert forall i :: 0 <= i < |w| ==> s[i] == w[i];
    assert t != [] ==> s[|w|] == t[0];
  }

  /** A run followed by a non-run character (or nothing) is split off whole. */
  lemma RunsOfRunThen(w: string, t: string, inRun: char -> bool)
    requires w != [] && forall i :: 0 <= i < |w| ==> inRun(w[i])
    requires t == [] || !inRun(t[0])
    ensures Runs(w + t, inRun) == [w] + Runs(t, inRun)
  {
    RunLenOfRun(w, t, inRun);
    var s := w + t;
    assert s[0] == w[0];
    assert s[..|w|] == w;
    assert s[|w|..] == t;
  }

  /** Splitting a " "-joined list of non-empty, space-free words gives the list back. */
  lemma {:induction false} WordsOfJoin(ws: seq<string>)
    requires forall w :: w in ws ==> w != [] && forall i :: 0 <= i < |w| ==> !IsSpace(w[i])
    ensures Words(Join(ws, " ")) == ws
  {
    if ws == [] {
    } else if |ws| == 1 {
      RunsOfRunThen(ws[0], [], NotSpace);
      assert ws[0] + [] == ws[0];
    } else {
      var w := ws[0];
      var rest := Join(ws[1..], " ");
      assert Join(ws, " ") == w + (" " + rest);
      RunsOfRunThen(w, " " + rest, NotSpace);
      assert (" " + rest)[1..] == rest;
      assert Runs(" " + rest, NotSpace) == Runs(rest, NotSpace);
      WordsOfJoin(ws[1..]);
      assert [w] + ws[1..] == ws;
    }
  }

  /** Every character of a join comes from a word or from the separator. */
  lemma {:induction false} JoinChars(ws: seq<string>, sep: string, c: char)
    requires c in Join(ws, sep)
    ensures c in sep || exists w :: w in ws && c in w
  {
    if |ws| > 1 {
      var rest := Join(ws[1..], sep);
      assert Join(ws, sep) == ws[0] + sep + rest;
      if c !in ws[0] && c !in sep {
        JoinChars(ws[1..], sep, c);
        var w :| w in ws[1..] && c in w;
        assert w in ws;
      }
    }
  }

  // ---------------------------------------------------------------------
  // substring tests

  /** `needle in hay` for Python strings (and SQL `LIKE '%needle%'` without wildcards). */
  predicate Contains(hay: string, needle: string) {
    exists i :: 0 <= i <= |hay| - |needle| && Sub(hay, i, |needle|) == needle
  }

  predicate StartsWith(s: string, p: string) { |p| <= |s| && s[..|p|] == p }

  predicate EndsWith(s: string, p: string) { |p| <= |s| && s[|s| - |p|..] == p }

  // ---------------------------------------------------------------------
  // numbers

  /** The value of a string of decimal digits ("" is 0). */
  function DigitsValue(s: string): nat
    requires AllDigits(s)
  {
    if s == [] then 0 else DigitsValue(s[..|s| - 1]) * 10 + (s[|s| - 1] as int - '0' as int)
  }

  function DigitChar(d: nat): char
    requires d < 10
  {
    ('0' as int + d) as char
  }

  /** The decimal digits of a natural number, without leading zeros. */
  function NatDigits(n: nat): (s: string)
    ensures AllDigits(s) && |s| > 0
    ensures DigitsValue(s) == n
  {
    var last := [DigitChar(n % 10)];
    if n < 10 then last
    else
      var p := NatDigits(n / 10);
      assert (p + last)[..|p + last| - 1] == p;
      p + last
  }

  /** `str(n)` for a Python int. */
  function IntToString(n: int): string {
    if n < 0 then "-" + NatDigits(-n) else NatDigits(n)
  }

  /** Number of leading decimal digits of `s`. */
  function DigitPrefix(s: string): (n: nat)
    ensures n <= |s| && AllDigits(s[..n]) && (n < |s| ==> !IsDigit(s[n]))
  {
    if s == [] || !IsDigit(s[0]) then 0
    else
      var n := 1 + DigitPrefix(s[1..]);
      assert forall i :: 1 <= i < n ==> s[..n][i] == s[1..][..n - 1][i - 1];
      n
  }

  /**
   * `int(float(s))`: an optional sign, then digits with an optional fraction
   * (`12`, `12.`, `12.50`, `.5`), surrounding whitespace ignored, truncated
   * toward zero; anything else is `None` (Python raises `ValueError`).
   */
  function ParseDecimal(s: string): Option<int> {
    ParseSigned(Strip(s))
  }

  /** The number a stripped string denotes, if it has the decimal form above. */
  function ParseSigned(t: string): Option<int> {
    var neg := |t| > 0 && t[0] == '-';
    var body := if |t| > 0 && (t[0] == '-' || t[0] == '+') then t[1..] else t;
    var n := DigitPrefix(body);
    var whole: int := if neg then -(DigitsValue(body[..n]) as int) else DigitsValue(body[..n]);
    if n > 0 && n == |body| then Some(whole)
    else if n < |body| && body[n] == '.' && AllDigits(body[n + 1..]) && (n > 0 || n + 1 < |body|) then Some(whole)
    else None
  }

  lemma DigitPrefixOfDigits(s: string)
    requires AllDigits(s)
    ensures DigitPrefix(s) == |s|
  {
    if s != [] { DigitPrefixOfDigits(s[1..]); }
  }

  lemma StripOfTrimmed(s: string)
    requires s != [] && !IsSpace(s[0]) && !IsSpace(s[|s| - 1])
    ensures Strip(s) == s
  {
    assert LStrip(s) == s;
  }

  lemma StripOfStripped(s: string)
    requires s == [] || (!IsSpace(s[0]) && !IsSpace(s[|s| - 1]))
    ensures Strip(s) == s
  {
  }

  lemma ParseSignedOfIntToString(n: int)
    ensures ParseSigned(IntToString(n)) == Some(n)
  {
    var d := if n < 0 then NatDigits(-n) else NatDigits(n);
    DigitPrefixOfDigits(d);
    assert d[..|d|] == d;
    if n < 0 {
      assert ("-" + d)[1..] == d;
    }
  }

  /** `int(float(str(n))) == n`: the printed form of an integer parses back to it. */
  lemma ParseDecimalOfIntToString(n: int)
    ensures ParseDecimal(IntToString(n)) == Some(n)
  {
    var s := IntToString(n);
    assert !IsSpace(s[0]) && !IsSpace(s[|s| - 1]);
    StripOfTrimmed(s);
    ParseSignedOfIntToString(n);
  }
  // ---------------------------------------------------------------------
  // regular expressions and slices

  /** Case-insensitive equality with an upper-case ASCII letter, as Python's
      `re.IGNORECASE` decides it (including the dotted/dotless I and the long s). */
  predicate CiEq(c: char, upper: char)
    requires 'A' <= upper <= 'Z'
  {
    c == upper || c as int == upper as int + 32
    || (upper == 'I' && (c == '\U{130}' || c == '\U{131}'))
    || (upper == 'S' && c == '\U{17F}')
    || (upper == 'K' && c == '\U{212A}')
  }

  predicate UpperWord(w: string) { forall j :: 0 <= j < |w| ==> 'A' <= w[j] <= 'Z' }

  /** The keyword `w` appears, case-insensitively, at position `i` of `s`. */
  predicate WordAt(s: string, i: nat, w: string)
    requires UpperWord(w)
  {
    i + |w| <= |s| && forall j :: 0 <= j < |w| ==> CiEq(s[i + j], w[j])
  }

  /** Python's `\w` on the Latin-1 range: letters, digits, `_` and the Latin-1 letters and numerals. */
  predicate IsWordChar(c: char) {
    ('a' <= c <= 'z') || ('A' <= c <= 'Z') || ('0' <= c <= '9') || c == '_'
    || c == '\U{AA}' || c == '\U{B2}' || c == '\U{B3}' || c == '\U{B5}' || c == '\U{B9}' || c == '\U{BA}'
    || ('\U{BC}' <= c <= '\U{BE}') || ('\U{C0}' <= c <= '\U{FF}' && c != '\U{D7}' && c != '\U{F7}')
  }

  /** Python's slice `s[start:end]` with negative and out-of-range bounds. */
  function PySlice<T>(s: seq<T>, start: int, end: int): (r: seq<T>)
    ensures |r| <= |s|
  {
    var a := if start < 0 then (if start + |s| < 0 then 0 else start + |s|) else (if start > |s| then |s| else start);
    var b := if end < 0 then (if end + |s| < 0 then 0 else end + |s|) else (if end > |s| then |s| else end);
    if a < b then s[a..b] else []
  }

  /** The first position at or after `i` that is not whitespace. */
  function SkipSpaces(s: string, i: nat): (j: nat)
    requires i <= |s|
    ensures i <= j <= |s|
    ensures forall k :: i <= k < j ==> IsSpace(s[k])
    ensures j < |s| ==> !IsSpace(s[j])
    decreases |s| - i
  {
    if i < |s| && IsSpace(s[i]) then SkipSpaces(s, i + 1) else i
  }
}
