/**
  The operations on Python's `str` that the snapshot manager applies to tag values:
  `strip()`, `lower()`, `split(sep)`, `sep.join(...)`, `isdigit()`, `int(...)` on a digit
  string, slicing `s[:n]` and `str(n)` on a natural number.
 */
module PyStr {

  /** The characters `str.isspace()` accepts, which are the ones `strip()` removes. */
  predicate IsSpace(c: char) {
    || '\U{9}' <= c <= '\U{D}'
    || '\U{1C}' <= c <= ' '
    || c == '\U{85}' || c == '\U{A0}' || c == '\U{1680}'
    || '\U{2000}' <= c <= '\U{200A}'
    || c == '\U{2028}' || c == '\U{2029}' || c == '\U{202F}' || c == '\U{205F}' || c == '\U{3000}'
  }

  predicate AllSpace(s: string) {
    forall i | 0 <= i < |s| :: IsSpace(s[i])
  }

  /** `str.lstrip()`: the longest suffix that does not start with white space. */
  function LStrip(s: string): (r: string)
    ensures |r| <= |s| && r == s[|s| - |r|..]
    ensures AllSpace(s[..|s| - |r|])
    ensures r == [] || !IsSpace(r[0])
  {
    if s != [] && IsSpace(s[0]) then
      var r := LStrip(s[1..]);
      assert s[..|s| - |r|] == [s[0]] + s[1..][..|s| - 1 - |r|];
      r
    else s
  }

  /** `str.rstrip()`: the longest prefix that does not end with white space. */
  function RStrip(s: string): (r: string)
    ensures |r| <= |s| && r == s[..|r|]
    ensures AllSpace(s[|r|..])
    ensures r == [] || !IsSpace(r[|r| - 1])
  {
    if s != [] && IsSpace(s[|s| - 1]) then
      var r := RStrip(s[..|s| - 1]);
      assert s[|r|..] == s[..|s| - 1][|r|..] + [s[|s| - 1]];
      r
    else s
  }

  /** `str.strip()` with no argument. */
  function Strip(s: string): (r: string)
    ensures |r| <= |s|
    ensures r == [] || (!IsSpace(r[0]) && !IsSpace(r[|r| - 1]))
  {
    RStrip(LStrip(s))
  }

  /** `str.lower()` on one character; only the ASCII letters have a case here. */
  function LowerChar(c: char): char {
    if 'A' <= c <= 'Z' then (c as int + 32) as char else c
  }

  /** `str.lower()`. */
  function Lower(s: string): (r: string)
    ensures |r| == |s|
  {
    seq(|s|, i requires 0 <= i < |s| => LowerChar(s[i]))
  }

  /** A string that `strip()` and `lower()` both leave as it is. */
  predicate IsNormal(s: string) {
    Strip(s) == s && Lower(s) == s
  }

  /** `s.strip().lower()`, the normalisation the source applies to keys, values and regions. */
  function Normalize(s: string): string {
    Lower(Strip(s))
  }

  /** The position of the first `c` in `s`, as `str.index` finds it. */
  function IndexOf(s: string, c: char): (i: nat)
    requires c in s
    ensures i < |s| && s[i] == c && c !in s[..i]
  {
    if s[0] == c then 0 else 1 + IndexOf(s[1..], c)
  }

  /** `sep.join(parts)`. */
  function Join(parts: seq<string>, sep: char): string {
    if |parts| == 0 then ""
    else if |parts| == 1 then parts[0]
    else parts[0] + [sep] + Join(parts[1..], sep)
  }

  /**
    `s.split(sep)`: never empty, no piece holds the separator, and joining the pieces
    with the separator gives back `s` (these three facts determine the result).
   */
  function Split(s: string, sep: char): (parts: seq<string>)
    ensures |parts| >= 1
    ensures forall i | 0 <= i < |parts| :: sep !in parts[i]
    ensures Join(parts, sep) == s
    decreases |s|
  {
    if sep !in s then [s]
    else
      var i := IndexOf(s, sep);
      var rest := Split(s[i + 1..], sep);
      assert ([s[..i]] + rest)[1..] == rest;
      assert s == s[..i] + [sep] + s[i + 1..];
      [s[..i]] + rest
  }

  predicate IsDigit(c: char) {
    '0' <= c <= '9'
  }

  predicate AllDigits(s: string) {
    forall i | 0 <= i < |s| :: IsDigit(s[i])
  }

  /** `str.isdigit()` on ASCII text: not empty, and nothing but digits. */
  predicate IsDigits(s: string) {
    |s| > 0 && AllDigits(s)
  }

  /** `int(s)` on a digit string. */
  function DecimalValue(s: string): nat
    requires AllDigits(s)
    decreases |s|
  {
    if s == [] then 0 else DecimalValue(s[..|s| - 1]) * 10 + (s[|s| - 1] as int - '0' as int)
  }

  function DigitChar(d: int): (c: char)
    requires 0 <= d < 10
    ensures IsDigit(c) && c as int - '0' as int == d
  {
    ('0' as int + d) as char
  }

  function Pow10(n: nat): nat {
    if n == 0 then 1 else 10 * Pow10(n - 1)
  }

  /** The `width` last decimal digits of `n`, zero-padded: Python's `'%0*d' % (width, n)` for `n < 10^width`. */
  function PadDecimal(n: nat, width: nat): (s: string)
    ensures |s| == width && AllDigits(s)
  {
    if width == 0 then "" else PadDecimal(n / 10, width - 1) + [DigitChar(n % 10)]
  }

  /** `str(n)` on a natural number: a digit string whose `int` value is `n`. */
  function NatText(n: nat): (s: string)
    ensures IsDigits(s) && DecimalValue(s) == n
  {
    if n < 10 then [DigitChar(n)]
    else
      var s := NatText(n / 10) + [DigitChar(n % 10)];
      assert s[..|s| - 1] == NatText(n / 10);
      s
  }

  /** `s[:n]`. */
  function Take(s: string, n: nat): (r: string)
    ensures |r| == if |s| <= n then |s| else n
    ensures r == s[..|r|]
  {
    if |s| <= n then s else s[..n]
  }

  // ---------------------------------------------------------------------------
  // Properties

  /** Splitting a joined list of pieces that do not hold the separator gives the pieces back. */
  lemma {:induction false} SplitOfJoin(parts: seq<string>, sep: char)
    requires |parts| >= 1
    requires forall i | 0 <= i < |parts| :: sep !in parts[i]
    ensures Split(Join(parts, sep), sep) == parts
    decreases |parts|
  {
    if |parts| > 1 {
      var s := Join(parts, sep);
      var p0 := parts[0];
      assert s == p0 + [sep] + Join(parts[1..], sep);
      assert s[|p0|] == sep;
      var i := IndexOf(s, sep);
      assert s[..|p0|] == p0;
      assert i == |p0|;
      assert s[i + 1..] == Join(parts[1..], sep);
      SplitOfJoin(parts[1..], sep);
      assert parts == [p0] + parts[1..];
    }
  }

  /** A string without the separator splits into itself alone ("" splits into [""]). */
  lemma SplitWithoutSeparator(s: string, sep: char)
    requires sep !in s
    ensures Split(s, sep) == [s]
  {
  }

  /** Splitting on a separator that occurs gives at least two pieces. */
  lemma SplitWithSeparator(s: string, sep: char)
    requires sep in s
    ensures |Split(s, sep)| >= 2
  {
  }

  lemma LowerCharKeepsSpace(c: char)
    ensures IsSpace(LowerChar(c)) == IsSpace(c)
  {
  }

  lemma {:induction false} LStripOfLower(s: string)
    ensures LStrip(Lower(s)) == Lower(LStrip(s))
    decreases |s|
  {
    if s != [] {
      LowerCharKeepsSpace(s[0]);
      assert Lower(s)[0] == LowerChar(s[0]);
      if IsSpace(s[0]) {
        assert Lower(s)[1..] == Lower(s[1..]);
        assert LStrip(Lower(s)) == LStrip(Lower(s[1..]));
        LStripOfLower(s[1..]);
      } else {
        assert LStrip(Lower(s)) == Lower(s);
      }
    }
  }

  lemma {:induction false} RStripOfLower(s: string)
    ensures RStrip(Lower(s)) == Lower(RStrip(s))
    decreases |s|
  {
    if s != [] {
      LowerCharKeepsSpace(s[|s| - 1]);
      assert Lower(s)[|s| - 1] == LowerChar(s[|s| - 1]);
      if IsSpace(s[|s| - 1]) {
        assert Lower(s)[..|s| - 1] == Lower(s[..|s| - 1]);
        assert RStrip(Lower(s)) == RStrip(Lower(s[..|s| - 1]));
        RStripOfLower(s[..|s| - 1]);
      } else {
        assert RStrip(Lower(s)) == Lower(s);
      }
    }
  }

  /** Stripping and lower-casing commute, so `lower().strip()` and `strip().lower()` agree. */
  lemma StripOfLower(s: string)
    ensures Strip(Lower(s)) == Lower(Strip(s))
  {
    LStripOfLower(s);
    RStripOfLower(LStrip(s));
  }

  /** A string that neither starts nor ends with white space is left alone by `strip()`. */
  lemma StripNoop(s: string)
    requires s == [] || (!IsSpace(s[0]) && !IsSpace(s[|s| - 1]))
    ensures Strip(s) == s
  {
  }

  lemma LowerIdempotent(s: string)
    ensures Lower(Lower(s)) == Lower(s)
  {
  }

  /** `s.strip().lower()` is already normal, so normalising twice changes nothing. */
  lemma NormalizeIsNormal(s: string)
    ensures IsNormal(Normalize(s))
    ensures Normalize(Normalize(s)) == Normalize(s)
  {
    var t := Strip(s);
    StripNoop(t);
    StripOfLower(t);
    LowerIdempotent(t);
  }

  /** A normal string is its own normalisation, whichever order the two steps run in. */
  lemma NormalFixed(s: string)
    requires IsNormal(s)
    ensures Normalize(s) == s && Strip(Lower(s)) == s
  {
  }

  /** `int(str(n)) == n` is NatText's contract; this is `int('%0*d' % (w, n)) == n`. */
  lemma {:induction false} DecimalValueOfPad(n: nat, width: nat)
    requires n < Pow10(width)
    ensures DecimalValue(PadDecimal(n, width)) == n
    decreases width
  {
    if width > 0 {
      var s := PadDecimal(n, width);
      assert s[..|s| - 1] == PadDecimal(n / 10, width - 1);
      assert n / 10 < Pow10(width - 1);
      DecimalValueOfPad(n / 10, width - 1);
    }
  }

  /** Stripping only removes characters, so one that is absent stays absent. */
  lemma StripKeepsAbsent(s: string, c: char)
    requires c !in s
    ensures c !in Strip(s)
  {
    LStripKeepsAbsent(s, c);
    RStripKeepsAbsent(LStrip(s), c);
  }

  lemma {:induction false} LStripKeepsAbsent(s: string, c: char)
    requires c !in s
    ensures c !in LStrip(s)
    decreases |s|
  {
    if s != [] && IsSpace(s[0]) {
      assert forall i | 0 <= i < |s| - 1 :: s[1..][i] == s[i + 1];
      LStripKeepsAbsent(s[1..], c);
    }
  }

  lemma {:induction false} RStripKeepsAbsent(s: string, c: char)
    requires c !in s
    ensures c !in RStrip(s)
    decreases |s|
  {
    if s != [] && IsSpace(s[|s| - 1]) {
      assert forall i | 0 <= i < |s| - 1 :: s[..|s| - 1][i] == s[i];
      RStripKeepsAbsent(s[..|s| - 1], c);
    }
  }

  /** Lower-casing produces a character that is not a lower-case letter only from itself. */
  lemma LowerKeepsAbsent(s: string, c: char)
    requires c !in s && !('a' <= c <= 'z')
    ensures c !in Lower(s)
  {
    assert forall i | 0 <= i < |s| :: Lower(s)[i] == LowerChar(s[i]);
  }

  lemma NormalizeKeepsAbsent(s: string, c: char)
    requires c !in s && !('a' <= c <= 'z')
    ensures c !in Normalize(s) && c !in Strip(Lower(s))
  {
    StripKeepsAbsent(s, c);
    LowerKeepsAbsent(Strip(s), c);
    StripOfLower(s);
  }

  /** A character that is neither the separator nor in any piece is not in the joined text. */
  lemma {:induction false} JoinKeepsAbsent(parts: seq<string>, sep: char, c: char)
    requires c != sep && forall i | 0 <= i < |parts| :: c !in parts[i]
    ensures c !in Join(parts, sep)
    decreases |parts|
  {
    if |parts| > 1 {
      JoinKeepsAbsent(parts[1..], sep, c);
    }
  }

  /** The pieces of a split hold only characters of the split text. */
  lemma {:induction false} SplitKeepsAbsent(s: string, sep: char, c: char)
    requires c !in s
    ensures forall i | 0 <= i < |Split(s, sep)| :: c !in Split(s, sep)[i]
    decreases |s|
  {
    if sep in s {
      var i := IndexOf(s, sep);
      assert forall k | 0 <= k < i :: s[..i][k] == s[k];
      var rest := s[i + 1..];
      assert forall k | 0 <= k < |rest| :: rest[k] == s[i + 1 + k];
      SplitKeepsAbsent(s[i + 1..], sep, c);
    }
  }
}
