/** The .NET string operations the schema parsers and the code generator rely on:
    String.Split(char), TrimEnd(char), StartsWith, Replace, Contains, ToLower,
    Char.IsWhiteSpace, and int/uint parsing in decimal and hexadecimal style. */
module Text {
  import opened Wrappers
  import opened Bytes

  predicate StartsWith(s: string, p: string)
  {
    |p| <= |s| && s[..|p|] == p
  }

  /** String.TrimEnd(c): every trailing `c` removed. */
  function TrimEnd(s: string, c: char): (r: string)
    ensures r <= s
    ensures r == [] || r[|r| - 1] != c
    ensures forall i :: |r| <= i < |s| ==> s[i] == c
  {
    if s != [] && s[|s| - 1] == c then TrimEnd(s[..|s| - 1], c) else s
  }

  /** Index of the first `c` in `s`, or |s| when there is none. */
  function IndexOf(s: string, c: char): (r: nat)
    ensures r <= |s|
    ensures r < |s| ==> s[r] == c
    ensures forall j :: 0 <= j < r ==> s[j] != c
  {
    if s == [] || s[0] == c then 0 else 1 + IndexOf(s[1..], c)
  }

  /** String.Split(c): the pieces between the occurrences of `c`, empty pieces kept. */
  function Split(s: string, c: char): (r: seq<string>)
    ensures |r| >= 1
    ensures forall i :: 0 <= i < |r| ==> c !in r[i]
    decreases |s|
  {
    var i := IndexOf(s, c);
    if i == |s| then [s] else [s[..i]] + Split(s[i + 1..], c)
  }

  /** String.Join(c, parts). */
  function Join(parts: seq<string>, c: char): string
  {
    if |parts| == 0 then ""
    else if |parts| == 1 then parts[0]
    else parts[0] + [c] + Join(parts[1..], c)
  }

  /** Splitting loses nothing: joining the pieces with the separator gives the text back. */
  lemma {:induction false} JoinSplit(s: string, c: char)
    ensures Join(Split(s, c), c) == s
    decreases |s|
  {
    var i := IndexOf(s, c);
    if i < |s| {
      var rest := s[i + 1..];
      var parts := Split(s, c);
      JoinSplit(rest, c);
      assert parts[0] == s[..i] && parts[1..] == Split(rest, c);
      assert Join(parts, c) == s[..i] + [c] + Join(Split(rest, c), c);
      assert s == s[..i] + [c] + rest;
    }
  }

  /** The first piece is the text before the first separator. */
  lemma SplitFirst(s: string, c: char)
    ensures Split(s, c)[0] == s[..IndexOf(s, c)]
  {
  }

  /** Without a separator the text is its own single piece. */
  lemma SplitNone(s: string, c: char)
    requires c !in s
    ensures Split(s, c) == [s]
  {
    assert IndexOf(s, c) == |s|;
  }

  /** With exactly one separator at `i` there are the two pieces around it. */
  lemma SplitOne(s: string, c: char, i: nat)
    requires i < |s| && s[i] == c
    requires forall j :: 0 <= j < |s| && j != i ==> s[j] != c
    ensures Split(s, c) == [s[..i], s[i + 1..]]
  {
    assert IndexOf(s, c) == i;
    SplitNone(s[i + 1..], c);
  }

  function Last<T>(s: seq<T>): T
    requires |s| > 0
  {
    s[|s| - 1]
  }

  /** String.Replace(pat, rep): non-overlapping occurrences, left to right. */
  function Replace(s: string, pat: string, rep: string): string
    requires |pat| > 0
    decreases |s|
  {
    if |s| < |pat| then s
    else if s[..|pat|] == pat then rep + Replace(s[|pat|..], pat, rep)
    else [s[0]] + Replace(s[1..], pat, rep)
  }

  /** A pattern containing a character that the text lacks is never replaced. */
  lemma {:induction false} ReplaceAbsent(s: string, pat: string, rep: string, c: char)
    requires |pat| > 0 && c in pat && c !in s
    ensures Replace(s, pat, rep) == s
    decreases |s|
  {
    if |s| >= |pat| {
      assert s[..|pat|] != pat by {
        var k :| 0 <= k < |pat| && pat[k] == c;
        assert s[..|pat|][k] == s[k] != pat[k];
      }
      ReplaceAbsent(s[1..], pat, rep, c);
      assert s == [s[0]] + s[1..];
    }
  }

  /** Removing a one-character pattern from text that holds it only at the end. */
  lemma {:induction false} ReplaceTrailing(s: string, c: char)
    requires c !in s
    ensures Replace(s + [c], [c], "") == s
    decreases |s|
  {
    if s == [] {
      assert Replace([c], [c], "") == "" + Replace([], [c], "");
    } else {
      assert (s + [c])[1..] == s[1..] + [c];
      ReplaceTrailing(s[1..], c);
      assert s == [s[0]] + s[1..];
    }
  }

  /** String.Contains(sub), ordinal. */
  predicate Contains(s: string, sub: string)
  {
    exists i :: 0 <= i <= |s| && StartsWith(s[i..], sub)
  }

  /** Char.ToLowerInvariant restricted to the ASCII letters. */
  function ToLowerAscii(s: string): (r: string)
    ensures |r| == |s|
  {
    seq(|s|, i requires 0 <= i < |s| => if 'A' <= s[i] <= 'Z' then (s[i] as int + 32) as char else s[i])
  }

  /** Char.IsWhiteSpace: the Unicode space separators, line and paragraph separators,
      and the controls U+0009..U+000D, U+0085. */
  predicate IsWhiteSpace(c: char)
  {
    c == ' ' || ('\t' <= c <= '\r') || c == '\U{0085}' || c == '\U{00A0}' || c == '\U{1680}'
    || ('\U{2000}' <= c <= '\U{200A}') || c == '\U{2028}' || c == '\U{2029}' || c == '\U{202F}'
    || c == '\U{205F}' || c == '\U{3000}'
  }

  /** String.IsNullOrWhiteSpace for a non-null string. */
  predicate IsBlank(s: string)
  {
    forall i :: 0 <= i < |s| ==> IsWhiteSpace(s[i])
  }

  /** The white space that NumberStyles.AllowLeadingWhite / AllowTrailingWhite skip. */
  predicate IsNumberWhite(c: char)
  {
    c == ' ' || ('\t' <= c <= '\r')
  }

  function TrimNumberWhite(s: string): (r: string)
    ensures |r| <= |s|
    decreases |s|
  {
    if s != [] && IsNumberWhite(s[0]) then TrimNumberWhite(s[1..])
    else if s != [] && IsNumberWhite(s[|s| - 1]) then TrimNumberWhite(s[..|s| - 1])
    else s
  }

  predicate IsHexDigit(c: char)
  {
    ('0' <= c <= '9') || ('a' <= c <= 'f') || ('A' <= c <= 'F')
  }

  function HexDigit(c: char): (r: nat)
    requires IsHexDigit(c)
    ensures r < 16
  {
    if '0' <= c <= '9' then c as int - '0' as int
    else if 'a' <= c <= 'f' then c as int - 'a' as int + 10
    else c as int - 'A' as int + 10
  }

  /** The value of a string of hexadecimal digits, most significant first. */
  function HexValue(s: string): nat
    requires forall i :: 0 <= i < |s| ==> IsHexDigit(s[i])
  {
    if s == [] then 0 else HexValue(s[..|s| - 1]) * 16 + HexDigit(s[|s| - 1])
  }

  predicate IsDecimalDigit(c: char)
  {
    '0' <= c <= '9'
  }

  function Digit(c: char): (r: nat)
    requires IsDecimalDigit(c)
    ensures r < 10
  {
    c as int - '0' as int
  }

  function DecimalValue(s: string): nat
    requires forall i :: 0 <= i < |s| ==> IsDecimalDigit(s[i])
  {
    if s == [] then 0 else DecimalValue(s[..|s| - 1]) * 10 + Digit(s[|s| - 1])
  }

  /** The digits of a hexadecimal number (NumberStyles.HexNumber), its value unbounded. */
  function ParseHex(s: string): (r: Option<nat>)
    ensures r.Some? <==> var t := TrimNumberWhite(s); t != [] && forall i :: 0 <= i < |t| ==> IsHexDigit(t[i])
  {
    var t := TrimNumberWhite(s);
    if t != [] && forall i :: 0 <= i < |t| ==> IsHexDigit(t[i]) then Some(HexValue(t)) else None
  }

  /** uint.Parse(s, NumberStyles.HexNumber). */
  function ParseUInt32Hex(s: string): (r: Result<uint32>)
    ensures r.Ok? <==> ParseHex(s).Some? && ParseHex(s).value < TWO_32
    ensures r.Ok? ==> r.value == ParseHex(s).value
  {
    match ParseHex(s)
    case None => Err(FormatError)
    case Some(v) => if v < TWO_32 then Ok(v) else Err(OverflowError)
  }

  /** int.Parse(s, NumberStyles.HexNumber): the same digits read as a 32-bit
      two's-complement value. */
  function ParseInt32Hex(s: string): (r: Result<int32>)
    ensures r.Ok? <==> ParseUInt32Hex(s).Ok?
    ensures r.Ok? ==> r.value % TWO_32 == ParseUInt32Hex(s).value
  {
    match ParseHex(s)
    case None => Err(FormatError)
    case Some(v) => if v < TWO_32 then Ok(Wrap32(v)) else Err(OverflowError)
  }

  /** int.Parse(s) with NumberStyles.Integer: white space around an optionally signed
      run of decimal digits, value in the 32-bit range. */
  function ParseInt32(s: string): (r: Result<int32>)
  {
    var t := TrimNumberWhite(s);
    var neg := t != [] && t[0] == '-';
    var digits := if t != [] && (t[0] == '-' || t[0] == '+') then t[1..] else t;
    if digits == [] || !(forall i :: 0 <= i < |digits| ==> IsDecimalDigit(digits[i])) then Err(FormatError)
    else
      var v: int := if neg then 0 - DecimalValue(digits) as int else DecimalValue(digits);
      if -TWO_31 <= v < TWO_31 then Ok(v) else Err(OverflowError)
  }

  function DigitChar(d: nat): (c: char)
    requires d < 10
    ensures IsDecimalDigit(c) && Digit(c) == d
  {
    ('0' as int + d) as char
  }

  function NatString(n: nat): (r: string)
    ensures r != [] && forall i :: 0 <= i < |r| ==> IsDecimalDigit(r[i])
  {
    if n < 10 then [DigitChar(n)] else NatString(n / 10) + [DigitChar(n % 10)]
  }

  /** Int32.ToString(): a '-' for negative numbers, then the decimal digits. */
  function DecimalString(n: int): string
  {
    if n < 0 then "-" + NatString(0 - n) else NatString(n)
  }

  lemma {:induction false} NatStringValue(n: nat)
    ensures DecimalValue(NatString(n)) == n
  {
    if n >= 10 {
      NatStringValue(n / 10);
      var r := NatString(n);
      assert r[..|r| - 1] == NatString(n / 10);
    }
  }

  lemma NoNumberWhiteInDecimal(s: string)
    requires s != [] && forall i :: 0 <= i < |s| ==> IsDecimalDigit(s[i]) || s[i] == '-'
    ensures TrimNumberWhite(s) == s
  {
  }

  /** The decimal rendering is read back by int.Parse as the same number. */
  lemma DecimalStringRoundTrip(n: int32)
    ensures ParseInt32(DecimalString(n)) == Ok(n)
  {
    var m: int := if n < 0 then 0 - n as int else n;
    NatStringValue(m);
    var s := DecimalString(n);
    NoNumberWhiteInDecimal(s);
    if n < 0 {
      assert s[1..] == NatString(m);
    }
  }
}
