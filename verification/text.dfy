/** The string primitives of .NET that the assembler and disassembler lean
    on, written out: whitespace trimming, splitting and joining, upper-casing,
    hexadecimal parsing as `Convert.ToByte(s, 16)` / `Convert.ToUInt16(s, 16)`
    do it, and the number formatting of interpolated strings. Strings are
    sequences of Unicode scalar values. */
module Text {
  import opened Results
  import opened Bytes

  /** `char.IsWhiteSpace`: the Unicode White_Space characters. */
  predicate IsWhiteSpace(c: char) {
    || ('\t' <= c <= '\r')
    || c == ' ' || c == '\U{85}' || c == '\U{A0}' || c == '\U{1680}'
    || ('\U{2000}' <= c <= '\U{200A}')
    || c == '\U{2028}' || c == '\U{2029}' || c == '\U{202F}' || c == '\U{205F}' || c == '\U{3000}'
  }

  /** `string.IsNullOrWhiteSpace`. */
  predicate IsBlank(s: string) {
    forall i | 0 <= i < |s| :: IsWhiteSpace(s[i])
  }

  /** `TrimStart()`: drops the leading whitespace. */
  function TrimStart(s: string): (r: string)
    ensures |r| <= |s| && r == s[|s| - |r|..]
    ensures IsBlank(s[..|s| - |r|])
    ensures r == [] || !IsWhiteSpace(r[0])
  {
    if |s| > 0 && IsWhiteSpace(s[0]) then TrimStart(s[1..]) else s
  }

  /** `TrimEnd()`: drops the trailing whitespace. */
  function TrimEnd(s: string): (r: string)
    ensures |r| <= |s| && r == s[..|r|]
    ensures IsBlank(s[|r|..])
    ensures r == [] || !IsWhiteSpace(r[|r| - 1])
  {
    if |s| > 0 && IsWhiteSpace(s[|s| - 1]) then TrimEnd(s[..|s| - 1]) else s
  }

  /** `Trim()`. */
  function Trim(s: string): string {
    TrimEnd(TrimStart(s))
  }

  /** `TrimStart(c)`: drops leading copies of one character. */
  function TrimStartChar(s: string, c: char): (r: string)
    ensures |r| <= |s| && r == s[|s| - |r|..]
    ensures forall i | 0 <= i < |s| - |r| :: s[i] == c
    ensures r == [] || r[0] != c
  {
    if |s| > 0 && s[0] == c then TrimStartChar(s[1..], c) else s
  }

  /** `TrimEnd(c)`: drops trailing copies of one character. */
  function TrimEndChar(s: string, c: char): (r: string)
    ensures |r| <= |s| && r == s[..|r|]
    ensures forall i | |r| <= i < |s| :: s[i] == c
    ensures r == [] || r[|r| - 1] != c
  {
    if |s| > 0 && s[|s| - 1] == c then TrimEndChar(s[..|s| - 1], c) else s
  }

  /** `Trim(c)`. */
  function TrimChar(s: string, c: char): string {
    TrimEndChar(TrimStartChar(s, c), c)
  }

  /** `Split(c)`: the pieces between occurrences of `sep`, empty ones
      included. */
  function Split(s: string, sep: char): (parts: seq<string>)
    ensures |parts| >= 1
    ensures forall i | 0 <= i < |parts| :: sep !in parts[i]
    decreases |s|
  {
    if sep !in s then [s]
    else
      var i := IndexOf(s, sep);
      [s[..i]] + Split(s[i + 1..], sep)
  }

  /** The first position of `c` in `s`. */
  function IndexOf(s: string, c: char): (i: nat)
    requires c in s
    ensures i < |s| && s[i] == c && c !in s[..i]
  {
    if s[0] == c then 0 else 1 + IndexOf(s[1..], c)
  }

  /** `string.Join(sep, parts)`. */
  function Join(sep: char, parts: seq<string>): string {
    if |parts| == 0 then ""
    else if |parts| == 1 then parts[0]
    else parts[0] + [sep] + Join(sep, parts[1..])
  }

  /** A `//` starts at position `i`. */
  predicate CommentAt(s: string, i: int) {
    0 <= i && i + 1 < |s| && s[i] == '/' && s[i + 1] == '/'
  }

  /** The first position at or after `from` where a `//` starts, or `|s|`. */
  function CommentStart(s: string, from: nat): (p: nat)
    requires from <= |s|
    ensures from <= p <= |s|
    ensures forall i | from <= i < p :: !CommentAt(s, i)
    ensures p < |s| ==> CommentAt(s, p)
    decreases |s| - from
  {
    if from == |s| then from
    else if CommentAt(s, from) then from
    else CommentStart(s, from + 1)
  }

  /** The text before the first `//`, which is `Split("//")[0]`. */
  function BeforeComment(s: string): (r: string)
    ensures |r| <= |s| && r == s[..|r|]
    ensures forall i | 0 <= i < |r| :: !CommentAt(s, i)
    ensures |r| < |s| ==> CommentAt(s, |r|)
  {
    s[..CommentStart(s, 0)]
  }

  /** `StartsWith` with an ordinal comparison. */
  predicate StartsWith(s: string, prefix: string) {
    |prefix| <= |s| && s[..|prefix|] == prefix
  }

  /** `char.ToUpper` restricted to ASCII letters. */
  function UpperChar(c: char): (u: char)
    ensures 'a' <= c <= 'z' ==> 'A' <= u <= 'Z'
    ensures !('a' <= c <= 'z') ==> u == c
  {
    if 'a' <= c <= 'z' then (c as int - 'a' as int + 'A' as int) as char else c
  }

  /** `ToUpper()` restricted to ASCII letters. */
  function ToUpper(s: string): (r: string)
    ensures |r| == |s|
    ensures forall i | 0 <= i < |s| :: r[i] == UpperChar(s[i])
  {
    seq(|s|, i requires 0 <= i < |s| => UpperChar(s[i]))
  }

  /** `Encoding.ASCII.GetBytes`: non-ASCII characters become `?`. */
  function AsciiBytes(s: string): (r: seq<byte>)
    ensures |r| == |s|
    ensures forall i | 0 <= i < |s| :: r[i] == if s[i] as int < 0x80 then s[i] as int else '?' as int
  {
    seq(|s|, i requires 0 <= i < |s| => if s[i] as int < 0x80 then s[i] as int else '?' as int)
  }

  // ---------------------------------------------------------------------
  // Numbers

  predicate IsHexDigit(c: char) {
    ('0' <= c <= '9') || ('a' <= c <= 'f') || ('A' <= c <= 'F')
  }

  predicate IsUpperHexDigit(c: char) {
    ('0' <= c <= '9') || ('A' <= c <= 'F')
  }

  predicate IsDecimalDigit(c: char) {
    '0' <= c <= '9'
  }

  function DigitValue(c: char): (d: nat)
    requires IsHexDigit(c)
    ensures d < 16
  {
    if '0' <= c <= '9' then c as int - '0' as int
    else if 'a' <= c <= 'f' then c as int - 'a' as int + 10
    else c as int - 'A' as int + 10
  }

  predicate AllHex(s: string) {
    forall i | 0 <= i < |s| :: IsHexDigit(s[i])
  }

  /** The value of a string of hexadecimal digits, most significant first. */
  function HexValue(s: string): nat
    requires AllHex(s)
  {
    if |s| == 0 then 0 else HexValue(s[..|s| - 1]) * 16 + DigitValue(s[|s| - 1])
  }

  /** Why `Convert` refuses a string. */
  datatype NumberError = EmptyInput | NegativeSign | NoDigits | TrailingJunk | Overflow

  /** `Convert.ToByte(s, 16)` (with `max` 255) and `Convert.ToUInt16(s, 16)`
      (with `max` 65535): an optional `+`, an optional `0x`/`0X`, then nothing
      but hexadecimal digits, at least one, in range. A `-` is refused for
      base 16. */
  function ParseHex(s: string, max: nat): (r: Result<nat, NumberError>)
    ensures r.Ok? ==> r.value <= max
    ensures r.Ok? ==> exists k | 0 <= k <= |s| :: AllHex(s[k..]) && |s[k..]| > 0 && r.value == HexValue(s[k..])
    ensures |s| > 0 && AllHex(s) && !(|s| > 1 && s[0] == '0' && (s[1] == 'x' || s[1] == 'X')) ==>
              r == (if HexValue(s) <= max then Ok(HexValue(s)) else Err(Overflow))
  {
    if |s| == 0 then Err(EmptyInput)
    else if s[0] == '-' then Err(NegativeSign)
    else
      var i := if s[0] == '+' then 1 else 0;
      var j := if i + 1 < |s| && s[i] == '0' && (s[i + 1] == 'x' || s[i + 1] == 'X') then i + 2 else i;
      var digits := s[j..];
      if |digits| == 0 || !IsHexDigit(digits[0]) then Err(NoDigits)
      else if !AllHex(digits) then Err(TrailingJunk)
      else if HexValue(digits) > max then Err(Overflow)
      else Ok(HexValue(digits))
  }

  /** One upper-case hexadecimal digit. */
  function HexChar(d: nat): (c: char)
    requires d < 16
    ensures IsUpperHexDigit(c) && IsHexDigit(c) && DigitValue(c) == d
  {
    if d < 10 then ('0' as int + d) as char else ('A' as int + d - 10) as char
  }

  /** `{v:X}`: upper-case hexadecimal without leading zeros. */
  function HexUpper(v: nat): (s: string)
    ensures |s| >= 1
    ensures AllHex(s) && HexValue(s) == v
    ensures forall i | 0 <= i < |s| :: IsUpperHexDigit(s[i])
    ensures v > 0 ==> s[0] != '0'
  {
    if v < 16 then [HexChar(v)]
    else
      var front := HexUpper(v / 16);
      var s := front + [HexChar(v % 16)];
      assert s[..|s| - 1] == front;
      s
  }

  function DecimalChar(d: nat): (c: char)
    requires d < 10
    ensures IsDecimalDigit(c) && c as int - '0' as int == d
  {
    ('0' as int + d) as char
  }

  predicate AllDecimal(s: string) {
    forall i | 0 <= i < |s| :: IsDecimalDigit(s[i])
  }

  function DecimalValue(s: string): nat
    requires AllDecimal(s)
  {
    if |s| == 0 then 0 else DecimalValue(s[..|s| - 1]) * 10 + (s[|s| - 1] as int - '0' as int)
  }

  /** `{n}` for a non-negative integer. */
  function Decimal(n: nat): (s: string)
    ensures |s| >= 1 && AllDecimal(s) && DecimalValue(s) == n
  {
    if n < 10 then [DecimalChar(n)]
    else
      var front := Decimal(n / 10);
      var s := front + [DecimalChar(n % 10)];
      assert s[..|s| - 1] == front;
      s
  }
}
