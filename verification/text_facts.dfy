/** Round trips and bounds for the string primitives. */
module TextFacts {
  import opened Results
  import opened Text

  /** Joining the pieces of a split with the same separator restores the
      string. */
  lemma {:induction false} JoinSplit(s: string, sep: char)
    ensures Join(sep, Split(s, sep)) == s
    decreases |s|
  {
    if sep in s {
      var i := IndexOf(s, sep);
      var rest := Split(s[i + 1..], sep);
      JoinSplit(s[i + 1..], sep);
      assert Split(s, sep) == [s[..i]] + rest;
      assert s == s[..i] + [sep] + s[i + 1..];
    }
  }

  /** Splitting a join of separator-free pieces gives the pieces back. */
  lemma {:induction false} SplitJoin(parts: seq<string>, sep: char)
    requires |parts| >= 1
    requires forall i | 0 <= i < |parts| :: sep !in parts[i]
    ensures Split(Join(sep, parts), sep) == parts
    decreases |parts|
  {
    if |parts| > 1 {
      var tail := Join(sep, parts[1..]);
      assert Join(sep, parts) == parts[0] + [sep] + tail;
      SplitStep(parts[0], tail, sep);
      SplitJoin(parts[1..], sep);
      assert parts == [parts[0]] + parts[1..];
    }
  }

  /** Splitting at the first separator. */
  lemma SplitStep(a: string, tail: string, sep: char)
    requires sep !in a
    ensures Split(a + [sep] + tail, sep) == [a] + Split(tail, sep)
  {
    var s := a + [sep] + tail;
    assert s == a + ([sep] + tail);
    IndexAfterFree(a, [sep] + tail, sep);
    assert s[|a| + 1..] == tail;
    assert s[..|a|] == a;
  }

  lemma IndexAfterFree(a: string, b: string, sep: char)
    requires sep !in a && |b| > 0 && b[0] == sep
    ensures sep in a + b && IndexOf(a + b, sep) == |a|
  {
    var s := a + b;
    assert s[|a|] == sep;
    var i := IndexOf(s, sep);
    assert forall k | |a| < k <= |s| :: s[..k][|a|] == sep;
    assert forall k | 0 <= k < |a| :: s[k] == a[k];
  }

  /** The first piece of a split is the text before the first separator. */
  lemma FirstPiece(s: string, sep: char)
    ensures sep !in s ==> Split(s, sep)[0] == s
    ensures sep in s ==> Split(s, sep)[0] == s[..IndexOf(s, sep)]
  {
  }

  /** Trimming twice is trimming once, and a trimmed string has no
      whitespace at either end. */
  lemma TrimIdempotent(s: string)
    ensures Trim(Trim(s)) == Trim(s)
    ensures Trim(s) == [] || (!IsWhiteSpace(Trim(s)[0]) && !IsWhiteSpace(Trim(s)[|Trim(s)| - 1]))
  {
    TrimmedEnds(s);
    TrimStartKeeps(Trim(s));
    TrimEndKeeps(Trim(s));
  }

  lemma TrimmedEnds(s: string)
    ensures Trim(s) == [] || (!IsWhiteSpace(Trim(s)[0]) && !IsWhiteSpace(Trim(s)[|Trim(s)| - 1]))
  {
    var t := TrimStart(s);
    var u := TrimEnd(t);
    if u != [] {
      assert u[0] == t[..|u|][0];
    }
  }

  /** Nothing to trim at the front leaves the string as it is. */
  lemma TrimStartKeeps(s: string)
    requires s == [] || !IsWhiteSpace(s[0])
    ensures TrimStart(s) == s
  {
  }

  /** Nothing to trim at the end leaves the string as it is. */
  lemma TrimEndKeeps(s: string)
    requires s == [] || !IsWhiteSpace(s[|s| - 1])
    ensures TrimEnd(s) == s
  {
  }

  /** A string is blank exactly when trimming empties it. */
  lemma BlankIffTrimsToEmpty(s: string)
    ensures IsBlank(s) <==> Trim(s) == []
  {
    var t := TrimStart(s);
    assert s == s[..|s| - |t|] + t;
    assert t != [] ==> t[0] == s[|s| - |t|];
  }

  /** Upper-casing is idempotent. */
  lemma ToUpperIdempotent(s: string)
    ensures ToUpper(ToUpper(s)) == ToUpper(s)
  {
  }

  /** Formatting a number as `{v:X}` and parsing it back as
      `Convert.ToUInt16(…, 16)` gives the number. */
  lemma HexDigitsRoundTrip(v: nat, max: nat)
    requires v <= max
    ensures ParseHex(HexUpper(v), max) == Ok(v)
  {
    var h := HexUpper(v);
    assert |h| > 1 ==> IsUpperHexDigit(h[1]);
  }

  /** The same with the `0x` prefix the disassembler prints, after the
      upper-casing the assembler applies. */
  lemma HexRoundTrip(v: nat, max: nat)
    requires v <= max
    ensures ToUpper("0x" + HexUpper(v)) == "0X" + HexUpper(v)
    ensures ParseHex("0X" + HexUpper(v), max) == Ok(v)
  {
    UpperPrefixedHex(HexUpper(v));
    ParsePrefixedHex(HexUpper(v), max);
  }

  /** Upper-casing touches only the `x` of a prefixed upper-case number. */
  lemma UpperPrefixedHex(h: string)
    requires forall i | 0 <= i < |h| :: IsUpperHexDigit(h[i])
    ensures ToUpper("0x" + h) == "0X" + h
  {
    var s := "0X" + h;
    var u := ToUpper("0x" + h);
    forall i | 0 <= i < |u|
      ensures u[i] == s[i]
    {
      if i >= 2 {
        assert ("0x" + h)[i] == h[i - 2] == s[i];
      }
    }
  }

  /** The `0X` prefix is skipped before the digits are read. */
  lemma ParsePrefixedHex(h: string, max: nat)
    requires |h| > 0 && AllHex(h) && HexValue(h) <= max
    ensures ParseHex("0X" + h, max) == Ok(HexValue(h))
  {
    var s := "0X" + h;
    assert s[2..] == h;
    assert s[0] == '0' && s[1] == 'X';
  }

  /** Four hexadecimal digits or fewer always fit a 16-bit word. */
  lemma {:induction false} HexValueBound(s: string)
    requires AllHex(s) && |s| <= 4
    ensures HexValue(s) < Pow16(|s|) <= 0x1_0000
    decreases |s|
  {
    if |s| > 0 {
      HexValueBound(s[..|s| - 1]);
    }
  }

  function Pow16(n: nat): nat {
    if n == 0 then 1 else 16 * Pow16(n - 1)
  }

  /** Distinct numbers print as distinct decimals. */
  lemma DecimalInjective(a: nat, b: nat)
    ensures Decimal(a) == Decimal(b) <==> a == b
  {
  }
}
