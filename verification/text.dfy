/**
 * String helpers shared by the client and the server model: decimal
 * rendering of counters, left padding, substring search and the two
 * whitespace-trimming operations (ECMAScript `trim` and Python `strip`).
 */
module Text {

  // ---------------------------------------------------------------------
  // Decimal numerals
  // ---------------------------------------------------------------------

  predicate IsDigit(c: char) {
    '0' <= c <= '9'
  }

  predicate IsDigits(s: string) {
    forall i :: 0 <= i < |s| ==> IsDigit(s[i])
  }

  function DigitChar(d: nat): (c: char)
    requires d < 10
    ensures IsDigit(c) && c as int - '0' as int == d
  {
    ('0' as int + d) as char
  }

  function DigitValue(c: char): nat
    requires IsDigit(c)
  {
    c as int - '0' as int
  }

  /** The shortest decimal numeral of `n`, as JavaScript's `toString()` and Python's `str` write it. */
  function DecimalString(n: nat): (s: string)
    ensures 1 <= |s| && IsDigits(s)
    decreases n
  {
    if n < 10 then [DigitChar(n)] else DecimalString(n / 10) + [DigitChar(n % 10)]
  }

  /** The numeral has no leading zero: it starts with '0' only for zero. */
  lemma {:induction false} DecimalStringLeadingDigit(n: nat)
    ensures DecimalString(n)[0] == '0' <==> n == 0
    decreases n
  {
    if n >= 10 {
      var s := DecimalString(n);
      assert s[0] == DecimalString(n / 10)[0];
      DecimalStringLeadingDigit(n / 10);
    }
  }

  /** One digit exactly below 10, at most two exactly below 100. */
  lemma {:induction false} DecimalStringLength(n: nat)
    ensures |DecimalString(n)| == 1 <==> n < 10
    ensures |DecimalString(n)| <= 2 <==> n < 100
    decreases n
  {
    if n >= 10 {
      DecimalStringLength(n / 10);
    }
  }

  /** The number a string of decimal digits denotes (leading zeros allowed). */
  function DecimalValue(s: string): nat
    requires IsDigits(s)
    decreases |s|
  {
    if s == [] then 0 else 10 * DecimalValue(s[..|s| - 1]) + DigitValue(s[|s| - 1])
  }

  lemma {:induction false} DecimalRoundTrip(n: nat)
    ensures DecimalValue(DecimalString(n)) == n
    decreases n
  {
    if n >= 10 {
      var s := DecimalString(n);
      assert s[..|s| - 1] == DecimalString(n / 10);
      DecimalRoundTrip(n / 10);
    }
  }

  lemma {:induction false} LeadingZerosValue(k: nat, s: string)
    requires IsDigits(s)
    ensures IsDigits(seq(k, _ => '0') + s)
    ensures DecimalValue(seq(k, _ => '0') + s) == DecimalValue(s)
    decreases |s|
  {
    var z := seq(k, _ => '0');
    var t := z + s;
    assert IsDigits(t) by {
      forall i | 0 <= i < |t| ensures IsDigit(t[i]) {
        if i < k { assert t[i] == z[i]; } else { assert t[i] == s[i - k]; }
      }
    }
    if s == [] {
      assert t == z;
      ZerosValue(k);
    } else {
      assert t[..|t| - 1] == z + s[..|s| - 1];
      LeadingZerosValue(k, s[..|s| - 1]);
    }
  }

  lemma {:induction false} ZerosValue(k: nat)
    ensures IsDigits(seq(k, _ => '0'))
    ensures DecimalValue(seq(k, _ => '0')) == 0
  {
    if k > 0 {
      var z := seq(k, _ => '0');
      assert z[..k - 1] == seq(k - 1, _ => '0');
      ZerosValue(k - 1);
    }
  }

  /** `s.padStart(2, "0")`: at least two characters, padded on the left with zeros. */
  function PadTwo(s: string): (r: string)
    ensures |r| == if |s| >= 2 then |s| else 2
    ensures r[|r| - |s|..] == s
    ensures forall i :: 0 <= i < |r| - |s| ==> r[i] == '0'
  {
    if |s| >= 2 then s else seq(2 - |s|, _ => '0') + s
  }

  lemma PadTwoValue(s: string)
    requires IsDigits(s)
    ensures IsDigits(PadTwo(s)) && DecimalValue(PadTwo(s)) == DecimalValue(s)
  {
    if |s| < 2 {
      LeadingZerosValue(2 - |s|, s);
    }
  }

  // ---------------------------------------------------------------------
  // Substring search
  // ---------------------------------------------------------------------

  /** `sub` occurs in `s` starting at index `i`. */
  predicate OccursAt(s: string, sub: string, i: nat) {
    i + |sub| <= |s| && s[i..i + |sub|] == sub
  }

  /** ECMAScript `s.includes(sub)` / Python `sub in s`: some occurrence exists. */
  predicate Contains(s: string, sub: string) {
    exists i: nat | i <= |s| :: OccursAt(s, sub, i)
  }

  // ---------------------------------------------------------------------
  // Whitespace trimming
  // ---------------------------------------------------------------------

  /** Which language's definition of whitespace a trim uses. */
  datatype Whitespace =
    | EcmaScript  // String.prototype.trim: WhiteSpace and LineTerminator code points
    | Python      // str.strip(): code points for which str.isspace() holds

  predicate IsSpace(ws: Whitespace, c: char) {
    || c == '\t' || c == '\n' || c == '\U{B}' || c == '\U{C}' || c == '\r' || c == ' '
    || c == '\U{A0}' || c == '\U{1680}' || ('\U{2000}' <= c <= '\U{200A}')
    || c == '\U{2028}' || c == '\U{2029}' || c == '\U{202F}' || c == '\U{205F}' || c == '\U{3000}'
    || (ws == EcmaScript && c == '\U{FEFF}')
    || (ws == Python && (('\U{1C}' <= c <= '\U{1F}') || c == '\U{85}'))
  }

  /** How many whitespace characters `s` starts with. */
  function LeadingSpaces(ws: Whitespace, s: string): (n: nat)
    ensures n <= |s|
    ensures forall i :: 0 <= i < n ==> IsSpace(ws, s[i])
    ensures n < |s| ==> !IsSpace(ws, s[n])
    decreases |s|
  {
    if s != [] && IsSpace(ws, s[0]) then 1 + LeadingSpaces(ws, s[1..]) else 0
  }

  /** How many whitespace characters `s` ends with. */
  function TrailingSpaces(ws: Whitespace, s: string): (n: nat)
    ensures n <= |s|
    ensures forall i :: |s| - n <= i < |s| ==> IsSpace(ws, s[i])
    ensures n < |s| ==> !IsSpace(ws, s[|s| - n - 1])
    decreases |s|
  {
    if s != [] && IsSpace(ws, s[|s| - 1]) then 1 + TrailingSpaces(ws, s[..|s| - 1]) else 0
  }

  /**
   * ECMAScript `s.trim()` or Python `s.strip()`: the leading whitespace is
   * dropped, then the trailing whitespace of what remains.
   */
  function Trim(ws: Whitespace, s: string): string
  {
    var k := LeadingSpaces(ws, s);
    s[k..|s| - TrailingSpaces(ws, s[k..])]
  }

  /**
   * What a trim keeps: a contiguous piece of `s` that neither starts nor ends
   * with whitespace, and everything cut away on either side is whitespace.
   */
  lemma {:induction false} TrimKeepsMiddle(ws: Whitespace, s: string)
    ensures var r := Trim(ws, s);
      var k := LeadingSpaces(ws, s);
      && k + |r| <= |s| && r == s[k..k + |r|]
      && (forall i :: 0 <= i < k ==> IsSpace(ws, s[i]))
      && (forall i :: k + |r| <= i < |s| ==> IsSpace(ws, s[i]))
      && (r != [] ==> !IsSpace(ws, r[0]) && !IsSpace(ws, r[|r| - 1]))
  {
    TrimCutsTail(ws, s);
    TrimEdges(ws, s);
  }

  lemma {:induction false} TrimCutsTail(ws: Whitespace, s: string)
    ensures var k := LeadingSpaces(ws, s);
      forall i :: k + |Trim(ws, s)| <= i < |s| ==> IsSpace(ws, s[i])
  {
    var k := LeadingSpaces(ws, s);
    var rest := s[k..];
    forall i | k + |Trim(ws, s)| <= i < |s| ensures IsSpace(ws, s[i]) {
      assert s[i] == rest[i - k];
    }
  }

  lemma {:induction false} TrimEdges(ws: Whitespace, s: string)
    ensures var r := Trim(ws, s);
      r != [] ==> !IsSpace(ws, r[0]) && !IsSpace(ws, r[|r| - 1])
  {
    var k := LeadingSpaces(ws, s);
    var rest := s[k..];
    var t := TrailingSpaces(ws, rest);
    var r := Trim(ws, s);
    if r != [] {
      assert r[0] == s[k] && r[|r| - 1] == rest[|rest| - t - 1];
    }
  }

  /** A string without whitespace at either end is its own trim. */
  lemma TrimClean(ws: Whitespace, s: string)
    requires s != [] ==> !IsSpace(ws, s[0]) && !IsSpace(ws, s[|s| - 1])
    ensures Trim(ws, s) == s
  {
    assert LeadingSpaces(ws, s) == 0;
    assert s[0..] == s;
  }

  /** A string made only of whitespace trims to the empty string. */
  lemma TrimBlank(ws: Whitespace, s: string)
    requires forall i :: 0 <= i < |s| ==> IsSpace(ws, s[i])
    ensures Trim(ws, s) == []
  {
    assert LeadingSpaces(ws, s) == |s|;
  }

  /** Trimming keeps the full length exactly when neither end is whitespace. */
  lemma TrimFullLength(ws: Whitespace, s: string)
    ensures |Trim(ws, s)| == |s| <==> (s != [] ==> !IsSpace(ws, s[0]) && !IsSpace(ws, s[|s| - 1]))
  {
    var k := LeadingSpaces(ws, s);
    var rest := s[k..];
    if s != [] && !IsSpace(ws, s[0]) && !IsSpace(ws, s[|s| - 1]) {
      TrimClean(ws, s);
    }
  }
}
