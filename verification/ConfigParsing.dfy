/** What the parsers of strings and keys accept, octet by octet, and when the writer chooses digits. */
module ConfigParsing {
  import opened Collections
  import opened ConfigText
  import opened ConfigRoundTrip

  // --- hexadecimal digits ----------------------------------------------------

  const LOWER: Text := [48, 49, 50, 51, 52, 53, 54, 55, 56, 57, 97, 98, 99, 100, 101, 102]
  const UPPER: Text := [48, 49, 50, 51, 52, 53, 54, 55, 56, 57, 65, 66, 67, 68, 69, 70]

  /** c is the n-th digit, in either case. */
  predicate HexDigit(c: Byte, n: nat) {
    n < 16 && (c == LOWER[n] || c == UPPER[n])
  }

  lemma DigitIff(c: Byte, n: nat)
    ensures HexNum(c) == n <==> HexDigit(c, n)
  {
    if n < 10 {
      assert LOWER[n] == UPPER[n] == 48 + n;
    } else if n < 16 {
      assert LOWER[n] == 87 + n && UPPER[n] == 55 + n;
    }
  }

  /** Two digits of s make each octet of v. */
  ghost predicate DigitsOf(s: Text, v: Text) {
    |s| >= 2 * |v| && forall i | 0 <= i < |v| :: HexDigit(s[2 * i], v[i] / 16) && HexDigit(s[2 * i + 1], v[i] % 16)
  }

  lemma HexNext(s: Text, n: nat)
    requires |s| >= 2 && HexNum(s[0]) >= 0 && HexNum(s[1]) >= 0
    ensures var r := ParseHex(s[2..], n);
      ParseHex(s, n + 1) == if r.None? then None else Some([HexNum(s[0]) * 16 + HexNum(s[1])] + r.value)
  {
    hide HexNum;
  }

  lemma HexFirst(s: Text, v: Text)
    requires v != []
    ensures ParseHex(s, |v|) == Some(v) <==>
      |s| >= 2 && HexNum(s[0]) == v[0] / 16 && HexNum(s[1]) == v[0] % 16 && ParseHex(s[2..], |v| - 1) == Some(v[1..])
  {
    if |s| >= 2 && HexNum(s[0]) >= 0 && HexNum(s[1]) >= 0 {
      var a, b, r := HexNum(s[0]), HexNum(s[1]), ParseHex(s[2..], |v| - 1);
      HexNext(s, |v| - 1);
      hide ParseHex, HexNum;
      if r.Some? {
        TwoDigits(v[0], a, b);
        FirstAndRest(v, a * 16 + b, r.value);
      }
    } else {
      hide HexNum;
    }
  }

  /** Digits in either case are parsed, and they only; what stands behind them does not matter. */
  lemma {:induction false} HexParsedIff(s: Text, v: Text)
    ensures ParseHex(s, |v|) == Some(v) <==> DigitsOf(s, v)
    decreases |v|
  {
    if v != [] {
      hide ParseHex, HexNum, HexDigit, DigitsOf;
      HexFirst(s, v);
      DigitsShift(s, v);
      if |s| >= 2 {
        HexParsedIff(s[2..], v[1..]);
        DigitIff(s[0], v[0] / 16);
        DigitIff(s[1], v[0] % 16);
      }
    }
  }

  lemma TwoDigits(x: Byte, a: nat, b: nat)
    requires a < 16 && b < 16
    ensures x == a * 16 + b <==> a == x / 16 && b == x % 16
  {
  }

  lemma FirstAndRest(v: Text, x: Byte, r: Text)
    requires v != []
    ensures [x] + r == v <==> x == v[0] && r == v[1..]
  {
    assert v == [v[0]] + v[1..];
    assert ([x] + r)[0] == x && ([x] + r)[1..] == r;
  }

  lemma DigitsShift(s: Text, v: Text)
    requires v != []
    ensures DigitsOf(s, v) <==>
      |s| >= 2 && HexDigit(s[0], v[0] / 16) && HexDigit(s[1], v[0] % 16) && DigitsOf(s[2..], v[1..])
  {
    hide HexDigit;
    if |s| >= 2 * |v| {
      var t, w := s[2..], v[1..];
      if DigitsOf(t, w) && HexDigit(s[0], v[0] / 16) && HexDigit(s[1], v[0] % 16) {
        forall i | 0 <= i < |v| ensures HexDigit(s[2 * i], v[i] / 16) && HexDigit(s[2 * i + 1], v[i] % 16) {
          if i > 0 { assert w[i - 1] == v[i] && t[2 * (i - 1)] == s[2 * i] && t[2 * (i - 1) + 1] == s[2 * i + 1]; }
        }
      }
      if DigitsOf(s, v) {
        forall i | 0 <= i < |w| ensures HexDigit(t[2 * i], w[i] / 16) && HexDigit(t[2 * i + 1], w[i] % 16) {
          assert w[i] == v[i + 1] && t[2 * i] == s[2 * (i + 1)] && t[2 * i + 1] == s[2 * (i + 1) + 1];
        }
      }
    }
  }

  // --- strings ---------------------------------------------------------------

  /** A string is written between quotes if and only if all of it can be printed. */
  lemma QuotedIff(v: Text)
    ensures if exists i :: 0 <= i < |v| && (v[i] < 32 || v[i] > 126)
            then DigitsOf(WriteString(v), v) && |WriteString(v)| == 2 * |v|
            else WriteString(v) == [34] + v + [34]
  {
    if IsHex(v) {
      HexRoundTrip(v);
      HexParsedIff(WriteHex(v), v);
    }
  }

  /** A text that starts neither with a quote nor with P and a quote is parsed as the octets that its
      digits make, if it consists of just these; otherwise it is invalid. */
  lemma HexStringIff(s: Text, v: Text)
    requires s == [] || (s[0] != 34 && (s[0] == 80 && |s| > 1 ==> s[1] != 34))
    ensures ParseString(s) == Bytes(v) <==> |s| == 2 * |v| && DigitsOf(s, v)
    ensures ParseString(s).Bytes? || ParseString(s).Invalid?
  {
    if |s| % 2 == 0 {
      var r := ParseHex(s, |s| / 2);
      if r.Some? { HexParsedIff(s, r.value); }
      HexParsedIff(s, v);
    }
    hide DigitsOf;
  }

  /** A text that starts with a quote is parsed if and only if its last quote is another one and ends
      it; it is the text between these two. */
  lemma QuotedStringIff(s: Text, v: Text)
    requires s != [] && s[0] == 34
    ensures ParseString(s) == Bytes(v) <==> s == [34] + v + [34]
    ensures ParseString(s).Bytes? || ParseString(s).Invalid?
  {
    var t := s[1..];
    var k := LastIndexOf(t, QUOTE);
    if k + 1 == |t| {
      assert t == t[..k] + [QUOTE];
      assert s == [34] + t[..k] + [34];
    }
    if s == [34] + v + [34] {
      assert t == v + [34];
      LastQuote(v);
      assert t[..k] == v;
    }
  }

  /** Behind P and a quote stands, up to a last quote that ends it, a text with escapes. */
  lemma EscapedStringIff(s: Text, v: Text)
    requires |s| >= 2 && s[0] == 80 && s[1] == 34
    ensures ParseString(s) == Escaped(v) <==> s == [80, 34] + v + [34]
    ensures ParseString(s).Escaped? || ParseString(s).Invalid?
  {
    var t := s[2..];
    var k := LastIndexOf(t, QUOTE);
    if k + 1 == |t| {
      assert t == t[..k] + [QUOTE];
      assert s == [80, 34] + t[..k] + [34];
    }
    if s == [80, 34] + v + [34] {
      assert t == v + [34];
      LastQuote(v);
      assert t[..k] == v;
    }
  }

  /** Where there are limits, the length must keep to them. */
  lemma LengthIff(s: Text, v: Text, min: nat, max: nat)
    requires ParseString(s) == Bytes(v) && s != [78, 85, 76, 76]
    ensures ParseStr(s, Limits(min, max)) == Set(v) <==> (min > 0 ==> |v| >= min) && (max > 0 ==> |v| <= max)
    ensures ParseStr(s, Limits(min, max)) == Set(v) || ParseStr(s, Limits(min, max)) == Rejected
  {
    hide ParseString;
  }

  // --- keys ------------------------------------------------------------------

  /** A passphrase is accepted if and only if it has 8 to 63 characters, none of which is a control
      character; what stands behind its last quote does not matter. */
  lemma PassphraseIff(t: Text, tail: Text)
    requires 34 !in tail
    ensures ParsePsk([34] + t + [34] + tail) ==
      if 8 <= |t| <= 63 && forall i | 0 <= i < |t| :: t[i] >= 32 && t[i] != 127 then Some(Passphrase(t)) else None
  {
    var s := [34] + t + [34] + tail;
    var v := s[1..];
    assert v == t + [QUOTE] + tail;
    LastBehind(t, QUOTE, tail);
    assert v[..|t|] == t;
    hide LastIndexOf;
  }

  /** A key is accepted if and only if it has 64 digits. */
  lemma KeyIff(s: Text, p: Text)
    requires s == [] || s[0] != 34
    ensures ParsePsk(s) == Some(Psk(p)) <==> |s| == 64 && |p| == 32 && DigitsOf(s, p)
  {
    var r := ParseHex(s, 32);
    if r.Some? { HexParsedIff(s, r.value); }
    if |p| == 32 { HexParsedIff(s, p); }
    hide DigitsOf, ParseHex;
  }
}
