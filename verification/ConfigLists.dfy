/** Address lists and integer arrays of config.c: parsers, writers, and their round trips. */
module ConfigLists {
  import opened Collections
  import opened ConfigText
  import opened ConfigRoundTrip

  const COLON: Byte := 58
  const SLASH: Byte := 47
  const MINUS: Byte := 45
  const PLUS: Byte := 43

  type Mac = s: Text | |s| == 6 witness [0, 0, 0, 0, 0, 0]
  const ALL_ONES: Mac := [255, 255, 255, 255, 255, 255]

  /** One element of an address list */
  datatype Entry = Entry(addr: Mac, mask: Mac)

  /** isspace in the C locale */
  predicate IsSpace(c: Byte) {
    c == SPACE || 9 <= c <= 13
  }

  function SkipSpaces(s: Text): (r: Text)
    ensures |r| <= |s| && (r == [] || r[0] != SPACE)
  {
    if s == [] || s[0] != SPACE then s else SkipSpaces(s[1..])
  }

  // --- hardware addresses ----------------------------------------------------

  /** hwaddr_parse for n octets: the address and the text behind it */
  function ParseMac(txt: Text, n: nat): (r: Option<(Text, Text)>)
    ensures r.Some? ==> |r.value.0| == n
    decreases n
  {
    if n == 0 then Some(([], txt))
    else if |txt| < 2 || HexNum(txt[0]) < 0 || HexNum(txt[1]) < 0 then None
    else
      var b := HexNum(txt[0]) * 16 + HexNum(txt[1]);
      if n == 1 then Some(([b], txt[2..]))
      else if |txt| < 3 || txt[2] != COLON then None
      else
        match ParseMac(txt[3..], n - 1)
        case None => None
        case Some(p) => Some(([b] + p.0, p.1))
  }

  /** hwaddr_masked_aton */
  function ParseEntry(txt: Text, maskable: bool): Option<Entry> {
    match ParseMac(txt, 6)
    case None => None
    case Some(p) =>
      if p.1 == [] || IsSpace(p.1[0]) then Some(Entry(p.0, ALL_ONES))
      else if maskable && p.1[0] == SLASH then
        match ParseMac(p.1[1..], 6)
        case None => None
        case Some(m) => Some(Entry(p.0, m.0))
      else None
  }

  /** MACSTR */
  function WriteMac(a: Text): (r: Text)
    ensures |r| == if a == [] then 0 else 3 * |a| - 1
  {
    if a == [] then []
    else if |a| == 1 then WriteHex(a)
    else WriteHex(a[..1]) + [COLON] + WriteMac(a[1..])
  }

  /** hwaddr_mask_txt */
  function WriteEntry(e: Entry): (r: Text)
    ensures 17 <= |r| <= 35
  {
    WriteMac(e.addr) + if e.mask == ALL_ONES then [] else [SLASH] + WriteMac(e.mask)
  }

  // --- address lists ---------------------------------------------------------

  /** The loop of wpa_config_parse_addr_list: each address is put in front of those before. */
  function ParseAddresses(txt: Text, abort: bool, masked: bool, list: seq<Entry>): Option<seq<Entry>>
    decreases |txt|
  {
    if txt == [] then Some(list)
    else
      var u := SkipSpaces(txt);
      var e := ParseEntry(u, masked);
      if e.None? && (abort || list == []) then None
      else
        var more := if e.Some? then [e.value] + list else list;
        var k := IndexOf(u, SPACE);
        if k == |u| then Some(more) else ParseAddresses(u[k..], abort, masked, more)
  }

  function ParseAddrList(value: Text, abort: bool, masked: bool): Option<seq<Entry>> {
    ParseAddresses(value, abort, masked, [])
  }

  /** wpa_config_write_addr_list: from the end of the list to its start */
  function WriteAddrList(list: seq<Entry>): Text {
    if list == [] then []
    else
      var m := |list| - 1;
      WriteEntry(list[m]) + if m == 0 then [] else [SPACE] + WriteAddrList(list[..m])
  }

  lemma {:induction false} HexByte(v: Text, b: Byte)
    requires v == [b]
    ensures WriteHex(v) == [Digit(b / 16), Digit(b % 16)]
    ensures HexNum(Digit(b / 16)) * 16 + HexNum(Digit(b % 16)) == b
  {
    assert v[1..] == [];
    DigitRoundTrip(b / 16);
    DigitRoundTrip(b % 16);
  }

  lemma MacStep(b: Byte, a: Text, t: Text, rest: Text)
    requires a != [] && ParseMac(t, |a|) == Some((a, rest))
    ensures ParseMac(WriteHex([b]) + [COLON] + t, 1 + |a|) == Some(([b] + a, rest))
  {
    HexByte([b], b);
    DigitRoundTrip(b / 16);
    DigitRoundTrip(b % 16);
    hide WriteHex, Digit, HexNum;
    var txt := WriteHex([b]) + [COLON] + t;
    assert txt[0] == Digit(b / 16) && txt[1] == Digit(b % 16) && txt[2] == COLON;
    assert txt[3..] == t;
  }

  lemma MacLast(b: Byte, rest: Text)
    ensures ParseMac(WriteHex([b]) + rest, 1) == Some(([b], rest))
  {
    HexByte([b], b);
    DigitRoundTrip(b / 16);
    DigitRoundTrip(b % 16);
    assert (WriteHex([b]) + rest)[2..] == rest;
    hide WriteHex;
  }

  lemma {:induction false} MacRoundTrip(a: Text, rest: Text)
    requires a != []
    ensures ParseMac(WriteMac(a) + rest, |a|) == Some((a, rest))
  {
    hide ParseMac, WriteHex;
    assert a[..1] == [a[0]];
    if |a| == 1 {
      assert a == [a[0]];
      MacLast(a[0], rest);
    } else {
      var t := WriteMac(a[1..]) + rest;
      MacRoundTrip(a[1..], rest);
      MacStep(a[0], a[1..], t, rest);
      assert WriteMac(a) + rest == WriteHex([a[0]]) + [COLON] + t;
      assert [a[0]] + a[1..] == a;
    }
  }

  /** What may follow an address in a list */
  ghost predicate EntryEnd(rest: Text) {
    rest == [] || rest[0] == SPACE
  }

  /** Whether the parser takes the address with its mask. */
  predicate Readable(e: Entry, masked: bool) {
    masked || e.mask == ALL_ONES
  }

  /** An address is parsed from its text, unless it has a mask where none may stand. */
  lemma EntryRoundTrip(e: Entry, masked: bool, rest: Text)
    requires EntryEnd(rest)
    ensures ParseEntry(WriteEntry(e) + rest, masked) == if Readable(e, masked) then Some(e) else None
  {
    hide ParseMac, WriteMac;
    if e.mask == ALL_ONES {
      MacRoundTrip(e.addr, rest);
      assert WriteEntry(e) + rest == WriteMac(e.addr) + rest;
    } else {
      var m := [SLASH] + WriteMac(e.mask) + rest;
      MacRoundTrip(e.addr, m);
      MacRoundTrip(e.mask, rest);
      assert WriteEntry(e) + rest == WriteMac(e.addr) + m;
      assert m[1..] == WriteMac(e.mask) + rest;
    }
  }

  lemma {:induction false} MacNoSpace(a: Text)
    ensures SPACE !in WriteMac(a)
    ensures a != [] ==> WriteMac(a)[0] != SPACE
  {
    if |a| == 1 {
      HexDigits(a);
    } else if a != [] {
      HexDigits(a[..1]);
      MacNoSpace(a[1..]);
      var w := WriteHex(a[..1]);
      assert SPACE !in w;
    }
  }

  lemma EntryNoSpace(e: Entry)
    ensures SPACE !in WriteEntry(e)
  {
    MacNoSpace(e.addr);
    MacNoSpace(e.mask);
  }

  /** One turn of the loop; r is what the text at its start is parsed to. */
  lemma ParseFirst(w: Text, rest: Text, r: Option<Entry>, abort: bool, masked: bool, acc: seq<Entry>)
    requires w != [] && SPACE !in w && EntryEnd(rest) && ParseEntry(w + rest, masked) == r
    ensures ParseAddresses(w + rest, abort, masked, acc) == After(r, rest, abort, masked, acc)
  {
    hide ParseEntry;
    FirstSpace(w, rest);
    assert (w + rest)[0] == w[0];
    assert (w + rest)[|w|..] == rest;
  }

  /** What the loop makes of the rest of the text */
  function After(r: Option<Entry>, rest: Text, abort: bool, masked: bool, acc: seq<Entry>): Option<seq<Entry>> {
    if r.None? && (abort || acc == []) then None
    else
      var more := if r.Some? then [r.value] + acc else acc;
      if rest == [] then Some(more) else ParseAddresses(rest, abort, masked, more)
  }

  /** What follows the address that is written first */
  function RestOfList(list: seq<Entry>): (r: Text)
    requires list != []
    ensures r == [] || r[0] == SPACE
  {
    if |list| == 1 then [] else [SPACE] + WriteAddrList(list[..|list| - 1])
  }

  lemma WriteLast(list: seq<Entry>)
    requires list != []
    ensures WriteAddrList(list) == WriteEntry(list[|list| - 1]) + RestOfList(list) != []
  {
    hide WriteEntry;
  }

  lemma ParseLast(list: seq<Entry>, abort: bool, masked: bool, acc: seq<Entry>)
    requires list != []
    ensures var e := list[|list| - 1];
      ParseAddresses(WriteAddrList(list), abort, masked, acc)
      == After(if Readable(e, masked) then Some(e) else None,
               if |list| == 1 then [] else WriteAddrList(list[..|list| - 1]), abort, masked, acc)
  {
    var e := list[|list| - 1];
    WriteLast(list);
    EntryNoSpace(e);
    EntryRoundTrip(e, masked, RestOfList(list));
    hide ParseAddresses, WriteEntry, WriteAddrList, ParseEntry, Readable;
    var r := if Readable(e, masked) then Some(e) else None;
    ParseFirst(WriteEntry(e), RestOfList(list), r, abort, masked, acc);
    if |list| > 1 {
      WriteLast(list[..|list| - 1]);
      SkipOne(WriteAddrList(list[..|list| - 1]), abort, masked, acc);
      SkipOne(WriteAddrList(list[..|list| - 1]), abort, masked, [e] + acc);
    }
  }

  ghost predicate AllReadable(list: seq<Entry>, masked: bool) {
    forall i | 0 <= i < |list| :: Readable(list[i], masked)
  }

  /** The parser gives the whole list back, or a shorter one, or none. */
  lemma {:induction false} AddressesRoundTrip(list: seq<Entry>, abort: bool, masked: bool, acc: seq<Entry>)
    requires list != []
    ensures var r := ParseAddresses(WriteAddrList(list), abort, masked, acc);
      if AllReadable(list, masked) then r == Some(list + acc) else r.Some? ==> |r.value| < |list| + |acc|
    decreases |list|
  {
    hide ParseAddresses, WriteAddrList, Readable;
    var m := |list| - 1;
    ParseLast(list, abort, masked, acc);
    var more := if Readable(list[m], masked) then [list[m]] + acc else acc;
    assert AllReadable(list, masked) <==> AllReadable(list[..m], masked) && Readable(list[m], masked) by {
      assert list == list[..m] + [list[m]];
    }
    assert list[..m] + ([list[m]] + acc) == list + acc;
    if m > 0 {
      WriteLast(list[..m]);
      AddressesRoundTrip(list[..m], abort, masked, more);
    } else {
      assert [list[m]] + acc == list + acc;
    }
  }

  lemma FirstSpace(w: Text, rest: Text)
    requires SPACE !in w && EntryEnd(rest)
    ensures IndexOf(w + rest, SPACE) == |w|
  {
    var k := IndexOf(w + rest, SPACE);
    assert forall i | 0 <= i < |w| :: (w + rest)[i] == w[i];
    if rest != [] { assert (w + rest)[|w|] == SPACE; }
  }

  lemma SkipOne(t: Text, abort: bool, masked: bool, list: seq<Entry>)
    requires t != []
    ensures ParseAddresses([SPACE] + t, abort, masked, list) == ParseAddresses(t, abort, masked, list)
  {
    assert ([SPACE] + t)[1..] == t;
    assert SkipSpaces([SPACE] + t) == SkipSpaces(t);
  }

  /** An address list is read back in its own order, although the parser stores it back to
      front, if and only if its masks may stand there: bssid_blacklist and bssid_whitelist are
      parsed with abort and masked set, p2p_client_list with neither. */
  lemma AddrListRoundTrip(list: seq<Entry>, abort: bool, masked: bool)
    requires list != []
    ensures ParseAddrList(WriteAddrList(list), abort, masked) == Some(list) <==> AllReadable(list, masked)
  {
    AddressesRoundTrip(list, abort, masked, []);
    assert list + [] == list;
  }

  /** The text and its terminator fit the buffer of 40 octets for each address. */
  lemma {:induction false} AddrListFits(list: seq<Entry>)
    requires list != []
    ensures |WriteAddrList(list)| + 1 <= 40 * |list|
    ensures |WriteAddrList(list)| <= 36 * |list| - 1
  {
    if |list| > 1 { AddrListFits(list[..|list| - 1]); }
  }

  // --- integer arrays --------------------------------------------------------

  predicate IsDigit(c: Byte) {
    48 <= c <= 57
  }

  /** The digits at the start of the text, read behind the number n */
  function Digits(s: Text, n: nat): nat {
    if s == [] || !IsDigit(s[0]) then n else Digits(s[1..], 10 * n + (s[0] - 48))
  }

  function SkipWhite(s: Text): Text {
    if s == [] || !IsSpace(s[0]) then s else SkipWhite(s[1..])
  }

  function Atoi(s: Text): int {
    var t := SkipWhite(s);
    if t == [] then 0
    else if t[0] == MINUS then -(Digits(t[1..], 0) as int)
    else if t[0] == PLUS then Digits(t[1..], 0)
    else Digits(t, 0)
  }

  /** wpa_config_parse_int_array: the values before the terminating zero */
  function ParseInts(txt: Text): (r: seq<int>)
    ensures forall i | 0 <= i < |r| :: r[i] != 0
    decreases |txt|
  {
    var u := SkipSpaces(txt);
    var n := Atoi(u);
    if n == 0 then []
    else
      var k := IndexOf(u[1..], SPACE);
      if k == |u| - 1 then [n] else [n] + ParseInts(u[1..][k..])
  }

  /** %u */
  function WriteInt(n: nat): (r: Text)
    ensures r != [] && forall i | 0 <= i < |r| :: IsDigit(r[i])
  {
    if n < 10 then [48 + n] else WriteInt(n / 10) + [48 + n % 10]
  }

  /** The loop of wpa_config_write_freqs, in a buffer that is large enough */
  function WriteInts(s: seq<nat>): Text {
    if s == [] then []
    else if |s| == 1 then WriteInt(s[0])
    else WriteInt(s[0]) + [SPACE] + WriteInts(s[1..])
  }

  lemma {:induction false} DigitsWritten(n: nat, rest: Text)
    ensures Digits(WriteInt(n) + rest, 0) == Digits(rest, n)
  {
    if n < 10 {
      assert (WriteInt(n) + rest)[1..] == rest;
    } else {
      var t := [48 + n % 10] + rest;
      DigitsWritten(n / 10, t);
      assert WriteInt(n) + rest == WriteInt(n / 10) + t;
      assert t[1..] == rest;
    }
  }

  lemma AtoiWritten(n: nat, rest: Text)
    requires EntryEnd(rest)
    ensures Atoi(WriteInt(n) + rest) == n
  {
    DigitsWritten(n, rest);
    assert IsDigit((WriteInt(n) + rest)[0]);
  }

  lemma IntsSkipOne(t: Text)
    ensures ParseInts([SPACE] + t) == ParseInts(t)
  {
    assert ([SPACE] + t)[1..] == t;
    assert SkipSpaces([SPACE] + t) == SkipSpaces(t);
  }

  lemma ShortText(p: Text)
    requires SPACE !in p
    ensures ParseInts(p) == if Atoi(p) == 0 then [] else [Atoi(p)]
  {
    assert SkipSpaces(p) == p;
    if p != [] { assert SPACE !in p[1..]; }
  }

  lemma ParseHead(w: Text, t: Text, n: int)
    requires w != [] && SPACE !in w && n != 0 && Atoi(w + ([SPACE] + t)) == n
    ensures ParseInts(w + ([SPACE] + t)) == [n] + ParseInts([SPACE] + t)
  {
    hide Atoi;
    var rest := [SPACE] + t;
    var txt := w + rest;
    assert txt[0] == w[0] && SkipSpaces(txt) == txt;
    assert txt[1..] == w[1..] + rest;
    FirstSpace(w[1..], rest);
    assert txt[1..][|w| - 1..] == rest;
  }

  lemma ParseNumber(n: nat, t: Text)
    requires n > 0
    ensures ParseInts(WriteInt(n) + ([SPACE] + t)) == [n as int] + ParseInts(t)
  {
    AtoiWritten(n, [SPACE] + t);
    NoSpace(n);
    hide ParseInts, Atoi, WriteInt;
    ParseHead(WriteInt(n), t, n);
    IntsSkipOne(t);
  }

  lemma OneNumber(n: nat)
    requires n > 0
    ensures ParseInts(WriteInt(n)) == [n as int]
  {
    NoSpace(n);
    ShortText(WriteInt(n));
    AtoiWritten(n, []);
    assert WriteInt(n) + [] == WriteInt(n);
  }

  lemma WriteFirstInt(s: seq<nat>)
    requires |s| > 1
    ensures WriteInts(s) == WriteInt(s[0]) + ([SPACE] + WriteInts(s[1..]))
  {
    hide WriteInt;
  }

  /** A list of positive integers is read back as it was written. */
  lemma {:induction false} IntsRoundTrip(s: seq<nat>)
    requires s != [] && forall i | 0 <= i < |s| :: s[i] > 0
    ensures ParseInts(WriteInts(s)) == s
  {
    hide ParseInts, WriteInt;
    if |s| == 1 {
      OneNumber(s[0]);
    } else {
      IntsRoundTrip(s[1..]);
      WriteFirstInt(s);
      ParseNumber(s[0], WriteInts(s[1..]));
    }
  }

  lemma NoSpace(n: nat)
    ensures SPACE !in WriteInt(n)
  {
  }

  function Pow10(k: nat): (r: nat)
    ensures r >= 1
  {
    if k == 0 then 1 else 10 * Pow10(k - 1)
  }

  lemma {:induction false} WriteIntLength(n: nat, k: nat)
    requires k >= 1 && n < Pow10(k)
    ensures |WriteInt(n)| <= k
  {
    if n >= 10 {
      assert k >= 2;
      WriteIntLength(n / 10, k - 1);
    }
  }

  /** Values of at most nine digits fit the buffer of ten octets each and one more. */
  lemma {:induction false} IntsFit(s: seq<nat>)
    requires s != [] && forall i | 0 <= i < |s| :: s[i] <= 999999999
    ensures |WriteInts(s)| <= 10 * |s| - 1
  {
    assert Pow10(9) == 1000000000 by {
      assert Pow10(3) == 1000 && Pow10(6) == 1000 * Pow10(3);
    }
    WriteIntLength(s[0], 9);
    if |s| > 1 { IntsFit(s[1..]); }
  }

  /** What wpa_config_write_freqs returns: the text as far as the buffer of 10 * |s| + 1 octets
      holds it with its terminator */
  function WriteFreqs(s: seq<nat>): Text {
    var txt := WriteInts(s);
    if |txt| <= 10 * |s| then txt else txt[..10 * |s|]
  }

  lemma {:induction false} CutNumber(n: nat, p: Text)
    requires n > 0 && p != [] && |p| < |WriteInt(n)| && p == WriteInt(n)[..|p|]
    ensures Digits(p, 0) < n && Atoi(p) < n
  {
    var w := WriteInt(n / 10);
    assert p == w[..|p|];
    if |p| == |w| {
      DigitsWritten(n / 10, []);
      assert w + [] == w == p;
    } else {
      CutNumber(n / 10, p);
    }
    assert IsDigit(p[0]);
  }

  lemma CutInFirst(s: seq<nat>, t: Text)
    requires s != [] && s[0] > 0 && |t| <= |WriteInt(s[0])| && t == WriteInt(s[0])[..|t|]
    requires |s| == 1 ==> |t| < |WriteInt(s[0])|
    ensures ParseInts(t) != s
  {
    NoSpace(s[0]);
    ShortText(t);
    if |s| == 1 && t != [] { CutNumber(s[0], t); }
  }

  /** A text that was cut anywhere does not give the list back. */
  lemma {:induction false} CutListLost(s: seq<nat>, t: Text)
    requires s != [] && forall i | 0 <= i < |s| :: s[i] > 0
    requires |t| < |WriteInts(s)| && t == WriteInts(s)[..|t|]
    ensures ParseInts(t) != s
  {
    hide ParseInts, WriteInt;
    var w := WriteInt(s[0]);
    if |t| <= |w| {
      assert t == w[..|t|];
      CutInFirst(s, t);
    } else {
      var u := t[|w| + 1..];
      var r := WriteInts(s[1..]);
      assert WriteInts(s) == w + ([SPACE] + r);
      assert t == w + ([SPACE] + u) && u == r[..|u|];
      ParseNumber(s[0], u);
      CutListLost(s[1..], u);
      assert ParseInts(t)[1..] == ParseInts(u);
    }
  }

  /** A list of frequencies survives being written and read exactly when its text fits in ten
      octets for each of them. */
  lemma FreqsRoundTripIff(s: seq<nat>)
    requires s != [] && forall i | 0 <= i < |s| :: s[i] > 0
    ensures ParseInts(WriteFreqs(s)) == s <==> |WriteInts(s)| <= 10 * |s|
  {
    IntsRoundTrip(s);
    if |WriteInts(s)| > 10 * |s| { CutListLost(s, WriteInts(s)[..10 * |s|]); }
  }

  /** So do all lists of frequencies from 1 to 999999999. */
  lemma FreqsRoundTrip(s: seq<nat>)
    requires s != [] && forall i | 0 <= i < |s| :: 1 <= s[i] <= 999999999
    ensures ParseInts(WriteFreqs(s)) == s
  {
    IntsFit(s);
    FreqsRoundTripIff(s);
  }

  /** Two frequencies of ten digits do not come back: the text and its separator need an octet
      more than the buffer has. */
  lemma FreqsLost()
    ensures ParseInts(WriteFreqs([1000000000, 1000000000])) != [1000000000, 1000000000]
  {
    var s: seq<nat> := [1000000000, 1000000000];
    TenDigits(1000000000);
    hide WriteInt, ParseInts;
    assert s[1..] == [1000000000];
    assert |WriteInts(s)| == 21;
    FreqsRoundTripIff(s);
  }

  lemma TenDigits(n: nat)
    requires 1000000000 <= n < 10000000000
    ensures |WriteInt(n)| == 10
  {
    LongNumber(n, 9);
    assert Pow10(10) == 10000000000 && Pow10(9) == 1000000000 by {
      assert Pow10(3) == 1000 && Pow10(6) == 1000 * Pow10(3) && Pow10(9) == 1000 * Pow10(6);
    }
    WriteIntLength(n, 10);
  }

  lemma {:induction false} LongNumber(n: nat, k: nat)
    requires n >= Pow10(k)
    ensures |WriteInt(n)| >= k + 1
  {
    if k > 0 { LongNumber(n / 10, k - 1); }
  }
}
