/** The loops behind the values of ConfigText and ConfigLists: buffers filled, arrays grown. */
module ConfigValues {
  import opened Collections
  import opened ConfigText
  import opened ConfigLists

  /** is_hex */
  method CheckHex(data: Text) returns (r: bool)
    ensures r == IsHex(data)
  {
    for i := 0 to |data|
      invariant forall j | 0 <= j < i :: 32 <= data[j] < 127
    {
      if data[i] < 32 || data[i] >= 127 { return true; }
    }
    return false;
  }

  lemma {:induction false} WriteHexNext(v: Text, i: nat)
    requires i < |v|
    ensures WriteHex(v[..i + 1]) == WriteHex(v[..i]) + [Digit(v[i] / 16), Digit(v[i] % 16)]
  {
    if i == 0 {
      assert v[..1] == [v[0]] && v[..0] == [] && v[..1][1..] == [];
    } else {
      WriteHexNext(v[1..], i - 1);
      assert v[..i + 1][1..] == v[1..][..i] && v[..i][1..] == v[1..][..i - 1];
    }
  }

  /** wpa_snprintf_hex into a buffer of 2 * len + 1 octets */
  method FillHex(data: Text) returns (buf: array<Byte>)
    ensures fresh(buf) && buf.Length == 2 * |data| + 1
    ensures buf[..] == WriteHex(data) + [0]
  {
    buf := new Byte[2 * |data| + 1](_ => 0);
    var i := 0;
    while i < |data|
      invariant i <= |data| && fresh(buf) && buf.Length == 2 * |data| + 1
      invariant buf[..2 * i] == WriteHex(data[..i])
      invariant buf[2 * |data|] == 0
    {
      WriteHexNext(data, i);
      ghost var before := buf[..2 * i];
      buf[2 * i] := Digit(data[i] / 16);
      buf[2 * i + 1] := Digit(data[i] % 16);
      assert buf[..2 * i] == before;
      assert buf[..2 * (i + 1)] == buf[..2 * i] + [buf[2 * i], buf[2 * i + 1]];
      i := i + 1;
    }
    assert data[..i] == data;
    assert buf[..] == buf[..2 * i] + [buf[2 * i]];
  }

  /** wpa_config_write_string_ascii into a buffer of len + 3 octets */
  method FillQuoted(data: Text) returns (buf: array<Byte>)
    ensures fresh(buf) && buf[..] == Quoted(data) + [0]
  {
    buf := new Byte[|data| + 3](_ => 0);
    buf[0] := QUOTE;
    var i := 0;
    while i < |data|
      invariant i <= |data| && fresh(buf) && buf.Length == |data| + 3
      invariant buf[..i + 1] == [QUOTE] + data[..i]
    {
      ghost var before := buf[..i + 1];
      buf[i + 1] := data[i];
      assert buf[..i + 1] == before && buf[..i + 2] == before + [data[i]];
      i := i + 1;
    }
    buf[|data| + 1] := QUOTE;
    buf[|data| + 2] := 0;
    assert data[..i] == data;
    assert buf[..] == buf[..|data| + 1] + [QUOTE, 0];
  }

  function Behind(head: Text, r: Option<Text>): Option<Text> {
    match r
    case None => None
    case Some(t) => Some(head + t)
  }

  lemma BehindNothing(r: Option<Text>)
    ensures Behind([], r) == r
  {
    if r.Some? { assert [] + r.value == r.value; }
  }

  lemma HexNext(hex: Text, i: nat, len: nat, opos: Text)
    requires i < len && 2 * i <= |hex|
    ensures var now := Behind(opos, ParseHex(hex[2 * i..], len - i));
      if |hex| < 2 * i + 2 || HexNum(hex[2 * i]) < 0 || HexNum(hex[2 * i + 1]) < 0 then now == None
      else now == Behind(opos + [16 * HexNum(hex[2 * i]) + HexNum(hex[2 * i + 1])],
                         ParseHex(hex[2 * i + 2..], len - i - 1))
  {
    if |hex| >= 2 * i + 2 {
      assert hex[2 * i..][2..] == hex[2 * i + 2..];
      var rest := ParseHex(hex[2 * i + 2..], len - i - 1);
      var b := 16 * HexNum(hex[2 * i]) + HexNum(hex[2 * i + 1]);
      if rest.Some? { assert opos + ([b] + rest.value) == opos + [b] + rest.value; }
    }
  }

  /** hexstr2bin */
  method HexToBin(hex: Text, len: nat) returns (r: Option<Text>)
    ensures r == ParseHex(hex, len)
  {
    var opos: Text := [];
    var i: nat := 0;
    assert hex[0..] == hex;
    BehindNothing(ParseHex(hex, len));
    while i < len
      invariant i <= len && 2 * i <= |hex|
      invariant ParseHex(hex, len) == Behind(opos, ParseHex(hex[2 * i..], len - i))
    {
      hide ParseHex;
      HexNext(hex, i, len, opos);
      if |hex| < 2 * i + 2 { return None; }
      var a, b := HexNum(hex[2 * i]), HexNum(hex[2 * i + 1]);
      if a < 0 || b < 0 { return None; }
      opos := opos + [16 * a + b];
      i := i + 1;
    }
    assert opos + [] == opos;
    return Some(opos);
  }

  // --- address lists ---------------------------------------------------------

  /** wpa_config_parse_addr_list */
  method ReadAddrList(value: Text, abort: bool, masked: bool) returns (r: Option<seq<Entry>>)
    ensures r == ParseAddrList(value, abort, masked)
  {
    var list: seq<Entry> := [];
    var pos := value;
    while pos != []
      invariant ParseAddresses(pos, abort, masked, list) == ParseAddrList(value, abort, masked)
      decreases |pos|
    {
      hide ParseEntry;
      ghost var start := pos;
      pos := PastSpaces(pos);
      var e := ParseEntry(pos, masked);
      if e.None? {
        if abort || list == [] { return None; }
      } else {
        list := [e.value] + list;
      }
      var k := IndexOf(pos, SPACE);
      if k == |pos| { return Some(list); }
      assert k > 0;
      pos := pos[k..];
    }
    return Some(list);
  }

  method PastSpaces(txt: Text) returns (r: Text)
    ensures r == SkipSpaces(txt)
  {
    r := txt;
    while r != [] && r[0] == SPACE
      invariant SkipSpaces(r) == SkipSpaces(txt)
      decreases |r|
    {
      r := r[1..];
    }
  }

  /** What is still to be written when the first i elements are left */
  function Unprinted(list: seq<Entry>, i: nat): Text
    requires i <= |list|
  {
    if i == 0 then []
    else (if i < |list| then [SPACE] else []) + WriteAddrList(list[..i])
  }

  lemma UnprintedNext(list: seq<Entry>, i: nat)
    requires 0 < i <= |list|
    ensures Unprinted(list, i)
         == (if i < |list| then [SPACE] else []) + (WriteEntry(list[i - 1]) + Unprinted(list, i - 1))
  {
    assert list[..i][..i - 1] == list[..i - 1];
    hide WriteEntry;
  }

  /** value is what the elements from i on make of all. */
  ghost predicate Ahead(list: seq<Entry>, i: nat, value: Text, all: Text) {
    i <= |list| && value + Unprinted(list, i) == all
  }

  lemma FromNothing(a: Text)
    ensures [] + a == a
  {
  }

  lemma UnprintedAll(list: seq<Entry>)
    requires list != []
    ensures Unprinted(list, |list|) == WriteAddrList(list)
  {
    hide WriteAddrList;
    assert list[..|list|] == list;
    FromNothing(WriteAddrList(list));
  }

  lemma AheadOfAll(list: seq<Entry>)
    requires list != []
    ensures Ahead(list, |list|, [], WriteAddrList(list))
  {
    hide WriteAddrList, Unprinted;
    UnprintedAll(list);
    FromNothing(WriteAddrList(list));
  }

  lemma AheadOfNone(list: seq<Entry>, value: Text, all: Text)
    requires Ahead(list, 0, value, all)
    ensures value == all
  {
    assert value + [] == value;
  }

  lemma Regroup(a: Text, b: Text, c: Text, d: Text)
    ensures a + (b + (c + d)) == (a + b) + c + d
  {
  }

  lemma PrintStep(list: seq<Entry>, i: nat, value: Text)
    requires 0 < i <= |list|
    ensures value + Unprinted(list, i)
         == value + (if i < |list| then [SPACE] else []) + WriteEntry(list[i - 1]) + Unprinted(list, i - 1)
  {
    UnprintedNext(list, i);
    hide Unprinted, WriteEntry;
    Regroup(value, if i < |list| then [SPACE] else [], WriteEntry(list[i - 1]), Unprinted(list, i - 1));
  }

  lemma RoomLeft(n: nat, i: nat, value: nat, sep: nat, res: nat)
    requires 0 < i <= n && value <= 36 * (n - i) && sep <= 1 && res <= 35
    ensures value + sep + res < 40 * n && value + sep + res <= 36 * (n - (i - 1))
  {
  }

  /** One turn of the loop below */
  method PrintEntry(list: seq<Entry>, i: nat, value: Text, ghost all: Text) returns (r: Text)
    requires 0 < i && Ahead(list, i, value, all) && |value| <= 36 * (|list| - i)
    ensures Ahead(list, i - 1, r, all) && |r| <= 36 * (|list| - (i - 1))
  {
    PrintStep(list, i, value);
    hide Unprinted, WriteEntry;
    var sep: Text := if i < |list| then [SPACE] else [];
    var res: Text := WriteEntry(list[i - 1]);
    RoomLeft(|list|, i, |value|, |sep|, |res|);
    assert |value + sep| + |res| < 40 * |list|;
    r := value + sep + res;
  }

  /** wpa_config_write_addr_list: list[num - 1] comes first. The buffer of 40 * num octets is
      never full, so that hwaddr_mask_txt always succeeds. */
  method PrintAddrList(list: seq<Entry>) returns (value: Text)
    requires list != []
    ensures value == WriteAddrList(list)
  {
    hide Ahead, Unprinted, WriteAddrList, WriteEntry, WriteMac;
    AheadOfAll(list);
    value := [];
    var i: nat := |list|;
    ghost var all := WriteAddrList(list);
    while i > 0
      invariant i <= |list| && |value| <= 36 * (|list| - i)
      invariant Ahead(list, i, value, all)
    {
      value := PrintEntry(list, i, value, all);
      i := i - 1;
    }
    AheadOfNone(list, value, all);
  }

  // --- integer arrays --------------------------------------------------------

  /** The array of the parser: the values read so far, then zeros to its end. */
  ghost predicate Filled(freqs: array<int>, used: nat, len: nat)
    reads freqs
  {
    used <= len && freqs.Length == len + 1 && forall i | used <= i <= len :: freqs[i] == 0
  }

  /** os_realloc_array to twice the length, and the loop that clears the new cells */
  method Double(freqs: array<int>, len: nat) returns (n: array<int>)
    requires len > 0 && Filled(freqs, len, len)
    ensures fresh(n) && Filled(n, len, 2 * len) && n[..len] == freqs[..len]
  {
    n := new int[len * 2 + 1](i requires 0 <= i reads freqs => if i < freqs.Length then freqs[i] else 1);
    assert n[..len] == freqs[..len];
    var i := len;
    while i <= len * 2
      invariant len <= i <= len * 2 + 1 && n[..len] == freqs[..len]
      invariant forall k | len <= k < i :: n[k] == 0
    {
      n[i] := 0;
      i := i + 1;
    }
  }

  method Store(freqs: array<int>, used: nat, ghost len: nat, n: int)
    requires Filled(freqs, used, len) && used < len
    modifies freqs
    ensures freqs[..used] == old(freqs[..used])
    ensures if n == 0 then Filled(freqs, used, len)
            else Filled(freqs, used + 1, len) && freqs[..used + 1] == old(freqs[..used]) + [n]
  {
    ghost var before := freqs[..used];
    freqs[used] := n;
    assert freqs[..used] == before;
  }

  /** wpa_config_parse_int_array: the array it returns is terminated by a zero, and every cell
      behind the values is one. */
  method ReadIntArray(value: Text) returns (freqs: array<int>, used: nat)
    ensures fresh(freqs) && used < freqs.Length && freqs[..used] == ParseInts(value)
    ensures forall i | used <= i < freqs.Length :: freqs[i] == 0
  {
    var len: nat := 10;
    used := 0;
    freqs := new int[len + 1](_ => 0);
    var pos := value;
    assert [] + ParseInts(value) == ParseInts(value);
    hide ParseInts, Atoi, SkipSpaces;
    while true
      invariant fresh(freqs) && Filled(freqs, used, len) && len >= 10
      invariant freqs[..used] + ParseInts(pos) == ParseInts(value)
      decreases |pos|
    {
      pos := NextNumber(pos);
      if used == len {
        freqs := Double(freqs, len);
        len := len * 2;
      }
      var n := Atoi(pos);
      ParseStep(pos, n, freqs[..used]);
      Store(freqs, used, len, n);
      if n == 0 { break; }
      used := used + 1;
      var k := IndexOf(pos[1..], SPACE);
      if k == |pos| - 1 { break; }
      pos := pos[1..][k..];
    }
  }

  lemma ParseStep(pos: Text, n: int, done: seq<int>)
    requires n == Atoi(pos) && SkipSpaces(pos) == pos && (n != 0 ==> pos != [])
    ensures if n == 0 then done + ParseInts(pos) == done
      else var k := IndexOf(pos[1..], SPACE);
        done + ParseInts(pos) == if k == |pos| - 1 then done + [n] else done + [n] + ParseInts(pos[1..][k..])
  {
  }

  lemma SkippedOnce(s: Text)
    ensures SkipSpaces(SkipSpaces(s)) == SkipSpaces(s)
  {
  }

  method NextNumber(txt: Text) returns (r: Text)
    ensures |r| <= |txt| && SkipSpaces(r) == r
    ensures ParseInts(r) == ParseInts(txt)
    ensures Atoi(r) != 0 ==> r != []
  {
    r := PastSpaces(txt);
    SkippedOnce(txt);
  }

  lemma {:induction false} IntsSplit(s: seq<nat>, i: nat)
    requires 0 < i < |s|
    ensures WriteInts(s) == WriteInts(s[..i]) + ([SPACE] + WriteInts(s[i..]))
    decreases i
  {
    hide WriteInt;
    if i == 1 {
      assert s[..1] == [s[0]];
    } else {
      assert s[1..][..i - 1] == s[..i][1..] && s[1..][i - 1..] == s[i..];
      IntsSplit(s[1..], i - 1);
    }
  }

  function Piece(s: seq<nat>, i: nat): Text
    requires i < |s|
  {
    (if i == 0 then [] else [SPACE]) + WriteInt(s[i])
  }

  lemma IntsNext(s: seq<nat>, i: nat)
    requires i < |s|
    ensures WriteInts(s[..i + 1]) == WriteInts(s[..i]) + Piece(s, i)
    ensures |WriteInts(s[..i + 1])| <= |WriteInts(s)|
    ensures WriteInts(s[..i + 1]) == WriteInts(s)[..|WriteInts(s[..i + 1])|]
  {
    hide WriteInt;
    var t := s[..i + 1];
    if i > 0 {
      IntsSplit(t, i);
      assert t[..i] == s[..i] && t[i..] == [s[i]];
    } else {
      assert t == [s[0]];
    }
    if i + 1 < |s| { IntsSplit(s, i + 1); } else { assert t == s; }
  }

  /** wpa_config_write_freqs: a piece that does not fit is cut where the buffer ends. */
  method PrintFreqs(freqs: array<nat>, ghost s: seq<nat>) returns (value: Text)
    requires s != [] && |s| < freqs.Length && freqs[..|s|] == s && freqs[|s|] == 0
    requires forall i | 0 <= i < |s| :: s[i] > 0
    ensures value == WriteFreqs(s)
  {
    assert forall i | 0 <= i < |s| :: freqs[..|s|][i] == freqs[i];
    var count := 0;
    while freqs[count] != 0
      invariant count <= |s|
      decreases |s| - count
    {
      count := count + 1;
    }
    hide WriteInts, WriteInt;
    value := [];
    var i := 0;
    assert s[..0] == [] && WriteInts([]) == [];
    while freqs[i] != 0
      invariant i <= count && value == WriteInts(s[..i]) && |value| <= 10 * count
      decreases count - i
    {
      IntsNext(s, i);
      var ret := (if i == 0 then [] else [SPACE]) + WriteInt(freqs[i]);
      if |ret| >= 10 * count + 1 - |value| { return (value + ret)[..10 * count]; }
      value := value + ret;
      i := i + 1;
    }
    assert s[..i] == s;
  }
}
