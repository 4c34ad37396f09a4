/** The information element walkers of bss.c. A buffer of octets is a run of
    elements (identifier, length, body), section 8.4.2.1 of IEEE Std 802.11-2012. */
module VendorIe {
  import opened Collections

  const VENDOR_SPECIFIC: Byte := 221
  const WPS_TYPE := 0x0050f204
  const P2P_TYPE := 0x506f9a09

  datatype Element = Element(id: Byte, body: seq<Byte>)

  /** The reference reading: whole elements from the front, until what is left
      is shorter than an element header or than the length in that header. */
  function Decode(s: seq<Byte>): (es: seq<Element>)
    decreases |s|
  {
    if |s| < 2 || 2 + s[1] > |s| then []
    else [Element(s[0], s[2..2 + s[1]])] + Decode(s[2 + s[1]..])
  }

  predicate Encodable(es: seq<Element>) {
    forall i | 0 <= i < |es| :: |es[i].body| < 256
  }

  function EncodeElement(e: Element): (r: seq<Byte>)
    requires |e.body| < 256
    ensures |r| == 2 + |e.body|
  {
    [e.id, |e.body|] + e.body
  }

  function Encode(es: seq<Element>): seq<Byte>
    requires Encodable(es)
  {
    if es == [] then [] else EncodeElement(es[0]) + Encode(es[1..])
  }

  /** A tail from which no element can be read. */
  predicate Truncated(s: seq<Byte>) {
    |s| < 2 || 2 + s[1] > |s|
  }

  lemma DecodeOne(e: Element, rest: seq<Byte>)
    requires |e.body| < 256
    ensures Decode(EncodeElement(e) + rest) == [e] + Decode(rest)
  {
    var s := EncodeElement(e) + rest;
    assert s[0] == e.id && s[1] == |e.body|;
    assert s[2..2 + s[1]] == e.body;
    assert s[2 + s[1]..] == rest;
  }

  lemma {:induction false} DecodeEncode(es: seq<Element>, tail: seq<Byte>)
    requires Encodable(es) && Truncated(tail)
    ensures Decode(Encode(es) + tail) == es
  {
    if es == [] {
      assert Encode(es) + tail == tail;
    } else {
      var rest := Encode(es[1..]) + tail;
      DecodeEncode(es[1..], tail);
      assert Encode(es) + tail == EncodeElement(es[0]) + rest;
      DecodeOne(es[0], rest);
    }
  }

  lemma NoElement(s: seq<Byte>)
    requires Truncated(s)
    ensures Decode(s) == [] && Encodable([]) && s == Encode([]) + s
  {
    assert [] + s == s;
  }

  lemma FirstElement(s: seq<Byte>)
    requires !Truncated(s)
    ensures var rest := s[2 + s[1]..]; var es := Decode(s);
      es != [] && |es[0].body| < 256 && es == [es[0]] + Decode(rest) && s == EncodeElement(es[0]) + rest
  {
  }

  lemma EncodeCons(e: Element, es: seq<Element>)
    requires |e.body| < 256 && Encodable(es)
    ensures Encodable([e] + es) && Encode([e] + es) == EncodeElement(e) + Encode(es)
  {
    assert ([e] + es)[1..] == es;
  }

  /** Every buffer is its decoded elements followed by a truncated tail. */
  lemma {:induction false} EncodeDecode(s: seq<Byte>) returns (tail: seq<Byte>)
    ensures Encodable(Decode(s)) && Truncated(tail)
    ensures s == Encode(Decode(s)) + tail
    decreases |s|
  {
    hide Decode, Encode, EncodeElement;
    if Truncated(s) {
      tail := s;
      NoElement(s);
    } else {
      var rest := s[2 + s[1]..];
      tail := EncodeDecode(rest);
      FirstElement(s);
      var e, es := Decode(s)[0], Decode(rest);
      EncodeCons(e, es);
      assert EncodeElement(e) + (Encode(es) + tail) == EncodeElement(e) + Encode(es) + tail;
    }
  }

  // --- what the walkers look for ---------------------------------------------

  function BigEndian32(s: seq<Byte>): int
    requires |s| >= 4
  {
    (s[0] as int) * 0x100_0000 + (s[1] as int) * 0x1_0000 + (s[2] as int) * 0x100 + (s[3] as int)
  }

  predicate IsVendor(e: Element, vendorType: int) {
    e.id == VENDOR_SPECIFIC && |e.body| >= 4 && BigEndian32(e.body) == vendorType
  }

  function FirstVendor(es: seq<Element>, vendorType: int): (r: Option<Element>) {
    if es == [] then None
    else if IsVendor(es[0], vendorType) then Some(es[0])
    else FirstVendor(es[1..], vendorType)
  }

  function FirstId(es: seq<Element>, id: Byte): (r: Option<Element>) {
    if es == [] then None
    else if es[0].id == id then Some(es[0])
    else FirstId(es[1..], id)
  }

  /** The matching bodies without their type, one after the other. */
  function VendorPayload(es: seq<Element>, vendorType: int): (r: seq<Byte>) {
    if es == [] then []
    else (if IsVendor(es[0], vendorType) then es[0].body[4..] else []) + VendorPayload(es[1..], vendorType)
  }

  /** The single form finds the first match in decoding order, and only a match. */
  lemma {:induction false} FirstVendorIsFirst(es: seq<Element>, vendorType: int)
    ensures FirstVendor(es, vendorType) == None <==> forall i | 0 <= i < |es| :: !IsVendor(es[i], vendorType)
    ensures FirstVendor(es, vendorType).Some? ==>
              exists k :: 0 <= k < |es| && es[k] == FirstVendor(es, vendorType).value && IsVendor(es[k], vendorType)
                          && forall i | 0 <= i < k :: !IsVendor(es[i], vendorType)
  {
    if es != [] {
      FirstVendorIsFirst(es[1..], vendorType);
      assert forall i | 0 <= i < |es[1..]| :: es[1..][i] == es[i + 1];
      assert forall i | 1 <= i < |es| :: es[i] == es[1..][i - 1];
      if IsVendor(es[0], vendorType) {
        assert es[0] == FirstVendor(es, vendorType).value;
      } else if FirstVendor(es, vendorType).Some? {
        var k :| 0 <= k < |es[1..]| && es[1..][k] == FirstVendor(es, vendorType).value
                 && IsVendor(es[1..][k], vendorType)
                 && forall i | 0 <= i < k :: !IsVendor(es[1..][i], vendorType);
        assert es[k + 1] == FirstVendor(es, vendorType).value;
      }
    }
  }

  /** A vendor type as it stands in an element: most significant octet first */
  function TypeOctets(n: nat): (r: seq<Byte>)
    requires n < 0x1_0000_0000
    ensures |r| == 4
  {
    [n / 0x100_0000, n / 0x1_0000 % 0x100, n / 0x100 % 0x100, n % 0x100]
  }

  lemma TypeSum(n: nat)
    requires n < 0x1_0000_0000
    ensures BigEndian32(TypeOctets(n)) == n
  {
    var h, m := n / 0x100, n / 0x1_0000;
    assert n == 0x100 * h + n % 0x100 && h == 0x100 * m + h % 0x100 && m == 0x100 * (n / 0x100_0000) + m % 0x100;
  }

  lemma DigitsUnique(a: int, b: Byte, c: int, d: Byte)
    requires a * 0x100 + b == c * 0x100 + d
    ensures a == c && b == d
  {
  }

  lemma OctetsUnique(s: seq<Byte>, t: seq<Byte>)
    requires |s| == 4 && |t| == 4 && BigEndian32(s) == BigEndian32(t)
    ensures s == t
  {
    var a, b := (s[0] as int) * 0x100 + (s[1] as int), (t[0] as int) * 0x100 + (t[1] as int);
    DigitsUnique(a * 0x100 + (s[2] as int), s[3], b * 0x100 + (t[2] as int), t[3]);
    DigitsUnique(a, s[2], b, t[2]);
    DigitsUnique(s[0], s[1], t[0], t[1]);
  }

  lemma TypeRead(s: seq<Byte>, n: nat)
    requires |s| == 4 && n < 0x1_0000_0000
    ensures BigEndian32(s) == n <==> s == TypeOctets(n)
  {
    TypeSum(n);
    hide BigEndian32, TypeOctets;
    if BigEndian32(s) == n { OctetsUnique(s, TypeOctets(n)); }
  }

  /** The elements that are looked for: those of vendors whose body starts with the type. */
  lemma VendorIff(e: Element, n: nat)
    requires n < 0x1_0000_0000
    ensures IsVendor(e, n) <==> e.id == 221 && TypeOctets(n) <= e.body
  {
    if |e.body| >= 4 { TypeRead(e.body[..4], n); }
    hide TypeOctets;
  }

  /** The WPS type is 00-50-F2 04, the P2P type 50-6F-9A 09. */
  lemma KnownTypes()
    ensures TypeOctets(WPS_TYPE) == [0x00, 0x50, 0xf2, 0x04] && TypeOctets(P2P_TYPE) == [0x50, 0x6f, 0x9a, 0x09]
  {
  }

  /** The payload is joined from what stands behind the type in these elements; others add nothing. */
  lemma PayloadJoins(es: seq<Element>, n: nat, e: Element)
    requires n < 0x1_0000_0000
    ensures VendorPayload([], n) == []
    ensures VendorPayload([Element(221, TypeOctets(n) + e.body)] + es, n) == e.body + VendorPayload(es, n)
    ensures !(e.id == 221 && TypeOctets(n) <= e.body) ==> VendorPayload([e] + es, n) == VendorPayload(es, n)
  {
    var v := Element(221, TypeOctets(n) + e.body);
    VendorIff(v, n);
    VendorIff(e, n);
    hide TypeOctets, IsVendor;
    assert ([v] + es)[1..] == es && ([e] + es)[1..] == es;
    assert v.body[4..] == e.body;
    assert [] + VendorPayload(es, n) == VendorPayload(es, n);
  }

  // --- the pointer loops -----------------------------------------------------

  /** The element whose header is at pos. */
  function ElementAt(buf: seq<Byte>, pos: nat, end: nat): Element
    requires pos + 1 < end <= |buf| && pos + 2 + buf[pos + 1] <= end
  {
    Element(buf[pos], buf[pos + 2..pos + 2 + buf[pos + 1]])
  }

  lemma DecodeNext(s: seq<Byte>, next: nat)
    requires |s| >= 2 && next == 2 + (s[1] as int) && next <= |s|
    ensures Decode(s) == [Element(s[0], s[2..next])] + Decode(s[next..])
  {
  }

  lemma DecodeStep(buf: seq<Byte>, pos: nat, end: nat)
    requires pos + 1 < end <= |buf| && pos + 2 + buf[pos + 1] <= end
    ensures Decode(buf[pos..end]) == [ElementAt(buf, pos, end)] + Decode(buf[pos + 2 + buf[pos + 1]..end])
  {
    hide Decode;
    var s, next := buf[pos..end], 2 + (buf[pos + 1] as int);
    DecodeNext(s, next);
    SliceOfSlice(buf, pos, end, 2, next);
    SliceOfSlice(buf, pos, end, next, end - pos);
    assert s[next..] == s[next..end - pos];
  }

  /** The test of the walkers: identifier, length, big-endian type. */
  predicate VendorAt(buf: seq<Byte>, pos: nat, end: nat, vendorType: int)
    requires pos + 1 < end <= |buf| && pos + 2 + buf[pos + 1] <= end
    ensures VendorAt(buf, pos, end, vendorType) == IsVendor(ElementAt(buf, pos, end), vendorType)
  {
    var b := buf[pos] == VENDOR_SPECIFIC && buf[pos + 1] >= 4 && vendorType == BigEndian32(buf[pos + 2..pos + 6]);
    assert buf[pos + 1] >= 4 ==>
        ElementAt(buf, pos, end).body[0] == buf[pos + 2..pos + 6][0] &&
        ElementAt(buf, pos, end).body[1] == buf[pos + 2..pos + 6][1] &&
        ElementAt(buf, pos, end).body[2] == buf[pos + 2..pos + 6][2] &&
        ElementAt(buf, pos, end).body[3] == buf[pos + 2..pos + 6][3];
    b
  }

  ghost function VendorFrom(buf: seq<Byte>, pos: nat, end: nat, vendorType: int): Option<Element>
    requires pos <= end <= |buf|
  {
    FirstVendor(Decode(buf[pos..end]), vendorType)
  }

  ghost function IdFrom(buf: seq<Byte>, pos: nat, end: nat, id: Byte): Option<Element>
    requires pos <= end <= |buf|
  {
    FirstId(Decode(buf[pos..end]), id)
  }

  lemma FindStep(buf: seq<Byte>, pos: nat, end: nat, vendorType: int, id: Byte)
    requires pos + 1 < end <= |buf| && pos + 2 + buf[pos + 1] <= end
    ensures VendorFrom(buf, pos, end, vendorType)
         == if VendorAt(buf, pos, end, vendorType) then Some(ElementAt(buf, pos, end))
            else VendorFrom(buf, pos + 2 + buf[pos + 1], end, vendorType)
    ensures IdFrom(buf, pos, end, id)
         == if buf[pos] == id then Some(ElementAt(buf, pos, end))
            else IdFrom(buf, pos + 2 + buf[pos + 1], end, id)
  {
    DecodeStep(buf, pos, end);
  }

  lemma FindNone(buf: seq<Byte>, pos: nat, end: nat, vendorType: int, id: Byte)
    requires pos <= end <= |buf| && Truncated(buf[pos..end])
    ensures VendorFrom(buf, pos, end, vendorType) == None && IdFrom(buf, pos, end, id) == None
  {
  }

  /** An offset into the buffer, or None for a null pointer. */
  method GetVendorIe(buf: seq<Byte>, start: nat, end: nat, vendorType: int) returns (r: Option<nat>)
    requires start <= end <= |buf|
    ensures r.Some? ==> start <= r.value && r.value + 1 < end && r.value + 2 + buf[r.value + 1] <= end
    ensures VendorFrom(buf, start, end, vendorType)
         == if r.None? then None else Some(ElementAt(buf, r.value, end))
  {
    var pos := start;
    while end - pos > 1
      invariant start <= pos <= end
      invariant VendorFrom(buf, pos, end, vendorType) == VendorFrom(buf, start, end, vendorType)
    {
      if 2 + buf[pos + 1] > end - pos {
        break;
      }
      FindStep(buf, pos, end, vendorType, 0);
      if VendorAt(buf, pos, end, vendorType) {
        return Some(pos);
      }
      pos := pos + 2 + buf[pos + 1];
    }
    FindNone(buf, pos, end, vendorType, 0);
    return None;
  }

  /** get_ie: the same walk, looking for an identifier. */
  method GetIe(buf: seq<Byte>, start: nat, end: nat, id: Byte) returns (r: Option<nat>)
    requires start <= end <= |buf|
    ensures r.Some? ==> start <= r.value && r.value + 1 < end && r.value + 2 + buf[r.value + 1] <= end
    ensures IdFrom(buf, start, end, id)
         == if r.None? then None else Some(ElementAt(buf, r.value, end))
  {
    var pos := start;
    while end - pos > 1
      invariant start <= pos <= end
      invariant IdFrom(buf, pos, end, id) == IdFrom(buf, start, end, id)
    {
      if 2 + buf[pos + 1] > end - pos {
        break;
      }
      FindStep(buf, pos, end, 0, id);
      if buf[pos] == id {
        return Some(pos);
      }
      pos := pos + 2 + buf[pos + 1];
    }
    FindNone(buf, pos, end, 0, id);
    return None;
  }

  /** struct wpabuf: storage of a fixed size and the octets used so far. */
  class Wpabuf {
    const size: nat
    var data: seq<Byte>

    constructor (size: nat)
      ensures this.size == size && data == []
    {
      this.size := size;
      data := [];
    }

    /** wpabuf_put_data aborts the process when the data do not fit. */
    method Put(bytes: seq<Byte>)
      requires |data| + |bytes| <= size
      modifies this
      ensures data == old(data) + bytes
    {
      data := data + bytes;
    }
  }

  ghost function Payload(buf: seq<Byte>, pos: nat, end: nat, vendorType: int): seq<Byte>
    requires pos <= end <= |buf|
  {
    VendorPayload(Decode(buf[pos..end]), vendorType)
  }

  lemma PayloadStep(buf: seq<Byte>, pos: nat, end: nat, vendorType: int)
    requires pos + 1 < end <= |buf| && pos + 2 + buf[pos + 1] <= end
    ensures Payload(buf, pos, end, vendorType)
         == (if VendorAt(buf, pos, end, vendorType) then buf[pos + 2 + 4..pos + 2 + buf[pos + 1]] else [])
            + Payload(buf, pos + 2 + buf[pos + 1], end, vendorType)
  {
    DecodeStep(buf, pos, end);
    if VendorAt(buf, pos, end, vendorType) {
      SliceOfSlice(buf, pos + 2, pos + 2 + buf[pos + 1], 4, buf[pos + 1]);
    }
  }

  /** The payload of the element at pos, if it is of the vendor type */
  method PutMatch(b: Wpabuf, buf: seq<Byte>, pos: nat, end: nat, vendorType: int)
    requires pos + 1 < end <= |buf| && pos + 2 + buf[pos + 1] <= end
    requires |b.data| + buf[pos + 1] <= b.size
    modifies b
    ensures |b.data| <= |old(b.data)| + buf[pos + 1]
    ensures b.data + Payload(buf, pos + 2 + buf[pos + 1], end, vendorType)
         == old(b.data) + Payload(buf, pos, end, vendorType)
  {
    PayloadStep(buf, pos, end, vendorType);
    hide Payload;
    ghost var before, after := b.data, Payload(buf, pos + 2 + buf[pos + 1], end, vendorType);
    if VendorAt(buf, pos, end, vendorType) {
      var bytes := buf[pos + 2 + 4..pos + 2 + buf[pos + 1]];
      assert before + (bytes + after) == before + bytes + after;
      b.Put(bytes);
    } else {
      assert [] + after == after;
    }
  }

  /** The concatenated payload, or null when it is empty. Every Put meets its
      precondition, so the walk never writes beyond the allocation. */
  method GetVendorIeMulti(buf: seq<Byte>, start: nat, end: nat, vendorType: int) returns (r: Wpabuf?)
    requires start <= end <= |buf|
    ensures r == null <==> VendorPayload(Decode(buf[start..end]), vendorType) == []
    ensures r != null ==> fresh(r) && r.size == end - start
                          && r.data == VendorPayload(Decode(buf[start..end]), vendorType)
  {
    var b := new Wpabuf(end - start);
    var pos := start;
    ghost var all := Payload(buf, start, end, vendorType);
    assert [] + all == all;
    while end - pos > 1
      invariant start <= pos <= end
      invariant |b.data| <= pos - start
      invariant b.data + Payload(buf, pos, end, vendorType) == all
    {
      if 2 + buf[pos + 1] > end - pos {
        break;
      }
      PutMatch(b, buf, pos, end, vendorType);
      pos := pos + 2 + buf[pos + 1];
    }
    assert Payload(buf, pos, end, vendorType) == [];
    assert b.data == all;
    if |b.data| == 0 {
      return null;
    }
    return b;
  }
}
