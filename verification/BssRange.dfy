/** The BSS command of ctrl_iface.c: RANGE=a-b, FIRST and NEXT-id over the id list,
    and the text they leave in the reply buffer. */
module BssRange {
  import opened Collections
  import BssModel
  import BssInvariants

  const UINT_MAX: nat := 0xffff_ffff

  /** What print_bss_info writes, in order: text that must fit, text that is skipped as a whole
      when it does not (anqp_add_hex), and parts of which as many are written as fit
      (wpa_supplicant_ie_txt, wpa_snprintf_hex). */
  datatype Piece = Must(text: string) | Skipped(parts: seq<string>) | Cut(parts: seq<string>)

  /** One entry of the id list: its id and its pieces. */
  datatype Item = Item(id: nat, pieces: seq<Piece>)

  ghost predicate ById(items: seq<Item>) {
    forall i, j | 0 <= i < j < |items| :: items[i].id < items[j].id
  }

  /** The mask includes the id: every entry starts with its id line. */
  ghost predicate WithId(items: seq<Item>) {
    forall i | 0 <= i < |items| :: items[i].pieces != [] && items[i].pieces[0].Must? && items[i].pieces[0].text != ""
  }

  function Concat(parts: seq<string>): string {
    if parts == [] then "" else parts[0] + Concat(parts[1..])
  }

  function Whole(p: Piece): string {
    if p.Must? then p.text else Concat(p.parts)
  }

  /** All of an entry */
  function Full(pieces: seq<Piece>): string {
    if pieces == [] then "" else Whole(pieces[0]) + Full(pieces[1..])
  }

  /** The entries with first <= id <= last, in id order: what a range asks for. */
  function InRange(items: seq<Item>, first: nat, last: nat): seq<Item> {
    if items == [] then []
    else (if first <= items[0].id <= last then [items[0]] else []) + InRange(items[1..], first, last)
  }

  function Text(items: seq<Item>): string {
    if items == [] then "" else Full(items[0].pieces) + Text(items[1..])
  }

  // --- the two lists of the table --------------------------------------------

  /** The id list, with what is printed for each entry; the update list is walk. */
  ghost predicate SameEntries(walk: seq<nat>, items: seq<Item>) {
    forall x: nat :: x in walk <==> exists k :: 0 <= k < |items| && items[k].id == x
  }

  function ItemsOf(ids: seq<nat>, info: nat -> seq<Piece>): (r: seq<Item>)
    ensures |r| == |ids| && forall i | 0 <= i < |r| :: r[i].id == ids[i]
  {
    seq(|ids|, i requires 0 <= i < |ids| => Item(ids[i], info(ids[i])))
  }

  /** What the command relies on holds for the id list and the update list of every table. */
  lemma TableIsListed(t: BssModel.Table, info: nat -> seq<Piece>)
    requires BssInvariants.Inv(t)
    ensures ById(ItemsOf(t.ids, info)) && SameEntries(BssModel.Ids(t.list), ItemsOf(t.ids, info))
  {
    BssInvariants.LinkedIds(t);
    var items := ItemsOf(t.ids, info);
    forall x: nat ensures x in BssModel.Ids(t.list) <==> exists k :: 0 <= k < |items| && items[k].id == x {
      if x in t.ids {
        var k :| 0 <= k < |t.ids| && t.ids[k] == x;
        assert items[k].id == x;
      }
    }
  }

  // --- choosing the first and the last entry ---------------------------------

  /** wpa_bss_get_id_range: a position in the id list, or |items| */
  method GetIdRange(items: seq<Item>, first: nat, last: nat) returns (k: nat)
    ensures k <= |items|
    ensures k < |items| ==> first <= items[k].id <= last
    ensures forall i | 0 <= i < k :: !(first <= items[i].id <= last)
  {
    k := 0;
    while k < |items|
      invariant k <= |items|
      invariant forall i | 0 <= i < k :: !(first <= items[i].id <= last)
    {
      if first <= items[k].id <= last {
        return;
      }
      k := k + 1;
    }
  }

  /** The position in the id list of the entry with that id */
  function Position(items: seq<Item>, id: nat): (k: nat)
    ensures k <= |items| && (k < |items| ==> items[k].id == id)
    ensures k == |items| ==> forall i | 0 <= i < |items| :: items[i].id != id
  {
    if items == [] || items[0].id == id then 0
    else
      assert forall i | 1 <= i < |items| :: items[i] == items[1..][i - 1];
      1 + Position(items[1..], id)
  }

  /** wpa_bss_get_id walks the update list; the entry is given by its place in the id list. */
  method GetId(walk: seq<nat>, items: seq<Item>, id: nat) returns (k: nat)
    requires SameEntries(walk, items)
    ensures k <= |items| && (k < |items| ==> items[k].id == id)
    ensures k == |items| ==> forall i | 0 <= i < |items| :: items[i].id != id
  {
    var i := 0;
    while i < |walk| && walk[i] != id
      invariant i <= |walk| && forall j | 0 <= j < i :: walk[j] != id
    {
      i := i + 1;
    }
    assert i == |walk| <==> id !in walk;
    k := if i < |walk| then Position(items, id) else |items|;
  }

  /** The two ends that RANGE=first-last walks between; from == |items| when there is nothing to walk. */
  method RangeEnds(walk: seq<nat>, items: seq<Item>, first: nat, last: nat) returns (from: nat, to: nat)
    requires SameEntries(walk, items) && ById(items) && forall i | 0 <= i < |items| :: items[i].id <= UINT_MAX
    ensures from <= |items|
    ensures from < |items| ==> from <= to < |items|
    ensures InRange(items, first, last) == if from < |items| then items[from..to + 1] else []
  {
    from := GetIdRange(items, first, last);
    var none := |items|;
    if last >= UINT_MAX {
      to := if |items| == 0 then none else |items| - 1;
    } else {
      to := GetId(walk, items, last);
      if to == none && from < |items| && last > first {
        var tmp := from;
        while tmp + 1 < |items| && items[tmp + 1].id <= last
          invariant from <= tmp < |items| && items[tmp].id <= last
          invariant to == if tmp == from then none else tmp
        {
          tmp := tmp + 1;
          to := tmp;
        }
      }
    }
    if from < |items| && to == none {
      to := from;
    }
    if from == |items| {
      NoneInRange(items, first, last);
    } else {
      RangeIsSlice(items, first, last, from, to);
    }
  }

  lemma {:induction false} NoneInRange(items: seq<Item>, first: nat, last: nat)
    requires forall i | 0 <= i < |items| :: !(first <= items[i].id <= last)
    ensures InRange(items, first, last) == []
  {
    if items != [] {
      assert forall i | 0 <= i < |items[1..]| :: items[1..][i] == items[i + 1];
      NoneInRange(items[1..], first, last);
    }
  }

  lemma {:induction false} InRangeAppend(a: seq<Item>, b: seq<Item>, first: nat, last: nat)
    ensures InRange(a + b, first, last) == InRange(a, first, last) + InRange(b, first, last)
  {
    if a == [] {
      assert a + b == b;
    } else {
      assert (a + b)[1..] == a[1..] + b;
      InRangeAppend(a[1..], b, first, last);
    }
  }

  lemma {:induction false} AllInRange(items: seq<Item>, first: nat, last: nat)
    requires forall i | 0 <= i < |items| :: first <= items[i].id <= last
    ensures InRange(items, first, last) == items
  {
    if items != [] {
      assert forall i | 0 <= i < |items[1..]| :: items[1..][i] == items[i + 1];
      AllInRange(items[1..], first, last);
    }
  }

  lemma RangeIsSlice(items: seq<Item>, first: nat, last: nat, from: nat, to: nat)
    requires from <= to < |items|
    requires forall i | 0 <= i < |items| :: from <= i <= to <==> first <= items[i].id <= last
    ensures InRange(items, first, last) == items[from..to + 1]
  {
    hide InRange;
    var a, b, c := items[..from], items[from..to + 1], items[to + 1..];
    assert items == a + (b + c);
    InRangeAppend(a, b + c, first, last);
    InRangeAppend(b, c, first, last);
    NoneInRange(a, first, last);
    AllInRange(b, first, last);
    NoneInRange(c, first, last);
  }

  lemma {:induction false} InRangeMembers(items: seq<Item>, first: nat, last: nat, x: Item)
    ensures x in InRange(items, first, last) <==> x in items && first <= x.id <= last
  {
    if items != [] {
      InRangeMembers(items[1..], first, last, x);
      assert x in items <==> x == items[0] || x in items[1..];
      hide InRange;
      InRangeFirst(items, first, last, x);
    }
  }

  lemma InRangeFirst(items: seq<Item>, first: nat, last: nat, x: Item)
    requires items != []
    ensures x in InRange(items, first, last)
      <==> (x == items[0] && first <= x.id <= last) || x in InRange(items[1..], first, last)
  {
  }

  ghost predicate Above(items: seq<Item>, low: nat) {
    forall i | 0 <= i < |items| :: low < items[i].id
  }

  lemma InRangeStep(items: seq<Item>, first: nat, last: nat)
    requires items != []
    ensures var rest := InRange(items[1..], first, last);
      InRange(items, first, last) == if first <= items[0].id <= last then [items[0]] + rest else rest
  {
    var rest := InRange(items[1..], first, last);
    assert [] + rest == rest;
  }

  lemma {:induction false} InRangeAbove(items: seq<Item>, first: nat, last: nat, low: nat)
    requires Above(items, low)
    ensures Above(InRange(items, first, last), low)
  {
    if items != [] {
      assert forall i | 0 <= i < |items[1..]| :: items[1..][i] == items[i + 1];
      InRangeAbove(items[1..], first, last, low);
      InRangeStep(items, first, last);
      hide InRange;
    }
  }

  lemma ByIdCons(x: Item, rest: seq<Item>)
    requires ById(rest) && Above(rest, x.id)
    ensures ById([x] + rest)
  {
  }

  lemma {:induction false} InRangeById(items: seq<Item>, first: nat, last: nat)
    requires ById(items)
    ensures ById(InRange(items, first, last))
  {
    if items != [] {
      assert forall i | 0 <= i < |items[1..]| :: items[1..][i] == items[i + 1];
      InRangeById(items[1..], first, last);
      InRangeAbove(items[1..], first, last, items[0].id);
      InRangeStep(items, first, last);
      ByIdCons(items[0], InRange(items[1..], first, last));
      hide InRange, ById;
    }
  }

  /** A range asks for exactly the entries with ids in it, each once, in ascending order. */
  lemma InRangeAscending(items: seq<Item>, first: nat, last: nat)
    requires ById(items)
    ensures ById(InRange(items, first, last))
    ensures forall x :: x in InRange(items, first, last) <==> x in items && first <= x.id <= last
  {
    InRangeById(items, first, last);
    hide InRange, ById;
    forall x ensures x in InRange(items, first, last) <==> x in items && first <= x.id <= last {
      InRangeMembers(items, first, last, x);
    }
  }

  // --- what is printed -------------------------------------------------------

  /** As many parts as fit, one after the other, with a terminator */
  function FitParts(parts: seq<string>, room: nat): (r: string)
    requires room > 0
    ensures |r| < room
  {
    if parts == [] || |parts[0]| >= room then ""
    else parts[0] + FitParts(parts[1..], room - |parts[0]|)
  }

  function WritePiece(p: Piece, room: nat): (r: Option<string>)
    requires room > 0
    ensures r.Some? ==> |r.value| < room
  {
    match p
    case Must(t) => if |t| < room then Some(t) else None
    case Skipped(parts) => Some(if |Concat(parts)| < room then Concat(parts) else "")
    case Cut(parts) => Some(FitParts(parts, room))
  }

  /** print_bss_info: the text of the entry in room octets, or None when a piece that must fit
      does not */
  function Write(pieces: seq<Piece>, room: nat): (r: Option<string>)
    requires room > 0
    ensures r.Some? ==> |r.value| < room
    decreases |pieces|
  {
    if pieces == [] then Some("")
    else
      match WritePiece(pieces[0], room)
      case None => None
      case Some(t) =>
        match Write(pieces[1..], room - |t|)
        case None => None
        case Some(rest) => Some(t + rest)
  }

  /** The texts of the entries printed into size octets: those before the first that fails */
  function Printed(asked: seq<Item>, room: nat): (r: seq<string>)
    requires room > 0
    ensures |r| <= |asked|
  {
    if asked == [] then []
    else
      match Write(asked[0].pieces, room)
      case None => []
      case Some(t) => [t] + Printed(asked[1..], room - |t|)
  }

  /** text with its last delimiter replaced by the end mark */
  function Marked(text: string): string {
    if |text| < 5 then text else text[..|text| - 5] + "####\n"
  }

  /** What the command answers for the entries asked for, in a buffer of size octets; the end
      mark comes when all were printed and they end the list. */
  function Reply(asked: seq<Item>, delim: bool, atEnd: bool, size: nat): string
    requires size > 0
  {
    var texts := Printed(asked, size);
    if delim && atEnd && asked != [] && |texts| == |asked| then Marked(Concat(texts)) else Concat(texts)
  }

  // --- whole entries, and when -----------------------------------------------

  /** Every piece that may be left out fits at its place. */
  predicate NothingLost(pieces: seq<Piece>, room: nat)
    requires room > 0
    decreases |pieces|
  {
    pieces == [] ||
    (match WritePiece(pieces[0], room)
     case None => true
     case Some(t) => |Whole(pieces[0])| < room && NothingLost(pieces[1..], room - |t|))
  }

  lemma {:induction false} FitPartsIff(parts: seq<string>, room: nat)
    requires room > 0
    ensures |FitParts(parts, room)| <= |Concat(parts)|
    ensures FitParts(parts, room) == Concat(parts) <==> |Concat(parts)| < room
  {
    if parts != [] && |parts[0]| < room {
      FitPartsIff(parts[1..], room - |parts[0]|);
      var a, b := FitParts(parts[1..], room - |parts[0]|), Concat(parts[1..]);
      if parts[0] + a == parts[0] + b { Cancel(parts[0], a, b); }
    }
  }

  lemma Cancel(x: string, a: string, b: string)
    requires x + a == x + b
    ensures a == b
  {
    assert a == (x + a)[|x|..] && b == (x + b)[|x|..];
  }

  lemma PieceWhole(p: Piece, room: nat)
    requires room > 0
    ensures var r := WritePiece(p, room);
      && (r.Some? ==> |r.value| <= |Whole(p)| && (r.value == Whole(p) <==> |Whole(p)| < room))
      && (r.None? ==> |Whole(p)| >= room)
  {
    if p.Cut? { FitPartsIff(p.parts, room); }
  }

  /** An entry that is printed is printed whole exactly when nothing of it is lost, and never
      longer; one that is not printed would not fit. */
  lemma {:induction false} WriteWhole(pieces: seq<Piece>, room: nat)
    requires room > 0
    ensures var r := Write(pieces, room);
      && (r.Some? ==> |r.value| <= |Full(pieces)| && (r.value == Full(pieces) <==> NothingLost(pieces, room)))
      && (r.None? ==> |Full(pieces)| >= room)
    decreases |pieces|
  {
    if pieces != [] {
      PieceWhole(pieces[0], room);
      var p := WritePiece(pieces[0], room);
      if p.Some? {
        var t := p.value;
        WriteWhole(pieces[1..], room - |t|);
        var rest := Write(pieces[1..], room - |t|);
        if rest.Some? {
          Halves(t, Whole(pieces[0]), rest.value, Full(pieces[1..]));
        }
      }
    }
  }

  lemma Halves(a: string, b: string, c: string, d: string)
    requires |a| <= |b| && |c| <= |d|
    ensures a + c == b + d <==> a == b && c == d
  {
    if a + c == b + d {
      assert |a| == |b| && |c| == |d|;
      assert a == (a + c)[..|a|] && b == (b + d)[..|b|];
      Cancel(a, c, d);
    }
  }

  /** An entry whose text fits is printed whole. */
  lemma {:induction false} WriteFits(pieces: seq<Piece>, room: nat)
    requires room > |Full(pieces)|
    ensures Write(pieces, room) == Some(Full(pieces))
    decreases |pieces|
  {
    if pieces != [] {
      PieceWhole(pieces[0], room);
      WriteFits(pieces[1..], room - |Whole(pieces[0])|);
    }
  }

  /** Every entry that is printed is printed without loss. */
  predicate NothingLostIn(asked: seq<Item>, room: nat)
    requires room > 0
    decreases |asked|
  {
    asked == [] ||
    (match Write(asked[0].pieces, room)
     case None => true
     case Some(t) => NothingLost(asked[0].pieces, room) && NothingLostIn(asked[1..], room - |t|))
  }

  lemma {:induction false} ConcatLength(texts: seq<string>, items: seq<Item>)
    requires |texts| == |items| && forall i | 0 <= i < |texts| :: |texts[i]| <= |Full(items[i].pieces)|
    ensures |Concat(texts)| <= |Text(items)|
  {
    if texts != [] { ConcatLength(texts[1..], items[1..]); }
  }

  lemma {:induction false} PrintedShorter(asked: seq<Item>, room: nat)
    requires room > 0
    ensures forall i | 0 <= i < |Printed(asked, room)| :: |Printed(asked, room)[i]| <= |Full(asked[i].pieces)|
  {
    if asked != [] {
      WriteWhole(asked[0].pieces, room);
      var w := Write(asked[0].pieces, room);
      hide Write, Full;
      if w.Some? {
        assert forall i | 1 <= i < |asked| :: asked[1..][i - 1] == asked[i];
        PrintedShorter(asked[1..], room - |w.value|);
      }
    }
  }

  lemma {:induction false} PrintedFits(asked: seq<Item>, room: nat)
    requires room > 0
    ensures |Concat(Printed(asked, room))| < room
  {
    if asked != [] {
      var w := Write(asked[0].pieces, room);
      if w.Some? { PrintedFits(asked[1..], room - |w.value|); }
    }
  }

  lemma TextFirst(asked: seq<Item>, n: nat)
    requires n < |asked|
    ensures Text(asked[..n + 1]) == Full(asked[0].pieces) + Text(asked[1..][..n])
  {
    assert asked[..n + 1][1..] == asked[1..][..n];
  }

  lemma PrintedNext(asked: seq<Item>, room: nat)
    requires room > 0 && asked != [] && Write(asked[0].pieces, room).Some?
    ensures var t := Write(asked[0].pieces, room).value; var rest := Printed(asked[1..], room - |t|);
      Printed(asked, room) == [t] + rest && Concat(Printed(asked, room)) == t + Concat(rest)
  {
    hide Write;
    var t := Write(asked[0].pieces, room).value;
    var rest := Printed(asked[1..], room - |t|);
    assert ([t] + rest)[1..] == rest;
  }

  /** The reply consists of whole entries exactly when no entry that is printed loses a piece. */
  lemma {:induction false} WholeEntriesIff(asked: seq<Item>, room: nat)
    requires room > 0
    ensures var texts := Printed(asked, room);
      Concat(texts) == Text(asked[..|texts|]) <==> NothingLostIn(asked, room)
    decreases |asked|
  {
    if asked != [] {
      var w := Write(asked[0].pieces, room);
      WriteWhole(asked[0].pieces, room);
      if w.Some? {
        hide Write, Full, NothingLost, Printed, Concat, Text;
        var room', more := room - |w.value|, asked[1..];
        var rest := Printed(more, room');
        PrintedNext(asked, room);
        WholeEntriesIff(more, room');
        PrintedShorter(more, room');
        TextFirst(asked, |rest|);
        ConcatLength(rest, more[..|rest|]);
        Halves(w.value, Full(asked[0].pieces), Concat(rest), Text(more[..|rest|]));
      }
    }
  }

  /** Then it is the longest prefix of whole entries that fits. */
  lemma {:induction false} LongestPrefix(asked: seq<Item>, room: nat)
    requires room > 0
    ensures var n := |Printed(asked, room)|; n < |asked| ==> |Text(asked[..n + 1])| >= room
    decreases |asked|
  {
    if asked != [] {
      var w := Write(asked[0].pieces, room);
      WriteWhole(asked[0].pieces, room);
      if w.Some? {
        LongestPrefix(asked[1..], room - |w.value|);
        var n := |Printed(asked[1..], room - |w.value|)|;
        assert n + 1 == |Printed(asked, room)|;
        hide Write, Full, Printed, NothingLost;
        if n + 1 < |asked| { TextFirst(asked, n + 1); }
      } else {
        assert asked[..1][1..] == [];
      }
    }
  }

  /** Whatever is lost: the entries printed are the first of those asked for, each starting with
      its id line, so that no id is missing in between, repeated or out of order. */
  lemma {:induction false} IdsInOrder(asked: seq<Item>, room: nat)
    requires room > 0 && WithId(asked)
    ensures var texts := Printed(asked, room);
      && |texts| <= |asked|
      && forall i | 0 <= i < |texts| :: asked[i].pieces[0].text <= texts[i] && texts[i] != ""
    decreases |asked|
  {
    if asked != [] {
      var w := Write(asked[0].pieces, room);
      assert asked[0].pieces[0].Must? && asked[0].pieces[0].text != "";
      if w.Some? {
        assert forall i | 0 <= i < |asked[1..]| :: asked[1..][i] == asked[i + 1];
        IdsInOrder(asked[1..], room - |w.value|);
      }
    }
  }

  /** The reply is the full listing exactly when its text fits. */
  lemma {:induction false} FullListingIff(asked: seq<Item>, room: nat)
    requires room > 0
    ensures |Printed(asked, room)| == |asked| && Concat(Printed(asked, room)) == Text(asked) <==> |Text(asked)| < room
    decreases |asked|
  {
    if asked == [] {
    } else {
      PrintedFits(asked, room);
      if |Text(asked)| < room {
        WriteFits(asked[0].pieces, room);
        FullListingIff(asked[1..], room - |Full(asked[0].pieces)|);
      }
    }
  }

  // --- a piece that is lost --------------------------------------------------

  /** Two entries; the hex text of an ANQP element of the first is longer than the buffer. */
  function LongAnqp(hex: string): seq<Item> {
    [Item(0, [Must("id=0\n"), Skipped(["anqp=", hex, "\n"])]), Item(1, [Must("id=1\n")])]
  }

  lemma LongSkipped(hex: string)
    requires |hex| >= 16
    ensures Write([Skipped(["anqp=", hex, "\n"])], 11) == Some("")
    ensures !NothingLost([Skipped(["anqp=", hex, "\n"])], 11)
    ensures Full([Skipped(["anqp=", hex, "\n"])]) == "anqp=" + Concat([hex, "\n"])
  {
    var p := Skipped(["anqp=", hex, "\n"]);
    assert p.parts[1..] == [hex, "\n"] && [p][1..] == [];
    assert Concat(p.parts) == "anqp=" + Concat([hex, "\n"]);
    assert Concat([hex, "\n"]) == hex + Concat([hex, "\n"][1..]);
    assert WritePiece(p, 11) == Some("");
    assert Concat(p.parts) + "" == Concat(p.parts);
  }

  lemma FirstPrinted(hex: string)
    requires |hex| >= 16
    ensures var pieces := LongAnqp(hex)[0].pieces;
      Write(pieces, 16) == Some("id=0\n") && !NothingLost(pieces, 16)
      && Full(pieces) == "id=0\n" + ("anqp=" + Concat([hex, "\n"]))
  {
    LongSkipped(hex);
    var pieces := LongAnqp(hex)[0].pieces;
    assert pieces[1..] == [Skipped(["anqp=", hex, "\n"])];
    hide Concat;
    assert "id=0\n" + "" == "id=0\n";
  }

  lemma SecondPrinted()
    ensures Printed([Item(1, [Must("id=1\n")])], 11) == ["id=1\n"]
  {
    var pieces := [Must("id=1\n")];
    assert pieces[1..] == [] && "id=1\n" + "" == "id=1\n";
    assert Write(pieces, 11) == Some("id=1\n");
    var items := [Item(1, pieces)];
    assert items[1..] == [];
  }

  lemma LostReply(hex: string)
    requires |hex| >= 16
    ensures Reply(LongAnqp(hex), false, true, 16) == "id=0\n" + "id=1\n" && !NothingLostIn(LongAnqp(hex), 16)
  {
    FirstPrinted(hex);
    SecondPrinted();
    hide Write, Full, NothingLost;
    var items := LongAnqp(hex);
    assert items[1..] == [Item(1, [Must("id=1\n")])];
    var texts := ["id=0\n", "id=1\n"];
    assert Printed(items, 16) == ["id=0\n"] + ["id=1\n"] == texts;
    assert texts[1..] == ["id=1\n"] && ["id=1\n"][1..] == [];
    assert Concat(["id=1\n"]) == "id=1\n" + "" == "id=1\n";
  }

  lemma FirstOfSecond(a: string, b: string, c: string, d: string)
    requires b != ""
    ensures |a + (b + c) + d| > |a| && (a + (b + c) + d)[|a|] == b[0]
  {
  }

  lemma LostText(hex: string)
    requires |hex| >= 16
    ensures var t := Text(LongAnqp(hex)); |t| > 5 && t[5] == 'a'
  {
    FirstPrinted(hex);
    hide Full, Write, NothingLost, Concat;
    FirstOfSecond("id=0\n", "anqp=", Concat([hex, "\n"]), Text(LongAnqp(hex)[1..]));
  }

  /** An entry may come without a piece although the next entry still comes. */
  lemma PieceLost(hex: string)
    requires |hex| >= 16
    ensures Reply(LongAnqp(hex), false, true, 16) == "id=0\n" + "id=1\n"
    ensures !NothingLostIn(LongAnqp(hex), 16)
    ensures !(Reply(LongAnqp(hex), false, true, 16) <= Text(LongAnqp(hex)))
  {
    LostReply(hex);
    LostText(hex);
    hide Reply, Text;
    var r, t := Reply(LongAnqp(hex), false, true, 16), Text(LongAnqp(hex));
    assert r[5] == 'i' && t[5] == 'a';
  }

  // --- the reply buffer ------------------------------------------------------

  /** os_snprintf of s at pos: all of s and a terminator, or as much as fits. */
  method Snprintf(out: array<char>, pos: nat, s: string) returns (fits: bool)
    requires pos < out.Length
    modifies out
    ensures fits == (pos + |s| < out.Length)
    ensures out[..pos] == old(out[..pos])
    ensures fits ==> out[..pos + |s|] == old(out[..pos]) + s
  {
    var n := if pos + |s| < out.Length then |s| else out.Length - pos - 1;
    forall i | 0 <= i < n {
      out[pos + i] := s[i];
    }
    out[pos + n] := '\0';
    fits := n == |s|;
  }

  lemma FitPartsStep(parts: seq<string>, i: nat, done: string, room: nat)
    requires i < |parts| && room > 0
    ensures done + FitParts(parts[i..], room)
         == if |parts[i]| < room then done + parts[i] + FitParts(parts[i + 1..], room - |parts[i]|) else done
    ensures |Concat(parts[i..])| == |parts[i]| + |Concat(parts[i + 1..])|
  {
    assert parts[i..][0] == parts[i] && parts[i..][1..] == parts[i + 1..];
    var rest := if |parts[i]| < room then FitParts(parts[i + 1..], room - |parts[i]|) else "";
    assert done + (parts[i] + rest) == done + parts[i] + rest;
    assert done + "" == done;
  }

  /** What stands in the buffer after i parts, all of which fitted */
  ghost predicate Fitted(parts: seq<string>, i: nat, done: string, room: nat) {
    && i <= |parts| && |done| < room
    && done + FitParts(parts[i..], room - |done|) == FitParts(parts, room)
    && |done| + |Concat(parts[i..])| == |Concat(parts)|
  }

  lemma FittedNone(parts: seq<string>, room: nat)
    requires room > 0
    ensures Fitted(parts, 0, "", room)
  {
    assert parts[0..] == parts;
    assert "" + FitParts(parts, room) == FitParts(parts, room);
  }

  lemma FittedNext(parts: seq<string>, i: nat, done: string, room: nat)
    requires Fitted(parts, i, done, room) && i < |parts|
    ensures if |parts[i]| < room - |done| then Fitted(parts, i + 1, done + parts[i], room)
            else done == FitParts(parts, room) && room <= |Concat(parts)|
  {
    hide FitParts, Concat;
    FitPartsStep(parts, i, done, room - |done|);
  }

  lemma FittedAll(parts: seq<string>, done: string, room: nat)
    requires Fitted(parts, |parts|, done, room)
    ensures done == FitParts(parts, room) && |Concat(parts)| == |done| < room
  {
    assert done + "" == done;
  }

  method PrintPart(out: array<char>, pos: nat, part: string, ghost before: string, ghost done: string)
      returns (fits: bool)
    requires pos < out.Length && out[..pos] == before + done
    modifies out
    ensures fits <==> |part| < out.Length - pos
    ensures out[..if fits then pos + |part| else pos] == before + if fits then done + part else done
  {
    fits := Snprintf(out, pos, part);
    assert before + done + part == before + (done + part);
  }

  /** The parts of wpa_supplicant_ie_txt or wpa_snprintf_hex: up to the first that does not fit */
  method PrintParts(out: array<char>, start: nat, parts: seq<string>) returns (pos: nat, whole: bool)
    requires start < out.Length
    modifies out
    ensures start <= pos < out.Length && out[..pos] == old(out[..start]) + FitParts(parts, out.Length - start)
    ensures pos == start + |FitParts(parts, out.Length - start)|
    ensures whole <==> start + |Concat(parts)| < out.Length
  {
    hide FitParts, Concat, Fitted;
    pos := start;
    ghost var before, done, room := out[..start], "", out.Length - start;
    FittedNone(parts, room);
    assert before + done == before;
    var i := 0;
    while i < |parts|
      invariant i <= |parts| && start <= pos < out.Length && pos == start + |done|
      invariant Fitted(parts, i, done, room)
      invariant out[..pos] == before + done
    {
      FittedNext(parts, i, done, room);
      var fits := PrintPart(out, pos, parts[i], before, done);
      if !fits { return pos, false; }
      done := done + parts[i];
      pos := pos + |parts[i]|;
      i := i + 1;
    }
    FittedAll(parts, done, room);
    whole := true;
  }

  /** anqp_add_hex: everything, or back to where it started */
  method AddHex(out: array<char>, start: nat, parts: seq<string>) returns (pos: nat)
    requires start < out.Length
    modifies out
    ensures var t := if start + |Concat(parts)| < out.Length then Concat(parts) else "";
      pos == start + |t| && out[..pos] == old(out[..start]) + t
  {
    FitPartsIff(parts, out.Length - start);
    hide Concat, FitParts;
    ghost var before := out[..start];
    var whole;
    pos, whole := PrintParts(out, start, parts);
    if !whole {
      assert out[..start] == out[..pos][..start] == before;
      assert before + "" == before;
      pos := start;
    }
  }

  /** One piece; None when print_bss_info gives up */
  method PrintPiece(out: array<char>, start: nat, p: Piece) returns (r: Option<nat>)
    requires start < out.Length
    modifies out
    ensures match WritePiece(p, out.Length - start)
      case None => r == None
      case Some(t) => r == Some(start + |t|) && out[..start + |t|] == old(out[..start]) + t
    ensures out[..start] == old(out[..start])
  {
    hide Concat, FitParts;
    ghost var before := out[..start];
    match p {
      case Must(t) =>
        var fits := Snprintf(out, start, t);
        r := if fits then Some(start + |t|) else None;
      case Skipped(parts) =>
        var pos := AddHex(out, start, parts);
        assert out[..start] == out[..pos][..start] == before;
        r := Some(pos);
      case Cut(parts) =>
        var pos, whole := PrintParts(out, start, parts);
        assert out[..start] == out[..pos][..start] == before;
        r := Some(pos);
    }
  }

  /** One turn of the method below */
  method PrintNextPiece(out: array<char>, pos: nat, pieces: seq<Piece>, i: nat, ghost all: string)
      returns (r: Option<nat>)
    requires i < |pieces| && pos < out.Length && out[..pos] == all
    modifies out
    ensures out[..pos] == all && (r.Some? ==> pos <= r.value < out.Length)
    ensures Behind(all, Write(pieces[i..], out.Length - pos))
         == if r.None? then None else Behind(out[..r.value], Write(pieces[i + 1..], out.Length - r.value))
  {
    hide Write, WritePiece, Behind;
    WriteNext(pieces, i, all, out.Length - pos);
    r := PrintPiece(out, pos, pieces[i]);
  }

  /** print_bss_info: the number of octets written, or 0 when it gives up */
  method PrintBssInfo(out: array<char>, start: nat, pieces: seq<Piece>) returns (len: nat)
    requires start < out.Length
    modifies out
    ensures start + len < out.Length && out[..start] == old(out[..start])
    ensures match Write(pieces, out.Length - start)
      case None => len == 0
      case Some(t) => len == |t| && out[..start + len] == old(out[..start]) + t
  {
    var pos := start;
    ghost var before := out[..start];
    ghost var all := before;
    assert pieces[0..] == pieces;
    hide Write, WritePiece;
    for i := 0 to |pieces|
      invariant start <= pos < out.Length && out[..pos] == all && out[..start] == before
      invariant Behind(all, Write(pieces[i..], out.Length - pos)) == Behind(before, Write(pieces, out.Length - start))
    {
      var r := PrintNextPiece(out, pos, pieces, i, all);
      assert out[..start] == out[..pos][..start];
      if r.None? { return 0; }
      pos := r.value;
      all := out[..pos];
    }
    len := pos - start;
    assert pieces[|pieces|..] == [];
    NothingBehind(all, out.Length - pos);
  }

  function Behind(done: string, r: Option<string>): Option<string> {
    match r
    case None => None
    case Some(t) => Some(done + t)
  }

  lemma NothingBehind(done: string, room: nat)
    requires room > 0
    ensures Behind(done, Write([], room)) == Some(done)
  {
    assert done + "" == done;
  }

  lemma WriteNext(pieces: seq<Piece>, i: nat, done: string, room: nat)
    requires i < |pieces| && room > 0
    ensures Behind(done, Write(pieces[i..], room)) ==
      match WritePiece(pieces[i], room)
      case None => None
      case Some(t) => Behind(done + t, Write(pieces[i + 1..], room - |t|))
  {
    assert pieces[i..][1..] == pieces[i + 1..];
    var p := WritePiece(pieces[i], room);
    if p.Some? {
      var rest := Write(pieces[i + 1..], room - |p.value|);
      if rest.Some? { assert done + (p.value + rest.value) == done + p.value + rest.value; }
    }
  }

  lemma WriteStarts(pieces: seq<Piece>, room: nat)
    requires room > 0 && pieces != [] && pieces[0].Must? && pieces[0].text != ""
    ensures Write(pieces, room).Some? ==> Write(pieces, room).value != ""
  {
  }

  /** The end mark over the last five octets. */
  method MarkEnd(out: array<char>, ret: nat)
    requires 5 <= ret < out.Length
    modifies out
    ensures out[..ret] == Marked(old(out[..ret]))
  {
    ghost var text := out[..ret];
    var fits := Snprintf(out, ret - 5, "####\n");
    assert out[..ret - 5] == text[..ret - 5];
  }

  /** The text so far with what is still to come, and how many entries that makes */
  function Answer(asked: seq<Item>, m: nat, text: string, room: nat): (string, nat)
    requires m <= |asked| && room > 0
  {
    (text + Concat(Printed(asked[m..], room)), m + |Printed(asked[m..], room)|)
  }

  lemma AnswerStart(asked: seq<Item>, room: nat)
    requires room > 0
    ensures Answer(asked, 0, "", room) == (Concat(Printed(asked, room)), |Printed(asked, room)|)
  {
    assert asked[0..] == asked;
    assert "" + Concat(Printed(asked, room)) == Concat(Printed(asked, room));
  }

  /** One turn of the reply loop, at the m-th entry asked for */
  lemma AnswerNext(asked: seq<Item>, m: nat, text: string, room: nat)
    requires m < |asked| && room > 0
    ensures Answer(asked, m, text, room) ==
      match Write(asked[m].pieces, room)
      case None => (text, m)
      case Some(t) => Answer(asked, m + 1, text + t, room - |t|)
  {
    assert asked[m..][1..] == asked[m + 1..];
    hide Write;
    var w := Write(asked[m].pieces, room);
    if w.Some? {
      var rest := Printed(asked[m + 1..], room - |w.value|);
      assert ([w.value] + rest)[1..] == rest;
      assert text + (w.value + Concat(rest)) == text + w.value + Concat(rest);
    } else {
      assert text + "" == text;
    }
  }

  lemma AnswerEnd(asked: seq<Item>, text: string, room: nat)
    requires room > 0
    ensures Answer(asked, |asked|, text, room) == (text, |asked|)
  {
    assert text + "" == text;
  }

  /** One turn of that loop */
  method PrintNext(out: array<char>, ret: nat, asked: seq<Item>, m: nat, ghost text: string) returns (len: nat)
    requires m < |asked| && WithId(asked) && ret < out.Length && out[..ret] == text
    modifies out
    ensures ret + len < out.Length && out[..ret] == text
    ensures Answer(asked, m, text, out.Length - ret)
         == if len == 0 then (text, m) else Answer(asked, m + 1, out[..ret + len], out.Length - ret - len)
  {
    hide Write, Answer;
    AnswerNext(asked, m, text, out.Length - ret);
    WriteStarts(asked[m].pieces, out.Length - ret);
    len := PrintBssInfo(out, ret, asked[m].pieces);
  }

  /** The loop of the command over the entries from bss to bsslast, up to the end
      mark; done says that the last of them was written. */
  method PrintItems(out: array<char>, asked: seq<Item>) returns (ret: nat, done: bool)
    requires asked != [] && out.Length > 0 && WithId(asked)
    modifies out
    ensures ret < out.Length && out[..ret] == Concat(Printed(asked, out.Length))
    ensures done <==> |Printed(asked, out.Length)| == |asked|
  {
    ret := 0;
    var m := 0;
    ghost var text := "";
    AnswerStart(asked, out.Length);
    hide Write, Answer, Concat, Printed;
    while true
      invariant m < |asked| && ret < out.Length && out[..ret] == text
      invariant Answer(asked, m, text, out.Length - ret) == Answer(asked, 0, "", out.Length)
      decreases |asked| - m
    {
      var len := PrintNext(out, ret, asked, m, text);
      if len == 0 { return ret, false; }
      text := out[..ret + len];
      ret, m := ret + len, m + 1;
      if m == |asked| {
        AnswerEnd(asked, text, out.Length - ret);
        return ret, true;
      }
    }
  }

  /** With the delimiter in the mask, every entry ends with one. */
  ghost predicate Delimited(items: seq<Item>) {
    forall i | 0 <= i < |items| :: |items[i].pieces| >= 2 && items[i].pieces[|items[i].pieces| - 1] == Must("====\n")
  }

  lemma {:induction false} WriteEnds(pieces: seq<Piece>, room: nat)
    requires room > 0 && pieces != [] && pieces[|pieces| - 1] == Must("====\n")
    ensures var w := Write(pieces, room);
      w.Some? ==> |w.value| >= 5 && w.value[|w.value| - 5..] == "====\n"
    decreases |pieces|
  {
    var p := WritePiece(pieces[0], room);
    if p.Some? && |pieces| > 1 {
      WriteEnds(pieces[1..], room - |p.value|);
    } else if p.Some? {
      assert pieces[1..] == [] && p.value + "" == p.value;
    }
  }

  lemma {:induction false} ConcatLast(texts: seq<string>)
    requires texts != [] && |texts[|texts| - 1]| >= 5
    ensures var t := texts[|texts| - 1]; var c := Concat(texts);
      |c| >= 5 && c[|c| - 5..] == t[|t| - 5..]
  {
    if |texts| == 1 {
      assert texts[1..] == [] && texts[0] + "" == texts[0];
    } else {
      ConcatLast(texts[1..]);
    }
  }

  /** The last five octets of a complete listing are the delimiter that the end mark replaces. */
  lemma {:induction false} ListingEnds(asked: seq<Item>, room: nat)
    requires room > 0 && asked != [] && Delimited(asked) && |Printed(asked, room)| == |asked|
    ensures var t := Printed(asked, room)[|asked| - 1]; |t| >= 5 && t[|t| - 5..] == "====\n"
    decreases |asked|
  {
    WriteEnds(asked[0].pieces, room);
    if |asked| > 1 {
      assert Write(asked[0].pieces, room).Some?;
      hide Write, Printed, Concat;
      PrintedNext(asked, room);
      ListingEnds(asked[1..], room - |Write(asked[0].pieces, room).value|);
    }
  }

  lemma MarkReplacesDelimiter(asked: seq<Item>, room: nat)
    requires room > 0 && asked != [] && Delimited(asked) && |Printed(asked, room)| == |asked|
    ensures var c := Concat(Printed(asked, room)); |c| >= 5 && c[|c| - 5..] == "====\n"
  {
    ListingEnds(asked, room);
    ConcatLast(Printed(asked, room));
  }

  /** The end mark stands in for the last delimiter if and only if it was asked for, the last entry of
      the list was, and all were printed. */
  lemma EndMark(asked: seq<Item>, delim: bool, atEnd: bool, room: nat)
    requires room > 0 && asked != [] && Delimited(asked)
    ensures var c, r := Concat(Printed(asked, room)), Reply(asked, delim, atEnd, room);
      if delim && atEnd && |Printed(asked, room)| == |asked|
      then exists front :: c == front + "====\n" && r == front + "####\n"
      else r == c
  {
    var c := Concat(Printed(asked, room));
    if |Printed(asked, room)| == |asked| {
      MarkReplacesDelimiter(asked, room);
      var front := c[..|c| - 5];
      assert c == front + c[|c| - 5..];
    }
    hide Printed, Concat, Delimited;
  }

  /** The whole loop, with the end mark behind the last entry of the list. */
  method PrintRange(out: array<char>, items: seq<Item>, from: nat, to: nat, delim: bool) returns (ret: nat)
    requires from <= to < |items| && out.Length > 0 && WithId(items) && (delim ==> Delimited(items))
    modifies out
    ensures ret < out.Length
    ensures out[..ret] == Reply(items[from..to + 1], delim, to == |items| - 1, out.Length)
  {
    var done;
    ghost var asked := items[from..to + 1];
    ret, done := PrintItems(out, items[from..to + 1]);
    if done && delim && to == |items| - 1 {
      MarkReplacesDelimiter(asked, out.Length);
      MarkEnd(out, ret);
    }
  }

  /** RANGE=first-last: the reply for the entries of the range, in id order; the value returned
      is the number of octets of the reply. */
  method Range(out: array<char>, walk: seq<nat>, items: seq<Item>, first: nat, last: nat, delim: bool)
      returns (ret: nat)
    requires SameEntries(walk, items) && ById(items) && out.Length > 0 && WithId(items) && (delim ==> Delimited(items))
    requires forall i | 0 <= i < |items| :: items[i].id <= UINT_MAX
    modifies out
    ensures ret < out.Length
    ensures var asked := InRange(items, first, last);
            out[..ret] == Reply(asked, delim, asked != [] && asked[|asked| - 1] == items[|items| - 1], out.Length)
  {
    hide WithId, Delimited, Printed, Reply;
    var from, to := RangeEnds(walk, items, first, last);
    if from == |items| {
      NothingAsked(delim, out.Length);
      return 0;
    }
    ghost var asked := items[from..to + 1];
    assert asked[|asked| - 1] == items[|items| - 1] <==> to == |items| - 1;
    ret := PrintRange(out, items, from, to, delim);
  }

  lemma NothingAsked(delim: bool, size: nat)
    requires size > 0
    ensures Reply([], delim, false, size) == ""
  {
  }

  // --- FIRST and NEXT --------------------------------------------------------

  lemma {:induction false} PositionIs(items: seq<Item>, k: nat)
    requires ById(items) && k < |items|
    ensures Position(items, items[k].id) == k
  {
    if k > 0 {
      assert forall i | 0 <= i < |items[1..]| :: items[1..][i] == items[i + 1];
      PositionIs(items[1..], k - 1);
    }
  }

  /** The entry behind the one at position k */
  function Successor(items: seq<Item>, k: nat): Option<nat> {
    if k + 1 < |items| then Some(items[k + 1].id) else None
  }

  /** NEXT-id: the entry behind the one with that id, if both exist. */
  method Next(walk: seq<nat>, items: seq<Item>, id: nat) returns (r: Option<nat>)
    requires SameEntries(walk, items) && ById(items)
    ensures r == Successor(items, Position(items, id))
  {
    var k := GetId(walk, items, id);
    if k < |items| {
      PositionIs(items, k);
      if k + 1 < |items| {
        return Some(items[k + 1].id);
      }
    }
    return None;
  }

  /** FIRST and then NEXT with the id just seen, until there is none, visits the whole list. */
  method Enumerate(walk: seq<nat>, items: seq<Item>) returns (seen: seq<nat>)
    requires SameEntries(walk, items) && ById(items)
    ensures |seen| == |items| && forall i | 0 <= i < |items| :: seen[i] == items[i].id
  {
    seen := [];
    var at := if items == [] then None else Some(items[0].id);
    while at.Some?
      invariant |seen| <= |items|
      invariant forall i | 0 <= i < |seen| :: seen[i] == items[i].id
      invariant at == if |seen| < |items| then Some(items[|seen|].id) else None
      decreases |items| - |seen|
    {
      PositionIs(items, |seen|);
      var id := at.value;
      seen := seen + [id];
      at := Next(walk, items, id);
    }
  }
}
