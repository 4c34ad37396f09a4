/** Address lists and frequency lists in the configuration file: which survive being written to a
    line and read again, and what is left of those that do not. */
module ConfigFileLists {
  import opened Collections
  import opened ConfigText
  import opened ConfigRoundTrip
  import opened ConfigLists

  // --- lines that fit --------------------------------------------------------

  /** A character of a written list */
  predicate ListChar(c: Byte) {
    HexNum(c) >= 0 || c == COLON || c == SLASH || c == SPACE
  }

  /** The text of a list ends in a digit. */
  ghost predicate ListText(t: Text) {
    t != [] && (forall i | 0 <= i < |t| :: ListChar(t[i])) && HexNum(t[|t| - 1]) >= 0
  }

  lemma ListTextPlain(t: Text)
    requires ListText(t)
    ensures Plain(t) && Kept(t)
  {
    PlainKept(t);
  }

  lemma Joined(a: Text, c: Byte, b: Text)
    requires ListText(a) && ListText(b) && ListChar(c)
    ensures ListText(a + [c] + b) && ListText(a + ([c] + b))
  {
    var t := a + [c] + b;
    assert a + ([c] + b) == t && t[|t| - 1] == b[|b| - 1];
    hide ListChar;
    assert forall i | 0 <= i < |t| :: t[i] == if i < |a| then a[i] else if i == |a| then c else b[i - |a| - 1];
  }

  lemma {:induction false} MacText(a: Text)
    requires a != []
    ensures ListText(WriteMac(a))
  {
    if |a| == 1 {
      HexDigits(a);
    } else {
      HexDigits(a[..1]);
      MacText(a[1..]);
      Joined(WriteHex(a[..1]), COLON, WriteMac(a[1..]));
    }
  }

  lemma EntryText(e: Entry)
    ensures ListText(WriteEntry(e))
  {
    MacText(e.addr);
    MacText(e.mask);
    hide ListText;
    if e.mask == ALL_ONES {
      assert WriteMac(e.addr) + [] == WriteMac(e.addr);
    } else {
      Joined(WriteMac(e.addr), SLASH, WriteMac(e.mask));
    }
  }

  lemma {:induction false} AddrListText(list: seq<Entry>)
    requires list != []
    ensures ListText(WriteAddrList(list))
  {
    var m := |list| - 1;
    EntryText(list[m]);
    WriteLast(list);
    hide WriteEntry, ListText;
    if m == 0 {
      assert WriteEntry(list[m]) + [] == WriteEntry(list[m]);
    } else {
      AddrListText(list[..m]);
      Joined(WriteEntry(list[m]), SPACE, WriteAddrList(list[..m]));
    }
  }

  lemma NumberText(n: nat)
    ensures ListText(WriteInt(n))
  {
  }

  lemma {:induction false} IntsText(s: seq<nat>)
    requires s != []
    ensures ListText(WriteInts(s))
  {
    NumberText(s[0]);
    hide WriteInt, ListText;
    if |s| > 1 {
      IntsText(s[1..]);
      Joined(WriteInt(s[0]), SPACE, WriteInts(s[1..]));
    }
  }

  // --- lines that do not fit -------------------------------------------------

  lemma PrefixMembers(p: Text, s: Text)
    requires Prefix(p, s)
    ensures forall c | c in p :: c in s
  {
  }

  predicate Unmarked(v: Text) {
    QUOTE !in v && HASH !in v && LF !in v
  }

  lemma PrefixUnmarked(p: Text, s: Text)
    requires Prefix(p, s) && Unmarked(s)
    ensures Unmarked(p)
  {
    PrefixMembers(p, s);
  }

  lemma {:induction false} TrimKeeps(s: Text, k: nat)
    requires k < |s| && !Blank(s[k]) && s[k] != LF
    ensures var t := TrimRight(s); k < |t| && !Blank(t[|t| - 1])
  {
    if |s| > 1 && (Blank(s[|s| - 1]) || s[|s| - 1] == LF) {
      TrimKeeps(s[..|s| - 1], k);
    }
  }

  lemma UnmarkedKept(name: Text, v: Text, e: Text)
    requires Name(name) && Unmarked(v) && LineEnd(e)
    ensures CutComment(Body(name, v) + e) == Body(name, v) + e
  {
    var s := Body(name, v) + e;
    assert HASH !in s;
    NoComment(s);
  }

  lemma TrimEnd(b: Text, e: Text)
    requires b != [] && LineEnd(e)
    ensures TrimRight(b + e) == TrimRight(b)
  {
    if e == [LF] { assert (b + e)[..|b|] == b; } else { assert b + e == b; }
  }

  /** w is what trimming leaves of a value with a character at k that is no blank. */
  ghost predicate Trimmed(w: Text, v: Text, k: nat) {
    Prefix(w, v) && k < |w| && !Blank(w[|w| - 1])
  }

  lemma TrimmedValue(name: Text, v: Text, k: nat)
    requires Name(name) && LF !in v && k < |v| && !Blank(v[k])
    ensures exists w :: TrimRight(Body(name, v)) == Body(name, w) && Trimmed(w, v, k)
  {
    var b := Body(name, v);
    var n := |name| + 1;
    var t := TrimRight(b);
    assert b[n + k] == v[k];
    TrimKeeps(b, n + k);
    TrimPrefix(b);
    hide TrimRight;
    var w := v[..|t| - n];
    assert b[..|t|] == Body(name, w);
    assert w[|w| - 1] == t[|t| - 1];
  }

  lemma CleanPlain(name: Text, v: Text, e: Text, k: nat)
    requires Name(name) && Unmarked(v) && LineEnd(e) && k < |v| && !Blank(v[k])
    ensures exists w :: Clean(Content(name, v) + e) == Some(Body(name, w)) && Trimmed(w, v, k)
  {
    CleanIs(name, v, e);
    UnmarkedKept(name, v, e);
    BodyShape(name, v);
    TrimEnd(Body(name, v), e);
    TrimmedValue(name, v, k);
    hide Clean, Content, Body, CutComment, TrimRight, Trimmed;
  }

  lemma SplitPlain(name: Text, w: Text)
    requires Name(name) && Unmarked(w)
    ensures Body(name, w) != CLOSE && Split(Body(name, w)) == Some((name, w))
  {
    SplitWritten(name, w);
    assert !Unpaired(w);
  }

  /** What the reader's buffer takes of a value */
  function Buffered(name: Text, value: Text): (v: Text)
    ensures Prefix(v, value)
  {
    if |name| + |value| <= 1997 then value
    else if |name| <= 1997 then value[..1997 - |name|]
    else []
  }

  lemma ReadPlain(name: Text, value: Text, rest: Text)
    requires Name(name) && LF !in value
    ensures var e := if |name| + |value| <= 1996 then [LF] else [];
      ReadLine(2000, Content(name, value) + [LF] + rest) == (Content(name, Buffered(name, value)) + e, rest)
  {
    var c := Content(name, value);
    ContentLine(name, value);
    ReadWritten(2000, c, rest);
    hide ReadLine;
    if |c| + 1 >= 2000 {
      BufferedContent(name, value);
      Nothing(c[..1999]);
    }
  }

  lemma BufferedContent(name: Text, value: Text)
    requires |name| <= 64 && |name| + |value| >= 1997
    ensures Content(name, value)[..1999] == Content(name, Buffered(name, value))
  {
    var h := [TAB] + name + [EQUALS];
    assert Content(name, value) == h + value;
    assert (h + value)[..1999] == h + value[..1999 - |h|];
  }

  /** A value without quote and # is read up to where it, or the buffer, ends, and without
      trailing blanks. */
  lemma PlainLine(name: Text, value: Text, k: nat, rest: Text)
    requires Name(name) && Unmarked(value) && k < |value| && |name| + k < 1997 && !Blank(value[k])
    ensures var line := NetworkLine(Content(name, value) + [LF] + rest);
      line.Pair? && line.name == name && line.rest == rest && Trimmed(line.value, Buffered(name, value), k)
  {
    var v := Buffered(name, value);
    var stream := Content(name, value) + [LF] + rest;
    ReadPlain(name, value, rest);
    var e := if |name| + |value| <= 1996 then [LF] else [];
    PrefixUnmarked(v, value);
    CleanPlain(name, v, e, k);
    var w :| Clean(Content(name, v) + e) == Some(Body(name, w)) && Trimmed(w, v, k);
    assert stream != [];
    PrefixUnmarked(w, v);
    SplitPlain(name, w);
    hide Clean, ReadLine, Content, Body, Split, Trimmed, Unmarked, Name;
    assert GetLine(2000, stream) == Some((Body(name, w), rest));
    hide GetLine;
  }

  /** What is read of a line that is too long is shorter than the value. */
  lemma LongPlainLine(name: Text, value: Text, w: Text, k: nat)
    requires Name(name) && LF !in value && |Content(name, value)| > 1999 && Trimmed(w, Buffered(name, value), k)
    ensures CutOf(w, value) && w != [] && !Blank(w[|w| - 1]) && |w| > k
  {
    ContentLine(name, value);
    hide Content;
    PrefixTrans(w, Buffered(name, value), value);
  }

  // --- address lists that are cut --------------------------------------------

  ghost predicate CutOf(p: Text, s: Text) {
    Prefix(p, s) && |p| < |s|
  }

  lemma {:induction false} MacCut(a: Text, q: Text)
    requires a != [] && CutOf(q, WriteMac(a))
    ensures ParseMac(q, |a|) == None
  {
    if |a| > 1 && |q| >= 3 {
      var r := WriteMac(a[1..]);
      var w := WriteHex(a[..1]) + [COLON] + r;
      assert w[3..] == r && q[3..] == r[..|q| - 3];
      MacCut(a[1..], q[3..]);
    }
  }

  /** What is left of an address is read as the address without its mask, or not at all. */
  lemma EntryCut(e: Entry, p: Text, masked: bool)
    requires p != [] && CutOf(p, WriteEntry(e))
    ensures ParseEntry(p, masked) == if |p| == 17 then Some(Entry(e.addr, ALL_ONES)) else None
  {
    var a := WriteMac(e.addr);
    var w := WriteEntry(e);
    hide ParseMac, WriteMac;
    if |p| < 17 {
      assert p == w[..|p|] == a[..|p|];
      MacCut(e.addr, p);
    } else if |p| == 17 {
      assert p == w[..17] == a && a + [] == a;
      MacRoundTrip(e.addr, []);
    } else {
      var m := WriteMac(e.mask);
      var q := p[18..];
      assert w == a + ([SLASH] + m);
      assert p == w[..|p|] == a + ([SLASH] + q) && q == m[..|q|];
      MacRoundTrip(e.addr, [SLASH] + q);
      MacCut(e.mask, q);
      assert ([SLASH] + q)[1..] == q;
    }
  }

  /** The text of a list whose first i addresses were lost, and p of the next one kept. */
  function CutText(list: seq<Entry>, i: nat, p: Text): Text
    requires i <= |list|
  {
    if p == [] then WriteAddrList(list[i..])
    else if i == |list| then p
    else WriteAddrList(list[i..]) + ([SPACE] + p)
  }

  /** What the parser takes that text for */
  function CutList(list: seq<Entry>, i: nat, p: Text, abort: bool): Option<seq<Entry>>
    requires 0 < i <= |list|
  {
    if p == [] then Some(list[i..])
    else if |p| == 17 then Some([Entry(list[i - 1].addr, ALL_ONES)] + list[i..])
    else if abort then None
    else Some(list[i..])
  }

  lemma Assoc(a: Text, b: Text, c: Text)
    ensures (a + b) + c == a + (b + c)
  {
  }

  lemma Nothing(a: Text)
    ensures a + [] == a && [] + a == a
  {
  }

  lemma Behind(l: seq<Entry>, x: Text)
    requires l != []
    ensures var m := |l| - 1;
      WriteAddrList(l) + x
      == WriteEntry(l[m]) + if m == 0 then x else [SPACE] + (WriteAddrList(l[..m]) + x)
  {
    hide WriteEntry, WriteAddrList;
    WriteLast(l);
    var m := |l| - 1;
    Assoc(WriteEntry(l[m]), RestOfList(l), x);
    if m == 0 { Nothing(x); } else { Assoc([SPACE], WriteAddrList(l[..m]), x); }
  }

  lemma CutTextStep(list: seq<Entry>, i: nat, p: Text)
    requires 0 < i < |list| && (i < |list| - 1 || p != [])
    ensures var m := |list| - 1;
      CutText(list, i, p) == WriteEntry(list[m]) + ([SPACE] + CutText(list[..m], i, p))
  {
    hide WriteEntry, WriteAddrList;
    var m := |list| - 1;
    var l := list[i..];
    assert l[|l| - 1] == list[m] && l[..|l| - 1] == list[..m][i..];
    if p == [] { WriteLast(l); } else { Behind(l, [SPACE] + p); }
  }

  lemma CutAtEnd(w: Text, r: Text, t: Text)
    requires CutOf(t, w + ([SPACE] + r)) && |t| > |w| && t[|t| - 1] != SPACE
    ensures var u := t[|w| + 1..];
      t == w + ([SPACE] + u) && CutOf(u, r) && u != [] && u[|u| - 1] != SPACE
  {
    var all := w + ([SPACE] + r);
    var u := t[|w| + 1..];
    assert all[|w|] == SPACE && t[|w|] == all[|w|];
    assert u == r[..|u|];
    assert t == w + ([SPACE] + u);
  }

  lemma CutAtStart(w: Text, r: Text, t: Text)
    requires CutOf(t, w + r) && |t| <= |w|
    ensures Prefix(t, w)
  {
    assert (w + r)[..|t|] == w[..|t|];
  }

  /** Where a cut falls: between two addresses, or in one of them. */
  lemma {:induction false} CutWhere(list: seq<Entry>, t: Text)
    requires list != [] && t != [] && CutOf(t, WriteAddrList(list)) && t[|t| - 1] != SPACE
    ensures CutSomewhere(list, t)
    decreases |list|
  {
    hide WriteEntry, WriteAddrList, CutOf, CutText;
    var m := |list| - 1;
    var w := WriteEntry(list[m]);
    WriteLast(list);
    if |t| <= |w| {
      CutAtStart(w, RestOfList(list), t);
      CutFirstAddress(list, t);
    } else {
      NoRest(list, t);
      CutAtEnd(w, WriteAddrList(list[..m]), t);
      var u := t[|w| + 1..];
      CutWhere(list[..m], u);
      CutLater(list, u);
    }
  }

  ghost predicate CutSomewhere(list: seq<Entry>, t: Text) {
    exists i, p :: 0 < i <= |list| && (i == |list| ==> p != [])
                   && CutOf(p, WriteEntry(list[i - 1])) && t == CutText(list, i, p)
  }

  lemma NoRest(list: seq<Entry>, t: Text)
    requires list != [] && CutOf(t, WriteAddrList(list)) && |t| > |WriteEntry(list[|list| - 1])|
    ensures |list| > 1
  {
    hide WriteEntry;
  }

  lemma OneAddressText(list: seq<Entry>, m: nat)
    requires m < |list|
    ensures m == |list| - 1 ==> WriteAddrList(list[m..]) == WriteEntry(list[m])
    ensures CutOf([], WriteEntry(list[m]))
  {
    Nothing(WriteEntry(list[m]));
    if m == |list| - 1 {
      assert list[m..] == [list[m]];
      WriteLast([list[m]]);
    }
  }

  lemma CutFirstAddress(list: seq<Entry>, t: Text)
    requires list != [] && t != [] && CutOf(t, WriteAddrList(list)) && Prefix(t, WriteEntry(list[|list| - 1]))
    ensures CutSomewhere(list, t)
  {
    hide WriteEntry, WriteAddrList;
    var m := |list| - 1;
    OneAddressText(list, m);
    if |t| < |WriteEntry(list[m])| {
      assert t == CutText(list, |list|, t);
    } else {
      assert t == WriteEntry(list[m]);
      assert list[0..] == list;
      assert m > 0;
      OneAddressText(list, m - 1);
      assert t == CutText(list, m, []);
    }
  }

  lemma CutLater(list: seq<Entry>, u: Text)
    requires |list| > 1 && CutSomewhere(list[..|list| - 1], u)
    ensures CutSomewhere(list, WriteEntry(list[|list| - 1]) + ([SPACE] + u))
  {
    hide WriteEntry, CutOf, CutText;
    var m := |list| - 1;
    var i, p :| 0 < i <= m && (i == m ==> p != []) && CutOf(p, WriteEntry(list[..m][i - 1]))
      && u == CutText(list[..m], i, p);
    CutTextStep(list, i, p);
    assert list[..m][i - 1] == list[i - 1];
  }

  lemma OneAddress(p: Text, r: Option<Entry>, abort: bool, masked: bool, acc: seq<Entry>)
    requires p != [] && SPACE !in p && ParseEntry(p, masked) == r
    ensures ParseAddresses(p, abort, masked, acc) == After(r, [], abort, masked, acc)
  {
    assert p + [] == p;
    ParseFirst(p, [], r, abort, masked, acc);
  }

  /** The loop gets through the whole addresses to what is left of the next one. */
  lemma {:induction false} CutReached(list: seq<Entry>, p: Text, abort: bool, masked: bool, acc: seq<Entry>)
    requires list != [] && p != [] && AllReadable(list, masked)
    ensures ParseAddresses(WriteAddrList(list) + ([SPACE] + p), abort, masked, acc)
         == ParseAddresses(p, abort, masked, list + acc)
    decreases |list|
  {
    hide ParseAddresses, WriteEntry, ParseEntry, WriteAddrList;
    var m := |list| - 1;
    var e := list[m];
    var u := if m == 0 then p else WriteAddrList(list[..m]) + ([SPACE] + p);
    Behind(list, [SPACE] + p);
    EntryNoSpace(e);
    EntryRoundTrip(e, masked, [SPACE] + u);
    assert Readable(e, masked);
    ParseFirst(WriteEntry(e), [SPACE] + u, Some(e), abort, masked, acc);
    SkipOne(u, abort, masked, [e] + acc);
    if m == 0 {
      assert list + acc == [e] + acc;
    } else {
      assert AllReadable(list[..m], masked);
      CutReached(list[..m], p, abort, masked, [e] + acc);
      assert list[..m] + ([e] + acc) == list + acc;
    }
  }

  /** A list that was cut behind its first whole address is a later part of the list, perhaps
      with one more address whose mask is lost, or refused. */
  lemma CutRead(list: seq<Entry>, i: nat, p: Text, abort: bool, masked: bool)
    requires 0 < i < |list| && AllReadable(list, masked) && CutOf(p, WriteEntry(list[i - 1]))
    ensures ParseAddrList(CutText(list, i, p), abort, masked) == CutList(list, i, p, abort)
  {
    var l := list[i..];
    assert AllReadable(l, masked);
    if p == [] {
      AddrListRoundTrip(l, abort, masked);
    } else {
      EntryCut(list[i - 1], p, masked);
      EntryNoSpace(list[i - 1]);
      PrefixMembers(p, WriteEntry(list[i - 1]));
      hide ParseAddresses, ParseEntry, WriteAddrList, WriteEntry;
      CutReached(l, p, abort, masked, []);
      assert l + [] == l;
      OneAddress(p, ParseEntry(p, masked), abort, masked, l);
    }
  }

  lemma CutBehindFirst(list: seq<Entry>, t: Text)
    requires list != [] && CutOf(t, WriteAddrList(list)) && t != [] && t[|t| - 1] != SPACE
    requires |t| >= |WriteEntry(list[|list| - 1])|
    ensures exists i, p :: 0 < i < |list| && CutOf(p, WriteEntry(list[i - 1])) && t == CutText(list, i, p)
  {
    hide WriteEntry, WriteAddrList;
    CutWhere(list, t);
    var i, p :| 0 < i <= |list| && (i == |list| ==> p != [])
      && CutOf(p, WriteEntry(list[i - 1])) && t == CutText(list, i, p);
  }

  /** The text is that of a later part of the list and perhaps part of one more address, and is
      read as such. */
  ghost predicate PartRead(list: seq<Entry>, t: Text, abort: bool, masked: bool) {
    exists i, p :: 0 < i < |list| && CutOf(p, WriteEntry(list[i - 1])) && t == CutText(list, i, p)
                   && ParseAddrList(t, abort, masked) == CutList(list, i, p, abort)
  }

  lemma CutIsPart(list: seq<Entry>, t: Text, abort: bool, masked: bool)
    requires list != [] && AllReadable(list, masked)
    requires CutOf(t, WriteAddrList(list)) && t != [] && t[|t| - 1] != SPACE
    requires |t| >= |WriteEntry(list[|list| - 1])|
    ensures PartRead(list, t, abort, masked)
  {
    hide WriteEntry, WriteAddrList, CutText, CutList, ParseAddrList, AllReadable;
    CutBehindFirst(list, t);
    var i, p :| 0 < i < |list| && CutOf(p, WriteEntry(list[i - 1])) && t == CutText(list, i, p);
    CutRead(list, i, p, abort, masked);
  }

  lemma LastOfFirst(list: seq<Entry>)
    requires list != []
    ensures var k := |WriteEntry(list[|list| - 1])| - 1;
      16 <= k < 35 && k < |WriteAddrList(list)| && !Blank(WriteAddrList(list)[k])
  {
    var e := list[|list| - 1];
    WriteLast(list);
    EntryText(e);
    ListTextPlain(WriteEntry(e));
    hide WriteAddrList, WriteMac, ListText, Kept;
    assert WriteAddrList(list)[|WriteEntry(e)| - 1] == WriteEntry(e)[|WriteEntry(e)| - 1];
  }

  /** An address list whose line is too long loses the addresses at its start. */
  lemma LongAddrLine(name: Text, list: seq<Entry>, abort: bool, masked: bool, rest: Text)
    requires Name(name) && list != [] && AllReadable(list, masked)
    requires |Content(name, WriteAddrList(list))| > 1999
    ensures var line := NetworkLine(Content(name, WriteAddrList(list)) + [LF] + rest);
      line.Pair? && line.name == name && line.rest == rest && PartRead(list, line.value, abort, masked)
  {
    var value := WriteAddrList(list);
    var k := |WriteEntry(list[|list| - 1])| - 1;
    AddrListText(list);
    ListTextPlain(value);
    assert Unmarked(value);
    LastOfFirst(list);
    hide WriteEntry, WriteAddrList, NetworkLine, Content, AllReadable, PartRead, ListText, Kept, Trimmed;
    PlainLine(name, value, k, rest);
    var t := NetworkLine(Content(name, value) + [LF] + rest).value;
    LongPlainLine(name, value, t, k);
    CutIsPart(list, t, abort, masked);
  }

  lemma CutListDiffers(list: seq<Entry>, i: nat, p: Text, abort: bool)
    requires 0 < i < |list| && CutOf(p, WriteEntry(list[i - 1]))
    ensures CutList(list, i, p, abort) != Some(list)
  {
    var e := list[i - 1];
    if |p| == 17 && i == 1 {
      assert e.mask != ALL_ONES;
      assert ([Entry(e.addr, ALL_ONES)] + list[i..])[0] != list[0];
    }
  }

  /** An address list survives the file if and only if its line fits the reader's buffer. */
  lemma AddrLineIff(name: Text, list: seq<Entry>, abort: bool, masked: bool, rest: Text)
    requires Name(name) && list != [] && AllReadable(list, masked)
    ensures var value := WriteAddrList(list); var line := NetworkLine(Content(name, value) + [LF] + rest);
      && line.Pair? && line.name == name && line.rest == rest
      && (ParseAddrList(line.value, abort, masked) == Some(list) <==> |Content(name, value)| <= 1999)
  {
    var value := WriteAddrList(list);
    hide NetworkLine, Content, CutText, CutList, ParseAddrList, WriteAddrList, WriteEntry, Name, Kept;
    if |Content(name, value)| <= 1999 {
      AddrListText(list);
      ListTextPlain(value);
      LineRoundTrip(name, value, rest);
      AddrListRoundTrip(list, abort, masked);
    } else {
      LongAddrLine(name, list, abort, masked, rest);
      var line := NetworkLine(Content(name, value) + [LF] + rest);
      var i, p :| 0 < i < |list| && CutOf(p, WriteEntry(list[i - 1])) && line.value == CutText(list, i, p)
        && ParseAddrList(line.value, abort, masked) == CutList(list, i, p, abort);
      CutListDiffers(list, i, p, abort);
    }
  }

  // --- frequency lists -------------------------------------------------------

  lemma FreqsPrefix(s: seq<nat>)
    requires s != []
    ensures Prefix(WriteFreqs(s), WriteInts(s)) && WriteFreqs(s) != []
    ensures |WriteInts(s)| > 10 * |s| ==> |WriteFreqs(s)| < |WriteInts(s)|
  {
    IntsText(s);
  }

  /** A frequency list survives the file if and only if its text fits the writer's buffer of ten
      octets for each frequency, and its line the reader's. */
  lemma FreqsLineIff(name: Text, s: seq<nat>, rest: Text)
    requires Name(name) && s != [] && forall i | 0 <= i < |s| :: s[i] > 0
    ensures var line := NetworkLine(Content(name, WriteFreqs(s)) + [LF] + rest);
      && line.Pair? && line.name == name && line.rest == rest
      && (ParseInts(line.value) == s <==>
            |WriteInts(s)| <= 10 * |s| && |Content(name, WriteInts(s))| <= 1999)
  {
    var all := WriteInts(s);
    var value := WriteFreqs(s);
    IntsText(s);
    ListTextPlain(all);
    FreqsPrefix(s);
    assert Unmarked(all);
    PrefixUnmarked(value, all);
    FirstDigit(s);
    IntsRoundTrip(s);
    var line := NetworkLine(Content(name, value) + [LF] + rest);
    PlainLine(name, value, 0, rest);
    if |all| <= 10 * |s| && |Content(name, all)| <= 1999 {
      LineRoundTrip(name, all, rest);
    } else {
      hide NetworkLine, WriteInts, ParseInts, Plain, Kept, ListText, WriteFreqs, Content, Trimmed;
      FreqsCut(name, s, line.value);
      CutListLost(s, line.value);
    }
  }

  lemma FreqsCut(name: Text, s: seq<nat>, w: Text)
    requires Name(name) && s != [] && LF !in WriteFreqs(s) && Trimmed(w, Buffered(name, WriteFreqs(s)), 0)
    requires |WriteInts(s)| > 10 * |s| || |Content(name, WriteInts(s))| > 1999
    ensures CutOf(w, WriteInts(s))
  {
    FreqsPrefix(s);
    PrefixTrans(w, Buffered(name, WriteFreqs(s)), WriteFreqs(s));
    PrefixTrans(w, WriteFreqs(s), WriteInts(s));
    if |WriteInts(s)| <= 10 * |s| { LongPlainLine(name, WriteFreqs(s), w, 0); }
  }

  lemma FirstDigit(s: seq<nat>)
    requires s != []
    ensures WriteFreqs(s) != [] && !Blank(WriteFreqs(s)[0])
  {
    assert IsDigit(WriteInt(s[0])[0]);
    assert WriteInts(s)[0] == WriteInt(s[0])[0];
  }
}
