/** What the parsers of address lists and integer arrays accept, and what they make of it. */
module ConfigListParsing {
  import opened Collections
  import opened ConfigText
  import opened ConfigParsing
  import opened ConfigLists

  // --- addresses -------------------------------------------------------------

  /** Octet i of a stands in w in two digits of either case, with a colon behind it but for the last. */
  ghost predicate OctetAt(w: Text, a: Text, i: nat)
    requires i < |a| && |w| == 3 * |a| - 1
  {
    && HexDigit(w[3 * i], a[i] / 16) && HexDigit(w[3 * i + 1], a[i] % 16)
    && (i < |a| - 1 ==> w[3 * i + 2] == 58)
  }

  ghost predicate MacText(w: Text, a: Text) {
    a != [] && |w| == 3 * |a| - 1 && forall i | 0 <= i < |a| :: OctetAt(w, a, i)
  }

  lemma OctetShift(w: Text, a: Text, i: nat)
    requires i + 1 < |a| && |w| == 3 * |a| - 1
    ensures OctetAt(w[3..], a[1..], i) <==> OctetAt(w, a, i + 1)
  {
    hide HexDigit;
    var v, b, j := w[3..], a[1..], 3 * i;
    assert v[j] == w[j + 3] && v[j + 1] == w[j + 4] && b[i] == a[i + 1];
    assert i < |b| - 1 ==> v[j + 2] == w[j + 5];
  }

  lemma MacTextNext(w: Text, a: Text)
    requires |a| > 1 && |w| == 3 * |a| - 1
    ensures MacText(w, a) <==> OctetAt(w, a, 0) && MacText(w[3..], a[1..])
  {
    forall i: nat | i + 1 < |a| ensures OctetAt(w[3..], a[1..], i) <==> OctetAt(w, a, i + 1) { OctetShift(w, a, i); }
    hide OctetAt;
    if OctetAt(w, a, 0) && MacText(w[3..], a[1..]) {
      forall i | 0 <= i < |a| ensures OctetAt(w, a, i) {
        if i > 0 { assert OctetAt(w[3..], a[1..], i - 1); }
      }
    }
  }

  /** How much of the text an address of n octets takes */
  function MacLength(n: nat): nat
    requires n > 0
  {
    3 * n - 1
  }

  /** txt begins with an address and goes on with rest. */
  ghost predicate MacIn(txt: Text, a: Text, rest: Text) {
    a != [] && |txt| >= MacLength(|a|) && MacText(txt[..MacLength(|a|)], a) && rest == txt[MacLength(|a|)..]
  }

  lemma MacInNext(txt: Text, a: Text, rest: Text)
    requires |a| > 1
    ensures MacIn(txt, a, rest) <==>
      && |txt| >= 3 && HexDigit(txt[0], a[0] / 16) && HexDigit(txt[1], a[0] % 16) && txt[2] == 58
      && MacIn(txt[3..], a[1..], rest)
  {
    hide HexDigit, MacText;
    var n := MacLength(|a|);
    if |txt| >= n {
      var w := txt[..n];
      MacTextNext(w, a);
      FirstOctet(w, a);
      assert w[3..] == txt[3..][..n - 3] && txt[n..] == txt[3..][n - 3..];
    }
  }

  lemma FirstOctet(w: Text, a: Text)
    requires |a| > 1 && |w| == 3 * |a| - 1
    ensures OctetAt(w, a, 0) <==> HexDigit(w[0], a[0] / 16) && HexDigit(w[1], a[0] % 16) && w[2] == 58
  {
    hide HexDigit;
    assert w[3 * 0] == w[0] && w[3 * 0 + 1] == w[1] && w[3 * 0 + 2] == w[2];
  }

  lemma MacInOne(txt: Text, a: Text, rest: Text)
    requires |a| == 1
    ensures MacIn(txt, a, rest) <==>
      |txt| >= 2 && HexDigit(txt[0], a[0] / 16) && HexDigit(txt[1], a[0] % 16) && rest == txt[2..]
  {
    hide HexDigit;
    if |txt| >= 2 {
      var w := txt[..2];
      assert w[3 * 0] == txt[0] && w[3 * 0 + 1] == txt[1];
      assert MacText(w, a) <==> OctetAt(w, a, 0);
    }
  }

  lemma ParseMacOne(txt: Text, a: Text, rest: Text)
    requires |a| == 1
    ensures ParseMac(txt, 1) == Some((a, rest)) <==>
      |txt| >= 2 && HexNum(txt[0]) == a[0] / 16 && HexNum(txt[1]) == a[0] % 16 && rest == txt[2..]
  {
    if |txt| >= 2 && HexNum(txt[0]) >= 0 && HexNum(txt[1]) >= 0 {
      var x, y := HexNum(txt[0]), HexNum(txt[1]);
      TwoDigits(a[0], x, y);
      assert a == [a[0]];
    }
    hide HexNum;
  }

  lemma MacUnfolds(txt: Text, n: nat)
    requires n > 0
    ensures ParseMac(txt, n + 1) ==
      if |txt| < 3 || HexNum(txt[0]) < 0 || HexNum(txt[1]) < 0 || txt[2] != COLON then None
      else
        match ParseMac(txt[3..], n)
        case None => None
        case Some(p) => Some(([HexNum(txt[0]) * 16 + HexNum(txt[1])] + p.0, p.1))
  {
    hide HexNum;
  }

  lemma ParseMacNext(txt: Text, a: Text, rest: Text)
    requires |a| > 1
    ensures ParseMac(txt, |a|) == Some((a, rest)) <==>
      && |txt| >= 3 && HexNum(txt[0]) == a[0] / 16 && HexNum(txt[1]) == a[0] % 16 && txt[2] == 58
      && ParseMac(txt[3..], |a| - 1) == Some((a[1..], rest))
  {
    MacUnfolds(txt, |a| - 1);
    hide ParseMac, HexNum;
    if |txt| >= 3 && HexNum(txt[0]) >= 0 && HexNum(txt[1]) >= 0 && txt[2] == COLON {
      var r := ParseMac(txt[3..], |a| - 1);
      if r.Some? { OctetAndRest(a, HexNum(txt[0]), HexNum(txt[1]), r.value.0); }
    }
  }

  lemma OctetAndRest(a: Text, x: nat, y: nat, r: Text)
    requires a != [] && x < 16 && y < 16
    ensures [x * 16 + y] + r == a <==> x == a[0] / 16 && y == a[0] % 16 && r == a[1..]
  {
    TwoDigits(a[0], x, y);
    FirstAndRest(a, x * 16 + y, r);
  }

  /** An address is parsed from its digits in either case and the colons between them, and from
      nothing else, and what is left is what follows it. */
  lemma {:induction false} MacParsedIff(txt: Text, a: Text, rest: Text)
    requires a != []
    ensures ParseMac(txt, |a|) == Some((a, rest)) <==> MacIn(txt, a, rest)
    decreases |a|
  {
    hide ParseMac, HexNum, HexDigit, MacIn;
    if |txt| >= 2 {
      DigitIff(txt[0], a[0] / 16);
      DigitIff(txt[1], a[0] % 16);
    }
    if |a| == 1 {
      ParseMacOne(txt, a, rest);
      MacInOne(txt, a, rest);
    } else {
      ParseMacNext(txt, a, rest);
      MacInNext(txt, a, rest);
      if |txt| >= 3 { MacParsedIff(txt[3..], a[1..], rest); }
    }
  }

  /** White space between the words of a line */
  predicate White(c: Byte) {
    c in [32, 9, 10, 11, 12, 13]
  }

  /** What may follow an address, and the mask that this makes: nothing or white space, or, where masks
      are allowed, a slash and a mask, behind which may stand anything */
  ghost predicate MaskText(rest: Text, maskable: bool, mask: Mac) {
    if rest == [] || White(rest[0]) then mask == [255, 255, 255, 255, 255, 255]
    else maskable && rest[0] == 47 && exists end :: MacIn(rest[1..], mask, end)
  }

  ghost predicate EntryText(txt: Text, maskable: bool, e: Entry) {
    exists rest :: MacIn(txt, e.addr, rest) && MaskText(rest, maskable, e.mask)
  }

  function MaskOf(rest: Text, maskable: bool): Option<Mac> {
    if rest == [] || IsSpace(rest[0]) then Some(ALL_ONES)
    else if maskable && rest[0] == SLASH then
      match ParseMac(rest[1..], 6)
      case None => None
      case Some(m) => Some(m.0)
    else None
  }

  lemma MaskIff(rest: Text, maskable: bool, mask: Mac)
    ensures MaskOf(rest, maskable) == Some(mask) <==> MaskText(rest, maskable, mask)
  {
    hide ParseMac, MacIn;
    if rest != [] && !White(rest[0]) {
      var m := ParseMac(rest[1..], 6);
      if m.Some? { MacParsedIff(rest[1..], m.value.0, m.value.1); }
      forall end ensures ParseMac(rest[1..], 6) == Some((mask, end)) <==> MacIn(rest[1..], mask, end) {
        MacParsedIff(rest[1..], mask, end);
      }
    }
  }

  lemma EntryUnfolds(txt: Text, maskable: bool)
    ensures ParseEntry(txt, maskable) ==
      match ParseMac(txt, 6)
      case None => None
      case Some(p) =>
        match MaskOf(p.1, maskable)
        case None => None
        case Some(m) => Some(Entry(p.0, m))
  {
    hide ParseMac, IsSpace;
  }

  /** An address with its mask is parsed from such a text and from nothing else. */
  lemma EntryParsedIff(txt: Text, maskable: bool, e: Entry)
    ensures ParseEntry(txt, maskable) == Some(e) <==> EntryText(txt, maskable, e)
  {
    EntryUnfolds(txt, maskable);
    hide ParseEntry, ParseMac, MacIn, MaskOf, MaskText;
    var p := ParseMac(txt, 6);
    if p.Some? {
      MacParsedIff(txt, p.value.0, p.value.1);
      MaskIff(p.value.1, maskable, e.mask);
    }
    forall rest ensures ParseMac(txt, 6) == Some((e.addr, rest)) <==> MacIn(txt, e.addr, rest) {
      MacParsedIff(txt, e.addr, rest);
    }
  }

  // --- words -----------------------------------------------------------------

  function Blanks(n: nat): (r: Text)
    ensures |r| == n
  {
    if n == 0 then [] else [SPACE] + Blanks(n - 1)
  }

  /** Something to separate by blanks */
  ghost predicate Word(w: Text) {
    w != [] && SPACE !in w
  }

  /** Words with gaps[i] blanks in front of word i, and one more between two words */
  function Spaced(words: seq<Text>, gaps: seq<nat>): (r: Text)
    requires |gaps| == |words|
    decreases |words|, 0
  {
    if words == [] then []
    else Blanks(gaps[0]) + (words[0] + Behind(words[1..], gaps[1..]))
  }

  function Behind(words: seq<Text>, gaps: seq<nat>): (r: Text)
    requires |gaps| == |words|
    ensures r == [] || r[0] == SPACE
    decreases |words|, 1
  {
    if words == [] then [] else [SPACE] + Spaced(words, gaps)
  }

  lemma {:induction false} BlanksGo(n: nat, t: Text)
    requires t == [] || t[0] != SPACE
    ensures SkipSpaces(Blanks(n) + t) == t
  {
    if n == 0 {
      assert Blanks(0) + t == t;
    } else {
      BlanksGo(n - 1, t);
      assert (Blanks(n) + t)[1..] == Blanks(n - 1) + t;
    }
  }

  lemma BlankIsNoDigit()
    ensures HexNum(SPACE) < 0 && SPACE != COLON
  {
  }

  lemma BehindFirst(w: Text, rest: Text, k: nat)
    requires k <= |w|
    ensures (w + rest)[k..] == w[k..] + rest && forall i | 0 <= i < k :: (w + rest)[i] == w[i]
  {
  }

  lemma LastBeforeBlank(w: Text, rest: Text)
    requires EntryEnd(rest)
    ensures ParseMac(w + rest, 1) ==
      match ParseMac(w, 1)
      case None => None
      case Some(p) => Some((p.0, p.1 + rest))
  {
    BlankIsNoDigit();
    if |w| >= 2 { BehindFirst(w, rest, 2); }
    hide HexNum;
  }

  /** A parsed address does not reach beyond a blank. */
  lemma {:induction false} MacBeforeBlank(w: Text, n: nat, rest: Text)
    requires EntryEnd(rest) && n > 0
    ensures ParseMac(w + rest, n) ==
      match ParseMac(w, n)
      case None => None
      case Some(p) => Some((p.0, p.1 + rest))
    decreases n
  {
    if n == 1 {
      LastBeforeBlank(w, rest);
    } else {
      BlankIsNoDigit();
      MacUnfolds(w, n - 1);
      MacUnfolds(w + rest, n - 1);
      hide HexNum, ParseMac;
      if |w| >= 3 {
        BehindFirst(w, rest, 3);
        MacBeforeBlank(w[3..], n - 1, rest);
      } else {
        assert forall i | 0 <= i < |w| :: (w + rest)[i] == w[i];
        assert rest != [] ==> (w + rest)[|w|] == SPACE;
      }
    }
  }

  lemma EntryBeforeBlank(w: Text, rest: Text, maskable: bool)
    requires EntryEnd(rest)
    ensures ParseEntry(w + rest, maskable) == ParseEntry(w, maskable)
  {
    MacBeforeBlank(w, 6, rest);
    EntryUnfolds(w + rest, maskable);
    EntryUnfolds(w, maskable);
    var p := ParseMac(w, 6);
    if p.Some? && p.value.1 != [] {
      MacBeforeBlank(p.value.1[1..], 6, rest);
      assert (p.value.1 + rest)[1..] == p.value.1[1..] + rest;
    }
    hide ParseEntry, ParseMac;
  }

  /** What becomes of the words of an address list: each that is an address goes in front of those
      before; one that is none is left out, or spoils the list when errors abort or it comes first. */
  function Collected(words: seq<Text>, abort: bool, masked: bool, acc: seq<Entry>): Option<seq<Entry>> {
    if words == [] then Some(acc)
    else
      match ParseEntry(words[0], masked)
      case Some(e) => Collected(words[1..], abort, masked, [e] + acc)
      case None => if abort || acc == [] then None else Collected(words[1..], abort, masked, acc)
  }

  lemma AddressesNext(w: Text, n: nat, rest: Text, abort: bool, masked: bool, acc: seq<Entry>)
    requires Word(w) && EntryEnd(rest)
    ensures ParseAddresses(Blanks(n) + (w + rest), abort, masked, acc)
         == After(ParseEntry(w, masked), rest, abort, masked, acc)
  {
    BlanksGo(n, w + rest);
    EntryBeforeBlank(w, rest, masked);
    FirstSpace(w, rest);
    assert (w + rest)[|w|..] == rest;
    hide ParseEntry, Blanks, SkipSpaces;
  }

  lemma AfterBlank(r: Option<Entry>, t: Text, abort: bool, masked: bool, acc: seq<Entry>)
    requires t != []
    ensures After(r, [SPACE] + t, abort, masked, acc) ==
      if r.None? && (abort || acc == []) then None
      else ParseAddresses(t, abort, masked, if r.Some? then [r.value] + acc else acc)
  {
    SkipOne(t, abort, masked, if r.Some? then [r.value] + acc else acc);
    hide ParseAddresses;
  }

  /** However its words are spaced, an address list is what becomes of them. */
  lemma {:induction false} AddressesCollected(words: seq<Text>, gaps: seq<nat>, abort: bool, masked: bool,
                                              acc: seq<Entry>)
    requires |gaps| == |words| && forall i | 0 <= i < |words| :: Word(words[i])
    ensures ParseAddresses(Spaced(words, gaps), abort, masked, acc) == Collected(words, abort, masked, acc)
    decreases |words|
  {
    if words != [] {
      var rest := Behind(words[1..], gaps[1..]);
      AddressesNext(words[0], gaps[0], rest, abort, masked, acc);
      hide ParseAddresses, ParseEntry, Blanks;
      var r := ParseEntry(words[0], masked);
      var more := if r.Some? then [r.value] + acc else acc;
      AddressesCollected(words[1..], gaps[1..], abort, masked, more);
      if |words| > 1 {
        assert words[1..] != [] && Spaced(words[1..], gaps[1..]) != [];
        AfterBlank(r, Spaced(words[1..], gaps[1..]), abort, masked, acc);
      }
    }
  }

  // --- integers --------------------------------------------------------------

  /** The number that the digits of d make, most significant first */
  function Decimal(d: Text): nat
    requires forall i | 0 <= i < |d| :: 48 <= d[i] <= 57
  {
    if d == [] then 0 else 10 * Decimal(d[..|d| - 1]) + (d[|d| - 1] - 48)
  }

  predicate NoDigit(t: Text) {
    t == [] || !(48 <= t[0] <= 57)
  }

  lemma {:induction false} DigitsAppend(d: Text, c: Byte, t: Text, n: nat)
    requires (forall i | 0 <= i < |d| :: 48 <= d[i] <= 57) && 48 <= c <= 57 && NoDigit(t)
    ensures Digits(d + ([c] + t), n) == 10 * Digits(d + t, n) + (c - 48)
    decreases |d|
  {
    if d == [] {
      assert [] + ([c] + t) == [c] + t && [] + t == t && ([c] + t)[1..] == t;
    } else {
      assert (d + ([c] + t))[1..] == d[1..] + ([c] + t) && (d + t)[1..] == d[1..] + t;
      DigitsAppend(d[1..], c, t, 10 * n + (d[0] - 48));
    }
  }

  lemma {:induction false} DigitsAre(d: Text, t: Text)
    requires (forall i | 0 <= i < |d| :: 48 <= d[i] <= 57) && NoDigit(t)
    ensures Digits(d + t, 0) == Decimal(d)
  {
    if d == [] {
      assert [] + t == t;
    } else {
      var m := |d| - 1;
      DigitsAre(d[..m], t);
      DigitsAppend(d[..m], d[m], t, 0);
      assert d + t == d[..m] + ([d[m]] + t);
    }
  }

  datatype Sign = Unsigned | Minus | Plus

  function SignText(sign: Sign): Text {
    match sign
    case Unsigned => []
    case Minus => [45]
    case Plus => [43]
  }

  lemma {:induction false} WhiteGoes(w: Text, t: Text)
    requires (forall i | 0 <= i < |w| :: White(w[i])) && (t == [] || !White(t[0]))
    ensures SkipWhite(w + t) == t
  {
    if w == [] {
      assert w + t == t;
    } else {
      assert (w + t)[1..] == w[1..] + t;
      WhiteGoes(w[1..], t);
    }
  }

  /** What Atoi reads behind white space */
  function SignedNumber(t: Text): int {
    if t == [] then 0
    else if t[0] == MINUS then -(Digits(t[1..], 0) as int)
    else if t[0] == PLUS then Digits(t[1..], 0)
    else Digits(t, 0)
  }

  lemma SignRead(sign: Sign, u: Text)
    requires sign.Unsigned? ==> u == [] || (u[0] != 43 && u[0] != 45)
    ensures SignedNumber(SignText(sign) + u) == if sign.Minus? then -(Digits(u, 0) as int) else Digits(u, 0)
  {
    var t := SignText(sign) + u;
    assert sign.Unsigned? ==> t == u;
    assert !sign.Unsigned? ==> t[1..] == u;
  }

  lemma NumberDark(sign: Sign, d: Text, t: Text)
    requires (forall i | 0 <= i < |d| :: 48 <= d[i] <= 57) && NoDigit(t)
    requires sign.Unsigned? && d == [] ==> t == [] || (!White(t[0]) && t[0] != 43 && t[0] != 45)
    ensures var u := SignText(sign) + (d + t); u == [] || !White(u[0])
    ensures sign.Unsigned? ==> d + t == [] || ((d + t)[0] != 43 && (d + t)[0] != 45)
  {
    assert d + t != [] ==> (d + t)[0] == if d == [] then t[0] else d[0];
    assert sign.Unsigned? ==> SignText(sign) + (d + t) == d + t;
  }

  lemma AtoiIs(w: Text, u: Text)
    requires (forall i | 0 <= i < |w| :: White(w[i])) && (u == [] || !White(u[0]))
    ensures Atoi(w + u) == SignedNumber(u)
  {
    WhiteGoes(w, u);
    hide SkipWhite, Digits, White;
  }

  /** White space, a sign or none, and the digits up to the first character that is none: what stands
      behind them does not matter, and without digits the number is 0. */
  lemma NumberRead(w: Text, sign: Sign, d: Text, t: Text)
    requires forall i | 0 <= i < |w| :: White(w[i])
    requires (forall i | 0 <= i < |d| :: 48 <= d[i] <= 57) && NoDigit(t)
    requires sign.Unsigned? && d == [] ==> t == [] || (!White(t[0]) && t[0] != 43 && t[0] != 45)
    ensures Atoi(w + (SignText(sign) + (d + t))) == if sign.Minus? then -(Decimal(d) as int) else Decimal(d)
  {
    hide Decimal, Digits, SignText, Atoi, SignedNumber, White, NoDigit;
    DigitsAre(d, t);
    NumberDark(sign, d, t);
    AtoiIs(w, SignText(sign) + (d + t));
    SignRead(sign, d + t);
  }

  /** The numbers of the words, up to the first that is 0 */
  function Numbers(words: seq<Text>): seq<int> {
    if words == [] || Atoi(words[0]) == 0 then [] else [Atoi(words[0])] + Numbers(words[1..])
  }

  /** A word that does not start with white space */
  ghost predicate DarkWord(w: Text) {
    Word(w) && !White(w[0])
  }

  lemma {:induction false} DigitsBeforeBlank(w: Text, rest: Text, n: nat)
    requires EntryEnd(rest)
    ensures Digits(w + rest, n) == Digits(w, n)
    decreases |w|
  {
    if w == [] {
      assert w + rest == rest;
    } else {
      assert (w + rest)[1..] == w[1..] + rest;
      if 48 <= w[0] <= 57 { DigitsBeforeBlank(w[1..], rest, 10 * n + (w[0] - 48)); }
    }
  }

  lemma NumberBeforeBlank(w: Text, rest: Text)
    requires DarkWord(w) && EntryEnd(rest)
    ensures Atoi(w + rest) == Atoi(w)
  {
    assert (w + rest)[0] == w[0] && (w + rest)[1..] == w[1..] + rest;
    assert SkipWhite(w + rest) == w + rest && SkipWhite(w) == w;
    DigitsBeforeBlank(w, rest, 0);
    DigitsBeforeBlank(w[1..], rest, 0);
    hide Digits, SkipWhite;
  }

  lemma IntsNext(w: Text, n: nat, rest: Text)
    requires DarkWord(w) && EntryEnd(rest)
    ensures ParseInts(Blanks(n) + (w + rest))
         == if Atoi(w) == 0 then [] else if rest == [] then [Atoi(w)] else [Atoi(w)] + ParseInts(rest)
  {
    BlanksGo(n, w + rest);
    NumberBeforeBlank(w, rest);
    var u := w + rest;
    assert u[1..] == w[1..] + rest;
    FirstSpace(w[1..], rest);
    assert u[1..][|w| - 1..] == rest;
    hide Atoi, Blanks, SkipSpaces;
  }

  /** However its words are spaced, an integer array holds their numbers, up to the first that is 0. */
  lemma {:induction false} IntsCollected(words: seq<Text>, gaps: seq<nat>)
    requires |gaps| == |words| && forall i | 0 <= i < |words| :: DarkWord(words[i])
    ensures ParseInts(Spaced(words, gaps)) == Numbers(words)
    decreases |words|
  {
    if words == [] {
      assert Atoi([]) == 0;
    } else {
      IntsNext(words[0], gaps[0], Behind(words[1..], gaps[1..]));
      hide ParseInts, Atoi, Blanks;
      IntsCollected(words[1..], gaps[1..]);
      if |words| > 1 {
        IntsSkipOne(Spaced(words[1..], gaps[1..]));
      } else {
        assert Numbers(words[1..]) == [];
      }
    }
  }
}
