/** What is written to the configuration file is read back, and exactly when it is. */
module ConfigRoundTrip {
  import opened Collections
  import opened ConfigText

  // --- values ----------------------------------------------------------------

  lemma DigitRoundTrip(n: nat)
    requires n < 16
    ensures HexNum(Digit(n)) == n
  {
  }

  lemma {:induction false} HexRoundTrip(v: Text)
    ensures ParseHex(WriteHex(v), |v|) == Some(v)
  {
    if v != [] {
      DigitRoundTrip(v[0] / 16);
      DigitRoundTrip(v[0] % 16);
      HexRoundTrip(v[1..]);
      assert WriteHex(v)[2..] == WriteHex(v[1..]);
      assert v[0] / 16 * 16 + v[0] % 16 == v[0];
      assert v == [v[0]] + v[1..];
    }
  }

  lemma {:induction false} HexDigits(v: Text)
    ensures forall i | 0 <= i < |WriteHex(v)| :: HexNum(WriteHex(v)[i]) >= 0
  {
    if v != [] {
      DigitRoundTrip(v[0] / 16);
      DigitRoundTrip(v[0] % 16);
      HexDigits(v[1..]);
    }
  }

  lemma LastQuote(v: Text)
    ensures LastIndexOf(v + [QUOTE], QUOTE) == |v|
  {
    assert (v + [QUOTE])[|v|] == QUOTE;
  }

  lemma QuotedTail(v: Text)
    ensures Quoted(v)[1..] == v + [QUOTE] && Quoted(v)[0] == QUOTE && |Quoted(v)| == |v| + 2
  {
  }

  /** Every string is parsed from what the writer makes of it, whatever octets it holds. */
  lemma StringRoundTrip(v: Text)
    ensures ParseString(WriteString(v)) == Bytes(v)
  {
    if IsHex(v) {
      HexRoundTrip(v);
      HexDigits(v);
      assert WriteHex(v) != [] ==> HexNum(WriteHex(v)[0]) >= 0;
    } else {
      QuotedTail(v);
      LastQuote(v);
      assert (v + [QUOTE])[..|v|] == v;
    }
  }

  /** So a string variable gets its value back, unless its length is one the parser rejects. */
  lemma VariableAssigned(v: Text, limits: Limits)
    ensures ParseStr(WriteString(v), limits) == if Within(|v|, limits) then Set(v) else Rejected
  {
    StringRoundTrip(v);
    if IsHex(v) {
      HexDigits(v);
      assert WriteHex(v) != [] ==> HexNum(WriteHex(v)[0]) >= 0;
    }
    assert HexNum(NULL_WORD[0]) < 0;
  }

  /** Every key that the parser accepted is parsed from what the writer makes of it. */
  lemma KeyRoundTrip(k: Key)
    requires ValidKey(k)
    ensures ParsePsk(WritePsk(k)) == Some(k)
  {
    match k
    case Passphrase(t) =>
      QuotedTail(t);
      LastQuote(t);
      assert (t + [QUOTE])[..|t|] == t;
    case Psk(p) =>
      HexRoundTrip(p);
      HexDigits(p);
      assert HexNum(WriteHex(p)[0]) >= 0;
  }

  // --- lines -----------------------------------------------------------------

  /** A variable name, as in the table of config.c: lower-case letters, digits and _ */
  ghost predicate Name(name: Text) {
    1 <= |name| <= 64 && forall i | 0 <= i < |name| :: (48 <= name[i] <= 57 || 97 <= name[i] <= 122 || name[i] == 95)
  }

  /** What the line of a variable gives back: a value without line end that does not end in a
      blank, has no # but before its last of two or more quotes, and whose quote at the start,
      if any, is not its only one. */
  ghost predicate Kept(value: Text) {
    LF !in value && Uncut(value) && !Unpaired(value)
  }

  predicate Uncut(value: Text) {
    HASH !in value[CommentStart(value)..] && (value != [] ==> !Blank(value[|value| - 1]))
  }

  predicate Unpaired(value: Text) {
    value != [] && value[0] == QUOTE && QUOTE !in value[1..]
  }

  /** Nothing in a value of this kind could be taken for a comment or a quotation. */
  predicate Plain(value: Text) {
    QUOTE !in value && HASH !in value && LF !in value && (value != [] ==> !Blank(value[|value| - 1]))
  }

  lemma PlainKept(value: Text)
    requires Plain(value)
    ensures Kept(value)
  {
  }

  lemma QuotedStart(v: Text)
    ensures CommentStart(Quoted(v)) == 1 + |v|
  {
    QuotedTail(v);
    LastQuote(v);
    var s := Quoted(v);
    assert IndexOf(s, QUOTE) == 0;
    assert s[0 + 1..] == v + [QUOTE];
    hide IndexOf, LastIndexOf, Quoted;
  }

  lemma QuotedUncut(v: Text)
    ensures Uncut(Quoted(v))
  {
    QuotedStart(v);
    hide CommentStart;
    assert Quoted(v)[1 + |v|..] == [QUOTE];
  }

  lemma QuotedKept(v: Text)
    requires LF !in v
    ensures Kept(Quoted(v))
  {
    QuotedUncut(v);
    QuotedTail(v);
    hide Uncut;
    assert (v + [QUOTE])[|v|] == QUOTE;
  }

  lemma HexPlain(v: Text)
    ensures Plain(WriteHex(v))
  {
    HexDigits(v);
  }

  lemma WrittenString(v: Text)
    ensures Kept(WriteString(v))
  {
    if IsHex(v) {
      HexPlain(v);
      PlainKept(WriteHex(v));
    } else {
      assert LF !in v;
      QuotedKept(v);
    }
  }

  lemma WrittenKey(k: Key)
    requires ValidKey(k)
    ensures Kept(WritePsk(k))
  {
    match k
    case Passphrase(t) =>
      assert LF !in t;
      QuotedKept(t);
    case Psk(p) =>
      HexPlain(p);
      PlainKept(WriteHex(p));
  }

  lemma {:induction false} IndexBehind(x: Text, c: Byte, rest: Text)
    requires c !in x
    ensures IndexOf(x + [c] + rest, c) == |x|
  {
    var s := x + [c] + rest;
    assert s[|x|] == c;
    assert forall i | 0 <= i < |x| :: s[i] == x[i];
  }

  lemma {:induction false} SkipRest(x: Text, rest: Text)
    requires LF !in x
    ensures SkipLineEnd(x + [LF] + rest) == rest
    decreases |x|
  {
    var s := x + [LF] + rest;
    IndexBehind(x, LF, rest);
    var (buf, r) := Fgets(100, s);
    if |x| + 1 <= 99 {
      assert buf == x + [LF] && r == rest;
    } else {
      assert buf == x[..99] && buf[98] == x[98];
      assert r == x[99..] + [LF] + rest;
      SkipRest(x[99..], rest);
    }
  }

  lemma FgetsWritten(size: nat, x: Text, rest: Text)
    requires size >= 2 && LF !in x
    ensures Fgets(size, x + [LF] + rest)
         == if |x| + 1 < size then (x + [LF], rest) else (x[..size - 1], x[size - 1..] + [LF] + rest)
  {
    var s := x + [LF] + rest;
    IndexBehind(x, LF, rest);
    hide IndexOf;
    if |x| + 1 < size {
      assert s[..|x| + 1] == x + [LF] && s[|x| + 1..] == rest;
    } else {
      var n := size - 1;
      assert s[..n] == x[..n];
      assert s[n..] == x[n..] + [LF] + rest;
    }
  }

  /** fgets and skip_line_end together take one line off the stream, whole or cut. */
  lemma ReadWritten(size: nat, x: Text, rest: Text)
    requires size >= 2 && LF !in x
    ensures ReadLine(size, x + [LF] + rest)
         == (if |x| + 1 < size then x + [LF] else x[..size - 1], rest)
  {
    FgetsWritten(size, x, rest);
    hide Fgets, SkipLineEnd;
    if |x| + 1 >= size {
      var n := size - 1;
      assert x[..n][n - 1] == x[n - 1];
      SkipRest(x[n..], rest);
    }
  }

  function Body(name: Text, value: Text): Text {
    name + [EQUALS] + value
  }

  /** What may stand behind the body in the buffer: the line end, or nothing. */
  ghost predicate LineEnd(e: Text) {
    e == [] || e == [LF]
  }

  lemma BodyShape(name: Text, value: Text)
    requires Name(name) && LF !in value
    ensures var b := Body(name, value);
      && |b| == |name| + 1 + |value| && LF !in b
      && (if value == [] then b[|b| - 1] == EQUALS else b[|b| - 1] == value[|value| - 1])
      && !Blank(b[0]) && b[0] != HASH && b[0] != LF
      && IndexOf(b, EQUALS) == |name| && b[..|name|] == name && b[|name| + 1..] == value
  {
    var b := Body(name, value);
    assert b[0] == name[0];
    IndexBehind(name, EQUALS, value);
  }

  lemma NoComment(s: Text)
    requires HASH !in s[CommentStart(s)..]
    ensures CutComment(s) == s
  {
  }

  lemma {:induction false} LastBehind(x: Text, c: Byte, e: Text)
    requires c !in e
    ensures LastIndexOf(x + [c] + e, c) == |x|
  {
    var s := x + [c] + e;
    assert s[|x|] == c;
    assert forall i | |x| < i < |s| :: s[i] == e[i - |x| - 1];
  }

  lemma FirstShifted(head: Text, t: Text, e: Text, c: Byte)
    requires c !in head && c !in e
    ensures IndexOf(head + t + e, c) == if c in t then |head| + IndexOf(t, c) else |head + t + e|
  {
    hide IndexOf;
    var s := head + t + e;
    var k := IndexOf(t, c);
    assert forall i | 0 <= i < |t| :: s[|head| + i] == t[i];
    assert forall i | 0 <= i < |head| :: s[i] == head[i];
    assert forall i | 0 <= i < |e| :: s[|head| + |t| + i] == e[i];
    if c in t {
      FirstAt(s, c, |head| + k);
    } else {
      assert forall i | 0 <= i < |s| :: s[i] != c;
    }
  }

  lemma FirstAt(s: Text, c: Byte, k: nat)
    requires k < |s| && s[k] == c && forall i | 0 <= i < k :: s[i] != c
    ensures IndexOf(s, c) == k
  {
    hide IndexOf;
  }

  lemma LastShifted(t: Text, e: Text, c: Byte)
    requires c !in e
    ensures LastIndexOf(t + e, c) == if c in t then LastIndexOf(t, c) else |t + e|
  {
    var k := LastIndexOf(t, c);
    if c in t {
      assert t + e == t[..k] + [c] + (t[k + 1..] + e);
      LastBehind(t[..k], c, t[k + 1..] + e);
    }
  }

  /** A comment is looked for from the same character as in the value alone. */
  lemma StartShifted(head: Text, value: Text, e: Text)
    requires QUOTE !in head && LineEnd(e)
    ensures CommentStart(head + value + e)
         == if CommentStart(value) == 0 then 0 else |head| + CommentStart(value)
  {
    var s := head + value + e;
    FirstShifted(head, value, e, QUOTE);
    if QUOTE in value {
      var k := IndexOf(value, QUOTE);
      assert s[|head| + k + 1..] == value[k + 1..] + e;
      LastShifted(value[k + 1..], e, QUOTE);
      assert |s| == |head| + |value| + |e|;
      hide IndexOf, LastIndexOf;
    }
  }

  lemma CommentIff(name: Text, value: Text, e: Text)
    requires Name(name) && LineEnd(e)
    ensures var s := Body(name, value) + e;
      HASH in s[CommentStart(s)..] <==> HASH in value[CommentStart(value)..]
  {
    var head := name + [EQUALS];
    var s := Body(name, value) + e;
    StartShifted(head, value, e);
    assert s == head + value + e;
    if CommentStart(value) == 0 {
      assert s[0..] == s && value[0..] == value;
    } else {
      assert s[|head| + CommentStart(value)..] == value[CommentStart(value)..] + e;
    }
  }

  lemma TrimLineEnd(s: Text, e: Text)
    requires s != [] && !Blank(s[|s| - 1]) && s[|s| - 1] != LF && LineEnd(e)
    ensures TrimRight(s + e) == s
  {
    if e == [LF] {
      assert (s + e)[..|s|] == s;
    } else {
      assert s + e == s;
    }
  }

  lemma SkipTab(s: Text)
    requires s != [] && !Blank(s[0])
    ensures SkipBlanks([TAB] + s) == s
  {
    assert ([TAB] + s)[1..] == s;
  }

  /** What is left of a written line when white space and comments are gone. */
  lemma CleanIs(name: Text, value: Text, e: Text)
    requires Name(name) && LF !in value && LineEnd(e)
    ensures Clean(Content(name, value) + e) == Some(TrimRight(CutComment(Body(name, value) + e)))
  {
    var b := Body(name, value);
    BodyShape(name, value);
    SkipTab(b + e);
    assert Content(name, value) + e == [TAB] + (b + e);
    assert (b + e)[0] == b[0];
    hide CutComment, TrimRight, SkipBlanks, Body, Content;
  }

  lemma {:induction false} TrimPrefix(s: Text)
    ensures Prefix(TrimRight(s), s)
    ensures |s| > 1 && (Blank(s[|s| - 1]) || s[|s| - 1] == LF) ==> |TrimRight(s)| < |s|
  {
    if |s| > 1 && (Blank(s[|s| - 1]) || s[|s| - 1] == LF) {
      TrimPrefix(s[..|s| - 1]);
    }
  }

  lemma TrimBlank(b: Text, e: Text)
    requires |b| > 1 && Blank(b[|b| - 1]) && LineEnd(e)
    ensures Prefix(TrimRight(b + e), b) && |TrimRight(b + e)| < |b|
  {
    TrimPrefix(b);
    if e == [LF] {
      assert (b + e)[..|b|] == b;
    } else {
      assert b + e == b;
    }
  }

  lemma CutShort(b: Text, e: Text)
    requires LineEnd(e) && b != [] && HASH in (b + e)[CommentStart(b + e)..]
    ensures Prefix(CutComment(b + e), b) && |CutComment(b + e)| < |b|
  {
    var s := b + e;
    hide CommentStart, IndexOf;
    var start := CommentStart(s);
    var k := IndexOf(s[start..], HASH);
    assert s[start + k] == HASH;
    assert start + k < |b|;
    assert s[..start + k] == b[..start + k];
  }

  /** name=value, or where the value does not end like that, something shorter */
  ghost predicate Leftover(p: Text, name: Text, value: Text) {
    Prefix(p, Body(name, value)) && (p == Body(name, value) <==> Uncut(value))
  }

  /** White space and comment stripping leave name=value as it was written, or something shorter. */
  lemma CleanWritten(name: Text, value: Text, e: Text)
    requires Name(name) && LF !in value && LineEnd(e)
    ensures exists p :: Clean(Content(name, value) + e) == Some(p) && Leftover(p, name, value)
  {
    var b := Body(name, value);
    CleanIs(name, value, e);
    CommentIff(name, value, e);
    BodyShape(name, value);
    hide CommentStart, Clean, Content, Body, Prefix, CutComment, TrimRight, Name;
    var p := TrimRight(CutComment(b + e));
    assert Clean(Content(name, value) + e) == Some(p);
    if HASH in value[CommentStart(value)..] {
      CutShort(b, e);
      TrimPrefix(CutComment(b + e));
      PrefixTrans(p, CutComment(b + e), b);
      ShorterPrefix(p, CutComment(b + e));
    } else {
      NoComment(b + e);
      if value != [] && Blank(value[|value| - 1]) {
        TrimBlank(b, e);
      } else {
        TrimLineEnd(b, e);
        SelfPrefix(b);
      }
    }
  }

  lemma ShorterPrefix(p: Text, s: Text)
    requires Prefix(p, s)
    ensures |p| <= |s|
  {
  }

  lemma SelfPrefix(s: Text)
    ensures Prefix(s, s)
  {
  }

  lemma ContentLine(name: Text, value: Text)
    requires Name(name) && LF !in value
    ensures LF !in Content(name, value) && |Content(name, value)| == |name| + 2 + |value|
  {
    BodyShape(name, value);
  }

  /** What the line reader hands on when the line fits: name=value, or something shorter. */
  lemma GetWritten(name: Text, value: Text, rest: Text)
    requires Name(name) && LF !in value && |Content(name, value)| <= 1999
    ensures exists p :: GetLine(2000, Content(name, value) + [LF] + rest) == Some((p, rest)) && Leftover(p, name, value)
  {
    var c := Content(name, value);
    ContentLine(name, value);
    ReadWritten(2000, c, rest);
    CleanWritten(name, value, [LF]);
    CleanWritten(name, value, []);
    if |c| == 1999 { assert c[..1999] == c && c + [] == c; }
    hide Clean, ReadLine, Content, Body, Leftover;
  }

  lemma SplitWritten(name: Text, value: Text)
    requires Name(name) && LF !in value
    ensures Body(name, value) != CLOSE
    ensures Split(Body(name, value)) == if Unpaired(value) then None else Some((name, value))
  {
    BodyShape(name, value);
    assert Body(name, value)[0] == name[0];
  }

  /** A line that fits the buffer gives back the name and the value that were written, if and
      only if the value is of the kind above. */
  lemma LineRoundTripIff(name: Text, value: Text, rest: Text)
    requires Name(name) && LF !in value && |Content(name, value)| <= 1999
    ensures NetworkLine(Content(name, value) + [LF] + rest) == Pair(name, value, rest) <==> Kept(value)
  {
    GetWritten(name, value, rest);
    var b := Body(name, value);
    var stream := Content(name, value) + [LF] + rest;
    var p :| GetLine(2000, stream) == Some((p, rest)) && Leftover(p, name, value);
    SplitWritten(name, value);
    SplitPrefix(name, value, p);
    hide GetLine, Content, Body, Split, Uncut, Name, Prefix, IndexOf;
    if p != b {
      OtherSplit(name, value, p);
    }
  }

  lemma OtherSplit(name: Text, value: Text, p: Text)
    requires Prefix(p, Body(name, value)) && p != Body(name, value) && Continues(p, name, value)
    ensures Split(p) != Some((name, value))
  {
    hide Split;
    assert Body(name, value)[..|Body(name, value)|] == Body(name, value);
  }

  lemma LineRoundTrip(name: Text, value: Text, rest: Text)
    requires Name(name) && Kept(value) && |Content(name, value)| <= 1999
    ensures NetworkLine(Content(name, value) + [LF] + rest) == Pair(name, value, rest)
  {
    hide Name, NetworkLine, Content;
    LineRoundTripIff(name, value, rest);
  }

  // --- lines that do not fit -------------------------------------------------

  ghost predicate Prefix(p: Text, s: Text) {
    |p| <= |s| && p == s[..|p|]
  }

  lemma CutPrefix(s: Text)
    requires s != [] && s[0] != HASH
    ensures Prefix(CutComment(s), s)
  {
  }

  lemma PrefixTrans(a: Text, b: Text, c: Text)
    requires Prefix(a, b) && Prefix(b, c)
    ensures Prefix(a, c)
  {
    assert c[..|b|][..|a|] == c[..|a|];
  }

  lemma CleanPrefix(s: Text)
    requires s != [] && !Blank(s[0]) && s[0] != HASH && s[0] != LF
    ensures exists p :: Clean([TAB] + s) == Some(p) && Prefix(p, s)
  {
    SkipTab(s);
    CutPrefix(s);
    TrimPrefix(CutComment(s));
    PrefixTrans(TrimRight(CutComment(s)), CutComment(s), s);
    hide CutComment, TrimRight, SkipBlanks, Prefix;
    assert Clean([TAB] + s) == Some(TrimRight(CutComment(s)));
  }

  /** A cut line is read as a proper prefix of what was written. */
  lemma CleanCut(name: Text, value: Text)
    requires Name(name) && LF !in value && |Content(name, value)| > 1999
    ensures exists p :: Clean(Content(name, value)[..1999]) == Some(p) && Prefix(p, Body(name, value)) && |p| <= 1998
  {
    var b := Body(name, value);
    var s := b[..1998];
    BodyShape(name, value);
    assert Content(name, value)[..1999] == [TAB] + s;
    CleanPrefix(s);
    hide Clean, Body, Content;
    var p :| Clean([TAB] + s) == Some(p) && Prefix(p, s);
    assert b[..1998][..|p|] == b[..|p|];
  }

  /** p continues, where it does, the value of name=value. */
  ghost predicate Continues(p: Text, name: Text, value: Text) {
    Split(p).None? || (Split(p).value.0 == name && Prefix(Split(p).value.1, value)
                       && |p| == |name| + 1 + |Split(p).value.1|)
  }

  lemma FirstEquals(b: Text, p: Text)
    requires Prefix(p, b)
    ensures IndexOf(p, EQUALS) == if IndexOf(b, EQUALS) < |p| then IndexOf(b, EQUALS) else |p|
  {
    var k := IndexOf(p, EQUALS);
    if k < |p| { assert b[k] == p[k]; }
    assert forall i | 0 <= i < |p| :: p[i] == b[i];
  }

  lemma SplitPrefix(name: Text, value: Text, p: Text)
    requires Name(name) && LF !in value && Prefix(p, Body(name, value))
    ensures Continues(p, name, value)
  {
    var b := Body(name, value);
    var n := |name|;
    BodyShape(name, value);
    FirstEquals(b, p);
    if n < |p| {
      SliceOfSlice(b, 0, |p|, 0, n);
      SliceOfSlice(b, 0, |p|, n + 1, |p|);
      SliceOfSlice(b, n + 1, |b|, 0, |p| - n - 1);
      assert p[n + 1..] == value[..|p| - n - 1];
      hide Body, IndexOf, Name;
    }
  }

  lemma ShorterValue(v: Text, w: Text)
    requires Prefix(w, WriteString(v)) && |w| < |WriteString(v)| && v != []
    ensures ParseString(w) != Bytes(v)
  {
    if w != [] {
      assert w[0] == WriteString(v)[0];
      if IsHex(v) {
        HexDigits(v);
      }
    }
  }

  /** The name and the string are read back, and the stream stands behind the line. */
  ghost predicate ReadsBack(stream: Text, name: Text, v: Text, limits: Limits, rest: Text) {
    var line := NetworkLine(stream);
    line.Pair? && line.name == name && ParseStr(line.value, limits) == Set(v) && line.rest == rest
  }

  /** A line that does not fit is malformed, or its value is cut. */
  lemma LongLineCut(name: Text, value: Text, rest: Text)
    requires Name(name) && LF !in value && |Content(name, value)| > 1999
    ensures var line := NetworkLine(Content(name, value) + [LF] + rest);
      line.Pair? ==> Prefix(line.value, value) && |line.value| < |value|
  {
    var c := Content(name, value);
    var stream := c + [LF] + rest;
    assert |c| == 1 + |Body(name, value)| && |Body(name, value)| == |name| + 1 + |value|;
    ContentLine(name, value);
    ReadWritten(2000, c, rest);
    CleanCut(name, value);
    hide Clean, ReadLine, Content, Body, Name, Prefix;
    var p :| Clean(c[..1999]) == Some(p) && Prefix(p, Body(name, value)) && |p| <= 1998;
    assert GetLine(2000, stream) == Some((p, rest));
    SplitPrefix(name, value, p);
    hide GetLine, Split;
  }

  lemma ShorterAssigned(v: Text, w: Text, limits: Limits)
    requires Prefix(w, WriteString(v)) && |w| < |WriteString(v)| && v != []
    ensures ParseStr(w, limits) != Set(v)
  {
    ShorterValue(v, w);
    hide ParseString, WriteString;
  }

  lemma LongLineLost(name: Text, v: Text, limits: Limits, rest: Text)
    requires Name(name) && |Content(name, WriteString(v))| > 1999
    ensures !ReadsBack(Content(name, WriteString(v)) + [LF] + rest, name, v, limits, rest)
  {
    var value := WriteString(v);
    var line := NetworkLine(Content(name, value) + [LF] + rest);
    WrittenString(v);
    assert v != [];
    LongLineCut(name, value, rest);
    hide NetworkLine, Content, WriteString, ParseStr, Prefix;
    if line.Pair? { ShorterAssigned(v, line.value, limits); }
  }

  /** A string variable survives being written and read exactly when its line, without the line
      end, has at most 1999 octets and its length is one that the parser accepts: quotes, #, =,
      blanks and control octets do no harm. */
  lemma StringLineIff(name: Text, v: Text, limits: Limits, rest: Text)
    requires Name(name)
    ensures ReadsBack(Content(name, WriteString(v)) + [LF] + rest, name, v, limits, rest)
      <==> |Content(name, WriteString(v))| <= 1999 && Within(|v|, limits)
  {
    WrittenString(v);
    VariableAssigned(v, limits);
    if |Content(name, WriteString(v))| <= 1999 {
      LineRoundTrip(name, WriteString(v), rest);
    } else {
      LongLineLost(name, v, limits, rest);
    }
  }

  const PSK_NAME: Text := [112, 115, 107]

  /** A passphrase or key always survives. */
  lemma KeyLineRoundTrip(k: Key, rest: Text)
    requires ValidKey(k)
    ensures var line := NetworkLine(Content(PSK_NAME, WritePsk(k)) + [LF] + rest);
      line.Pair? && line.name == PSK_NAME && ParsePsk(line.value) == Some(k) && line.rest == rest
  {
    WrittenKey(k);
    KeyRoundTrip(k);
    KeyFits(k);
    hide Name, Kept, Content, WritePsk, ParsePsk, NetworkLine, ValidKey;
    LineRoundTrip(PSK_NAME, WritePsk(k), rest);
  }

  lemma KeyFits(k: Key)
    requires ValidKey(k)
    ensures Name(PSK_NAME) && |Content(PSK_NAME, WritePsk(k))| <= 1999
  {
    hide WriteHex;
  }

  // --- whole blocks ----------------------------------------------------------

  /** One variable of a network block: name and value as written */
  datatype Variable = Variable(name: Text, value: Text)

  ghost predicate Fits(x: Variable) {
    Name(x.name) && Kept(x.value) && |Content(x.name, x.value)| <= 1999
  }

  /** The lines of a network block behind network={ */
  function WriteBlock(vars: seq<Variable>): Text {
    if vars == [] then CLOSE + [LF]
    else Content(vars[0].name, vars[0].value) + [LF] + WriteBlock(vars[1..])
  }

  /** The loop of wpa_config_read_network: the variables handed to wpa_config_set, the number of
      malformed lines, whether the block was closed, and the remaining stream */
  datatype Block = Block(vars: seq<Variable>, errors: nat, closed: bool, rest: Text)

  function ReadBlock(stream: Text): (r: Block)
    ensures |r.rest| <= |stream|
    decreases |stream|
  {
    match NetworkLine(stream)
    case End(rest) => Block([], 0, true, rest)
    case Eof => Block([], 0, false, [])
    case Bad(rest) => var b := ReadBlock(rest); b.(errors := b.errors + 1)
    case Pair(n, v, rest) => var b := ReadBlock(rest); b.(vars := [Variable(n, v)] + b.vars)
  }

  lemma CloseLine(rest: Text)
    ensures NetworkLine(CLOSE + [LF] + rest) == End(rest)
  {
    ReadWritten(2000, CLOSE, rest);
    assert CLOSE + [LF] == [125, LF];
    assert SkipBlanks([125, LF]) == [125, LF];
    assert IndexOf([125, LF], QUOTE) == 2 && IndexOf([125, LF], HASH) == 2;
    assert [125, LF][0..] == [125, LF];
    assert CutComment([125, LF]) == [125, LF];
    assert [125, LF][..1] == CLOSE;
    assert TrimRight([125, LF]) == TrimRight(CLOSE) == CLOSE;
  }

  lemma ReadPair(stream: Text, x: Variable, t: Text)
    requires NetworkLine(stream) == Pair(x.name, x.value, t)
    ensures ReadBlock(stream) == ReadBlock(t).(vars := [x] + ReadBlock(t).vars)
  {
    hide NetworkLine;
  }

  lemma WriteFirst(vars: seq<Variable>, rest: Text)
    requires vars != []
    ensures WriteBlock(vars) + rest
         == Content(vars[0].name, vars[0].value) + [LF] + (WriteBlock(vars[1..]) + rest)
  {
    hide Content;
  }

  lemma VariableRoundTrip(x: Variable, t: Text)
    requires Fits(x)
    ensures NetworkLine(Content(x.name, x.value) + [LF] + t) == Pair(x.name, x.value, t)
  {
    LineRoundTrip(x.name, x.value, t);
  }

  /** A network block whose lines fit is read back variable by variable, without an error, and
      the stream then stands behind it. */
  lemma {:induction false} BlockRoundTrip(vars: seq<Variable>, rest: Text)
    requires forall i | 0 <= i < |vars| :: Fits(vars[i])
    ensures ReadBlock(WriteBlock(vars) + rest) == Block(vars, 0, true, rest)
    decreases |vars|
  {
    hide Fits, NetworkLine, Content, ReadBlock, WriteBlock;
    if vars == [] {
      EmptyBlock(rest);
    } else {
      var t := WriteBlock(vars[1..]) + rest;
      WriteFirst(vars, rest);
      VariableRoundTrip(vars[0], t);
      ReadPair(WriteBlock(vars) + rest, vars[0], t);
      BlockRoundTrip(vars[1..], rest);
      assert [vars[0]] + vars[1..] == vars;
    }
  }

  lemma EmptyBlock(rest: Text)
    ensures ReadBlock(WriteBlock([]) + rest) == Block([], 0, true, rest)
  {
    CloseLine(rest);
  }
}
