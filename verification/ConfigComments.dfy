/** White space and comments in the configuration file: exactly what is left of a line. */
module ConfigComments {
  import opened Collections
  import opened ConfigText
  import opened ConfigRoundTrip

  // --- where a comment begins ------------------------------------------------

  /** Position i lies in front of the last of two or more quotes. */
  ghost predicate Shielded(s: Text, i: nat) {
    exists a, b :: 0 <= a < b < |s| && i < b && s[a] == QUOTE && s[b] == QUOTE
  }

  /** A # that is not shielded by quotes begins a comment. */
  ghost predicate CommentAt(s: Text, i: nat) {
    i < |s| && s[i] == HASH && !Shielded(s, i)
  }

  lemma StartShields(s: Text, i: nat)
    requires i < |s|
    ensures i < CommentStart(s) <==> Shielded(s, i)
  {
    var first := IndexOf(s, QUOTE);
    if first < |s| {
      var t := s[first + 1..];
      var last := LastIndexOf(t, QUOTE);
      assert forall j | 0 <= j < |t| :: t[j] == s[first + 1 + j];
      if Shielded(s, i) {
        var a, b :| 0 <= a < b < |s| && i < b && s[a] == QUOTE && s[b] == QUOTE;
        assert t[b - first - 1] == QUOTE;
      } else if last < |t| {
        assert s[first] == QUOTE && s[first + 1 + last] == QUOTE;
      }
    }
    hide IndexOf, LastIndexOf;
  }

  /** The first comment begins behind c, or, if that is all of s, there is none. */
  ghost predicate FirstComment(s: Text, c: nat) {
    && c <= |s| && (c < |s| ==> CommentAt(s, c))
    && forall j: nat | j < c :: !CommentAt(s, j)
  }

  ghost predicate ShieldedUpTo(s: Text, start: nat) {
    forall j: nat | j < |s| :: j < start <==> Shielded(s, j)
  }

  lemma StartIs(s: Text)
    ensures ShieldedUpTo(s, CommentStart(s))
  {
    forall j: nat | j < |s| ensures j < CommentStart(s) <==> Shielded(s, j) { StartShields(s, j); }
  }

  lemma FirstBehind(s: Text, start: nat, c: nat)
    requires start <= c <= |s| && ShieldedUpTo(s, start)
    requires (c < |s| ==> s[c] == HASH) && forall j | start <= j < c :: s[j] != HASH
    ensures FirstComment(s, c)
  {
    hide Shielded;
  }

  lemma HashFrom(s: Text, start: nat)
    requires start <= |s|
    ensures var c := start + IndexOf(s[start..], HASH);
      c <= |s| && (c < |s| ==> s[c] == HASH) && forall j | start <= j < c :: s[j] != HASH
  {
    var t := s[start..];
    var k := IndexOf(t, HASH);
    assert forall j | start <= j < start + k :: s[j] == t[j - start];
  }

  lemma CommentCut(s: Text)
    ensures FirstComment(s, |CutComment(s)|) && CutComment(s) == s[..|CutComment(s)|]
  {
    hide CommentStart, IndexOf, FirstComment, ShieldedUpTo;
    var start := CommentStart(s);
    StartIs(s);
    HashFrom(s, start);
    FirstBehind(s, start, start + IndexOf(s[start..], HASH));
  }

  // --- exactly what is left --------------------------------------------------

  predicate White(c: Byte) {
    c == 32 || c == 9 || c == 13 || c == 10
  }

  /** t is s without the white space at its end, but for its first character. */
  ghost predicate Trimmed(s: Text, t: Text) {
    && 1 <= |t| <= |s| && t == s[..|t|] && (|t| > 1 ==> !White(t[|t| - 1]))
    && forall i | |t| <= i < |s| :: White(s[i])
  }

  lemma {:induction false} TrimRightTrims(s: Text)
    requires s != []
    ensures Trimmed(s, TrimRight(s))
  {
    if |s| > 1 && White(s[|s| - 1]) {
      var r := s[..|s| - 1];
      TrimRightTrims(r);
      assert TrimRight(s) == TrimRight(r);
      assert r[..|TrimRight(r)|] == s[..|TrimRight(r)|];
    }
  }

  lemma {:induction false} BlanksSkipped(s: Text)
    ensures var r := SkipBlanks(s); r == s[|s| - |r|..] && forall i | 0 <= i < |s| - |r| :: Blank(s[i])
  {
    if s != [] && Blank(s[0]) { BlanksSkipped(s[1..]); }
  }

  /** t is what a line gives: it starts at n, behind blanks, with a character that makes it no empty
      line and no comment, and ends in front of the first comment and the white space there. */
  ghost predicate TextOf(buf: Text, n: nat, c: nat, t: Text) {
    && n < |buf| && (forall i | 0 <= i < n :: Blank(buf[i])) && !White(buf[n]) && buf[n] != HASH
    && FirstComment(buf[n..], c) && Trimmed(buf[n..][..c], t)
  }

  /** A line that gives nothing: a blank one or a comment */
  ghost predicate NoText(buf: Text, n: nat) {
    n <= |buf| && (forall i | 0 <= i < n :: Blank(buf[i])) && (n < |buf| ==> buf[n] == LF || buf[n] == HASH)
  }

  lemma CutNotEmpty(s: Text)
    requires s != [] && s[0] != HASH
    ensures CutComment(s) != []
  {
  }

  lemma LeftIs(buf: Text, n: nat)
    requires n < |buf| && SkipBlanks(buf) == buf[n..] && buf[n] != HASH && buf[n] != LF && !Blank(buf[n])
    requires forall i | 0 <= i < n :: Blank(buf[i])
    ensures Clean(buf) == Some(TrimRight(CutComment(buf[n..])))
    ensures TextOf(buf, n, |CutComment(buf[n..])|, TrimRight(CutComment(buf[n..])))
  {
    var s := buf[n..];
    hide CutComment, TrimRight, FirstComment, Trimmed, SkipBlanks;
    CommentCut(s);
    CutNotEmpty(s);
    TrimRightTrims(CutComment(s));
  }

  /** Exactly what is left of any line when white space and comment are gone */
  lemma CleanLeaves(buf: Text)
    ensures match Clean(buf)
      case None => exists n :: NoText(buf, n)
      case Some(t) => exists n, c :: TextOf(buf, n, c, t)
  {
    var s := SkipBlanks(buf);
    var n := |buf| - |s|;
    BlanksSkipped(buf);
    hide CutComment, TrimRight, TextOf, SkipBlanks;
    if s == [] || s[0] == HASH || s[0] == LF {
      assert NoText(buf, n);
    } else {
      LeftIs(buf, n);
    }
  }

  lemma OneTrimmed(s: Text, t: Text, u: Text)
    requires Trimmed(s, t) && Trimmed(s, u)
    ensures t == u
  {
    assert t[|t| - 1] == s[|t| - 1] && u[|u| - 1] == s[|u| - 1];
    assert |t| == |u|;
  }

  /** There is but one such text, so that the above leaves no choice. */
  lemma OneText(buf: Text, n: nat, c: nat, t: Text, m: nat, d: nat, u: Text)
    requires TextOf(buf, n, c, t) && TextOf(buf, m, d, u)
    ensures n == m && c == d && t == u
  {
    hide Trimmed;
    assert n == m;
    OneTrimmed(buf[n..][..c], t, u);
  }

  // --- a written line with a comment -----------------------------------------

  /** The quotes of the comment hide its # from the reader: with one in the value, or by themselves. */
  ghost predicate Hidden(value: Text, comment: Text) {
    QUOTE in comment && (QUOTE in value || exists a, b :: 0 <= a < b < |comment| && comment[a] == comment[b] == QUOTE)
  }

  /** name=value, blanks, a comment and what ends the line in the buffer */
  function Commented(name: Text, value: Text, blanks: Text, comment: Text, e: Text): Text {
    Body(name, value) + (blanks + ([HASH] + (comment + e)))
  }

  ghost predicate AllBlank(blanks: Text) {
    forall i | 0 <= i < |blanks| :: Blank(blanks[i])
  }

  /** Where the characters of such a line come from */
  lemma CommentedAt(name: Text, value: Text, blanks: Text, comment: Text, e: Text)
    ensures var s, b := Commented(name, value, blanks, comment, e), |name| + 1; var v := b + |value|;
      var h := v + |blanks|; var x := h + 1 + |comment|;
      && |s| == x + |e| && s[..v] == Body(name, value) && s[h] == HASH
      && (forall i | 0 <= i < |name| :: s[i] == name[i]) && s[|name|] == EQUALS
      && (forall i | b <= i < v :: s[i] == value[i - b])
      && (forall i | v <= i < h :: s[i] == blanks[i - v])
      && (forall i | h < i < x :: s[i] == comment[i - h - 1])
      && (forall i | x <= i < |s| :: s[i] == e[i - x])
  {
  }

  /** Quotes stand in the value and in the comment alone. */
  lemma CommentedQuotes(name: Text, value: Text, blanks: Text, comment: Text, e: Text, i: nat)
    requires Name(name) && AllBlank(blanks) && LineEnd(e)
    requires i < |Commented(name, value, blanks, comment, e)|
    ensures var s, b := Commented(name, value, blanks, comment, e), |name| + 1; var h := b + |value| + |blanks|;
      s[i] == QUOTE <==> (b <= i < b + |value| && value[i - b] == QUOTE)
                         || (h < i < h + 1 + |comment| && comment[i - h - 1] == QUOTE)
  {
    CommentedAt(name, value, blanks, comment, e);
    hide Commented;
  }

  lemma HiddenShields(name: Text, value: Text, blanks: Text, comment: Text, e: Text)
    requires Name(name) && AllBlank(blanks) && LineEnd(e)
    ensures Hidden(value, comment) <==>
      Shielded(Commented(name, value, blanks, comment, e), |name| + 1 + |value| + |blanks|)
  {
    var s, b := Commented(name, value, blanks, comment, e), |name| + 1;
    var h := b + |value| + |blanks|;
    CommentedAt(name, value, blanks, comment, e);
    forall i: nat | i < |s|
      ensures s[i] == QUOTE <==> (b <= i < b + |value| && value[i - b] == QUOTE)
                                 || (h < i < h + 1 + |comment| && comment[i - h - 1] == QUOTE)
    {
      CommentedQuotes(name, value, blanks, comment, e, i);
    }
    hide Commented, Name;
    if Hidden(value, comment) {
      if QUOTE in value {
        var a :| 0 <= a < |value| && value[a] == QUOTE;
        var c :| 0 <= c < |comment| && comment[c] == QUOTE;
        assert s[b + a] == QUOTE && s[h + 1 + c] == QUOTE;
      } else {
        var a, c :| 0 <= a < c < |comment| && comment[a] == comment[c] == QUOTE;
        assert s[h + 1 + a] == QUOTE && s[h + 1 + c] == QUOTE;
      }
    }
    if Shielded(s, h) {
      var a, c :| 0 <= a < c < |s| && h < c && s[a] == QUOTE && s[c] == QUOTE;
      assert comment[c - h - 1] == QUOTE;
      if a > h { assert comment[a - h - 1] == QUOTE; }
    }
  }

  lemma UncutHash(value: Text, j: nat)
    requires Uncut(value) && j < |value| && value[j] == HASH
    ensures j < CommentStart(value)
  {
    var c := CommentStart(value);
    hide CommentStart;
    var t := value[c..];
    assert forall i | c <= i < |value| :: t[i - c] == value[i];
  }

  /** In front of the comment no other begins, if none does in the value. */
  lemma NoneBefore(name: Text, value: Text, blanks: Text, comment: Text, e: Text, i: nat)
    requires Name(name) && Kept(value) && AllBlank(blanks) && i < |name| + 1 + |value| + |blanks|
    ensures !CommentAt(Commented(name, value, blanks, comment, e), i)
  {
    var s, b := Commented(name, value, blanks, comment, e), |name| + 1;
    CommentedAt(name, value, blanks, comment, e);
    hide Commented;
    if s[i] == HASH {
      assert b <= i < b + |value| && value[i - b] == HASH;
      UncutHash(value, i - b);
      StartShields(value, i - b);
      var x, y :| 0 <= x < y < |value| && i - b < y && value[x] == QUOTE && value[y] == QUOTE;
      assert s[b + x] == QUOTE && s[b + y] == QUOTE;
    }
  }

  lemma TrimAt(s: Text, n: nat)
    requires 1 <= n <= |s| && !White(s[n - 1]) && forall i | n <= i < |s| :: White(s[i])
    ensures Trimmed(s, s[..n])
  {
    assert s[..n][n - 1] == s[n - 1];
  }

  lemma BehindBody(b: Text, blanks: Text)
    ensures forall i | |b| <= i < |b + blanks| :: (b + blanks)[i] == blanks[i - |b|]
    ensures (b + blanks)[..|b|] == b && (b != [] ==> (b + blanks)[|b| - 1] == b[|b| - 1])
  {
  }

  lemma TrimBlanks(b: Text, blanks: Text)
    requires b != [] && !White(b[|b| - 1]) && AllBlank(blanks)
    ensures Trimmed(b + blanks, b)
  {
    BehindBody(b, blanks);
    var s := b + blanks;
    hide Trimmed;
    TrimAt(s, |b|);
  }

  lemma TrimBody(name: Text, value: Text, blanks: Text)
    requires Name(name) && Kept(value) && AllBlank(blanks)
    ensures Trimmed(Body(name, value) + blanks, Body(name, value))
  {
    hide Body, Trimmed, AllBlank, Name, Unpaired, CommentStart;
    BodyShape(name, value);
    TrimBlanks(Body(name, value), blanks);
  }

  /** With its comment in the open a line is read as name=value. */
  lemma OpenComment(name: Text, value: Text, blanks: Text, comment: Text, e: Text)
    requires Name(name) && Kept(value) && AllBlank(blanks) && LineEnd(e) && !Hidden(value, comment)
    ensures var s := Commented(name, value, blanks, comment, e);
      TrimRight(CutComment(s)) == Body(name, value)
  {
    var s := Commented(name, value, blanks, comment, e);
    var h := |name| + 1 + |value| + |blanks|;
    CommentCut(s);
    HiddenShields(name, value, blanks, comment, e);
    CommentedAt(name, value, blanks, comment, e);
    forall i: nat | i < h ensures !CommentAt(s, i) { NoneBefore(name, value, blanks, comment, e, i); }
    assert |CutComment(s)| == h;
    assert s[..h] == Body(name, value) + blanks;
    hide Commented, CutComment, Hidden, Shielded, Kept, Name, AllBlank;
    TrimBody(name, value, blanks);
    BodyLong(name, value);
    TrimRightTrims(s[..h]);
    OneTrimmed(s[..h], TrimRight(s[..h]), Body(name, value));
  }

  lemma BodyLong(name: Text, value: Text)
    ensures |Body(name, value)| == |name| + 1 + |value|
  {
  }

  lemma HiddenCut(name: Text, value: Text, blanks: Text, comment: Text, e: Text)
    requires Name(name) && Kept(value) && AllBlank(blanks) && LineEnd(e) && Hidden(value, comment)
    ensures |CutComment(Commented(name, value, blanks, comment, e))| > |name| + 1 + |value| + |blanks|
  {
    var s := Commented(name, value, blanks, comment, e);
    var h := |name| + 1 + |value| + |blanks|;
    CommentCut(s);
    HiddenShields(name, value, blanks, comment, e);
    CommentedAt(name, value, blanks, comment, e);
    hide Commented, CutComment, Hidden, Shielded, Kept, Name, AllBlank;
    forall i: nat | i < h ensures !CommentAt(s, i) { NoneBefore(name, value, blanks, comment, e, i); }
    assert !CommentAt(s, h);
  }

  lemma TrimKeeps(s: Text, h: nat)
    requires h < |s| && !White(s[h])
    ensures |TrimRight(s)| > h && Prefix(TrimRight(s), s)
  {
    TrimRightTrims(s);
    hide TrimRight;
  }

  /** With its comment hidden, it is read with a part of that. */
  lemma HiddenComment(name: Text, value: Text, blanks: Text, comment: Text, e: Text)
    requires Name(name) && Kept(value) && AllBlank(blanks) && LineEnd(e) && Hidden(value, comment)
    ensures var s := Commented(name, value, blanks, comment, e); var t := TrimRight(CutComment(s));
      Prefix(t, s) && |t| > |Body(name, value)|
  {
    var s := Commented(name, value, blanks, comment, e);
    var h := |name| + 1 + |value| + |blanks|;
    CommentedAt(name, value, blanks, comment, e);
    hide Commented, CutComment, Hidden, Kept, Name, AllBlank, TrimRight;
    HiddenCut(name, value, blanks, comment, e);
    CommentCut(s);
    BodyLong(name, value);
    TrimKeeps(CutComment(s), h);
    PrefixTrans(TrimRight(CutComment(s)), CutComment(s), s);
  }

  lemma LongerSplit(name: Text, value: Text, s: Text, t: Text)
    requires Name(name) && LF !in value && Prefix(t, s) && Prefix(Body(name, value), s) && |t| > |Body(name, value)|
    ensures Split(t) != Some((name, value))
  {
    var b := Body(name, value);
    BodyShape(name, value);
    assert t[..|b|] == s[..|b|] == b;
    FirstEquals(t, b);
    hide Body, Name, IndexOf;
  }

  /** The line in the buffer, behind the tab that it is written with */
  lemma CommentedClean(name: Text, value: Text, blanks: Text, comment: Text, e: Text)
    requires Name(name) && LF !in value
    ensures var s := Commented(name, value, blanks, comment, e);
      Clean([TAB] + s) == Some(TrimRight(CutComment(s)))
  {
    var s := Commented(name, value, blanks, comment, e);
    BodyShape(name, value);
    CommentedAt(name, value, blanks, comment, e);
    assert s[0] == Body(name, value)[0];
    hide Commented, Body, CutComment, TrimRight, SkipBlanks;
    SkipTab(s);
  }

  /** What of the comment is in the buffer */
  function InBuffer(name: Text, value: Text, blanks: Text, comment: Text): Text
    requires |Content(name, value)| + |blanks| + 1 <= 1999
  {
    var room := 1999 - (|Content(name, value)| + |blanks| + 1);
    if |comment| <= room then comment else comment[..room]
  }

  /** Without and with its line end, and cut to the buffer */
  lemma CommentedIs(name: Text, value: Text, blanks: Text, comment: Text, e: Text)
    ensures Content(name, value) + blanks + [HASH] + comment + e == [TAB] + Commented(name, value, blanks, comment, e)
  {
    assert Content(name, value) == [TAB] + Body(name, value);
    hide Content, Body;
    var b := Body(name, value);
    assert [TAB] + b + blanks + [HASH] + comment + e == [TAB] + (b + (blanks + ([HASH] + (comment + e))));
  }

  lemma CutIs(name: Text, value: Text, blanks: Text, comment: Text, n: nat)
    requires n <= |comment|
    ensures var front := Content(name, value) + blanks + [HASH];
      (front + comment)[..|front| + n] == front + comment[..n] + []
  {
  }

  lemma NoLineEnd(name: Text, value: Text, blanks: Text, comment: Text)
    requires Name(name) && LF !in value && AllBlank(blanks) && LF !in comment
    ensures LF !in Content(name, value) + blanks + [HASH] + comment
  {
    ContentLine(name, value);
    hide Content;
    assert LF !in blanks;
  }

  lemma CutLine(name: Text, value: Text, blanks: Text, comment: Text)
    requires |Content(name, value)| + |blanks| + 1 <= 1999
    requires |Content(name, value) + blanks + [HASH] + comment| > 1998
    ensures (Content(name, value) + blanks + [HASH] + comment)[..1999]
         == [TAB] + Commented(name, value, blanks, InBuffer(name, value, blanks, comment), [])
  {
    hide Content, Commented;
    var seen := InBuffer(name, value, blanks, comment);
    CutIs(name, value, blanks, comment, |seen|);
    CommentedIs(name, value, blanks, seen, []);
    assert comment[..|seen|] == seen;
  }

  /** What of the line is in the buffer, with the comment as far as it is, and what ends it */
  lemma CommentedLine(name: Text, value: Text, blanks: Text, comment: Text, rest: Text) returns (e: Text)
    requires Name(name) && LF !in value && AllBlank(blanks) && LF !in comment
    requires |Content(name, value)| + |blanks| + 1 <= 1999
    ensures LineEnd(e)
    ensures ReadLine(2000, Content(name, value) + blanks + [HASH] + comment + [LF] + rest)
         == ([TAB] + Commented(name, value, blanks, InBuffer(name, value, blanks, comment), e), rest)
  {
    hide ReadLine, Name, AllBlank, Content, Commented;
    var x := Content(name, value) + blanks + [HASH] + comment;
    NoLineEnd(name, value, blanks, comment);
    ReadWritten(2000, x, rest);
    e := if |x| <= 1998 then [LF] else [];
    if |x| <= 1998 {
      CommentedIs(name, value, blanks, comment, [LF]);
    } else {
      CutLine(name, value, blanks, comment);
    }
  }

  /** A variable with a comment behind it is read as it would be without, if and only if the quotes of
      the comment do not hide it; of a comment that does not fit the buffer only what is in there
      counts. */
  lemma CommentedLineIff(name: Text, value: Text, blanks: Text, comment: Text, rest: Text)
    requires Name(name) && Kept(value) && AllBlank(blanks) && LF !in comment
    requires |Content(name, value)| + |blanks| + 1 <= 1999
    ensures NetworkLine(Content(name, value) + blanks + [HASH] + comment + [LF] + rest) == Pair(name, value, rest)
      <==> !Hidden(value, InBuffer(name, value, blanks, comment))
  {
    var stream := Content(name, value) + blanks + [HASH] + comment + [LF] + rest;
    var seen := InBuffer(name, value, blanks, comment);
    var e := CommentedLine(name, value, blanks, comment, rest);
    var s := Commented(name, value, blanks, seen, e);
    var t := TrimRight(CutComment(s));
    CommentedClean(name, value, blanks, seen, e);
    assert GetLine(2000, stream) == Some((t, rest)) by {
      hide ReadLine, Clean, Commented, CutComment, TrimRight, Content, InBuffer;
    }
    SplitWritten(name, value);
    if Hidden(value, seen) {
      HiddenComment(name, value, blanks, seen, e);
      CommentedAt(name, value, blanks, seen, e);
      BodyLong(name, value);
      hide GetLine, ReadLine, Clean, Commented, CutComment, TrimRight, Content, InBuffer, Hidden, Body, Split;
      LongerSplit(name, value, s, t);
    } else {
      OpenComment(name, value, blanks, seen, e);
    }
    hide GetLine, ReadLine, Clean, Commented, CutComment, TrimRight, Content, InBuffer, Hidden, Body, Split, Name;
  }

  const EXAMPLE_NAME: Text := [97]
  const EXAMPLE_VALUE: Text := [98]
  const QUOTATION: Text := [34, 99, 34]

  /** a=b #"c" keeps its comment. */
  lemma QuotationKept(rest: Text)
    ensures NetworkLine(Content(EXAMPLE_NAME, EXAMPLE_VALUE) + [SPACE] + [HASH] + QUOTATION + [LF] + rest)
         != Pair(EXAMPLE_NAME, EXAMPLE_VALUE, rest)
  {
    assert QUOTATION[0] == QUOTATION[2] == QUOTE;
    PlainKept(EXAMPLE_VALUE);
    CommentedLineIff(EXAMPLE_NAME, EXAMPLE_VALUE, [SPACE], QUOTATION, rest);
  }
}
