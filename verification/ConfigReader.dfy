/** The configuration file reader as it runs, proved against the values of ConfigText. */
module ConfigReader {
  import opened Collections
  import opened ConfigText
  import opened ConfigRoundTrip

  /** The open file: what is still to be read. */
  class ConfigFile {
    var stream: Text

    constructor (text: Text)
      ensures stream == text
    {
      stream := text;
    }

    /** fgets: at most size - 1 octets, up to and with a line end */
    method GetString(size: nat) returns (buf: Text)
      requires size >= 2 && stream != []
      modifies this
      ensures (buf, stream) == Fgets(size, old(stream))
    {
      var n := 0;
      while n < |stream| && n < size - 1 && stream[n] != LF
        invariant n <= |stream| && n <= size - 1
        invariant LF !in stream[..n]
      {
        n := n + 1;
      }
      assert n < |stream| && stream[n] == LF ==> IndexOf(stream, LF) == n;
      if n < |stream| && n < size - 1 { n := n + 1; }
      buf, stream := stream[..n], stream[n..];
    }

    method SkipToLineEnd()
      modifies this
      ensures stream == SkipLineEnd(old(stream))
    {
      while stream != []
        invariant SkipLineEnd(stream) == SkipLineEnd(old(stream))
        decreases |stream|
      {
        var buf := GetString(100);
        if NewlineTerminated(buf, 100) { return; }
      }
    }

    /** The first loop: the position behind the leading white space */
    static method SkipWhite(s: Text) returns (pos: nat)
      ensures pos <= |s| && s[pos..] == SkipBlanks(s)
    {
      pos := 0;
      while pos < |s| && Blank(s[pos])
        invariant pos <= |s| && SkipBlanks(s[pos..]) == SkipBlanks(s)
      {
        assert s[pos..][1..] == s[pos + 1..];
        pos := pos + 1;
      }
    }

    /** The second loop: end moves back over trailing white space, but not to the start. */
    static method TrimWhite(s: Text) returns (r: Text)
      ensures r == TrimRight(s)
    {
      if s == [] { return s; }
      var end := |s| - 1;
      assert s[..end + 1] == s;
      while end > 0 && (s[end] == LF || s[end] == SPACE || s[end] == TAB || s[end] == CR)
        invariant 0 <= end < |s| && TrimRight(s[..end + 1]) == TrimRight(s)
      {
        assert s[..end + 1][..end] == s[..end];
        end := end - 1;
      }
      r := s[..end + 1];
    }

    /** The search for quotes: where to look for a comment */
    static method FindCommentStart(s: Text) returns (sstart: nat)
      ensures sstart == CommentStart(s)
    {
      hide IndexOf, LastIndexOf;
      var quote := IndexOf(s, QUOTE);
      if quote == |s| { return 0; }
      var last := LastIndexOf(s[quote + 1..], QUOTE);
      sstart := if last == |s| - quote - 1 then 0 else quote + 1 + last;
    }

    static method RemoveComment(s: Text) returns (r: Text)
      ensures r == CutComment(s)
    {
      hide IndexOf, CommentStart;
      var sstart := FindCommentStart(s);
      var hash := IndexOf(s[sstart..], HASH);
      r := if hash < |s| - sstart then s[..sstart + hash] else s;
    }

    /** wpa_config_get_line */
    method NextLine(size: nat) returns (r: Option<Text>)
      requires size >= 2
      modifies this
      ensures match GetLine(size, old(stream))
        case None => r == None && stream == []
        case Some(p) => r == Some(p.0) && stream == p.1
    {
      while stream != []
        invariant GetLine(size, stream) == GetLine(size, old(stream))
        decreases |stream|
      {
        var buf := GetString(size);
        if !NewlineTerminated(buf, size) { SkipToLineEnd(); }
        hide CutComment, TrimRight, Fgets, SkipLineEnd, SkipBlanks;
        var pos := SkipWhite(buf);
        var s := buf[pos..];
        if s == [] || s[0] == HASH || s[0] == LF { continue; }
        s := RemoveComment(s);
        s := TrimWhite(s);
        return Some(s);
      }
      return None;
    }

    /** One turn of the loop of wpa_config_read_network */
    method ReadVariable() returns (line: Line)
      modifies this
      ensures line == NetworkLine(old(stream))
      ensures stream == if line.Eof? then [] else line.rest
    {
      var pos := NextLine(2000);
      hide GetLine;
      if pos.None? { return Eof; }
      if pos.value == CLOSE { return End(stream); }
      var k := IndexOf(pos.value, EQUALS);
      if k == |pos.value| { return Bad(stream); }
      var name, value := pos.value[..k], pos.value[k + 1..];
      if value != [] && value[0] == QUOTE && IndexOf(value[1..], QUOTE) == |value| - 1 { return Bad(stream); }
      return Pair(name, value, stream);
    }

    /** The loop of wpa_config_read_network */
    method ReadNetworkBlock() returns (vars: seq<Variable>, errors: nat, closed: bool)
      modifies this
      ensures Block(vars, errors, closed, stream) == ReadBlock(old(stream))
    {
      hide NetworkLine;
      vars, errors, closed := [], 0, false;
      while true
        invariant Continue(vars, errors, ReadBlock(stream)) == ReadBlock(old(stream))
        invariant !closed
        decreases |stream|
      {
        var line := ReadVariable();
        match line {
          case Eof => break;
          case End(_) =>
            closed := true;
            break;
          case Bad(_) => errors := errors + 1;
          case Pair(n, v, _) =>
            ghost var b := ReadBlock(stream);
            assert vars + ([Variable(n, v)] + b.vars) == vars + [Variable(n, v)] + b.vars;
            vars := vars + [Variable(n, v)];
        }
      }
      assert vars + [] == vars;
    }
  }

  /** A block of which the first variables and errors have been read already */
  function Continue(vars: seq<Variable>, errors: nat, b: Block): Block {
    b.(vars := vars + b.vars, errors := errors + b.errors)
  }
}
