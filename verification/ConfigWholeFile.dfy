/** The network blocks of a whole configuration file, from the networks that are written to the
    configuration that is read. */
module ConfigWholeFile {
  import opened Collections
  import opened ConfigText
  import opened ConfigRoundTrip
  import opened PriorityLists
  import opened NetworkConfig

  const OPEN: Text := [110, 101, 116, 119, 111, 114, 107, 61, 123]  // network={

  /** The loop of wpa_config_write over the networks */
  function WriteNetworks(nets: seq<seq<Variable>>): Text {
    if nets == [] then [] else [LF] + (OPEN + [LF] + (WriteBlock(nets[0]) + WriteNetworks(nets[1..])))
  }

  /** What the loop of wpa_config_read finds: its network blocks, None for one with a malformed or
      missing line, and the lines outside of blocks. */
  datatype Sections = Sections(nets: seq<Option<seq<Variable>>>, others: seq<Text>)

  function ReadNetworkLines(stream: Text): Sections
    decreases |stream|
  {
    match GetLine(512, stream)
    case None => Sections([], [])
    case Some(p) =>
      if p.0 == OPEN then
        var b := ReadBlock(p.1);
        var c := ReadNetworkLines(b.rest);
        c.(nets := [if b.errors == 0 && b.closed then Some(b.vars) else None] + c.nets)
      else
        var c := ReadNetworkLines(p.1);
        c.(others := [p.0] + c.others)
  }

  // --- the text --------------------------------------------------------------

  lemma OpenKept()
    ensures Clean(OPEN + [LF]) == Some(OPEN)
  {
    var s := OPEN + [LF];
    assert s == [110, 101, 116, 119, 111, 114, 107, 61, 123, 10];
    assert SkipBlanks(s) == s;
    assert QUOTE !in s && HASH !in s;
    assert CommentStart(s) == 0;
    assert s[0..] == s;
    NoComment(s);
    assert s[..9] == OPEN;
    assert TrimRight(s) == TrimRight(OPEN) == OPEN;
  }

  lemma EmptyLine(t: Text)
    ensures GetLine(512, [LF] + t) == GetLine(512, t)
  {
    assert [] + [LF] + t == [LF] + t;
    ReadWritten(512, [], t);
    assert [] + [LF] == [LF];
    assert SkipBlanks([LF]) == [LF];
    hide ReadLine;
  }

  lemma OpenRead(t: Text)
    ensures ReadLine(512, OPEN + [LF] + t) == (OPEN + [LF], t)
  {
    assert LF !in OPEN && |OPEN| == 9;
    ReadWritten(512, OPEN, t);
    hide ReadLine;
  }

  lemma OpenLine(t: Text)
    ensures GetLine(512, [LF] + (OPEN + [LF] + t)) == Some((OPEN, t))
  {
    hide ReadLine, Clean;
    EmptyLine(OPEN + [LF] + t);
    OpenRead(t);
    OpenKept();
    assert OPEN + [LF] + t != [];
  }

  lemma NothingLeft()
    ensures ReadNetworkLines([]) == Sections([], [])
  {
  }

  function Found(nets: seq<seq<Variable>>): (r: seq<Option<seq<Variable>>>)
    ensures |r| == |nets| && forall i | 0 <= i < |r| :: r[i] == Some(nets[i])
  {
    seq(|nets|, i requires 0 <= i < |nets| => Some(nets[i]))
  }

  ghost predicate AllFit(vars: seq<Variable>) {
    forall i | 0 <= i < |vars| :: Fits(vars[i])
  }

  /** Every network of the file is found again, variable by variable, and nothing else. */
  lemma {:induction false} NetworksRoundTrip(nets: seq<seq<Variable>>)
    requires forall i | 0 <= i < |nets| :: AllFit(nets[i])
    ensures ReadNetworkLines(WriteNetworks(nets)) == Sections(Found(nets), [])
  {
    hide GetLine, ReadBlock, WriteBlock, Fits;
    if nets == [] {
      NothingLeft();
    } else {
      var t := WriteNetworks(nets[1..]);
      OpenLine(WriteBlock(nets[0]) + t);
      assert AllFit(nets[0]);
      BlockRoundTrip(nets[0], t);
      NetworksRoundTrip(nets[1..]);
      assert Found(nets) == [Some(nets[0])] + Found(nets[1..]);
    }
  }

  // --- files that are refused ------------------------------------------------

  lemma {:induction false} WordTrimmed(w: Text)
    requires Name(w)
    ensures TrimRight(w + [LF]) == w
  {
    assert (w + [LF])[..|w|] == w;
    assert TrimRight(w + [LF]) == TrimRight(w);
  }

  lemma WordClean(w: Text)
    requires Name(w)
    ensures Clean(w + [LF]) == Some(w)
  {
    var s := w + [LF];
    assert s[0] == w[0] && SkipBlanks(s) == s;
    assert QUOTE !in s && HASH !in s;
    assert s[0..] == s;
    NoComment(s);
    WordTrimmed(w);
    hide CutComment, TrimRight, SkipBlanks;
  }

  /** A line with a single word */
  lemma WordLine(size: nat, w: Text, t: Text)
    requires Name(w) && size >= 512
    ensures GetLine(size, w + [LF] + t) == Some((w, t))
  {
    assert LF !in w;
    ReadWritten(size, w, t);
    WordClean(w);
    hide ReadLine, Clean, Name;
  }

  /** Outside of a network block a word is another line, and the networks are found as without it. */
  lemma OtherLineFound(w: Text, t: Text)
    requires Name(w)
    ensures var c := ReadNetworkLines(t); ReadNetworkLines(w + [LF] + t) == Sections(c.nets, [w] + c.others)
  {
    WordLine(512, w, t);
    assert w != OPEN by { assert OPEN[7] == 61; }
    hide GetLine, ReadBlock;
  }

  lemma WordIsBad(w: Text, t: Text)
    requires Name(w)
    ensures NetworkLine(w + [LF] + t) == Bad(t)
  {
    WordLine(2000, w, t);
    assert EQUALS !in w;
    assert w != CLOSE by { assert CLOSE[0] == 125; }
    hide GetLine, Name;
  }

  lemma WordSpoils(w: Text, t: Text)
    requires Name(w)
    ensures ReadBlock(w + [LF] + t) == ReadBlock(t).(errors := ReadBlock(t).errors + 1)
  {
    hide NetworkLine, Name;
    WordIsBad(w, t);
  }

  lemma BlockFound(t: Text)
    ensures ReadNetworkLines([LF] + (OPEN + [LF] + t)) ==
      var b := ReadBlock(t); var c := ReadNetworkLines(b.rest);
      c.(nets := [if b.errors == 0 && b.closed then Some(b.vars) else None] + c.nets)
  {
    OpenLine(t);
    hide GetLine, ReadBlock;
  }

  /** Inside of one it spoils the network, and those behind it are found all the same. */
  lemma SpoiledFound(w: Text, t: Text)
    requires Name(w)
    ensures var c := ReadNetworkLines(ReadBlock(t).rest);
      ReadNetworkLines([LF] + (OPEN + [LF] + (w + [LF] + t))) == Sections([None] + c.nets, c.others)
  {
    WordSpoils(w, t);
    BlockFound(w + [LF] + t);
    hide ReadBlock, ReadNetworkLines, Name;
  }

  /** The lines of a network block without the one that closes it */
  function WriteOpen(vars: seq<Variable>): Text {
    if vars == [] then []
    else Content(vars[0].name, vars[0].value) + [LF] + WriteOpen(vars[1..])
  }

  lemma {:induction false} OpenBlock(vars: seq<Variable>)
    requires AllFit(vars)
    ensures ReadBlock(WriteOpen(vars)) == Block(vars, 0, false, [])
    decreases |vars|
  {
    if vars == [] {
      assert NetworkLine([]).Eof?;
    } else {
      var t := WriteOpen(vars[1..]);
      assert Fits(vars[0]);
      hide Fits, NetworkLine, Content, ReadBlock;
      VariableRoundTrip(vars[0], t);
      ReadPair(WriteOpen(vars), vars[0], t);
      assert AllFit(vars[1..]);
      OpenBlock(vars[1..]);
      assert [vars[0]] + vars[1..] == vars;
    }
  }

  /** A block that the file does not close is no network, whatever it holds. */
  lemma UnclosedFound(vars: seq<Variable>)
    requires AllFit(vars)
    ensures ReadNetworkLines([LF] + (OPEN + [LF] + WriteOpen(vars))) == Sections([None], [])
  {
    OpenBlock(vars);
    BlockFound(WriteOpen(vars));
    NothingLeft();
    hide ReadBlock, ReadNetworkLines, AllFit, WriteOpen;
  }

  // --- the configuration -----------------------------------------------------

  /** The networks that the blocks make: accept is the outcome of the variables and of
      wpa_config_validate_network, with the priority they give; ptrs are the new structures. */
  function Made(found: seq<Option<seq<Variable>>>, accept: seq<Variable> -> Option<int>, ptrs: seq<nat>)
      : (r: seq<Option<Net>>)
    requires |ptrs| == |found|
    ensures |r| == |found|
    ensures forall i | 0 <= i < |r| ::
      r[i] == if found[i].Some? && accept(found[i].value).Some? then Some(Net(ptrs[i], accept(found[i].value).value))
              else None
  {
    seq(|found|, i requires 0 <= i < |found| =>
      if found[i].Some? && accept(found[i].value).Some? then Some(Net(ptrs[i], accept(found[i].value).value)) else None)
  }

  lemma {:induction false} AllParsed(blocks: seq<Option<Net>>, order: seq<Net>)
    requires |blocks| == |order| && forall i | 0 <= i < |blocks| :: blocks[i] == Some(order[i])
    ensures NetworkConfig.Parsed(blocks) == order
  {
    if blocks != [] {
      var m := |blocks| - 1;
      AllParsed(blocks[..m], order[..m]);
      assert order == order[..m] + [order[m]];
    }
  }

  lemma MadeFresh(found: seq<Option<seq<Variable>>>, accept: seq<Variable> -> Option<int>, ptrs: seq<nat>)
    requires |ptrs| == |found| && Distinct(ptrs)
    ensures Fresh(map[], Made(found, accept, ptrs), 0)
  {
  }

  lemma MadeAccepted(nets: seq<seq<Variable>>, accept: seq<Variable> -> Option<int>, ptrs: seq<nat>)
    requires |ptrs| == |nets|
    ensures Accepted(Lines(Made(Found(nets), accept, ptrs), false))
      <==> forall i | 0 <= i < |nets| :: accept(nets[i]).Some?
  {
    var blocks := Made(Found(nets), accept, ptrs);
    forall i | 0 <= i < |nets| ensures blocks[i].Some? <==> accept(nets[i]).Some? {
      assert Found(nets)[i] == Some(nets[i]);
    }
  }

  lemma MadeNumbers(mem: Memory, blocks: seq<Option<Net>>, order: seq<Net>)
    requires |blocks| == |order| && forall i | 0 <= i < |blocks| :: blocks[i] == Some(order[i])
    requires NumberedFromZero(mem, blocks, |blocks|)
    ensures forall i | 0 <= i < |order| :: Id(mem, order[i]) == i
  {
    forall i | 0 <= i < |order| ensures Id(mem, order[i]) == i {
      assert blocks[i].Some?;
    }
  }

  /** The networks of the file, if all are accepted */
  function Networks(nets: seq<seq<Variable>>, accept: seq<Variable> -> Option<int>, ptrs: seq<nat>): (r: seq<Net>)
    requires |ptrs| == |nets| && forall i | 0 <= i < |nets| :: accept(nets[i]).Some?
    ensures |r| == |nets| && forall i | 0 <= i < |r| :: r[i] == Net(ptrs[i], accept(nets[i]).value)
  {
    seq(|nets|, i requires 0 <= i < |nets| => Net(ptrs[i], accept(nets[i]).value))
  }

  lemma MadeNetworks(mem: Memory, nets: seq<seq<Variable>>, accept: seq<Variable> -> Option<int>, ptrs: seq<nat>)
    requires |ptrs| == |nets| && forall i | 0 <= i < |nets| :: accept(nets[i]).Some?
    requires NumberedFromZero(mem, Made(Found(nets), accept, ptrs), |nets|)
    ensures var order := Networks(nets, accept, ptrs);
      && [] + NetworkConfig.Parsed(Made(Found(nets), accept, ptrs)) == order
      && forall i | 0 <= i < |order| :: Id(mem, order[i]) == i
  {
    var blocks, order := Made(Found(nets), accept, ptrs), Networks(nets, accept, ptrs);
    AllParsed(blocks, order);
    MadeNumbers(mem, blocks, order);
    hide NetworkConfig.Parsed, NumberedFromZero;
    assert [] + NetworkConfig.Parsed(blocks) == order;
  }

  /** A file of written networks: it is read if and only if all their variables are accepted, and
      then network by network, numbered from 0, with the lists that sort them. */
  method ReadWholeFile(nets: seq<seq<Variable>>, accept: seq<Variable> -> Option<int>, ptrs: seq<nat>)
      returns (c: Config, ok: bool)
    requires |ptrs| == |nets| && Distinct(ptrs) && forall i | 0 <= i < |nets| :: AllFit(nets[i])
    ensures ok <==> forall i | 0 <= i < |nets| :: accept(nets[i]).Some?
    ensures c.freed <==> !ok
    ensures ok ==> var order := Networks(nets, accept, ptrs);
      c.Valid(order) && forall i | 0 <= i < |order| :: Id(c.mem, order[i]) == i
  {
    hide WriteNetworks, ReadNetworkLines, NetworkConfig.Parsed, Fresh, NumberedFromZero, Made, Found, Networks;
    hide Accepted, Heads, Chain, AllFit, Distinct;
    NetworksRoundTrip(nets);
    var sections := ReadNetworkLines(WriteNetworks(nets));
    var blocks := Made(sections.nets, accept, ptrs);
    MadeFresh(sections.nets, accept, ptrs);
    MadeAccepted(nets, accept, ptrs);
    c := new Config();
    ok := c.ReadFile(Lines(blocks, sections.others != []), []);
    if ok { MadeNetworks(c.mem, nets, accept, ptrs); }
  }
}
