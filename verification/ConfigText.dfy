/** Network lines of the configuration file: the line reader of config_file.c, and the string and
    key writers and parsers of config.c and src/utils/common.c, on values. */
module ConfigText {
  import opened Collections

  type Text = seq<Byte>

  const TAB: Byte := 9
  const LF: Byte := 10
  const CR: Byte := 13
  const SPACE: Byte := 32
  const QUOTE: Byte := 34
  const HASH: Byte := 35
  const EQUALS: Byte := 61
  const LETTER_P: Byte := 80
  const CLOSE: Text := [125]
  const NULL_WORD: Text := [78, 85, 76, 76]

  // --- the stream ------------------------------------------------------------

  function Fgets(size: nat, stream: Text): (r: (Text, Text))
    requires size >= 2 && stream != []
    ensures r.0 + r.1 == stream && 1 <= |r.0| < size
  {
    var k := IndexOf(stream, LF);
    var line := if k < |stream| then k + 1 else k;
    var n := if line < size - 1 then line else size - 1;
    (stream[..n], stream[n..])
  }

  predicate NewlineTerminated(buf: Text, size: nat) {
    |buf| != 0 && (|buf| == size - 1 ==> buf[|buf| - 1] == LF)
  }

  function SkipLineEnd(stream: Text): (r: Text)
    ensures |r| <= |stream|
    decreases |stream|
  {
    if stream == [] then []
    else
      var (buf, rest) := Fgets(100, stream);
      if NewlineTerminated(buf, 100) then rest else SkipLineEnd(rest)
  }

  function ReadLine(size: nat, stream: Text): (r: (Text, Text))
    requires size >= 2 && stream != []
    ensures |r.1| < |stream|
  {
    var (buf, rest) := Fgets(size, stream);
    (buf, if NewlineTerminated(buf, size) then rest else SkipLineEnd(rest))
  }

  // --- white space and comments ----------------------------------------------

  predicate Blank(c: Byte) {
    c == SPACE || c == TAB || c == CR
  }

  function SkipBlanks(s: Text): (r: Text)
    ensures |r| <= |s| && (r == [] || !Blank(r[0]))
  {
    if s == [] || !Blank(s[0]) then s else SkipBlanks(s[1..])
  }

  /** Where the search for a comment starts: at the last of two or more quotes, or at 0. */
  function CommentStart(s: Text): (k: nat)
    ensures k <= |s|
  {
    var first := IndexOf(s, QUOTE);
    if first == |s| then 0
    else
      var last := LastIndexOf(s[first + 1..], QUOTE);
      if last == |s| - first - 1 then 0 else first + 1 + last
  }

  function CutComment(s: Text): Text {
    var start := CommentStart(s);
    var k := IndexOf(s[start..], HASH);
    if k == |s| - start then s else s[..start + k]
  }

  /** Trailing white space goes, but never the first character. */
  function TrimRight(s: Text): Text {
    if |s| > 1 && (Blank(s[|s| - 1]) || s[|s| - 1] == LF) then TrimRight(s[..|s| - 1]) else s
  }

  /** What is left of a line, or None for an empty line or a comment. */
  function Clean(buf: Text): Option<Text> {
    var s := SkipBlanks(buf);
    if s == [] || s[0] == HASH || s[0] == LF then None else Some(TrimRight(CutComment(s)))
  }

  /** wpa_config_get_line: the next line, and what remains of the stream */
  function GetLine(size: nat, stream: Text): (r: Option<(Text, Text)>)
    requires size >= 2
    ensures r.Some? ==> |r.value.1| < |stream|
    decreases |stream|
  {
    if stream == [] then None
    else
      var (buf, rest) := ReadLine(size, stream);
      match Clean(buf)
      case Some(t) => Some((t, rest))
      case None => GetLine(size, rest)
  }

  // --- key and value ---------------------------------------------------------

  /** name=value, split at the first =; a value that starts with a quote needs another one. */
  function Split(line: Text): Option<(Text, Text)> {
    var k := IndexOf(line, EQUALS);
    if k == |line| then None
    else
      var value := line[k + 1..];
      if value != [] && value[0] == QUOTE && QUOTE !in value[1..] then None
      else Some((line[..k], value))
  }

  datatype Line = End(rest: Text) | Pair(name: Text, value: Text, rest: Text) | Bad(rest: Text) | Eof

  /** One turn of the loop of wpa_config_read_network, up to wpa_config_set */
  function NetworkLine(stream: Text): (r: Line)
    ensures !r.Eof? ==> |r.rest| < |stream|
  {
    match GetLine(2000, stream)
    case None => Eof
    case Some(p) =>
      if p.0 == CLOSE then End(p.1)
      else match Split(p.0)
        case None => Bad(p.1)
        case Some(kv) => Pair(kv.0, kv.1, p.1)
  }

  // --- strings ---------------------------------------------------------------

  predicate IsHex(v: Text) {
    exists i :: 0 <= i < |v| && (v[i] < 32 || v[i] >= 127)
  }

  predicate HasCtrlChar(v: Text) {
    exists i :: 0 <= i < |v| && (v[i] < 32 || v[i] == 127)
  }

  function Digit(n: nat): (c: Byte)
    requires n < 16
  {
    if n < 10 then 48 + n else 87 + n
  }

  function HexNum(c: Byte): (n: int)
    ensures -1 <= n < 16
  {
    if 48 <= c <= 57 then c - 48
    else if 97 <= c <= 102 then c - 87
    else if 65 <= c <= 70 then c - 55
    else -1
  }

  /** wpa_snprintf_hex */
  function WriteHex(v: Text): (r: Text)
    ensures |r| == 2 * |v|
  {
    if v == [] then [] else [Digit(v[0] / 16), Digit(v[0] % 16)] + WriteHex(v[1..])
  }

  /** hexstr2bin of the first 2 * len characters; a string that ends early is invalid. */
  function ParseHex(s: Text, len: nat): (r: Option<Text>)
    ensures r.Some? ==> |r.value| == len && |s| >= 2 * len
    decreases len
  {
    if len == 0 then Some([])
    else if |s| < 2 || HexNum(s[0]) < 0 || HexNum(s[1]) < 0 then None
    else
      match ParseHex(s[2..], len - 1)
      case None => None
      case Some(t) => Some([HexNum(s[0]) * 16 + HexNum(s[1])] + t)
  }

  function Quoted(v: Text): Text {
    [QUOTE] + v + [QUOTE]
  }

  /** wpa_config_write_string */
  function WriteString(v: Text): Text {
    if IsHex(v) then WriteHex(v) else Quoted(v)
  }

  /** The text between the first quote of value and its last, which must end value. */
  function Unquote(value: Text): Option<Text> {
    var k := LastIndexOf(value, QUOTE);
    if k == |value| || k + 1 != |value| then None else Some(value[..k])
  }

  /** Escaped is the text that printf_decode takes from the form P"...". */
  datatype Parsed = Bytes(value: Text) | Escaped(text: Text) | Invalid

  /** wpa_config_parse_string */
  function ParseString(value: Text): Parsed {
    if value != [] && value[0] == QUOTE then
      match Unquote(value[1..])
      case None => Invalid
      case Some(v) => Bytes(v)
    else if |value| >= 2 && value[0] == LETTER_P && value[1] == QUOTE then
      match Unquote(value[2..])
      case None => Invalid
      case Some(v) => Escaped(v)
    else if |value| % 2 == 1 then Invalid
    else
      match ParseHex(value, |value| / 2)
      case None => Invalid
      case Some(v) => Bytes(v)
  }

  /** The limits of a string variable; 0 is none. */
  datatype Limits = Limits(min: nat, max: nat)

  predicate Within(len: nat, limits: Limits) {
    (limits.min == 0 || len >= limits.min) && (limits.max == 0 || len <= limits.max)
  }

  datatype Assigned = Unset | Set(value: Text) | SetEscaped(text: Text) | Rejected

  /** wpa_config_parse_str: what the variable becomes */
  function ParseStr(value: Text, limits: Limits): Assigned {
    if value == NULL_WORD then Unset
    else
      match ParseString(value)
      case Bytes(v) => if Within(|v|, limits) then Set(v) else Rejected
      case Escaped(t) => SetEscaped(t)
      case Invalid => Rejected
  }

  // --- passphrases and keys --------------------------------------------------

  datatype Key = Passphrase(text: Text) | Psk(key: Text)

  /** A key as wpa_config_parse_psk leaves it. */
  predicate ValidKey(k: Key) {
    match k
    case Passphrase(t) => 8 <= |t| <= 63 && !HasCtrlChar(t)
    case Psk(p) => |p| == 32
  }

  /** wpa_config_write_psk */
  function WritePsk(k: Key): Text {
    match k
    case Passphrase(t) => Quoted(t)
    case Psk(p) => WriteHex(p)
  }

  /** wpa_config_parse_psk */
  function ParsePsk(value: Text): Option<Key> {
    if value != [] && value[0] == QUOTE then
      var v := value[1..];
      var len := LastIndexOf(v, QUOTE);
      if len < 8 || len > 63 || HasCtrlChar(v[..len]) then None else Some(Passphrase(v[..len]))
    else
      match ParseHex(value, 32)
      case None => None
      case Some(p) => if |value| == 64 then Some(Psk(p)) else None
  }

  // --- the written line ------------------------------------------------------

  /** write_str and write_psk: a tab, the name, =, the value; without the line end */
  function Content(name: Text, value: Text): Text {
    [TAB] + (name + [EQUALS] + value)
  }
}
