/** A whole comeback exchange: a peer splits a response into fragments and may repeat frames. */
module GasExchange {
  import opened Collections
  import opened GasModel

  // --- the peer's frames (sections 8.5.8.13 and 8.5.8.15 of IEEE Std 802.11-2012) ----------

  function Le16(n: nat): seq<Byte>
    requires n < 65536
  {
    [n % 256, n / 256]
  }

  predicate ValidAdv(adv: seq<Byte>) {
    |adv| >= 2 && adv[0] == ADV_PROTO && |adv| == 2 + adv[1] as int
  }

  function InitialFrame(token: Byte, delay: nat, adv: seq<Byte>, data: seq<Byte>): seq<Byte>
    requires delay < 65536 && |data| < 65536
  {
    [INITIAL_RESP, token] + Le16(STATUS_SUCCESS) + (Le16(delay) + adv + Le16(|data|) + data)
  }

  function StatusFrame(token: Byte, status: nat, id: nat, more: bool, delay: nat, adv: seq<Byte>, data: seq<Byte>)
      : seq<Byte>
    requires status < 65536 && id < 128 && delay < 65536 && |data| < 65536
  {
    [COMEBACK_RESP, token] + Le16(status) +
    ([if more then id + 128 else id] + (Le16(delay) + adv + Le16(|data|) + data))
  }

  function ComebackFrame(token: Byte, id: nat, more: bool, delay: nat, adv: seq<Byte>, data: seq<Byte>): seq<Byte>
    requires id < 128 && delay < 65536 && |data| < 65536
  {
    StatusFrame(token, STATUS_SUCCESS, id, more, delay, adv, data)
  }

  lemma ReadLe16(s: seq<Byte>, pos: nat, n: nat)
    requires n < 65536 && pos + 2 <= |s| && s[pos..pos + 2] == Le16(n)
    ensures LittleEndian16(s, pos) == n
  {
    assert s[pos] == s[pos..pos + 2][0] && s[pos + 1] == s[pos..pos + 2][1];
  }

  lemma Slices<T>(head: seq<T>, a: seq<T>, b: seq<T>, c: seq<T>, d: seq<T>, extra: seq<T>)
    ensures var s := head + (a + b + c + d) + extra;
      var i := |head| + |a|; var j := i + |b|; var k := j + |c|;
      s[|head|..i] == a && s[i..j] == b && s[j..k] == c && s[k..k + |d|] == d
  {
  }

  lemma ParseBody(head: seq<Byte>, delay: nat, adv: seq<Byte>, data: seq<Byte>, extra: seq<Byte>)
    requires delay < 65536 && |data| < 65536 && ValidAdv(adv)
    requires |head| >= 4 && |head| == if head[0] == COMEBACK_RESP then 5 else 4
    ensures var s := head + (Le16(delay) + adv + Le16(|data|) + data) + extra;
      |s| >= 4 && ParseFrame(s) == Some(Frame(adv, data, delay,
        if head[0] == COMEBACK_RESP then (head[4] as int) % 128 else 0,
        head[0] == COMEBACK_RESP && head[4] >= 128))
  {
    var s := head + (Le16(delay) + adv + Le16(|data|) + data) + extra;
    Slices(head, Le16(delay), adv, Le16(|data|), data, extra);
    var pos := |head|;
    assert s[0] == head[0] && (pos == 5 ==> s[4] == head[4]);
    ReadLe16(s, pos, delay);
    var a := pos + 2;
    var len := a + |adv|;
    assert s[a..len] == adv;
    assert s[a] == s[a..len][0] && s[a + 1] == s[a..len][1];
    ReadLe16(s, len, |data|);
  }

  /** gas_query_rx takes the peer's frames apart correctly, whatever follows them. */
  lemma ParseInitial(token: Byte, delay: nat, adv: seq<Byte>, data: seq<Byte>, extra: seq<Byte>)
    requires delay < 65536 && |data| < 65536 && ValidAdv(adv)
    ensures var s := InitialFrame(token, delay, adv, data) + extra;
      |s| >= 4 && s[0] == INITIAL_RESP && s[1] == token && LittleEndian16(s, 2) == STATUS_SUCCESS
      && ParseFrame(s) == Some(Frame(adv, data, delay, 0, false))
  {
    var head := [INITIAL_RESP, token] + Le16(STATUS_SUCCESS);
    ParseBody(head, delay, adv, data, extra);
  }

  /** The octets in front of the body */
  function StatusHead(token: Byte, status: nat, id: nat, more: bool): (r: seq<Byte>)
    requires status < 65536 && id < 128
    ensures |r| == 5
  {
    [COMEBACK_RESP, token] + Le16(status) + [if more then id + 128 else id]
  }

  lemma StatusHeadRead(token: Byte, status: nat, id: nat, more: bool, t: seq<Byte>)
    requires status < 65536 && id < 128
    ensures var s := StatusHead(token, status, id, more) + t;
      && s[0] == COMEBACK_RESP && s[1] == token && LittleEndian16(s, 2) == status
      && s[4] == if more then id + 128 else id
  {
    var s := StatusHead(token, status, id, more) + t;
    assert s[2..4] == Le16(status);
    ReadLe16(s, 2, status);
  }

  lemma StatusFrameIs(token: Byte, status: nat, id: nat, more: bool, delay: nat, adv: seq<Byte>, data: seq<Byte>)
    requires status < 65536 && id < 128 && delay < 65536 && |data| < 65536
    ensures StatusFrame(token, status, id, more, delay, adv, data)
         == StatusHead(token, status, id, more) + (Le16(delay) + adv + Le16(|data|) + data)
  {
    var body := Le16(delay) + adv + Le16(|data|) + data;
    var flags: seq<Byte> := [if more then id + 128 else id];
    assert [COMEBACK_RESP, token] + Le16(status) + (flags + body)
        == [COMEBACK_RESP, token] + Le16(status) + flags + body;
  }

  lemma ParseStatus(token: Byte, status: nat, id: nat, more: bool, delay: nat, adv: seq<Byte>, data: seq<Byte>,
                    extra: seq<Byte>)
    requires status < 65536 && id < 128 && delay < 65536 && |data| < 65536 && ValidAdv(adv)
    ensures var s := StatusFrame(token, status, id, more, delay, adv, data) + extra;
      |s| >= 4 && s[0] == COMEBACK_RESP && s[1] == token && LittleEndian16(s, 2) == status
      && ParseFrame(s) == Some(Frame(adv, data, delay, id, more))
  {
    hide ParseFrame, StatusFrame, StatusHead, Le16, LittleEndian16;
    var head, body := StatusHead(token, status, id, more), Le16(delay) + adv + Le16(|data|) + data;
    StatusHeadRead(token, status, id, more, []);
    assert head + [] == head;
    ParseBody(head, delay, adv, data, extra);
    StatusFrameIs(token, status, id, more, delay, adv, data);
    StatusHeadRead(token, status, id, more, body + extra);
    assert head + body + extra == head + (body + extra);
  }

  lemma ParseComeback(token: Byte, id: nat, more: bool, delay: nat, adv: seq<Byte>, data: seq<Byte>, extra: seq<Byte>)
    requires id < 128 && delay < 65536 && |data| < 65536 && ValidAdv(adv)
    ensures var s := ComebackFrame(token, id, more, delay, adv, data) + extra;
      |s| >= 4 && s[0] == COMEBACK_RESP && s[1] == token && LittleEndian16(s, 2) == STATUS_SUCCESS
      && ParseFrame(s) == Some(Frame(adv, data, delay, id, more))
  {
    ParseStatus(token, STATUS_SUCCESS, id, more, delay, adv, data, extra);
    hide ParseFrame, StatusFrame;
  }

  // --- which octets are a frame ----------------------------------------------

  /** What stands behind the fixed octets of a response */
  function BodyOf(f: Frame): seq<Byte>
    requires f.delay < 65536 && |f.data| < 65536
  {
    Le16(f.delay) + f.adv + Le16(|f.data|) + f.data
  }

  /** data is a response frame with these fields: four octets, one more with the fragment number and
      the more flag in a comeback response, and the body, with anything behind it. */
  ghost predicate FrameIn(data: seq<Byte>, f: Frame) {
    && |data| >= 4 && f.delay < 65536 && |f.data| < 65536 && ValidAdv(f.adv)
    && var head := if data[0] == 13 then 5 else 4;
       && |data| >= head && BodyOf(f) <= data[head..]
       && (if data[0] == 13 then f.fragId < 128 && data[4] as int == f.fragId + (if f.more then 128 else 0)
           else f.fragId == 0 && !f.more)
  }

  lemma LengthOctets(s: seq<Byte>, pos: nat)
    requires pos + 2 <= |s|
    ensures LittleEndian16(s, pos) < 65536 && s[pos..pos + 2] == Le16(LittleEndian16(s, pos))
  {
    var n := LittleEndian16(s, pos);
    assert n % 256 == s[pos] && n / 256 == s[pos + 1];
  }

  lemma Pasted(s: seq<Byte>, a: nat, b: nat, c: nat, d: nat, e: nat)
    requires a <= b <= c <= d <= e <= |s|
    ensures s[a..b] + s[b..c] + s[c..d] + s[d..e] == s[a..e]
  {
  }

  lemma AdvOctets(data: seq<Byte>, a: nat, len: nat)
    requires a + 2 <= len <= |data| && data[a] == ADV_PROTO && len == a + 2 + data[a + 1] as int
    ensures ValidAdv(data[a..len])
  {
    var adv := data[a..len];
    assert adv[0] == data[a] && adv[1] == data[a + 1];
  }

  /** Where the fields of a parsed frame stand */
  lemma ParsedFields(data: seq<Byte>, f: Frame) returns (len: nat, end: nat)
    requires |data| >= 4 && ParseFrame(data) == Some(f)
    ensures var pos := if data[0] == COMEBACK_RESP then 5 else 4;
      && pos + 4 <= len && len + 2 <= end <= |data|
      && f.delay == LittleEndian16(data, pos) && f.adv == data[pos + 2..len] && data[pos + 2] == ADV_PROTO
      && len == pos + 4 + data[pos + 3] as int
      && f.data == data[len + 2..end] && |f.data| == LittleEndian16(data, len)
      && (if data[0] == 13 then f.fragId < 128 && data[4] as int == f.fragId + (if f.more then 128 else 0)
          else f.fragId == 0 && !f.more)
  {
    hide LittleEndian16;
    var pos := if data[0] == COMEBACK_RESP then 5 else 4;
    len := pos + 4 + data[pos + 3] as int;
    end := len + 2 + |f.data|;
  }

  lemma ParsedIsFrame(data: seq<Byte>, f: Frame)
    requires |data| >= 4 && ParseFrame(data) == Some(f)
    ensures FrameIn(data, f)
  {
    var len, end := ParsedFields(data, f);
    hide ParseFrame, LittleEndian16, Le16, ValidAdv;
    var pos := if data[0] == COMEBACK_RESP then 5 else 4;
    LengthOctets(data, pos);
    LengthOctets(data, len);
    AdvOctets(data, pos + 2, len);
    Pasted(data, pos, pos + 2, len, len + 2, end);
    TakenFrom(data, pos, end);
  }

  lemma TakenFrom(data: seq<Byte>, pos: nat, end: nat)
    requires pos <= end <= |data|
    ensures data[pos..end] <= data[pos..]
  {
  }

  lemma Continued(data: seq<Byte>, h: nat, body: seq<Byte>)
    requires h <= |data| && body <= data[h..]
    ensures data == data[..h] + body + data[h..][|body|..]
  {
  }

  lemma FrameIsParsed(data: seq<Byte>, f: Frame)
    requires FrameIn(data, f)
    ensures ParseFrame(data) == Some(f)
  {
    hide ParseFrame, Le16;
    var h := if data[0] == 13 then 5 else 4;
    Continued(data, h, BodyOf(f));
    ParseBody(data[..h], f.delay, f.adv, f.data, data[h..][|BodyOf(f)|..]);
  }

  /** The fields of a frame are read, and nothing else is taken for a frame. */
  lemma ParsedIff(data: seq<Byte>, f: Frame)
    requires |data| >= 4
    ensures ParseFrame(data) == Some(f) <==> FrameIn(data, f)
  {
    hide ParseFrame, FrameIn;
    if ParseFrame(data) == Some(f) { ParsedIsFrame(data, f); }
    if FrameIn(data, f) { FrameIsParsed(data, f); }
  }

  // --- one frame -------------------------------------------------------------

  /** The first query pending for addr and token is the k-th, and waits for fragment n. */
  ghost predicate Waiting(g: Gas, k: nat, addr: Addr, token: Byte, adv: seq<Byte>, n: nat) {
    && k < |g.pending| && GetPending(g.pending, addr, token) == k
    && g.pending[k].waitComeback && g.pending[k].adv == Some(adv) && g.pending[k].nextFrag == n
  }

  lemma {:induction false} GetPendingPut(p: seq<Query>, k: nat, q: Query, addr: Addr, token: Byte)
    requires k < |p| && q.addr == p[k].addr && q.token == p[k].token
    ensures GetPending(p[k := q], addr, token) == GetPending(p, addr, token)
  {
    if k == 0 {
      assert p[k := q][1..] == p[1..];
    } else {
      assert p[k := q][1..] == p[1..][k - 1 := q];
      GetPendingPut(p[1..], k - 1, q, addr, token);
    }
  }

  lemma WaitingPut(g: Gas, k: nat, addr: Addr, token: Byte, adv: seq<Byte>, n: nat, q: Query)
    requires Waiting(g, k, addr, token, adv, n)
    requires q.addr == g.pending[k].addr && q.token == g.pending[k].token
    requires q.waitComeback && q.adv == Some(adv)
    ensures Waiting(Put(g, k, q), k, addr, token, adv, q.nextFrag)
  {
    GetPendingPut(g.pending, k, q, addr, token);
  }

  function FragmentFrame(token: Byte, id: nat, more: bool, adv: seq<Byte>, data: seq<Byte>): seq<Byte>
    requires id < 128 && |data| < 65536
  {
    ComebackFrame(token, id, more, 0, adv, data)
  }

  function Answered(g: Gas, k: nat): Gas
    requires k < |g.pending|
  {
    Put(g, k, g.pending[k].(status := STATUS_SUCCESS))
  }

  /** What gas_query_rx does with a fragment, octets and all. */
  function Receive(g: Gas, addr: Addr, token: Byte, adv: seq<Byte>, id: nat, more: bool, data: seq<Byte>,
                   extra: seq<Byte>, txOk: bool): Gas
    requires id < 128 && |data| < 65536
  {
    Rx(g, addr, false, false, FragmentFrame(token, id, more, adv, data) + extra, txOk)
  }

  lemma ReceiveIs(g: Gas, k: nat, addr: Addr, token: Byte, adv: seq<Byte>, n: nat,
                  id: nat, more: bool, data: seq<Byte>, extra: seq<Byte>, txOk: bool)
    requires Waiting(g, k, addr, token, adv, n) && ValidAdv(adv) && id < 128 && |data| < 65536
    ensures Receive(g, addr, token, adv, id, more, data, extra, txOk)
         == RxComebackResp(Answered(g, k), k, Frame(adv, data, 0, id, more), txOk)
    ensures Waiting(Answered(g, k), k, addr, token, adv, n)
  {
    ParseComeback(token, id, more, 0, adv, data, extra);
    WaitingPut(g, k, addr, token, adv, n, g.pending[k].(status := STATUS_SUCCESS));
    hide ParseFrame, ComebackFrame, RxComebackResp;
  }

  function Accepted(q: Query, f: Frame): Query {
    Append(q.(nextFrag := f.fragId + 1), f.fragId, f.data).(offchannel := true)
  }

  lemma AcceptMore(g: Gas, k: nat, f: Frame)
    requires k < |g.pending| && g.pending[k].adv == Some(f.adv) && f.delay == 0 && f.more
    requires f.fragId == g.pending[k].nextFrag < 128
    ensures RxComebackResp(g, k, f, true)
         == Put(Cancel(g, RxComeback, g.pending[k].serial), k, Accepted(g.pending[k], f))
  {
    var q := g.pending[k];
    var u := Append(q.(nextFrag := f.fragId + 1), f.fragId, f.data);
    assert g.pending[k := u][k := Accepted(q, f)] == g.pending[k := Accepted(q, f)];
  }

  /** The expected fragment, with more to come, is appended and the next one asked for. */
  lemma NextFragment(g: Gas, k: nat, addr: Addr, token: Byte, adv: seq<Byte>, n: nat,
                     data: seq<Byte>, extra: seq<Byte>)
    requires Waiting(g, k, addr, token, adv, n) && ValidAdv(adv) && n < 128 && |data| < 65536
    ensures var h := Receive(g, addr, token, adv, n, true, data, extra, true);
      && h.calls == g.calls && Waiting(h, k, addr, token, adv, n + 1)
      && h.pending[k].serial == g.pending[k].serial && h.pending[k].resp == g.pending[k].resp + data
  {
    var f := Frame(adv, data, 0, n, true);
    var a := Answered(g, k);
    var v := Accepted(a.pending[k], f);
    ReceiveIs(g, k, addr, token, adv, n, n, true, data, extra, true);
    AcceptMore(a, k, f);
    WaitingPut(a, k, addr, token, adv, n, v);
    assert Put(Cancel(a, RxComeback, v.serial), k, v).pending == Put(a, k, v).pending;
    hide Receive, GetPending, RxComebackResp;
  }

  /** The k-th query is no longer pending, and its callback was run with that result. */
  ghost predicate Ends(g: Gas, h: Gas, k: nat, result: Result)
    requires k < |g.pending|
  {
    && h.pending == RemoveAt(g.pending, k)
    && |h.calls| == |g.calls| + 1 && h.calls[..|g.calls|] == g.calls
    && h.calls[|g.calls|].result == result && h.calls[|g.calls|].query.serial == g.pending[k].serial
  }

  /** The expected fragment, without more to come, ends the query with SUCCESS. */
  lemma LastFragment(g: Gas, k: nat, addr: Addr, token: Byte, adv: seq<Byte>, n: nat,
                     data: seq<Byte>, extra: seq<Byte>, txOk: bool)
    requires Waiting(g, k, addr, token, adv, n) && ValidAdv(adv) && n < 128 && |data| < 65536
    ensures var h := Receive(g, addr, token, adv, n, false, data, extra, txOk);
      && h.pending == RemoveAt(g.pending, k)
      && |h.calls| == |g.calls| + 1 && h.calls[..|g.calls|] == g.calls
      && var c := h.calls[|g.calls|];
      && c.result == Success && c.query.serial == g.pending[k].serial
      && c.query.resp == g.pending[k].resp + data
  {
    ReceiveIs(g, k, addr, token, adv, n, n, false, data, extra, txOk);
    hide Receive;
    var h := Answered(g, k);
    var u := Append(h.pending[k].(nextFrag := n + 1), n, data);
    assert RemoveAt(Put(h, k, u).pending, k) == RemoveAt(g.pending, k);
  }

  /** A repeat of the fragment accepted last changes nothing. */
  lemma RepeatIgnored(g: Gas, k: nat, addr: Addr, token: Byte, adv: seq<Byte>, n: nat,
                      more: bool, data: seq<Byte>, extra: seq<Byte>, txOk: bool)
    requires Waiting(g, k, addr, token, adv, n) && ValidAdv(adv) && 1 <= n <= 128 && |data| < 65536
    ensures var h := Receive(g, addr, token, adv, n - 1, more, data, extra, txOk);
      && h.calls == g.calls && Waiting(h, k, addr, token, adv, n)
      && h.pending[k].serial == g.pending[k].serial && h.pending[k].resp == g.pending[k].resp
  {
    ReceiveIs(g, k, addr, token, adv, n, n - 1, more, data, extra, txOk);
    hide Receive;
  }

  /** Any other fragment ends the query with a peer error, whatever it carries. */
  lemma WrongFragment(g: Gas, k: nat, addr: Addr, token: Byte, adv: seq<Byte>, n: nat,
                      id: nat, more: bool, data: seq<Byte>, extra: seq<Byte>, txOk: bool)
    requires Waiting(g, k, addr, token, adv, n) && ValidAdv(adv)
    requires id < 128 && id != n && id + 1 != n && |data| < 65536
    ensures var h := Receive(g, addr, token, adv, id, more, data, extra, txOk);
      && h.pending == RemoveAt(g.pending, k)
      && |h.calls| == |g.calls| + 1 && h.calls[..|g.calls|] == g.calls
      && h.calls[|g.calls|].result == PeerError && h.calls[|g.calls|].query.serial == g.pending[k].serial
  {
    ReceiveIs(g, k, addr, token, adv, n, id, more, data, extra, txOk);
    hide Receive;
    assert RemoveAt(Answered(g, k).pending, k) == RemoveAt(g.pending, k);
  }

  /** When the next one cannot be asked for, the query ends with an internal error. */
  lemma NextNotAsked(g: Gas, k: nat, addr: Addr, token: Byte, adv: seq<Byte>, n: nat,
                     data: seq<Byte>, extra: seq<Byte>)
    requires Waiting(g, k, addr, token, adv, n) && ValidAdv(adv) && n < 128 && |data| < 65536
    ensures Ends(g, Receive(g, addr, token, adv, n, true, data, extra, false), k, InternalError)
  {
    ReceiveIs(g, k, addr, token, adv, n, n, true, data, extra, false);
    hide Receive;
    var h := Answered(g, k);
    var u := Append(h.pending[k].(nextFrag := n + 1), n, data);
    assert RemoveAt(Put(h, k, u).pending, k) == RemoveAt(g.pending, k);
  }

  /** The first query pending for addr and token is the k-th. */
  ghost predicate Addressed(g: Gas, k: nat, addr: Addr, token: Byte) {
    k < |g.pending| && GetPending(g.pending, addr, token) == k
  }

  lemma RxHandles(g: Gas, k: nat, addr: Addr, prot: bool, data: seq<Byte>, txOk: bool)
    requires |data| >= 4 && Addressed(g, k, addr, data[1]) && (data[0] == 11 || data[0] == 13)
    ensures Rx(g, addr, prot, prot, data, txOk) == Handle(g, k, data, txOk)
  {
    hide Handle, GetPending;
  }

  // --- a response that is not ready ------------------------------------------

  /** The status codes that a comeback response may have */
  predicate Accepting(status: nat) {
    status == 0 || status == 95
  }

  lemma RxIs(g: Gas, k: nat, addr: Addr, token: Byte, adv: seq<Byte>, n: nat, status: nat,
             id: nat, more: bool, delay: nat, data: seq<Byte>, extra: seq<Byte>, txOk: bool)
    requires Waiting(g, k, addr, token, adv, n) && ValidAdv(adv) && Accepting(status)
    requires id < 128 && delay < 65536 && |data| < 65536
    ensures var h := Put(g, k, g.pending[k].(status := status));
      && Rx(g, addr, false, false, StatusFrame(token, status, id, more, delay, adv, data) + extra, txOk)
         == RxComebackResp(h, k, Frame(adv, data, delay, id, more), txOk)
      && Waiting(h, k, addr, token, adv, n)
  {
    ParseStatus(token, status, id, more, delay, adv, data, extra);
    WaitingPut(g, k, addr, token, adv, n, g.pending[k].(status := status));
    hide ParseFrame, StatusFrame, RxComebackResp;
  }

  /** A comeback response that is not ready: no callback, nothing appended, and just one comeback
      request to come for the query, which goes on waiting for the same fragment. A channel that
      was kept for it is given up when the delay is more than one unit. */
  lemma NotReadyWaits(g: Gas, k: nat, addr: Addr, token: Byte, adv: seq<Byte>, n: nat, status: nat,
                      more: bool, delay: nat, data: seq<Byte>, extra: seq<Byte>, txOk: bool)
    requires Waiting(g, k, addr, token, adv, n) && ValidAdv(adv) && Accepting(status)
    requires 0 < delay < 65536 && |data| < 65536
    ensures var h := Rx(g, addr, false, false, StatusFrame(token, status, 0, more, delay, adv, data) + extra, txOk);
      && h.calls == g.calls && h.fault == g.fault && h.radio == g.radio && h.current == g.current
      && |h.pending| == |g.pending| && Waiting(h, k, addr, token, adv, n)
      && var p, q := g.pending[k], h.pending[k];
      && q.serial == p.serial && q.resp == p.resp && q.offchannel == (p.offchannel && delay <= 1)
      && h.timers == g.timers[Timer(RxComeback, q.serial) := 0][Timer(TxComeback, q.serial) := 1]
  {
    RxIs(g, k, addr, token, adv, n, status, 0, more, delay, data, extra, txOk);
    var a := Put(g, k, g.pending[k].(status := status));
    var q := a.pending[k];
    var c := Cancel(a, RxComeback, q.serial);
    Delayed(c, k, delay);
    WaitingPut(a, k, addr, token, adv, n, q.(offchannel := q.offchannel && delay <= 1));
    assert DelayComeback(c, k, delay).pending == Put(a, k, q.(offchannel := q.offchannel && delay <= 1)).pending;
    hide Rx, DelayComeback;
  }

  lemma Delayed(g: Gas, k: nat, delay: nat)
    requires k < |g.pending|
    ensures var q := g.pending[k]; var t := Timer(TxComeback, q.serial);
      DelayComeback(g, k, delay) == Put(g, k, q.(offchannel := q.offchannel && delay <= 1)).(timers := g.timers[t := 1])
  {
    var q := g.pending[k];
    var t := Timer(TxComeback, q.serial);
    assert q.(offchannel := q.offchannel && delay <= 1) == q || (delay > 1 && q.offchannel);
    assert g.pending[k := q] == g.pending;
    assert g.timers[t := 0] + multiset{t} == g.timers[t := 1];
  }

  /** With another fragment number it ends the query with a peer error. */
  lemma NotReadyWrong(g: Gas, k: nat, addr: Addr, token: Byte, adv: seq<Byte>, n: nat, status: nat, id: nat,
                      more: bool, delay: nat, data: seq<Byte>, extra: seq<Byte>, txOk: bool)
    requires Waiting(g, k, addr, token, adv, n) && ValidAdv(adv) && Accepting(status)
    requires 0 < id < 128 && 0 < delay < 65536 && |data| < 65536
    ensures var h := Rx(g, addr, false, false, StatusFrame(token, status, id, more, delay, adv, data) + extra, txOk);
      Ends(g, h, k, PeerError)
  {
    RxIs(g, k, addr, token, adv, n, status, id, more, delay, data, extra, txOk);
    var a := Put(g, k, g.pending[k].(status := status));
    assert RemoveAt(a.pending, k) == RemoveAt(g.pending, k);
    hide Rx;
  }

  /** So does a change of the advertisement protocol, whatever else the frame says. */
  lemma ChangedProtocol(g: Gas, k: nat, addr: Addr, token: Byte, first: seq<Byte>, adv: seq<Byte>, n: nat, status: nat,
                        id: nat, more: bool, delay: nat, data: seq<Byte>, extra: seq<Byte>, txOk: bool)
    requires Waiting(g, k, addr, token, first, n) && ValidAdv(adv) && adv != first && Accepting(status)
    requires id < 128 && delay < 65536 && |data| < 65536
    ensures var h := Rx(g, addr, false, false, StatusFrame(token, status, id, more, delay, adv, data) + extra, txOk);
      Ends(g, h, k, PeerError)
  {
    ParseStatus(token, status, id, more, delay, adv, data, extra);
    hide ParseFrame, StatusFrame, GetPending;
    RxHandles(g, k, addr, false, StatusFrame(token, status, id, more, delay, adv, data) + extra, txOk);
    hide Rx;
    var a := Put(g, k, g.pending[k].(status := status));
    assert RemoveAt(a.pending, k) == RemoveAt(g.pending, k);
  }

  // --- any frame, by its first octets ----------------------------------------

  /** A frame that is too short, is of another kind, is protected when it should not be or the other
      way round, or is of the kind that the query does not wait for, changes nothing; so does one
      for which no query is pending. */
  lemma Unasked(g: Gas, addr: Addr, prot: bool, pmf: bool, data: seq<Byte>, txOk: bool)
    requires || |data| < 4 || (data[0] != 11 && data[0] != 13) || prot != pmf
             || (forall q | q in g.pending :: q.addr != addr || q.token != data[1])
             || exists k: nat :: Addressed(g, k, addr, data[1]) && g.pending[k].waitComeback != (data[0] == 13)
    ensures Rx(g, addr, prot, pmf, data, txOk) == g
  {
    if |data| >= 4 {
      var k := GetPending(g.pending, addr, data[1]);
      if k < |g.pending| { assert g.pending[k] in g.pending; }
    }
  }

  /** A status other than success, or 95 in a comeback response, ends the query as refused. */
  lemma StatusRefused(g: Gas, k: nat, addr: Addr, prot: bool, data: seq<Byte>, txOk: bool)
    requires |data| >= 4 && Addressed(g, k, addr, data[1]) && data[0] == if g.pending[k].waitComeback then 13 else 11
    requires var status := data[2] as int + 256 * data[3] as int; status != 0 && !(status == 95 && data[0] == 13)
    ensures Ends(g, Rx(g, addr, prot, prot, data, txOk), k, Failure)
  {
    RxHandles(g, k, addr, prot, data, txOk);
    hide Rx, ParseFrame, GetPending, Addressed, RxInitial, RxComebackResp;
    var a := Put(g, k, g.pending[k].(status := LittleEndian16(data, 2)));
    assert RemoveAt(a.pending, k) == RemoveAt(g.pending, k);
  }

  /** What is no frame behind its first octets changes nothing but the status of the query. */
  lemma MalformedIgnored(g: Gas, k: nat, addr: Addr, prot: bool, data: seq<Byte>, txOk: bool)
    requires |data| >= 4 && Addressed(g, k, addr, data[1]) && data[0] == if g.pending[k].waitComeback then 13 else 11
    requires var status := data[2] as int + 256 * data[3] as int; status == 0 || (status == 95 && data[0] == 13)
    requires forall f :: !FrameIn(data, f)
    ensures var h := Rx(g, addr, prot, prot, data, txOk);
      && |h.pending| == |g.pending| && (forall i | 0 <= i < |g.pending| && i != k :: h.pending[i] == g.pending[i])
      && h.pending[k].(status := g.pending[k].status) == g.pending[k] && h == g.(pending := h.pending)
  {
    RxHandles(g, k, addr, prot, data, txOk);
    hide Rx, ParseFrame, GetPending, FrameIn, Addressed;
    var r := ParseFrame(data);
    if r.Some? { ParsedIff(data, r.value); }
  }

  /** An initial response without delay is the whole response. */
  lemma InitialDelivered(g: Gas, k: nat, addr: Addr, token: Byte, adv: seq<Byte>, data: seq<Byte>, extra: seq<Byte>,
                         txOk: bool)
    requires Addressed(g, k, addr, token) && !g.pending[k].waitComeback && ValidAdv(adv) && |data| < 65536
    ensures var h := Rx(g, addr, false, false, InitialFrame(token, 0, adv, data) + extra, txOk);
      Ends(g, h, k, Success) && h.calls[|g.calls|].query.resp == g.pending[k].resp + data
  {
    ParseInitial(token, 0, adv, data, extra);
    hide ParseFrame, InitialFrame, GetPending;
    RxHandles(g, k, addr, false, InitialFrame(token, 0, adv, data) + extra, txOk);
    hide Rx;
    var q := g.pending[k].(status := STATUS_SUCCESS, adv := Some(adv));
    assert g.pending[k := g.pending[k].(status := STATUS_SUCCESS)][k := Append(q, 0, data)]
        == g.pending[k := Append(q, 0, data)];
    assert RemoveAt(g.pending[k := Append(q, 0, data)], k) == RemoveAt(g.pending, k);
  }

  lemma PutTwice(s: seq<Query>, k: nat, a: Query, b: Query)
    requires k < |s|
    ensures s[k := a][k := b] == s[k := b]
  {
  }

  /** One with a delay makes the query wait for comeback responses, from fragment 0 on in a fresh
      query, with just one comeback request to come. */
  lemma InitialDelayed(g: Gas, k: nat, addr: Addr, token: Byte, delay: nat, adv: seq<Byte>, data: seq<Byte>,
                       extra: seq<Byte>, txOk: bool)
    requires Addressed(g, k, addr, token) && !g.pending[k].waitComeback && ValidAdv(adv)
    requires 0 < delay < 65536 && |data| < 65536
    ensures var h := Rx(g, addr, false, false, InitialFrame(token, delay, adv, data) + extra, txOk);
      && h.calls == g.calls && Waiting(h, k, addr, token, adv, g.pending[k].nextFrag)
      && h.pending[k].serial == g.pending[k].serial && h.pending[k].resp == g.pending[k].resp
      && h.timers == g.timers[Timer(TxComeback, g.pending[k].serial) := 1]
  {
    ParseInitial(token, delay, adv, data, extra);
    hide ParseFrame, InitialFrame, GetPending, DelayComeback;
    var p := g.pending[k].(status := STATUS_SUCCESS);
    var q := p.(adv := Some(adv), waitComeback := true);
    PutTwice(g.pending, k, p, q);
    var u := Put(g, k, q);
    Delayed(u, k, delay);
    var v := q.(offchannel := q.offchannel && delay <= 1);
    PutTwice(g.pending, k, q, v);
    GetPendingPut(g.pending, k, v, addr, token);
    assert Rx(g, addr, false, false, InitialFrame(token, delay, adv, data) + extra, txOk) == DelayComeback(u, k, delay);
  }

  // --- the exchange ----------------------------------------------------------

  function Join(pieces: seq<seq<Byte>>): seq<Byte> {
    if pieces == [] then [] else Join(pieces[..|pieces| - 1]) + pieces[|pieces| - 1]
  }

  ghost predicate Pieces(pieces: seq<seq<Byte>>) {
    1 <= |pieces| <= 128 && forall i | 0 <= i < |pieces| :: |pieces[i]| < 65536
  }

  /** What the peer sends: a fragment, or word that the response is not ready. */
  datatype Reply = Piece(id: nat) | NotReady(outstanding: bool, more: bool, delay: nat, data: seq<Byte>)

  /** The number of the fragment that is due behind the replies */
  function Due(replies: seq<Reply>): nat {
    if replies == [] then 0
    else
      match replies[|replies| - 1]
      case Piece(id) => id + 1
      case NotReady(_, _, _, _) => Due(replies[..|replies| - 1])
  }

  /** The peer sends the fragments in order, may repeat each of them before the next, and may put it
      off at any time. */
  predicate Regular(replies: seq<Reply>) {
    replies == [] ||
    var m := |replies| - 1;
    && Regular(replies[..m])
    && match replies[m]
       case Piece(id) => id == Due(replies[..m]) || id + 1 == Due(replies[..m])
       case NotReady(_, _, delay, data) => 0 < delay < 65536 && |data| < 65536
  }

  /** gas_query_rx on one reply; more fragments come behind all but the last */
  ghost function ReceiveReply(g: Gas, addr: Addr, token: Byte, adv: seq<Byte>, pieces: seq<seq<Byte>>, r: Reply): Gas
    requires Pieces(pieces)
  {
    match r
    case Piece(id) =>
      if id < |pieces| then Receive(g, addr, token, adv, id, id + 1 < |pieces|, pieces[id], [], true) else g
    case NotReady(outstanding, more, delay, data) =>
      if delay < 65536 && |data| < 65536
      then Rx(g, addr, false, false,
              StatusFrame(token, if outstanding then 95 else 0, 0, more, delay, adv, data), true)
      else g
  }

  /** All of the peer's comeback responses, received one after the other. */
  ghost function Transfer(g: Gas, addr: Addr, token: Byte, adv: seq<Byte>, pieces: seq<seq<Byte>>, replies: seq<Reply>)
      : Gas
    requires Pieces(pieces)
  {
    if replies == [] then g
    else
      var m := |replies| - 1;
      ReceiveReply(Transfer(g, addr, token, adv, pieces, replies[..m]), addr, token, adv, pieces, replies[m])
  }

  /** The query has the first n fragments and waits for the next. */
  ghost predicate Holds(g: Gas, h: Gas, k: nat, addr: Addr, token: Byte, adv: seq<Byte>, pieces: seq<seq<Byte>>, n: nat)
    requires k < |g.pending|
  {
    && n < |pieces| && h.calls == g.calls && Waiting(h, k, addr, token, adv, n)
    && h.pending[k].serial == g.pending[k].serial && h.pending[k].resp == g.pending[k].resp + Join(pieces[..n])
  }

  lemma HoldsNext(g: Gas, h: Gas, k: nat, addr: Addr, token: Byte, adv: seq<Byte>, pieces: seq<seq<Byte>>, n: nat,
                  r: Reply)
    requires k < |g.pending| && Pieces(pieces) && ValidAdv(adv) && Holds(g, h, k, addr, token, adv, pieces, n)
    requires r.Piece? ==> (r.id == n && n + 1 < |pieces|) || r.id + 1 == n
    requires r.NotReady? ==> 0 < r.delay < 65536 && |r.data| < 65536
    ensures Holds(g, ReceiveReply(h, addr, token, adv, pieces, r), k, addr, token, adv, pieces,
                  if r == Piece(n) then n + 1 else n)
  {
    hide Receive, Waiting, Holds, ReceiveReply;
    if r == Piece(n) {
      HoldsPiece(g, h, k, addr, token, adv, pieces, n);
    } else if r.Piece? {
      HoldsRepeat(g, h, k, addr, token, adv, pieces, n);
    } else {
      HoldsOff(g, h, k, addr, token, adv, pieces, n, r);
    }
  }

  lemma HoldsPiece(g: Gas, h: Gas, k: nat, addr: Addr, token: Byte, adv: seq<Byte>, pieces: seq<seq<Byte>>, n: nat)
    requires k < |g.pending| && Pieces(pieces) && ValidAdv(adv) && Holds(g, h, k, addr, token, adv, pieces, n)
    requires n + 1 < |pieces|
    ensures Holds(g, ReceiveReply(h, addr, token, adv, pieces, Piece(n)), k, addr, token, adv, pieces, n + 1)
  {
    hide Receive, Waiting, Join;
    NextFragment(h, k, addr, token, adv, n, pieces[n], []);
    JoinNext(g.pending[k].resp, pieces, n);
  }

  lemma JoinNext(base: seq<Byte>, pieces: seq<seq<Byte>>, n: nat)
    requires n < |pieces|
    ensures base + Join(pieces[..n]) + pieces[n] == base + Join(pieces[..n + 1])
  {
    var s := pieces[..n + 1];
    assert s[..n] == pieces[..n] && s[n] == pieces[n] && |s| - 1 == n;
    var t := Join(pieces[..n]);
    assert Join(s) == t + pieces[n];
    hide Join;
    assert base + t + pieces[n] == base + (t + pieces[n]);
  }

  lemma HoldsRepeat(g: Gas, h: Gas, k: nat, addr: Addr, token: Byte, adv: seq<Byte>, pieces: seq<seq<Byte>>, n: nat)
    requires k < |g.pending| && Pieces(pieces) && ValidAdv(adv) && Holds(g, h, k, addr, token, adv, pieces, n)
    requires n > 0
    ensures Holds(g, ReceiveReply(h, addr, token, adv, pieces, Piece(n - 1)), k, addr, token, adv, pieces, n)
  {
    RepeatIgnored(h, k, addr, token, adv, n, true, pieces[n - 1], [], true);
    hide Receive, Waiting, Join;
  }

  lemma HoldsOff(g: Gas, h: Gas, k: nat, addr: Addr, token: Byte, adv: seq<Byte>, pieces: seq<seq<Byte>>, n: nat,
                 r: Reply)
    requires k < |g.pending| && Pieces(pieces) && ValidAdv(adv) && Holds(g, h, k, addr, token, adv, pieces, n)
    requires r.NotReady? && 0 < r.delay < 65536 && |r.data| < 65536
    ensures Holds(g, ReceiveReply(h, addr, token, adv, pieces, r), k, addr, token, adv, pieces, n)
  {
    hide Rx, Waiting, StatusFrame, Join;
    var status := if r.outstanding then 95 else 0;
    var f := StatusFrame(token, status, 0, r.more, r.delay, adv, r.data);
    assert f + [] == f;
    NotReadyWaits(h, k, addr, token, adv, n, status, r.more, r.delay, r.data, [], true);
  }

  lemma {:induction false} TransferHolds(g: Gas, k: nat, addr: Addr, token: Byte, adv: seq<Byte>,
                                         pieces: seq<seq<Byte>>, replies: seq<Reply>)
    requires Pieces(pieces) && ValidAdv(adv) && Waiting(g, k, addr, token, adv, 0)
    requires Regular(replies) && Due(replies) < |pieces|
    ensures Holds(g, Transfer(g, addr, token, adv, pieces, replies), k, addr, token, adv, pieces, Due(replies))
    decreases |replies|
  {
    if replies == [] {
      assert pieces[..0] == [];
    } else {
      var m := |replies| - 1;
      var rest, r := replies[..m], replies[m];
      TransferHolds(g, k, addr, token, adv, pieces, rest);
      HoldsNext(g, Transfer(g, addr, token, adv, pieces, rest), k, addr, token, adv, pieces, Due(rest), r);
      hide Holds, Waiting, ReceiveReply;
    }
  }

  /** A response cut into at most 128 fragments reaches the callback whole, however often the
      peer repeats a fragment before it sends the next one, or says that it is not ready. */
  lemma ResponseDelivered(g: Gas, k: nat, addr: Addr, token: Byte, adv: seq<Byte>,
                          pieces: seq<seq<Byte>>, replies: seq<Reply>)
    requires Pieces(pieces) && ValidAdv(adv) && Waiting(g, k, addr, token, adv, 0)
    requires Regular(replies) && Due(replies) == |pieces| - 1
    ensures var h := Transfer(g, addr, token, adv, pieces, replies + [Piece(|pieces| - 1)]);
      && |h.calls| == |g.calls| + 1 && h.calls[..|g.calls|] == g.calls
      && var c := h.calls[|g.calls|];
      && c.result == Success && c.query.serial == g.pending[k].serial
      && c.query.resp == g.pending[k].resp + Join(pieces)
  {
    assert k < |g.pending|;
    hide Receive, Waiting, Regular, Transfer, ReceiveReply, Due;
    var last := |pieces| - 1;
    TransferHolds(g, k, addr, token, adv, pieces, replies);
    var h := Transfer(g, addr, token, adv, pieces, replies);
    LastFragment(h, k, addr, token, adv, last, pieces[last], [], true);
    TransferLast(g, addr, token, adv, pieces, replies, Piece(last));
    LastReceived(h, addr, token, adv, pieces);
    assert pieces[..last + 1] == pieces;
    JoinNext(g.pending[k].resp, pieces, last);
  }

  lemma TransferLast(g: Gas, addr: Addr, token: Byte, adv: seq<Byte>, pieces: seq<seq<Byte>>, replies: seq<Reply>,
                     r: Reply)
    requires Pieces(pieces)
    ensures Transfer(g, addr, token, adv, pieces, replies + [r])
         == ReceiveReply(Transfer(g, addr, token, adv, pieces, replies), addr, token, adv, pieces, r)
  {
    hide ReceiveReply;
    var all := replies + [r];
    assert all[..|all| - 1] == replies && all[|all| - 1] == r;
  }

  lemma LastReceived(h: Gas, addr: Addr, token: Byte, adv: seq<Byte>, pieces: seq<seq<Byte>>)
    requires Pieces(pieces)
    ensures var last := |pieces| - 1;
      ReceiveReply(h, addr, token, adv, pieces, Piece(last))
      == Receive(h, addr, token, adv, last, false, pieces[last], [], true)
  {
    hide Receive;
  }
}
