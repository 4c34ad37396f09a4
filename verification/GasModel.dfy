/** The GAS query component of gas_query.c as a step machine on values (section
    10.24.3.1 of IEEE Std 802.11-2012). A query is known by its serial number,
    which stands for the address of its structure. */
module GasModel {
  import opened Collections

  type Addr = s: seq<Byte> | |s| == 6 witness [0, 0, 0, 0, 0, 0]

  const INITIAL_RESP: Byte := 11
  const COMEBACK_RESP: Byte := 13
  const ADV_PROTO: Byte := 108
  const STATUS_SUCCESS := 0
  const STATUS_OUTSTANDING := 95

  datatype Result = Success | Failure | Timeout | PeerError | InternalError | DeletedAtDeinit

  datatype Fragment = Fragment(id: nat, data: seq<Byte>)

  /** struct gas_query_pending. The last two fields only record history: the octets
      held when the query was last (re)started, and what was appended since. */
  datatype Query = Query(
    serial: nat, addr: Addr, token: Byte, nextFrag: nat, waitComeback: bool, offchannel: bool,
    retry: bool, status: nat, req: seq<Byte>, adv: Option<seq<Byte>>, resp: seq<Byte>,
    base: seq<Byte>, frags: seq<Fragment>)

  datatype Kind = TxComeback | QueryTimeout | RxComeback
  datatype Timer = Timer(kind: Kind, serial: nat)

  /** A gas-query item of the radio work queue; serial stands for work->ctx. */
  datatype Work = Work(serial: nat, started: bool)

  datatype Call = Call(query: Query, result: Result)

  datatype Gas = Gas(
    pending: seq<Query>,
    current: Option<nat>,
    work: Option<nat>,          // gas->work->ctx
    radio: seq<Work>,
    timers: multiset<Timer>,
    nextStart: nat,             // static in gas_query_new_dialog_token
    nextSerial: nat,
    calls: seq<Call>,           // callbacks run so far
    dropped: seq<nat>,          // queries freed without a callback
    fault: bool)                // a freed structure was used, or a null buffer read

  function Init(): Gas {
    Gas([], None, None, [], multiset{}, 0, 0, [], [], false)
  }

  function Serials(pending: seq<Query>): (r: seq<nat>)
    ensures |r| == |pending| && forall i | 0 <= i < |r| :: r[i] == pending[i].serial
  {
    seq(|pending|, i requires 0 <= i < |pending| => pending[i].serial)
  }

  function Contexts(radio: seq<Work>): (r: seq<nat>)
    ensures |r| == |radio| && forall i | 0 <= i < |r| :: r[i] == radio[i].serial
  {
    seq(|radio|, i requires 0 <= i < |radio| => radio[i].serial)
  }

  // --- timers ----------------------------------------------------------------

  /** eloop_cancel_timeout removes every matching registration. */
  function Cancel(g: Gas, kind: Kind, serial: nat): Gas {
    g.(timers := g.timers[Timer(kind, serial) := 0])
  }

  function Register(g: Gas, kind: Kind, serial: nat): Gas {
    g.(timers := g.timers + multiset{Timer(kind, serial)})
  }

  // --- ending a query --------------------------------------------------------

  /** radio_work_done for the work of the query, if gas->work is that work. */
  function ReleaseWork(g: Gas, serial: nat): Gas {
    if g.work == Some(serial)
    then g.(work := None, radio := DropWork(g.radio, serial))
    else g
  }

  function DropWork(radio: seq<Work>, serial: nat): seq<Work> {
    var k := IndexOf(Contexts(radio), serial);
    if k < |radio| then RemoveAt(radio, k) else radio
  }

  /** gas_query_done of the k-th pending query */
  function Done(g: Gas, k: nat, result: Result): Gas
    requires k < |g.pending|
  {
    var q := g.pending[k];
    var h := g.(current := if g.current == Some(q.serial) then None else g.current);
    var c := Cancel(Cancel(Cancel(h, TxComeback, q.serial), QueryTimeout, q.serial), RxComeback, q.serial);
    ReleaseWork(c.(pending := RemoveAt(g.pending, k), calls := g.calls + [Call(q, result)]), q.serial)
  }

  /** gas_query_free with del_list set: no callback, and no timer is cancelled */
  function Free(g: Gas, k: nat): Gas
    requires k < |g.pending|
  {
    var s := g.pending[k].serial;
    ReleaseWork(g.(pending := RemoveAt(g.pending, k), dropped := g.dropped + [s]), s)
  }

  function Put(g: Gas, k: nat, q: Query): Gas
    requires k < |g.pending|
  {
    g.(pending := g.pending[k := q])
  }

  // --- transmission ----------------------------------------------------------

  /** gas_query_tx_comeback_req, with the outcome of offchannel_send_action */
  function TxComebackReq(g: Gas, k: nat, txOk: bool): Gas
    requires k < |g.pending|
  {
    if txOk then Put(g, k, g.pending[k].(offchannel := true))
    else Done(g, k, InternalError)
  }

  /** gas_query_tx_initial_req */
  function TxInitialReq(g: Gas, k: nat, txOk: bool): Gas
    requires k < |g.pending|
  {
    if !txOk then Done(g, k, InternalError)
    else
      var q := g.pending[k];
      Register(Put(g, k, q.(offchannel := true)).(current := Some(q.serial)), QueryTimeout, q.serial)
  }

  /** gas_query_tx_comeback_req_delay */
  function DelayComeback(g: Gas, k: nat, delay: nat): Gas
    requires k < |g.pending|
  {
    var q := g.pending[k];
    var h := if delay > 1 && q.offchannel then Put(g, k, q.(offchannel := false)) else g;
    Register(Cancel(h, TxComeback, q.serial), TxComeback, q.serial)
  }

  // --- dialog tokens ---------------------------------------------------------

  predicate Available(pending: seq<Query>, dst: Addr, token: int) {
    forall i | 0 <= i < |pending| :: pending[i].addr != dst || pending[i].token != token
  }

  /** The token offset places behind start, in cyclic order, is available. */
  predicate AvailableAt(pending: seq<Query>, dst: Addr, start: nat, offset: nat) {
    Available(pending, dst, (start + offset) % 256)
  }

  /** The offset from start of the first available token, at or behind offset; 256 for none. */
  function TokenOffset(pending: seq<Query>, dst: Addr, start: nat, offset: nat): (r: nat)
    requires offset <= 256
    ensures offset <= r <= 256
    decreases 256 - offset
  {
    if offset == 256 then 256
    else if AvailableAt(pending, dst, start, offset) then offset
    else TokenOffset(pending, dst, start, offset + 1)
  }

  /** gas_query_new_dialog_token: the token and the new value of next_start */
  function NewToken(g: Gas, dst: Addr): Option<Byte> {
    var offset := TokenOffset(g.pending, dst, g.nextStart, 0);
    if offset == 256 then None else Some((g.nextStart + offset) % 256)
  }

  function TakeToken(g: Gas, token: Byte): Gas {
    g.(nextStart := (token + 1) % 256)
  }

  // --- requests and radio work -----------------------------------------------

  /** gas_query_req; addOk is the outcome of radio_add_work */
  function Request(g: Gas, dst: Addr, req: seq<Byte>, addOk: bool): Gas {
    if |req| < 3 || NewToken(g, dst).None? then g
    else
      var token := NewToken(g, dst).value;
      var h := TakeToken(g, token);
      if !addOk then h
      else
        var q := Query(g.nextSerial, dst, token, 0, false, false, false, 0, req[2 := token], None, [], [], []);
        h.(pending := [q] + g.pending, radio := g.radio + [Work(q.serial, false)], nextSerial := g.nextSerial + 1)
  }

  function Fault(g: Gas): Gas {
    g.(fault := true)
  }

  function Find(g: Gas, serial: nat): (k: nat)
    ensures k <= |g.pending|
    ensures k < |g.pending| ==> g.pending[k].serial == serial
  {
    IndexOf(Serials(g.pending), serial)
  }

  /** gas_query_start_cb with deinit clear: the radio starts the k-th work item. */
  function Start(g: Gas, k: nat, addrOk: bool, txOk: bool): Gas
    requires k < |g.radio|
  {
    var s := g.radio[k].serial;
    var h := g.(radio := g.radio[k := Work(s, true)]);
    var i := Find(h, s);
    if i == |h.pending| then Fault(h)
    else if !addrOk then
      var f := Free(h, i);
      f.(radio := DropWork(f.radio, s))
    else TxInitialReq(h.(work := Some(s)), i, txOk)
  }

  /** gas_query_start_cb with deinit set, and the release of the work that follows. */
  function Remove(g: Gas, k: nat): Gas
    requires k < |g.radio|
  {
    var s := g.radio[k].serial;
    var i := Find(g, s);
    if i == |g.pending| then Fault(g)
    else
      var h := if g.radio[k].started then Done(g.(work := None), i, DeletedAtDeinit) else Free(g, i);
      h.(radio := DropWork(h.radio, s))
  }

  // --- reception -------------------------------------------------------------

  /** A response frame, taken apart: what gas_query_rx passes on. */
  datatype Frame = Frame(adv: seq<Byte>, data: seq<Byte>, delay: nat, fragId: nat, more: bool)

  function LittleEndian16(s: seq<Byte>, pos: nat): nat
    requires pos + 2 <= |s|
  {
    (s[pos] as int) + 256 * (s[pos + 1] as int)
  }

  /** The fields behind the status code, or None when some field does not fit. */
  function ParseFrame(data: seq<Byte>): (r: Option<Frame>)
    requires |data| >= 4
    ensures r.Some? ==> r.value.fragId < 128
  {
    var comeback := data[0] == COMEBACK_RESP;
    if comeback && 5 > |data| then None
    else
      var fragId := if comeback then (data[4] as int) % 128 else 0;
      var more := comeback && data[4] >= 128;
      var pos := if comeback then 5 else 4;
      if pos + 2 > |data| then None
      else
        var delay := LittleEndian16(data, pos);
        var adv := pos + 2;
        if adv + 2 > |data| || adv + 2 + data[adv + 1] > |data| then None
        else if data[adv] != ADV_PROTO then None
        else
          var len := adv + 2 + (data[adv + 1] as int);
          if len + 2 > |data| then None
          else
            var n := LittleEndian16(data, len);
            if n > |data| - (len + 2) then None
            else Some(Frame(data[adv..len], data[len + 2..len + 2 + n], delay, fragId, more))
  }

  /** gas_query_get_pending: the first pending query with that address and token */
  function GetPending(pending: seq<Query>, addr: Addr, token: Byte): (k: nat)
    ensures k <= |pending|
    ensures k < |pending| ==> pending[k].addr == addr && pending[k].token == token
    ensures forall i | 0 <= i < k :: pending[i].addr != addr || pending[i].token != token
  {
    if pending == [] then 0
    else if pending[0].addr == addr && pending[0].token == token then 0
    else
      assert forall i | 1 <= i < |pending| :: pending[i] == pending[1..][i - 1];
      1 + GetPending(pending[1..], addr, token)
  }

  /** gas_query_append, remembering the fragment */
  function Append(q: Query, id: nat, data: seq<Byte>): Query {
    q.(resp := q.resp + data, frags := q.frags + [Fragment(id, data)])
  }

  /** gas_query_rx_initial */
  function RxInitial(g: Gas, k: nat, f: Frame): Gas
    requires k < |g.pending|
  {
    var q := g.pending[k].(adv := Some(f.adv));
    if f.delay > 0 then DelayComeback(Put(g, k, q.(waitComeback := true)), k, f.delay)
    else Done(Put(g, k, Append(q, 0, f.data)), k, Success)
  }

  /** gas_query_rx_comeback */
  function RxComebackResp(g: Gas, k: nat, f: Frame, txOk: bool): Gas
    requires k < |g.pending|
  {
    var q := g.pending[k];
    var h := Cancel(g, RxComeback, q.serial);
    if q.adv.None? then Fault(h)
    else if f.adv != q.adv.value then Done(h, k, PeerError)
    else if f.delay > 0 then
      if f.fragId != 0 then Done(h, k, PeerError) else DelayComeback(h, k, f.delay)
    else if f.fragId != q.nextFrag then
      if f.fragId + 1 == q.nextFrag then h else Done(h, k, PeerError)
    else
      var u := Put(h, k, Append(q.(nextFrag := (q.nextFrag + 1) % 256), f.fragId, f.data));
      if f.more then TxComebackReq(u, k, txOk) else Done(u, k, Success)
  }

  /** The part of gas_query_rx behind the lookup of the query. */
  function Handle(g: Gas, k: nat, data: seq<Byte>, txOk: bool): Gas
    requires k < |g.pending| && |data| >= 4
  {
    var q := g.pending[k];
    var comeback := data[0] == COMEBACK_RESP;
    if q.waitComeback != comeback then g
    else
      var status := LittleEndian16(data, 2);
      var h := Put(g, k, q.(status := status));
      if status != STATUS_SUCCESS && !(status == STATUS_OUTSTANDING && comeback) then Done(h, k, Failure)
      else
        match ParseFrame(data)
        case None => h
        case Some(f) => if comeback then RxComebackResp(h, k, f, txOk) else RxInitial(h, k, f)
  }

  /** gas_query_rx; prot and pmf: the frame is protected, and protection is in use with sa */
  function Rx(g: Gas, sa: Addr, prot: bool, pmf: bool, data: seq<Byte>, txOk: bool): Gas {
    if |data| < 4 || (data[0] != INITIAL_RESP && data[0] != COMEBACK_RESP) || prot != pmf then g
    else
      var k := GetPending(g.pending, sa, data[1]);
      if k == |g.pending| then g else Handle(g, k, data, txOk)
  }

  // --- timeouts and transmit status ------------------------------------------

  datatype TxResult = Acked | NoAck | SendFailed

  /** gas_query_tx_status */
  function TxStatus(g: Gas, dst: Addr, result: TxResult): Gas {
    if g.current.None? then g
    else
      var s := g.current.value;
      var k := Find(g, s);
      if k == |g.pending| then Fault(g)
      else if g.pending[k].addr != dst || result == NoAck then g
      else
        var h := Register(Cancel(g, QueryTimeout, s), QueryTimeout, s);
        if result == Acked && g.pending[k].waitComeback && !g.pending[k].retry
        then Register(Cancel(h, RxComeback, s), RxComeback, s)
        else h
  }

  /** gas_query_rx_comeback_timeout: the query starts over, once, with a new token */
  function Retry(g: Gas, k: nat, txOk: bool): Gas
    requires k < |g.pending|
  {
    var q := g.pending[k];
    if g.current != Some(q.serial) || q.retry then g
    else if NewToken(g, q.addr).None? then g
    else
      var token := NewToken(g, q.addr).value;
      var r := q.(retry := true, token := token, waitComeback := false, nextFrag := 0, adv := None,
                  base := q.resp, frags := [], req := if |q.req| > 2 then q.req[2 := token] else q.req);
      var h := Put(TakeToken(g, token), k, r);
      TxInitialReq(Cancel(Cancel(h, TxComeback, q.serial), QueryTimeout, q.serial), k, txOk)
  }

  /** A registered timer expires. */
  function Fire(g: Gas, timer: Timer, txOk: bool): Gas
    requires timer in g.timers
  {
    var h := g.(timers := g.timers - multiset{timer});
    var k := Find(h, timer.serial);
    if k == |h.pending| then Fault(h)
    else
      match timer.kind
      case TxComeback => TxComebackReq(h, k, txOk)
      case QueryTimeout => Done(h, k, Timeout)
      case RxComeback => Retry(h, k, txOk)
  }

  /** gas_query_deinit */
  function Deinit(g: Gas): Gas
    decreases |g.pending|
  {
    if g.pending == [] then g else Deinit(Done(g, 0, DeletedAtDeinit))
  }

  // --- events ----------------------------------------------------------------

  datatype Event =
    | EvRequest(dst: Addr, req: seq<Byte>, addOk: bool)
    | EvStart(serial: nat, addrOk: bool, txOk: bool)
    | EvRemove(serial: nat)
    | EvRx(sa: Addr, prot: bool, pmf: bool, data: seq<Byte>, txOk: bool)
    | EvTxStatus(dst: Addr, result: TxResult)
    | EvFire(timer: Timer, txOk: bool)
    | EvDeinit

  predicate AnyStarted(radio: seq<Work>) {
    exists i :: 0 <= i < |radio| && radio[i].started
  }

  /** What the environment can do: the radio starts queued work while none is running,
      removes queued work, and only registered timers expire. */
  predicate Enabled(g: Gas, ev: Event) {
    match ev
    case EvStart(s, _, _) => Work(s, false) in g.radio && !AnyStarted(g.radio)
    case EvRemove(s) => s in Contexts(g.radio)
    case EvFire(timer, _) => timer in g.timers
    case _ => true
  }

  function Step(g: Gas, ev: Event): Gas
    requires Enabled(g, ev)
  {
    match ev
    case EvRequest(dst, req, addOk) => Request(g, dst, req, addOk)
    case EvStart(s, addrOk, txOk) => Start(g, IndexOf(g.radio, Work(s, false)), addrOk, txOk)
    case EvRemove(s) => Remove(g, IndexOf(Contexts(g.radio), s))
    case EvRx(sa, prot, pmf, data, txOk) => Rx(g, sa, prot, pmf, data, txOk)
    case EvTxStatus(dst, result) => TxStatus(g, dst, result)
    case EvFire(timer, txOk) => Fire(g, timer, txOk)
    case EvDeinit => Deinit(g)
  }
}
