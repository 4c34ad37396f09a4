/** The GAS query component as it runs: fields updated in place, one method for each C function,
    proved against the values of GasModel. */
module GasQuery {
  import opened Collections
  import opened GasModel

  class GasComponent {
    var pending: seq<Query>
    var current: Option<nat>
    var work: Option<nat>
    var radio: seq<Work>
    var timers: multiset<Timer>
    var nextStart: nat
    var nextSerial: nat
    var calls: seq<Call>
    var dropped: seq<nat>
    var fault: bool

    function View(): Gas
      reads this
    {
      Gas(pending, current, work, radio, timers, nextStart, nextSerial, calls, dropped, fault)
    }

    constructor ()
      ensures View() == Init()
    {
      pending, current, work, radio, timers := [], None, None, [], multiset{};
      nextStart, nextSerial, calls, dropped, fault := 0, 0, [], [], false;
    }

    // --- timers and radio ----------------------------------------------------

    method CancelTimeout(kind: Kind, serial: nat)
      modifies `timers
      ensures View() == Cancel(old(View()), kind, serial)
    {
      timers := timers[Timer(kind, serial) := 0];
    }

    method RegisterTimeout(kind: Kind, serial: nat)
      modifies `timers
      ensures View() == Register(old(View()), kind, serial)
    {
      timers := timers + multiset{Timer(kind, serial)};
    }

    method WorkDone(serial: nat)
      modifies `radio
      ensures View() == old(View()).(radio := DropWork(old(radio), serial))
    {
      var k := 0;
      while k < |radio| && radio[k].serial != serial
        invariant k <= |radio|
        invariant forall i | 0 <= i < k :: radio[i].serial != serial
      {
        k := k + 1;
      }
      assert IndexOf(Contexts(radio), serial) == k;
      if k < |radio| { radio := radio[..k] + radio[k + 1..]; }
    }

    // --- the end of a query --------------------------------------------------

    /** gas_query_free for a query that has left the list */
    method FreeQuery(serial: nat)
      modifies `radio, `work
      ensures View() == ReleaseWork(old(View()), serial)
    {
      if work == Some(serial) {
        WorkDone(serial);
        work := None;
      }
    }

    method QueryDone(k: nat, result: Result)
      requires k < |pending|
      modifies this
      ensures View() == Done(old(View()), k, result)
    {
      hide Cancel, ReleaseWork;
      var q := pending[k];
      if current == Some(q.serial) { current := None; }
      CancelTimeout(TxComeback, q.serial);
      CancelTimeout(QueryTimeout, q.serial);
      CancelTimeout(RxComeback, q.serial);
      pending := pending[..k] + pending[k + 1..];
      calls := calls + [Call(q, result)];
      FreeQuery(q.serial);
    }

    method QueryFree(k: nat)
      requires k < |pending|
      modifies this
      ensures View() == Free(old(View()), k)
    {
      var s := pending[k].serial;
      pending := pending[..k] + pending[k + 1..];
      dropped := dropped + [s];
      FreeQuery(s);
    }

    method DeinitQueries()
      modifies this
      ensures View() == Deinit(old(View()))
    {
      while pending != []
        invariant Deinit(View()) == Deinit(old(View()))
        decreases |pending|
      {
        QueryDone(0, DeletedAtDeinit);
      }
    }

    // --- lookups -------------------------------------------------------------

    method FindPending(addr: Addr, token: Byte) returns (k: nat)
      ensures k == GetPending(pending, addr, token)
    {
      k := 0;
      while k < |pending| && !(pending[k].addr == addr && pending[k].token == token)
        invariant k <= |pending|
        invariant GetPending(pending, addr, token) == k + GetPending(pending[k..], addr, token)
      {
        assert pending[k..][1..] == pending[k + 1..];
        k := k + 1;
      }
    }

    method DialogTokenAvailable(dst: Addr, token: nat) returns (r: bool)
      ensures r == Available(pending, dst, token)
    {
      for i := 0 to |pending|
        invariant forall j | 0 <= j < i :: pending[j].addr != dst || pending[j].token != token
      {
        if pending[i].addr == dst && pending[i].token == token { return false; }
      }
      return true;
    }

    method NewDialogToken(dst: Addr) returns (token: Option<Byte>)
      modifies `nextStart
      ensures token == NewToken(old(View()), dst)
      ensures View() == if token.Some? then TakeToken(old(View()), token.value) else old(View())
    {
      hide Available;
      var offset := 0;
      while offset < 256
        invariant offset <= 256
        invariant nextStart == old(nextStart)
        invariant TokenOffset(pending, dst, nextStart, 0) == TokenOffset(pending, dst, nextStart, offset)
      {
        var free := DialogTokenAvailable(dst, (nextStart + offset) % 256);
        if free { break; }
        offset := offset + 1;
      }
      if offset == 256 { return None; }
      var t: Byte := (nextStart + offset) % 256;
      nextStart := (t + 1) % 256;
      return Some(t);
    }

    method Locate(serial: nat) returns (k: nat)
      ensures k == Find(View(), serial)
    {
      k := 0;
      while k < |pending| && pending[k].serial != serial
        invariant k <= |pending|
        invariant forall i | 0 <= i < k :: pending[i].serial != serial
      {
        k := k + 1;
      }
      assert IndexOf(Serials(pending), serial) == k;
    }

    // --- transmission --------------------------------------------------------

    method SendComebackReq(k: nat, txOk: bool)
      requires k < |pending|
      modifies this
      ensures View() == TxComebackReq(old(View()), k, txOk)
    {
      if txOk {
        pending := pending[k := pending[k].(offchannel := true)];
      } else {
        QueryDone(k, InternalError);
      }
    }

    method SendInitialReq(k: nat, txOk: bool)
      requires k < |pending|
      modifies this
      ensures View() == TxInitialReq(old(View()), k, txOk)
    {
      if !txOk {
        QueryDone(k, InternalError);
        return;
      }
      pending := pending[k := pending[k].(offchannel := true)];
      current := Some(pending[k].serial);
      RegisterTimeout(QueryTimeout, pending[k].serial);
    }

    method DelayComebackReq(k: nat, delay: nat)
      requires k < |pending|
      modifies this
      ensures View() == DelayComeback(old(View()), k, delay)
    {
      if delay > 1 && pending[k].offchannel {
        pending := pending[k := pending[k].(offchannel := false)];
      }
      CancelTimeout(TxComeback, pending[k].serial);
      RegisterTimeout(TxComeback, pending[k].serial);
    }

    // --- requests and radio work ---------------------------------------------

    method RequestQuery(dst: Addr, req: seq<Byte>, addOk: bool) returns (token: Option<Byte>)
      modifies this
      ensures View() == Request(old(View()), dst, req, addOk)
      ensures token == if |req| < 3 || !addOk then None else NewToken(old(View()), dst)
    {
      if |req| < 3 { return None; }
      token := NewDialogToken(dst);
      if token.None? { return; }
      var q := Query(nextSerial, dst, token.value, 0, false, false, false, 0, req[2 := token.value], None, [], [], []);
      if !addOk { return None; }
      pending := [q] + pending;
      radio := radio + [Work(nextSerial, false)];
      nextSerial := nextSerial + 1;
    }

    method StartWork(k: nat, addrOk: bool, txOk: bool)
      requires k < |radio|
      modifies this
      ensures View() == Start(old(View()), k, addrOk, txOk)
    {
      var s := radio[k].serial;
      radio := radio[k := Work(s, true)];
      var i := Locate(s);
      if i == |pending| {
        fault := true;
        return;
      }
      if !addrOk {
        QueryFree(i);
        WorkDone(s);
        return;
      }
      work := Some(s);
      SendInitialReq(i, txOk);
    }

    method RemoveWork(k: nat)
      requires k < |radio|
      modifies this
      ensures View() == Remove(old(View()), k)
    {
      var s := radio[k].serial;
      var i := Locate(s);
      if i == |pending| {
        fault := true;
        return;
      }
      if radio[k].started {
        work := None;
        QueryDone(i, DeletedAtDeinit);
      } else {
        QueryFree(i);
      }
      WorkDone(s);
    }

    // --- reception -----------------------------------------------------------

    method ReceiveInitial(k: nat, f: Frame)
      requires k < |pending|
      modifies this
      ensures View() == RxInitial(old(View()), k, f)
    {
      var q := pending[k].(adv := Some(f.adv));
      if f.delay > 0 {
        pending := pending[k := q.(waitComeback := true)];
        DelayComebackReq(k, f.delay);
        return;
      }
      pending := pending[k := Append(q, 0, f.data)];
      QueryDone(k, Success);
    }

    method ReceiveComeback(k: nat, f: Frame, txOk: bool)
      requires k < |pending|
      modifies this
      ensures View() == RxComebackResp(old(View()), k, f, txOk)
    {
      var q := pending[k];
      CancelTimeout(RxComeback, q.serial);
      if q.adv.None? {
        fault := true;
        return;
      }
      if f.adv != q.adv.value {
        QueryDone(k, PeerError);
        return;
      }
      if f.delay > 0 {
        if f.fragId != 0 {
          QueryDone(k, PeerError);
          return;
        }
        DelayComebackReq(k, f.delay);
        return;
      }
      if f.fragId != q.nextFrag {
        if f.fragId + 1 == q.nextFrag { return; }
        QueryDone(k, PeerError);
        return;
      }
      pending := pending[k := Append(q.(nextFrag := (q.nextFrag + 1) % 256), f.fragId, f.data)];
      if f.more {
        SendComebackReq(k, txOk);
        return;
      }
      QueryDone(k, Success);
    }

    /** The part of gas_query_rx that reads the fields behind the status code. */
    static method ReadFrame(data: seq<Byte>) returns (r: Option<Frame>)
      requires |data| >= 4
      ensures r == ParseFrame(data)
    {
      var pos := 4;
      var fragId, more := 0, false;
      if data[0] == COMEBACK_RESP {
        if pos + 1 > |data| { return None; }
        fragId, more := data[pos] as int % 128, data[pos] >= 128;
        pos := pos + 1;
      }
      if pos + 2 > |data| { return None; }
      var delay := LittleEndian16(data, pos);
      pos := pos + 2;
      if pos + 2 > |data| || pos + 2 + data[pos + 1] > |data| { return None; }
      if data[pos] != ADV_PROTO { return None; }
      var adv := pos;
      pos := pos + 2 + data[pos + 1];
      if pos + 2 > |data| { return None; }
      var respLen := LittleEndian16(data, pos);
      var advProto := data[adv..pos];
      pos := pos + 2;
      var left := |data| - pos;
      if respLen > left { return None; }
      return Some(Frame(advProto, data[pos..pos + respLen], delay, fragId, more));
    }

    method Receive(sa: Addr, prot: bool, pmf: bool, data: seq<Byte>, txOk: bool)
      modifies this
      ensures View() == Rx(old(View()), sa, prot, pmf, data, txOk)
    {
      if |data| < 4 { return; }
      var action, token := data[0], data[1];
      if action != INITIAL_RESP && action != COMEBACK_RESP { return; }
      if prot && !pmf { return; }
      if !prot && pmf { return; }
      var k := FindPending(sa, token);
      if k == |pending| { return; }
      HandleResponse(k, data, txOk);
    }

    method HandleResponse(k: nat, data: seq<Byte>, txOk: bool)
      requires k < |pending| && |data| >= 4 && (data[0] == INITIAL_RESP || data[0] == COMEBACK_RESP)
      modifies this
      ensures View() == Handle(old(View()), k, data, txOk)
    {
      var action := data[0];
      if pending[k].waitComeback && action == INITIAL_RESP { return; }
      if !pending[k].waitComeback && action == COMEBACK_RESP { return; }
      var status := LittleEndian16(data, 2);
      pending := pending[k := pending[k].(status := status)];
      if status == STATUS_OUTSTANDING && action == COMEBACK_RESP {
      } else if status != STATUS_SUCCESS {
        QueryDone(k, Failure);
        return;
      }
      var frame := ReadFrame(data);
      if frame.None? { return; }
      if action == COMEBACK_RESP {
        ReceiveComeback(k, frame.value, txOk);
      } else {
        ReceiveInitial(k, frame.value);
      }
    }

    // --- transmit status and timeouts ----------------------------------------

    method TransmitStatus(dst: Addr, result: TxResult)
      modifies this
      ensures View() == TxStatus(old(View()), dst, result)
    {
      if current.None? { return; }
      var s := current.value;
      var k := Locate(s);
      if k == |pending| {
        fault := true;
        return;
      }
      if pending[k].addr != dst { return; }
      if result == Acked {
        CancelTimeout(QueryTimeout, s);
        RegisterTimeout(QueryTimeout, s);
        if pending[k].waitComeback && !pending[k].retry {
          CancelTimeout(RxComeback, s);
          RegisterTimeout(RxComeback, s);
        }
      }
      if result == SendFailed {
        CancelTimeout(QueryTimeout, s);
        RegisterTimeout(QueryTimeout, s);
      }
    }

    method RetryQuery(k: nat, txOk: bool)
      requires k < |pending|
      modifies this
      ensures View() == Retry(old(View()), k, txOk)
    {
      var q := pending[k];
      if current != Some(q.serial) || q.retry { return; }
      var token := NewDialogToken(q.addr);
      if token.None? { return; }
      q := q.(retry := true, token := token.value);
      if |q.req| > 2 { q := q.(req := q.req[2 := token.value]); }
      q := q.(waitComeback := false, nextFrag := 0, adv := None);
      q := q.(base := q.resp, frags := []);
      pending := pending[k := q];
      CancelTimeout(TxComeback, q.serial);
      CancelTimeout(QueryTimeout, q.serial);
      SendInitialReq(k, txOk);
    }

    method Expire(timer: Timer, txOk: bool)
      requires timer in timers
      modifies this
      ensures View() == Fire(old(View()), timer, txOk)
    {
      timers := timers - multiset{timer};
      var k := Locate(timer.serial);
      if k == |pending| {
        fault := true;
        return;
      }
      match timer.kind {
        case TxComeback => SendComebackReq(k, txOk);
        case QueryTimeout => QueryDone(k, Timeout);
        case RxComeback => RetryQuery(k, txOk);
      }
    }
  }
}
