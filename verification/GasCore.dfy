/** What the GAS query component keeps on every run, also on those that go through a hazard. */
module GasCore {
  import opened Collections
  import opened GasModel
  import opened GasInvariants
  import opened GasRuns
  import opened GasSafety

  /** Work that was started belongs to the query being served, unless its query is gone; the
      query being served is pending, and its work was started. */
  ghost predicate Serving(g: Gas) {
    && DistinctWork(g.radio)
    && g.current == g.work
    && (forall i | 0 <= i < |g.radio| :: g.radio[i].serial < g.nextSerial)
    && (forall i | 0 <= i < |g.radio| && g.radio[i].started && IsPending(g, g.radio[i].serial) ::
          g.work == Some(g.radio[i].serial))
    && (g.work.Some? ==> IsPending(g, g.work.value) && Work(g.work.value, true) in g.radio)
  }

  ghost predicate Sound(pending: seq<Query>, k: int) {
    forall i | 0 <= i < |pending| && i != k :: QueryOk(pending[i], true)
  }

  /** The invariant of every run; k is a query in hand that need not be sound, or -1. */
  ghost predicate Core(g: Gas, k: int) {
    Keys(g.pending) && Accounted(g) && Serving(g) && Sound(g.pending, k) && CallsOk(g.calls)
  }

  lemma InitCore()
    ensures Core(Init(), -1)
  {
  }

  // --- primitive steps -------------------------------------------------------

  lemma QueryGone(g: Gas, h: Gas, k: nat)
    requires Keys(g.pending) && Serving(g) && k < |g.pending| && g.work != Some(g.pending[k].serial)
    requires h.pending == RemoveAt(g.pending, k) && h.radio == g.radio
    requires h.current == g.current && h.work == g.work && h.nextSerial == g.nextSerial
    ensures Serving(h)
  {
    RemovedPending(g, h, k);
  }

  lemma CurrentGone(g: Gas, h: Gas, k: nat, w: nat)
    requires Keys(g.pending) && Serving(g) && k < |g.pending| && g.work == Some(g.pending[k].serial)
    requires w < |g.radio| && g.radio[w].serial == g.pending[k].serial
    requires h.pending == RemoveAt(g.pending, k) && h.radio == RemoveAt(g.radio, w)
    requires h.current == None && h.work == None && h.nextSerial == g.nextSerial
    ensures Serving(h)
  {
    RemovedPending(g, h, k);
    DroppedWork(g, h, w);
  }

  lemma DoneServing(g: Gas, k: nat, result: Result)
    requires Keys(g.pending) && Serving(g) && k < |g.pending|
    ensures Serving(Done(g, k, result))
  {
    var h := Done(g, k, result);
    var s := g.pending[k].serial;
    DoneParts(g, k, result);
    if g.work == Some(s) {
      var w :| 0 <= w < |g.radio| && g.radio[w] == Work(s, true);
      DropWorkIs(g.radio, w);
      hide Done, DropWork;
      CurrentGone(g, h, k, w);
    } else {
      hide Done;
      QueryGone(g, h, k);
    }
  }

  lemma RemovedSound(p: seq<Query>, k: nat)
    requires Sound(p, k) && k < |p|
    ensures Sound(RemoveAt(p, k), -1)
  {
    hide QueryOk;
    var r := RemoveAt(p, k);
    forall i | 0 <= i < |r| ensures QueryOk(r[i], true) {
      assert r[i] == p[if i < k then i else i + 1];
    }
  }

  lemma DoneCore(g: Gas, k: nat, result: Result)
    requires Core(g, k) && k < |g.pending| && Delivered(Call(g.pending[k], result))
    ensures Core(Done(g, k, result), -1)
  {
    var h := Done(g, k, result);
    RemoveKeys(g.pending, k);
    DoneAccounted(g, k, result);
    DoneServing(g, k, result);
    RemovedSound(g.pending, k);
    assert CallsOk(h.calls) by { assert h.calls == g.calls + [Call(g.pending[k], result)]; }
    assert h.pending == RemoveAt(g.pending, k);
  }

  lemma Weaken(g: Gas, k: nat)
    requires Core(g, -1) && k < |g.pending|
    ensures Core(g, k) && QueryOk(g.pending[k], true)
  {
    hide QueryOk;
  }

  lemma Strengthen(g: Gas, k: nat)
    requires Core(g, k) && k < |g.pending| && QueryOk(g.pending[k], true)
    ensures Core(g, -1)
  {
    hide QueryOk;
  }

  lemma SameServing(g: Gas, h: Gas)
    requires Serving(g) && h.radio == g.radio && h.current == g.current && h.work == g.work
    requires h.nextSerial == g.nextSerial
    requires |h.pending| == |g.pending| && forall i | 0 <= i < |g.pending| :: h.pending[i].serial == g.pending[i].serial
    ensures Serving(h)
  {
    forall s: nat ensures IsPending(g, s) <==> IsPending(h, s) {
      if IsPending(g, s) {
        var i :| 0 <= i < |g.pending| && g.pending[i].serial == s;
        assert h.pending[i].serial == s;
      }
      if IsPending(h, s) {
        var i :| 0 <= i < |h.pending| && h.pending[i].serial == s;
        assert g.pending[i].serial == s;
      }
    }
    assert g.work.Some? ==> (IsPending(g, g.work.value) <==> IsPending(h, g.work.value));
    forall i | 0 <= i < |g.radio| ensures IsPending(g, g.radio[i].serial) <==> IsPending(h, g.radio[i].serial) {
    }
  }

  lemma PutCore(g: Gas, k: nat, q: Query)
    requires Core(g, k) && k < |g.pending| && Compatible(g, k, q)
    ensures Core(Put(g, k, q), k)
  {
    hide QueryOk;
    PutPendingOnly(g, k, q);
    SameServing(g, Put(g, k, q));
    assert forall i | 0 <= i < |g.pending| && i != k :: Put(g, k, q).pending[i] == g.pending[i];
  }

  lemma PutPendingOnly(g: Gas, k: nat, q: Query)
    requires Keys(g.pending) && Accounted(g) && k < |g.pending| && Compatible(g, k, q)
    ensures Keys(Put(g, k, q).pending) && Accounted(Put(g, k, q))
  {
    PutPending(g, k, q);
  }

  lemma SendCore(g: Gas, k: nat, started: bool)
    requires Core(g, -1) && k < |g.pending|
    ensures Core(Put(g, k, g.pending[k].(offchannel := started)), -1)
  {
    Weaken(g, k);
    OffchannelOk(g.pending[k]);
    var q := g.pending[k].(offchannel := started);
    PutCore(g, k, q);
    Strengthen(Put(g, k, q), k);
  }

  /** Nothing but the timers, next_start and the fault differs. */
  ghost predicate SameBooks(g: Gas, h: Gas) {
    && h.pending == g.pending && h.current == g.current && h.work == g.work && h.radio == g.radio
    && h.nextSerial == g.nextSerial && h.calls == g.calls && h.dropped == g.dropped
  }

  lemma SameCore(g: Gas, h: Gas, k: int)
    requires Core(g, k) && SameBooks(g, h)
    ensures Core(h, k)
  {
    hide Keys, CallsOk, QueryOk;
    SameServing(g, h);
    assert Accounted(h) by {
      forall s: nat ensures Occurrences(h, s) == if s < h.nextSerial then 1 else 0 {
        assert Occurrences(g, s) == if s < g.nextSerial then 1 else 0;
      }
    }
  }

  lemma DoneFailing(g: Gas, k: nat, result: Result)
    requires Core(g, -1) && k < |g.pending| && result != Success
    ensures Core(Done(g, k, result), -1)
  {
    Weaken(g, k);
    hide Core, Done;
    DoneCore(g, k, result);
  }

  // --- transmission and timers -----------------------------------------------

  lemma TxComebackReqCore(g: Gas, k: nat, txOk: bool)
    requires Core(g, -1) && k < |g.pending|
    ensures Core(TxComebackReq(g, k, txOk), -1)
  {
    hide Core, Done;
    if txOk { SendCore(g, k, true); } else { DoneFailing(g, k, InternalError); }
  }

  /** gas_query_tx_initial_req for the query whose work was started */
  lemma TxInitialReqCore(g: Gas, k: nat, txOk: bool)
    requires Core(g, -1) && k < |g.pending| && g.current == Some(g.pending[k].serial)
    ensures Core(TxInitialReq(g, k, txOk), -1)
  {
    hide Core, Done;
    if txOk {
      SendCore(g, k, true);
      SameCore(Put(g, k, g.pending[k].(offchannel := true)), TxInitialReq(g, k, txOk), -1);
    } else {
      DoneFailing(g, k, InternalError);
    }
  }

  lemma DelayComebackCore(g: Gas, k: nat, delay: nat)
    requires Core(g, -1) && k < |g.pending|
    ensures Core(DelayComeback(g, k, delay), -1)
  {
    hide Core;
    SendCore(g, k, false);
    var q := g.pending[k];
    var h := if delay > 1 && q.offchannel then Put(g, k, q.(offchannel := false)) else g;
    SameCore(h, DelayComeback(g, k, delay), -1);
  }

  lemma TxStatusCore(g: Gas, dst: Addr, result: TxResult)
    requires Core(g, -1)
    ensures Core(TxStatus(g, dst, result), -1)
  {
    hide Core;
    SameCore(g, TxStatus(g, dst, result), -1);
  }

  lemma RestartedOk(q: Query, token: Byte)
    requires QueryOk(q, true)
    ensures QueryOk(Restarted(q, token), true)
  {
  }

  lemma RetryCore(g: Gas, k: nat, txOk: bool)
    requires Core(g, -1) && k < |g.pending|
    ensures Core(Retry(g, k, txOk), -1)
  {
    var q := g.pending[k];
    if g.current == Some(q.serial) && !q.retry && NewToken(g, q.addr).Some? {
      var token := NewToken(g, q.addr).value;
      NewTokenAvailable(g, q.addr);
      Weaken(g, k);
      var r := Restarted(q, token);
      RestartedOk(q, token);
      hide Core, QueryOk;
      var t := TakeToken(g, token);
      SameCore(g, t, k);
      PutCore(t, k, r);
      Strengthen(Put(t, k, r), k);
      var h := Cancel(Cancel(Put(t, k, r), TxComeback, r.serial), QueryTimeout, r.serial);
      SameCore(Put(t, k, r), h, -1);
      TxInitialReqCore(h, k, txOk);
      assert Retry(g, k, txOk) == TxInitialReq(h, k, txOk);
    }
  }

  lemma FireCore(g: Gas, timer: Timer, txOk: bool)
    requires Core(g, -1) && timer in g.timers
    ensures Core(Fire(g, timer, txOk), -1)
  {
    hide Core;
    var h := g.(timers := g.timers - multiset{timer});
    var k := Find(h, timer.serial);
    SameCore(g, h, -1);
    if k == |h.pending| {
      SameCore(h, Fire(g, timer, txOk), -1);
    } else {
      match timer.kind {
        case TxComeback => TxComebackReqCore(h, k, txOk);
        case QueryTimeout => DoneFailing(h, k, Timeout);
        case RxComeback => RetryCore(h, k, txOk);
      }
    }
  }

  // --- reception -------------------------------------------------------------

  lemma CompleteCore(g: Gas, k: nat, q: Query)
    requires Core(g, k) && k < |g.pending| && Compatible(g, k, q) && Assembled(q) && q.frags != []
    ensures Core(Done(Put(g, k, q), k, Success), -1)
  {
    PutCore(g, k, q);
    DoneCore(Put(g, k, q), k, Success);
  }

  lemma RxInitialCore(g: Gas, k: nat, f: Frame)
    requires Core(g, -1) && k < |g.pending| && !g.pending[k].waitComeback
    ensures Core(RxInitial(g, k, f), -1)
  {
    Weaken(g, k);
    var q := g.pending[k].(adv := Some(f.adv));
    if f.delay > 0 {
      var r := q.(waitComeback := true);
      assert QueryOk(r, true);
      hide Core, DelayComeback, QueryOk;
      PutCore(g, k, r);
      Strengthen(Put(g, k, r), k);
      DelayComebackCore(Put(g, k, r), k, f.delay);
    } else {
      AssembledAppend(q, 0, f.data);
      CompleteCore(g, k, Append(q, 0, f.data));
    }
  }

  lemma RxComebackCore(g: Gas, k: nat, f: Frame, txOk: bool)
    requires Core(g, -1) && k < |g.pending| && g.pending[k].waitComeback && f.fragId < 128
    ensures Core(RxComebackResp(g, k, f, txOk), -1)
  {
    var q := g.pending[k];
    var h := Cancel(g, RxComeback, q.serial);
    Weaken(g, k);
    assert q.adv.Some?;
    hide Core, DelayComeback, Done, TxComebackReq, QueryOk;
    SameCore(g, h, -1);
    if f.adv != q.adv.value {
      DoneFailing(h, k, PeerError);
    } else if f.delay > 0 {
      if f.fragId != 0 { DoneFailing(h, k, PeerError); } else { DelayComebackCore(h, k, f.delay); }
    } else if f.fragId != q.nextFrag {
      if f.fragId + 1 != q.nextFrag { DoneFailing(h, k, PeerError); }
    } else {
      var u := Append(q.(nextFrag := (q.nextFrag + 1) % 256), f.fragId, f.data);
      AcceptedOk(q, f.fragId, f.data);
      Weaken(h, k);
      if f.more {
        PutCore(h, k, u);
        Strengthen(Put(h, k, u), k);
        TxComebackReqCore(Put(h, k, u), k, txOk);
      } else {
        CompleteCore(h, k, u);
      }
    }
  }

  lemma HandleCore(g: Gas, k: nat, data: seq<Byte>, txOk: bool)
    requires Core(g, -1) && k < |g.pending| && |data| >= 4
    requires data[0] == INITIAL_RESP || data[0] == COMEBACK_RESP
    ensures Core(Handle(g, k, data, txOk), -1)
  {
    var q := g.pending[k];
    var status := LittleEndian16(data, 2);
    var u := q.(status := status);
    var h := Put(g, k, u);
    Weaken(g, k);
    StatusOk(q, status, true);
    hide Core, QueryOk, RxComebackResp, RxInitial, Done, ParseFrame;
    PutCore(g, k, u);
    Strengthen(h, k);
    DoneFailing(h, k, Failure);
    if ParseFrame(data).Some? {
      var f := ParseFrame(data).value;
      if q.waitComeback { RxComebackCore(h, k, f, txOk); } else { RxInitialCore(h, k, f); }
    }
  }

  lemma RxCore(g: Gas, sa: Addr, prot: bool, pmf: bool, data: seq<Byte>, txOk: bool)
    requires Core(g, -1)
    ensures Core(Rx(g, sa, prot, pmf, data, txOk), -1)
  {
    hide Core;
    var k := Match(g, sa, prot, pmf, data);
    if k < |g.pending| { HandleCore(g, k, data, txOk); }
  }

  // --- requests and radio work -----------------------------------------------

  lemma RequestServing(g: Gas, h: Gas, q: Query)
    requires Accounted(g) && Serving(g) && q.serial == g.nextSerial && h.nextSerial == g.nextSerial + 1
    requires h.pending == [q] + g.pending && h.radio == g.radio + [Work(q.serial, false)]
    requires h.current == g.current && h.work == g.work
    ensures Serving(h)
  {
    AddedPending(g, h, q);
    if g.work.Some? {
      var w :| 0 <= w < |g.radio| && g.radio[w] == Work(g.work.value, true);
      assert h.radio[w] == g.radio[w];
    }
  }

  lemma RequestCore(g: Gas, dst: Addr, req: seq<Byte>, addOk: bool)
    requires Core(g, -1)
    ensures Core(Request(g, dst, req, addOk), -1)
  {
    if |req| >= 3 && NewToken(g, dst).Some? {
      var token := NewToken(g, dst).value;
      NewTokenAvailable(g, dst);
      SameCore(g, TakeToken(g, token), -1);
      if addOk {
        var h := Request(g, dst, req, addOk);
        var q := h.pending[0];
        RequestAccounted(g, h, q);
        RequestServing(g, h, q);
        RequestKeys(g, h, q);
        assert QueryOk(q, true);
        assert forall i | 1 <= i < |h.pending| :: h.pending[i] == g.pending[i - 1];
      }
    }
  }

  /** Radio work that belongs to no pending query may start, or be dropped. */
  lemma MovedServing(g: Gas, h: Gas, w: nat)
    requires Serving(g) && w < |g.radio| && !IsPending(g, g.radio[w].serial)
    requires h.pending == g.pending && h.current == g.current && h.work == g.work && h.nextSerial == g.nextSerial
    requires h.radio == g.radio[w := Work(g.radio[w].serial, true)]
    ensures Serving(h)
  {
    if g.work.Some? {
      var v :| 0 <= v < |g.radio| && g.radio[v] == Work(g.work.value, true);
      assert h.radio[v] == g.radio[v];
    }
    assert forall s: nat :: IsPending(h, s) <==> IsPending(g, s);
  }

  /** Radio work and its pending query leave together. */
  lemma FreedServing(g: Gas, h: Gas, k: nat, w: nat)
    requires Keys(g.pending) && Serving(g) && k < |g.pending| && w < |g.radio|
    requires g.radio[w].serial == g.pending[k].serial && g.work != Some(g.pending[k].serial)
    requires h.pending == RemoveAt(g.pending, k) && h.radio == RemoveAt(g.radio, w)
    requires h.current == g.current && h.work == g.work && h.nextSerial == g.nextSerial
    ensures Serving(h)
  {
    RemovedPending(g, h, k);
    DroppedWork(g, h, w);
    if g.work.Some? {
      var v :| 0 <= v < |g.radio| && g.radio[v] == Work(g.work.value, true);
      assert h.radio[if v < w then v else v - 1] == g.radio[v];
    }
  }

  lemma BegunServing(g: Gas, w: nat)
    requires Serving(g) && g.work == None && w < |g.radio| && IsPending(g, g.radio[w].serial)
    ensures Serving(Begun(g, w))
  {
    var h := Begun(g, w);
    assert h.radio[w] == Work(g.radio[w].serial, true);
    assert forall s: nat :: IsPending(h, s) <==> IsPending(g, s);
  }

  lemma FreeCore(g: Gas, h: Gas, k: nat, w: nat)
    requires Core(g, -1) && k < |g.pending| && w < |g.radio|
    requires g.radio[w].serial == g.pending[k].serial && g.work != Some(g.pending[k].serial)
    requires h == g.(pending := RemoveAt(g.pending, k), radio := RemoveAt(g.radio, w),
                     dropped := g.dropped + [g.pending[k].serial])
    ensures Core(h, -1)
  {
    hide CallsOk, QueryOk;
    assert Keys(h.pending) by { RemoveKeys(g.pending, k); }
    assert Accounted(h) by {
      FreeAccounted(g, k);
      var f := Free(g, k);
      forall s: nat ensures Occurrences(h, s) == if s < h.nextSerial then 1 else 0 {
        assert Occurrences(f, s) == if s < f.nextSerial then 1 else 0;
      }
    }
    assert Serving(h) by { FreedServing(g, h, k, w); }
    assert Sound(h.pending, -1) by { RemovedSound(g.pending, k); }
  }

  lemma AccountedSame(g: Gas, h: Gas)
    requires Accounted(g) && h.pending == g.pending && h.nextSerial == g.nextSerial
    requires h.calls == g.calls && h.dropped == g.dropped
    ensures Accounted(h)
  {
    forall s: nat ensures Occurrences(h, s) == if s < h.nextSerial then 1 else 0 {
      assert Occurrences(g, s) == if s < g.nextSerial then 1 else 0;
    }
  }

  lemma Idle(g: Gas)
    requires Serving(g) && !AnyStarted(g.radio)
    ensures g.work == None && g.current == None
  {
  }

  lemma FindIs(g: Gas, s: nat)
    ensures Find(g, s) < |g.pending| <==> IsPending(g, s)
  {
    if IsPending(g, s) { FindPending(g, s); }
  }

  lemma StartCore(g: Gas, w: nat, addrOk: bool, txOk: bool)
    requires Core(g, -1) && !AnyStarted(g.radio) && w < |g.radio|
    ensures Core(Start(g, w, addrOk, txOk), -1)
  {
    hide CallsOk, Keys, Sound, Done, TxInitialReq;
    var s := g.radio[w].serial;
    Idle(g);
    assert !g.radio[w].started;
    var h := g.(radio := g.radio[w := Work(s, true)]);
    var k := Find(h, s);
    FindIs(h, s);
    assert IsPending(h, s) <==> IsPending(g, s);
    var r := Start(g, w, addrOk, txOk);
    if k == |h.pending| {
      MovedServing(g, r, w);
      AccountedSame(g, r);
    } else if !addrOk {
      DropStarted(g.radio, w);
      FreeCore(g, r, k, w);
    } else {
      var b := Begun(g, w);
      BegunServing(g, w);
      AccountedSame(g, b);
      TxInitialReqCore(b, k, txOk);
      assert r == TxInitialReq(b, k, txOk) by { CurrentUnused(h.(work := Some(s)), k, txOk); }
    }
  }

  /** gas_query_tx_initial_req sets current, or clears it, itself. */
  lemma CurrentUnused(h: Gas, k: nat, txOk: bool)
    requires k < |h.pending| && h.current == None
    ensures TxInitialReq(h, k, txOk) == TxInitialReq(h.(current := Some(h.pending[k].serial)), k, txOk)
  {
  }

  lemma StartedIsServed(g: Gas, w: nat, k: nat)
    requires Serving(g) && w < |g.radio| && k < |g.pending| && g.pending[k].serial == g.radio[w].serial
    ensures g.radio[w].started <==> g.work == Some(g.radio[w].serial)
  {
    assert IsPending(g, g.radio[w].serial);
  }

  lemma RemoveCore(g: Gas, w: nat)
    requires Core(g, -1) && w < |g.radio|
    ensures Core(Remove(g, w), -1)
  {
    var s := g.radio[w].serial;
    var k := Find(g, s);
    if k == |g.pending| {
      hide Core;
      SameCore(g, Remove(g, w), -1);
    } else {
      StartedIsServed(g, w, k);
      DropWorkIs(g.radio, w);
      hide Core, Serving, Keys;
      if g.radio[w].started {
        DoneFailing(g, k, DeletedAtDeinit);
        assert Remove(g, w) == Done(g, k, DeletedAtDeinit);
      } else {
        FreeCore(g, Remove(g, w), k, w);
      }
    }
  }

  lemma {:induction false} DeinitCore(g: Gas)
    requires Core(g, -1)
    ensures Core(Deinit(g), -1) && Deinit(g).pending == []
    decreases |g.pending|
  {
    hide Core;
    if g.pending != [] {
      DoneFailing(g, 0, DeletedAtDeinit);
      DeinitCore(Done(g, 0, DeletedAtDeinit));
    }
  }

  // --- steps and runs --------------------------------------------------------

  /** Every step keeps the invariant, hazards included. */
  lemma StepCore(g: Gas, ev: Event)
    requires Core(g, -1) && Enabled(g, ev)
    ensures Core(Step(g, ev), -1)
  {
    hide Core, AnyStarted, Request, Start, Remove, Rx, TxStatus, Fire, Deinit;
    match ev
    case EvRequest(dst, req, addOk) => RequestCore(g, dst, req, addOk);
    case EvStart(s, addrOk, txOk) => StartCore(g, IndexOf(g.radio, Work(s, false)), addrOk, txOk);
    case EvRemove(s) => RemoveCore(g, IndexOf(Contexts(g.radio), s));
    case EvRx(sa, prot, pmf, data, txOk) => RxCore(g, sa, prot, pmf, data, txOk);
    case EvTxStatus(dst, result) => TxStatusCore(g, dst, result);
    case EvFire(timer, txOk) => FireCore(g, timer, txOk);
    case EvDeinit => DeinitCore(g);
  }

  lemma {:induction false} RunCore(g: Gas, run: seq<Event>)
    requires Core(g, -1) && Feasible(g, run)
    ensures Core(Run(g, run), -1)
    decreases |run|
  {
    hide Core, Enabled, Step;
    if run != [] {
      StepCore(g, run[0]);
      RunCore(Step(g, run[0]), run[1..]);
    }
  }

  // --- the timeout of the query being served ---------------------------------

  predicate TimedBut(g: Gas, serial: Option<nat>) {
    g.current.Some? && g.current != serial ==> Timer(QueryTimeout, g.current.value) in g.timers
  }

  /** The query being served waits under a timeout. */
  predicate Timed(g: Gas) {
    TimedBut(g, None)
  }

  lemma DoneTimed(g: Gas, k: nat, result: Result)
    requires k < |g.pending| && TimedBut(g, Some(g.pending[k].serial))
    ensures Timed(Done(g, k, result))
  {
    hide DropWork, RemoveAt;
  }

  lemma TxComebackReqTimed(g: Gas, k: nat, txOk: bool)
    requires Timed(g) && k < |g.pending|
    ensures Timed(TxComebackReq(g, k, txOk))
  {
    DoneTimed(g, k, InternalError);
    hide Done;
  }

  lemma TxInitialReqTimed(g: Gas, k: nat, txOk: bool)
    requires k < |g.pending| && TimedBut(g, Some(g.pending[k].serial))
    ensures Timed(TxInitialReq(g, k, txOk))
  {
    DoneTimed(g, k, InternalError);
    hide Done;
  }

  lemma RxInitialTimed(g: Gas, k: nat, f: Frame)
    requires Timed(g) && k < |g.pending|
    ensures Timed(RxInitial(g, k, f))
  {
    var q := g.pending[k].(adv := Some(f.adv));
    DoneTimed(Put(g, k, Append(q, 0, f.data)), k, Success);
    hide Done;
  }

  lemma CancelTimed(g: Gas, kind: Kind, serial: nat)
    requires Timed(g) && kind != QueryTimeout
    ensures Timed(Cancel(g, kind, serial))
  {
  }

  lemma DelayTimed(g: Gas, k: nat, delay: nat)
    requires Timed(g) && k < |g.pending|
    ensures Timed(DelayComeback(g, k, delay))
  {
  }

  lemma PutTimed(g: Gas, k: nat, q: Query)
    requires Timed(g) && k < |g.pending|
    ensures Timed(Put(g, k, q))
  {
  }

  lemma DoneKeepsTimed(g: Gas, k: nat, result: Result)
    requires Timed(g) && k < |g.pending|
    ensures Timed(Done(g, k, result))
  {
    DoneTimed(g, k, result);
    hide Done;
  }

  lemma FaultTimed(g: Gas)
    requires Timed(g)
    ensures Timed(Fault(g))
  {
  }

  lemma RxComebackTimed(g: Gas, k: nat, f: Frame, txOk: bool)
    requires Timed(g) && k < |g.pending|
    ensures Timed(RxComebackResp(g, k, f, txOk))
  {
    hide Timed, Done, TxComebackReq, DelayComeback, Fault;
    var q := g.pending[k];
    var h := Cancel(g, RxComeback, q.serial);
    var u := Put(h, k, Append(q.(nextFrag := (q.nextFrag + 1) % 256), f.fragId, f.data));
    CancelTimed(g, RxComeback, q.serial);
    FaultTimed(h);
    DelayTimed(h, k, f.delay);
    DoneKeepsTimed(h, k, PeerError);
    PutTimed(h, k, Append(q.(nextFrag := (q.nextFrag + 1) % 256), f.fragId, f.data));
    DoneKeepsTimed(u, k, Success);
    TxComebackReqTimed(u, k, txOk);
  }

  lemma RxTimed(g: Gas, sa: Addr, prot: bool, pmf: bool, data: seq<Byte>, txOk: bool)
    requires Timed(g)
    ensures Timed(Rx(g, sa, prot, pmf, data, txOk))
  {
    var k := Match(g, sa, prot, pmf, data);
    if k < |g.pending| {
      var h := Put(g, k, g.pending[k].(status := LittleEndian16(data, 2)));
      DoneTimed(h, k, Failure);
      if ParseFrame(data).Some? {
        RxInitialTimed(h, k, ParseFrame(data).value);
        RxComebackTimed(h, k, ParseFrame(data).value, txOk);
      }
      hide Done, RxInitial, RxComebackResp, ParseFrame;
    }
  }

  lemma RetryTimed(g: Gas, k: nat, txOk: bool)
    requires Timed(g) && k < |g.pending|
    ensures Timed(Retry(g, k, txOk))
  {
    hide TxInitialReq, NewToken;
    var q := g.pending[k];
    if g.current == Some(q.serial) && !q.retry && NewToken(g, q.addr).Some? {
      var token := NewToken(g, q.addr).value;
      var h := Put(TakeToken(g, token), k, Restarted(q, token));
      var c := Cancel(Cancel(h, TxComeback, q.serial), QueryTimeout, q.serial);
      TxInitialReqTimed(c, k, txOk);
      assert Retry(g, k, txOk) == TxInitialReq(c, k, txOk);
    }
  }

  lemma FireTimed(g: Gas, timer: Timer, txOk: bool)
    requires Core(g, -1) && Timed(g) && timer in g.timers
    ensures Timed(Fire(g, timer, txOk))
  {
    var h := g.(timers := g.timers - multiset{timer});
    var k := Find(h, timer.serial);
    if g.current == Some(timer.serial) { FindIs(h, timer.serial); assert IsPending(h, timer.serial); }
    hide Core, Done, TxComebackReq, Retry;
    if k < |h.pending| {
      match timer.kind {
        case TxComeback => TxComebackReqTimed(h, k, txOk);
        case QueryTimeout => DoneTimed(h, k, Timeout);
        case RxComeback => RetryTimed(h, k, txOk);
      }
    }
  }

  lemma StartTimed(g: Gas, w: nat, addrOk: bool, txOk: bool)
    requires Core(g, -1) && Timed(g) && w < |g.radio| && !AnyStarted(g.radio)
    ensures Timed(Start(g, w, addrOk, txOk))
  {
    Idle(g);
    var s := g.radio[w].serial;
    var h := g.(radio := g.radio[w := Work(s, true)], work := Some(s));
    var k := Find(h, s);
    hide Core, TxInitialReq, DropWork;
    if k < |h.pending| { TxInitialReqTimed(h, k, txOk); }
  }

  lemma RemoveTimed(g: Gas, w: nat)
    requires Timed(g) && w < |g.radio|
    ensures Timed(Remove(g, w))
  {
    var k := Find(g, g.radio[w].serial);
    if k < |g.pending| { DoneTimed(g.(work := None), k, DeletedAtDeinit); }
    hide Done, DropWork;
  }

  lemma {:induction false} DeinitTimed(g: Gas)
    requires Timed(g)
    ensures Timed(Deinit(g))
    decreases |g.pending|
  {
    if g.pending != [] {
      DoneTimed(g, 0, DeletedAtDeinit);
      DeinitTimed(Done(g, 0, DeletedAtDeinit));
    }
  }

  lemma StepTimed(g: Gas, ev: Event)
    requires Core(g, -1) && Timed(g) && Enabled(g, ev)
    ensures Timed(Step(g, ev))
  {
    hide Core, AnyStarted, Start, Remove, Rx, Fire, Deinit, NewToken;
    match ev
    case EvStart(s, addrOk, txOk) => StartTimed(g, IndexOf(g.radio, Work(s, false)), addrOk, txOk);
    case EvRemove(s) => RemoveTimed(g, IndexOf(Contexts(g.radio), s));
    case EvRx(sa, prot, pmf, data, txOk) => RxTimed(g, sa, prot, pmf, data, txOk);
    case EvFire(timer, txOk) => FireTimed(g, timer, txOk);
    case EvDeinit => DeinitTimed(g);
    case _ =>
  }

  lemma {:induction false} RunTimed(g: Gas, run: seq<Event>)
    requires Core(g, -1) && Timed(g) && Feasible(g, run)
    ensures Timed(Run(g, run))
    decreases |run|
  {
    hide Core, Enabled, Step, Timed;
    if run != [] {
      StepCore(g, run[0]);
      StepTimed(g, run[0]);
      RunTimed(Step(g, run[0]), run[1..]);
    }
  }

  // --- what holds in every run -----------------------------------------------

  /** Each accepted query is pending, answered or dropped, exactly one of them and once: its
      callback runs at most once. */
  lemma ServedOnce(run: seq<Event>, s: nat)
    requires Feasible(Init(), run)
    ensures var g := Run(Init(), run); Occurrences(g, s) == if s < g.nextSerial then 1 else 0
  {
    InitCore();
    RunCore(Init(), run);
  }

  /** gas->current and the context of gas->work are the same pending query, whose work has
      started, or both are null; no other pending query has started work. */
  lemma CurrentIsPending(run: seq<Event>)
    requires Feasible(Init(), run)
    ensures var g := Run(Init(), run);
      && g.current == g.work
      && (g.work.Some? ==> IsPending(g, g.work.value) && Work(g.work.value, true) in g.radio)
      && forall w | w in g.radio && w.started && IsPending(g, w.serial) :: g.work == Some(w.serial)
  {
    InitCore();
    RunCore(Init(), run);
  }

  /** Pending queries to one address have different dialog tokens. */
  lemma TokensUnique(run: seq<Event>, i: nat, j: nat)
    requires Feasible(Init(), run)
    requires i < j < |Run(Init(), run).pending|
    ensures var p := Run(Init(), run).pending; p[i].addr != p[j].addr || p[i].token != p[j].token
  {
    InitCore();
    RunCore(Init(), run);
  }

  /** SUCCESS delivers, behind the octets held when the query was last retried, fragments
      0, 1, ... in order, each once and at most 128 of them. */
  lemma SuccessDelivers(run: seq<Event>, c: Call)
    requires Feasible(Init(), run)
    requires c in Run(Init(), run).calls && c.result == Success
    ensures var q := c.query;
      && 1 <= |q.frags| <= 128
      && (forall i | 0 <= i < |q.frags| :: q.frags[i].id == i)
      && q.resp == q.base + Concat(q.frags)
      && (!q.retry ==> q.base == [])
  {
    InitCore();
    RunCore(Init(), run);
    assert Delivered(c);
  }

  /** No served query waits without a timeout. */
  lemma ServedHasTimeout(run: seq<Event>)
    requires Feasible(Init(), run)
    ensures var g := Run(Init(), run); g.current.Some? ==> Timer(QueryTimeout, g.current.value) in g.timers
  {
    InitCore();
    RunTimed(Init(), run);
  }
}
