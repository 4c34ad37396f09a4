/** Runs of the GAS query component: which steps keep the invariant, and what goes wrong otherwise. */
module GasRuns {
  import opened Collections
  import opened GasModel
  import opened GasInvariants

  // --- requests --------------------------------------------------------------

  lemma RequestAccounted(g: Gas, h: Gas, q: Query)
    requires Accounted(g) && q.serial == g.nextSerial
    requires h.pending == [q] + g.pending && h.calls == g.calls && h.dropped == g.dropped
    requires h.nextSerial == g.nextSerial + 1
    ensures Accounted(h)
  {
    assert Serials(h.pending) == [q.serial] + Serials(g.pending);
    forall s: nat ensures Occurrences(h, s) == if s < h.nextSerial then 1 else 0 {
      assert Occurrences(g, s) == if s < g.nextSerial then 1 else 0;
    }
  }

  lemma PendingIsOld(g: Gas, s: nat)
    requires Accounted(g) && IsPending(g, s)
    ensures s < g.nextSerial
  {
    var i :| 0 <= i < |g.pending| && g.pending[i].serial == s;
    assert Serials(g.pending)[i] == s;
    assert Occurrences(g, s) == if s < g.nextSerial then 1 else 0;
  }

  lemma AddedPending(g: Gas, h: Gas, q: Query)
    requires h.pending == [q] + g.pending
    ensures forall s: nat :: IsPending(h, s) <==> IsPending(g, s) || s == q.serial
  {
    assert h.pending[0] == q;
    forall s: nat | IsPending(g, s) ensures IsPending(h, s) {
      var i :| 0 <= i < |g.pending| && g.pending[i].serial == s;
      assert h.pending[i + 1].serial == s;
    }
  }

  lemma AddedWork(g: Gas, h: Gas, w: Work)
    requires h.radio == g.radio + [w]
    ensures forall s: nat :: HasWork(h, s) <==> HasWork(g, s) || s == w.serial
  {
    assert h.radio[|g.radio|] == w;
    forall s: nat | HasWork(g, s) ensures HasWork(h, s) {
      var i :| 0 <= i < |g.radio| && g.radio[i].serial == s;
      assert h.radio[i].serial == s;
    }
  }

  lemma RequestRadio(g: Gas, h: Gas, q: Query)
    requires Accounted(g) && Radio(g) && q.serial == g.nextSerial
    requires h.pending == [q] + g.pending && h.radio == g.radio + [Work(q.serial, false)]
    requires h.current == g.current && h.work == g.work
    ensures Radio(h)
  {
    AddedPending(g, h, q);
    AddedWork(g, h, Work(q.serial, false));
    forall s: nat | HasWork(g, s) ensures s < g.nextSerial { PendingIsOld(g, s); }
    forall i | 0 <= i < |g.radio| ensures HasWork(g, g.radio[i].serial) { }
    hide HasWork, IsPending, Accounted;
  }

  lemma RequestKeys(g: Gas, h: Gas, q: Query)
    requires Keys(g.pending) && Accounted(g) && q.serial == g.nextSerial
    requires Available(g.pending, q.addr, q.token) && h.pending == [q] + g.pending
    ensures Keys(h.pending)
  {
    forall i | 0 <= i < |g.pending| ensures g.pending[i].serial < g.nextSerial {
      PendingIsOld(g, g.pending[i].serial);
    }
  }

  lemma TakeTokenInv(g: Gas, t: Byte)
    requires Inv(g)
    ensures Inv(TakeToken(g, t))
  {
    var h := TakeToken(g, t);
    assert Accounted(h) by {
      forall s: nat ensures Occurrences(h, s) == if s < h.nextSerial then 1 else 0 {
        assert Occurrences(g, s) == if s < g.nextSerial then 1 else 0;
      }
    }
    assert Radio(h) by {
      forall s: nat ensures HasWork(h, s) <==> IsPending(h, s) {
        assert HasWork(g, s) <==> IsPending(g, s);
      }
    }
  }

  lemma RequestInv(g: Gas, dst: Addr, req: seq<Byte>, addOk: bool)
    requires Inv(g)
    ensures Inv(Request(g, dst, req, addOk))
  {
    if |req| >= 3 && NewToken(g, dst).Some? {
      var token := NewToken(g, dst).value;
      NewTokenAvailable(g, dst);
      TakeTokenInv(g, token);
      if addOk {
        var h := Request(g, dst, req, addOk);
        var q := h.pending[0];
        RequestAccounted(g, h, q);
        RequestRadio(g, h, q);
        RequestKeys(g, h, q);
        assert OthersOk(h, -1) by {
          assert g.work == Some(q.serial) ==> IsPending(g, q.serial);
          if g.work == Some(q.serial) { PendingIsOld(g, q.serial); }
          forall i | 0 <= i < |h.pending|
            ensures QueryOk(h.pending[i], h.work == Some(h.pending[i].serial))
          {
            if i > 0 { assert h.pending[i] == g.pending[i - 1]; }
          }
        }
      }
    }
  }

  // --- radio work ------------------------------------------------------------

  lemma QueuedIsPending(g: Gas, w: nat)
    requires Inv(g) && w < |g.radio|
    ensures Find(g, g.radio[w].serial) < |g.pending|
  {
    assert HasWork(g, g.radio[w].serial);
    FindPending(g, g.radio[w].serial);
  }

  /** A query leaves together with its queued work, without a callback. */
  lemma FreeInv(g: Gas, h: Gas, k: nat, w: nat)
    requires Inv(g) && k < |g.pending| && w < |g.radio|
    requires g.radio[w].serial == g.pending[k].serial && !g.radio[w].started
    requires h == g.(pending := RemoveAt(g.pending, k), radio := RemoveAt(g.radio, w),
                     dropped := g.dropped + [g.pending[k].serial])
    ensures Inv(h)
  {
    hide CallsOk, QueryOk;
    assert Keys(h.pending) by { RemoveKeys(g.pending, k); }
    assert Accounted(h) by {
      FreeAccounted(g, k);
      var f := Free(g, k);
      forall s: nat ensures Occurrences(h, s) == if s < h.nextSerial then 1 else 0 {
        assert Occurrences(f, s) == if s < f.nextSerial then 1 else 0;
      }
    }
    assert Radio(h) by { BothRemoved(g, h, k, w); }
    assert OthersOk(h, -1) by { RemovedOthers(g, h, k); }
  }

  lemma DropStarted(radio: seq<Work>, w: nat)
    requires DistinctWork(radio) && w < |radio|
    ensures DropWork(radio[w := Work(radio[w].serial, true)], radio[w].serial) == RemoveAt(radio, w)
  {
    var r := radio[w := Work(radio[w].serial, true)];
    DropWorkIs(r, w);
    assert RemoveAt(r, w) == RemoveAt(radio, w);
  }

  lemma NothingStarted(g: Gas)
    requires Inv(g) && !AnyStarted(g.radio)
    ensures g.work == None && g.current == None && g.timers == multiset{}
  {
    assert g.work.Some? ==> HasWork(g, g.work.value);
    forall t: Timer ensures g.timers[t] == 0 {
    }
  }

  /** The state in which gas_query_tx_initial_req runs, with current already set. */
  function Begun(g: Gas, w: nat): Gas
    requires w < |g.radio|
  {
    var s := g.radio[w].serial;
    g.(radio := g.radio[w := Work(s, true)], work := Some(s), current := Some(s))
  }

  lemma BegunRadio(g: Gas, w: nat)
    requires Radio(g) && g.work == None && w < |g.radio|
    ensures Radio(Begun(g, w))
  {
    var h := Begun(g, w);
    assert HasWork(h, h.radio[w].serial);
    forall s: nat ensures HasWork(h, s) <==> IsPending(h, s) {
      assert HasWork(g, s) <==> IsPending(g, s);
      assert IsPending(g, s) <==> IsPending(h, s);
      if HasWork(g, s) {
        var i :| 0 <= i < |g.radio| && g.radio[i].serial == s;
        assert h.radio[i].serial == s;
      }
      if HasWork(h, s) {
        var i :| 0 <= i < |h.radio| && h.radio[i].serial == s;
        assert g.radio[i].serial == s;
      }
    }
  }

  lemma BegunHandling(g: Gas, w: nat, k: nat)
    requires Inv(g) && !AnyStarted(g.radio) && w < |g.radio| && k < |g.pending|
    requires g.pending[k].serial == g.radio[w].serial
    ensures Handling(Begun(g, w), k) && Begun(g, w).timers == multiset{}
    ensures Untouched(Begun(g, w).pending[k])
  {
    hide CallsOk;
    NothingStarted(g);
    BegunRadio(g, w);
    var h := Begun(g, w);
    assert Accounted(h) by {
      forall s: nat ensures Occurrences(h, s) == if s < h.nextSerial then 1 else 0 {
        assert Occurrences(g, s) == if s < g.nextSerial then 1 else 0;
      }
    }
    assert OthersOk(h, k) by {
      hide QueryOk, Radio, Accounted;
      forall i | 0 <= i < |h.pending| && i != k
        ensures QueryOk(h.pending[i], h.work == Some(h.pending[i].serial))
      {
        assert h.pending[i].serial != h.pending[k].serial;
        assert QueryOk(g.pending[i], g.work == Some(g.pending[i].serial));
      }
    }
    assert QueryOk(g.pending[k], false);
  }

  lemma StartInv(g: Gas, w: nat, addrOk: bool, txOk: bool)
    requires Inv(g) && !AnyStarted(g.radio) && w < |g.radio|
    ensures Inv(Start(g, w, addrOk, txOk))
  {
    hide Inv, Handling, Untouched;
    var s := g.radio[w].serial;
    QueuedIsPending(g, w);
    assert !g.radio[w].started;
    var h := g.(radio := g.radio[w := Work(s, true)]);
    var k := Find(h, s);
    NothingStarted(g);
    if !addrOk {
      assert DistinctWork(g.radio) by { InvDistinctWork(g); }
      DropStarted(g.radio, w);
      FreeInv(g, Start(g, w, addrOk, txOk), k, w);
    } else {
      BegunHandling(g, w, k);
      var b := Begun(g, w);
      if txOk {
        FirstRequestInv(b, k);
        assert Start(g, w, addrOk, txOk) == TxInitialReq(b, k, true);
      } else {
        DoneInv(b, k, InternalError);
        assert Start(g, w, addrOk, txOk) == Done(b, k, InternalError);
      }
    }
  }

  lemma InvDistinctWork(g: Gas)
    requires Inv(g)
    ensures DistinctWork(g.radio) && Keys(g.pending)
  {
  }

  lemma OffchannelOk(q: Query)
    requires QueryOk(q, true)
    ensures QueryOk(q.(offchannel := true), true) && QueryOk(q.(offchannel := false), true)
  {
  }

  lemma FirstRequestInv(g: Gas, k: nat)
    requires Handling(g, k) && Untouched(g.pending[k]) && g.timers == multiset{}
    ensures Inv(TxInitialReq(g, k, true))
  {
    var q := g.pending[k].(offchannel := true);
    var p := Put(g, k, q);
    PutHandling(g, k, q);
    RegisterHandling(p, k, QueryTimeout);
    assert QueryOk(q, true);
    var h := TxInitialReq(g, k, true);
    assert h == Register(p, QueryTimeout, q.serial);
    Finish(h, k);
  }

  lemma WorkIsStarted(g: Gas, w: nat)
    requires Inv(g) && w < |g.radio| && g.radio[w].started
    ensures g.work == Some(g.radio[w].serial)
  {
  }

  lemma RemoveInv(g: Gas, w: nat)
    requires Inv(g) && w < |g.radio|
    ensures Inv(Remove(g, w))
  {
    hide Inv, Handling, HasWork;
    var s := g.radio[w].serial;
    QueuedIsPending(g, w);
    InvDistinctWork(g);
    var k := Find(g, s);
    DropWorkIs(g.radio, w);
    if g.radio[w].started {
      WorkIsStarted(g, w);
      Begin(g, k);
      DoneInv(g, k, DeletedAtDeinit);
      assert Remove(g, w) == Done(g, k, DeletedAtDeinit);
    } else {
      assert g.work != Some(s) by { QueuedNotCurrent(g, w); }
      FreeInv(g, Remove(g, w), k, w);
    }
  }

  lemma QueuedNotCurrent(g: Gas, w: nat)
    requires Inv(g) && w < |g.radio| && !g.radio[w].started
    ensures g.work != Some(g.radio[w].serial)
  {
  }

  // --- transmission and timers -----------------------------------------------

  lemma CurrentHandling(g: Gas, s: nat)
    requires Inv(g) && g.work == Some(s)
    ensures Find(g, s) < |g.pending| && Handling(g, Find(g, s)) && QueryOk(g.pending[Find(g, s)], true)
  {
    assert IsPending(g, s);
    FindPending(g, s);
  }

  lemma TxStatusInv(g: Gas, dst: Addr, result: TxResult)
    requires Inv(g)
    ensures Inv(TxStatus(g, dst, result))
  {
    if g.current.Some? {
      var s := g.current.value;
      CurrentHandling(g, s);
      var k := Find(g, s);
      hide Inv, Handling, QueryOk;
      RestartTimer(g, k, QueryTimeout);
      var h := Register(Cancel(g, QueryTimeout, s), QueryTimeout, s);
      Finish(h, k);
      RestartTimer(h, k, RxComeback);
      Finish(Register(Cancel(h, RxComeback, s), RxComeback, s), k);
    }
  }

  lemma SendHandling(g: Gas, k: nat)
    requires Handling(g, k) && QueryOk(g.pending[k], true)
    ensures Handling(Put(g, k, g.pending[k].(offchannel := true)), k)
    ensures Inv(Put(g, k, g.pending[k].(offchannel := true)))
  {
    var q := g.pending[k].(offchannel := true);
    OffchannelOk(g.pending[k]);
    PutHandling(g, k, q);
    Finish(Put(g, k, q), k);
  }

  lemma TxComebackReqInv(g: Gas, k: nat, txOk: bool)
    requires Handling(g, k) && QueryOk(g.pending[k], true)
    ensures Inv(TxComebackReq(g, k, txOk))
  {
    hide Inv, Handling, QueryOk;
    if txOk { SendHandling(g, k); } else { DoneInv(g, k, InternalError); }
  }

  lemma TxInitialReqInv(g: Gas, k: nat, txOk: bool)
    requires Handling(g, k) && QueryOk(g.pending[k], true)
    requires Timer(QueryTimeout, g.pending[k].serial) !in g.timers
    ensures Inv(TxInitialReq(g, k, txOk))
  {
    if txOk {
      var q := g.pending[k].(offchannel := true);
      SendHandling(g, k);
      var p := Put(g, k, q);
      RegisterHandling(p, k, QueryTimeout);
      var h := Register(p, QueryTimeout, q.serial);
      OffchannelOk(g.pending[k]);
      assert h.current == Some(q.serial);
      assert h == TxInitialReq(g, k, true);
      Finish(h, k);
    } else {
      DoneInv(g, k, InternalError);
    }
  }

  lemma DelayComebackInv(g: Gas, k: nat, delay: nat)
    requires Handling(g, k) && QueryOk(g.pending[k], true)
    ensures Inv(DelayComeback(g, k, delay))
  {
    var q := g.pending[k];
    OffchannelOk(q);
    var h := if delay > 1 && q.offchannel then Put(g, k, q.(offchannel := false)) else g;
    PutHandling(g, k, q.(offchannel := false));
    RestartTimer(h, k, TxComeback);
    Finish(DelayComeback(g, k, delay), k);
  }

  function Restarted(q: Query, token: Byte): Query {
    q.(retry := true, token := token, waitComeback := false, nextFrag := 0, adv := None,
       base := q.resp, frags := [], req := if |q.req| > 2 then q.req[2 := token] else q.req)
  }

  lemma TakeTokenHandling(g: Gas, k: nat, t: Byte)
    requires Handling(g, k)
    ensures Handling(TakeToken(g, t), k)
  {
    TimersHandling(g, TakeToken(g, t), k);
  }

  lemma RestartedHandling(g: Gas, k: nat, token: Byte)
    requires Handling(g, k) && Available(g.pending, g.pending[k].addr, token)
    ensures var r := Restarted(g.pending[k], token);
      var s := r.serial;
      var h := Cancel(Cancel(Put(TakeToken(g, token), k, r), TxComeback, s), QueryTimeout, s);
      Handling(h, k) && h.pending[k] == r && QueryOk(r, true) && Timer(QueryTimeout, s) !in h.timers
  {
    var r := Restarted(g.pending[k], token);
    TakeTokenHandling(g, k, token);
    PutHandling(TakeToken(g, token), k, r);
    var p := Put(TakeToken(g, token), k, r);
    hide Handling;
    CancelHandling(p, k, TxComeback);
    CancelHandling(Cancel(p, TxComeback, r.serial), k, QueryTimeout);
  }

  lemma RetryInv(g: Gas, k: nat, txOk: bool)
    requires k < |g.pending|
    requires Handling(g, k) && QueryOk(g.pending[k], true)
    ensures Inv(Retry(g, k, txOk))
  {
    hide Inv, Handling, QueryOk;
    Finish(g, k);
    var q := g.pending[k];
    if g.current == Some(q.serial) && !q.retry && NewToken(g, q.addr).Some? {
      var token := NewToken(g, q.addr).value;
      NewTokenAvailable(g, q.addr);
      RestartedHandling(g, k, token);
      var r := Restarted(q, token);
      var h := Cancel(Cancel(Put(TakeToken(g, token), k, r), TxComeback, r.serial), QueryTimeout, r.serial);
      TxInitialReqInv(h, k, txOk);
      assert Retry(g, k, txOk) == TxInitialReq(h, k, txOk);
    }
  }

  lemma ExpiredHandling(g: Gas, timer: Timer)
    requires Inv(g) && timer in g.timers
    ensures var h := g.(timers := g.timers - multiset{timer});
      var k := Find(h, timer.serial);
      && k < |h.pending| && Handling(h, k) && QueryOk(h.pending[k], true)
  {
    assert g.work == Some(timer.serial);
    CurrentHandling(g, timer.serial);
    var k := Find(g, timer.serial);
    var h := g.(timers := g.timers - multiset{timer});
    assert Timers(h) by {
      forall t: Timer ensures h.timers[t] <= 1 && (t in h.timers ==> h.work == Some(t.serial)) {
        assert g.timers[t] <= 1 && (t in g.timers ==> g.work == Some(t.serial));
      }
    }
    TimersHandling(g, h, k);
    assert Serials(h.pending) == Serials(g.pending);
  }

  lemma FireInv(g: Gas, timer: Timer, txOk: bool)
    requires Inv(g) && timer in g.timers
    ensures Inv(Fire(g, timer, txOk))
  {
    ExpiredHandling(g, timer);
    var h := g.(timers := g.timers - multiset{timer});
    var k := Find(h, timer.serial);
    hide Inv, Handling, QueryOk;
    match timer.kind {
      case TxComeback => TxComebackReqInv(h, k, txOk);
      case QueryTimeout => DoneInv(h, k, Timeout);
      case RxComeback => RetryInv(h, k, txOk);
    }
  }
}
