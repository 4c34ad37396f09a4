/** Which queries end with a response that mixes the octets of two exchanges. */
module GasDelivery {
  import opened Collections
  import opened GasModel
  import opened GasInvariants
  import opened GasRuns
  import opened GasSafety
  import opened GasCore

  /** The comeback response of the query being served is overdue, and the query, which holds
      octets already, is started over with another token. */
  predicate SpoilingRetry(g: Gas, ev: Event) {
    && ev.EvFire? && ev.timer.kind == RxComeback && g.current == Some(ev.timer.serial)
    && var k := Find(g, ev.timer.serial);
      k < |g.pending| && !g.pending[k].retry && NewToken(g, g.pending[k].addr).Some? && g.pending[k].resp != []
  }

  /** The queries that are started over in a run while they hold octets. */
  ghost function Spoiled(g: Gas, run: seq<Event>): set<nat>
    requires Feasible(g, run)
    decreases |run|
  {
    if run == [] then {}
    else (if SpoilingRetry(g, run[0]) then {run[0].timer.serial} else {}) + Spoiled(Step(g, run[0]), run[1..])
  }

  predicate Marks(q: Query, spoiled: set<nat>) {
    q.base != [] <==> q.serial in spoiled
  }

  /** Just the queries of the set hold octets from before a retry. */
  ghost predicate Marked(g: Gas, spoiled: set<nat>) {
    && (forall i | 0 <= i < |g.pending| :: Marks(g.pending[i], spoiled))
    && (forall i | 0 <= i < |g.calls| :: Marks(g.calls[i].query, spoiled))
    && (forall s | s in spoiled :: s < g.nextSerial)
  }

  // --- steps that keep the marks ---------------------------------------------

  lemma SameMarks(g: Gas, h: Gas, m: set<nat>)
    requires Marked(g, m) && h.pending == g.pending && h.calls == g.calls && h.nextSerial == g.nextSerial
    ensures Marked(h, m)
  {
  }

  lemma PutMarks(g: Gas, k: nat, q: Query, m: set<nat>)
    requires Marked(g, m) && k < |g.pending| && q.serial == g.pending[k].serial && q.base == g.pending[k].base
    ensures Marked(Put(g, k, q), m)
  {
    assert Marks(g.pending[k], m);
    hide Marks;
    assert Marks(q, m) by { SameMark(g.pending[k], q, m); }
  }

  lemma SameMark(q: Query, r: Query, m: set<nat>)
    requires q.serial == r.serial && q.base == r.base
    ensures Marks(q, m) <==> Marks(r, m)
  {
  }

  lemma RemovedMarks(p: seq<Query>, k: nat, m: set<nat>)
    requires k < |p| && forall i | 0 <= i < |p| :: Marks(p[i], m)
    ensures forall i | 0 <= i < |RemoveAt(p, k)| :: Marks(RemoveAt(p, k)[i], m)
  {
    hide Marks;
    forall i | 0 <= i < |RemoveAt(p, k)| ensures Marks(RemoveAt(p, k)[i], m) {
      assert RemoveAt(p, k)[i] == p[if i < k then i else i + 1];
    }
  }

  lemma DoneMarks(g: Gas, k: nat, result: Result, m: set<nat>)
    requires Marked(g, m) && k < |g.pending|
    ensures Marked(Done(g, k, result), m)
  {
    RemovedMarks(g.pending, k, m);
    var h := Done(g, k, result);
    assert h.calls == g.calls + [Call(g.pending[k], result)] && h.pending == RemoveAt(g.pending, k);
    hide Marks, Done, RemoveAt;
  }

  lemma FreeMarks(g: Gas, k: nat, m: set<nat>)
    requires Marked(g, m) && k < |g.pending|
    ensures Marked(Free(g, k), m)
  {
    RemovedMarks(g.pending, k, m);
    assert Free(g, k).pending == RemoveAt(g.pending, k) && Free(g, k).calls == g.calls;
    hide Marks, Free, RemoveAt;
  }

  lemma TxComebackReqMarks(g: Gas, k: nat, txOk: bool, m: set<nat>)
    requires Marked(g, m) && k < |g.pending|
    ensures Marked(TxComebackReq(g, k, txOk), m)
  {
    hide Marked, Done;
    PutMarks(g, k, g.pending[k].(offchannel := true), m);
    DoneMarks(g, k, InternalError, m);
  }

  lemma TxInitialReqMarks(g: Gas, k: nat, txOk: bool, m: set<nat>)
    requires Marked(g, m) && k < |g.pending|
    ensures Marked(TxInitialReq(g, k, txOk), m)
  {
    hide Marked, Done;
    var q := g.pending[k].(offchannel := true);
    PutMarks(g, k, q, m);
    if txOk { SameMarks(Put(g, k, q), TxInitialReq(g, k, txOk), m); } else { DoneMarks(g, k, InternalError, m); }
  }

  lemma DelayComebackMarks(g: Gas, k: nat, delay: nat, m: set<nat>)
    requires Marked(g, m) && k < |g.pending|
    ensures Marked(DelayComeback(g, k, delay), m)
  {
    hide Marked;
    var q := g.pending[k];
    var r := q.(offchannel := false);
    PutMarks(g, k, r, m);
    SameMarks(if delay > 1 && q.offchannel then Put(g, k, r) else g, DelayComeback(g, k, delay), m);
  }

  lemma TxStatusMarks(g: Gas, dst: Addr, result: TxResult, m: set<nat>)
    requires Marked(g, m)
    ensures Marked(TxStatus(g, dst, result), m)
  {
    hide Marked;
    SameMarks(g, TxStatus(g, dst, result), m);
  }

  lemma RxInitialMarks(g: Gas, k: nat, f: Frame, m: set<nat>)
    requires Marked(g, m) && k < |g.pending|
    ensures Marked(RxInitial(g, k, f), m)
  {
    hide Marked, Done, DelayComeback;
    var q := g.pending[k].(adv := Some(f.adv));
    if f.delay > 0 {
      var r := q.(waitComeback := true);
      PutMarks(g, k, r, m);
      DelayComebackMarks(Put(g, k, r), k, f.delay, m);
    } else {
      var r := Append(q, 0, f.data);
      PutMarks(g, k, r, m);
      DoneMarks(Put(g, k, r), k, Success, m);
    }
  }

  lemma RxComebackMarks(g: Gas, k: nat, f: Frame, txOk: bool, m: set<nat>)
    requires Marked(g, m) && k < |g.pending|
    ensures Marked(RxComebackResp(g, k, f, txOk), m)
  {
    hide Marked, Done, DelayComeback, TxComebackReq;
    var q := g.pending[k];
    var h := Cancel(g, RxComeback, q.serial);
    SameMarks(g, h, m);
    SameMarks(g, Fault(h), m);
    DoneMarks(h, k, PeerError, m);
    if f.delay > 0 {
      DelayComebackMarks(h, k, f.delay, m);
    } else {
      var r := Append(q.(nextFrag := (q.nextFrag + 1) % 256), f.fragId, f.data);
      PutMarks(h, k, r, m);
      TxComebackReqMarks(Put(h, k, r), k, txOk, m);
      DoneMarks(Put(h, k, r), k, Success, m);
    }
  }

  lemma HandleMarks(g: Gas, k: nat, data: seq<Byte>, txOk: bool, m: set<nat>)
    requires Marked(g, m) && k < |g.pending| && |data| >= 4
    ensures Marked(Handle(g, k, data, txOk), m)
  {
    hide Marked, Done, RxInitial, RxComebackResp, ParseFrame;
    var q := g.pending[k].(status := LittleEndian16(data, 2));
    var h := Put(g, k, q);
    PutMarks(g, k, q, m);
    DoneMarks(h, k, Failure, m);
    if ParseFrame(data).Some? {
      RxInitialMarks(h, k, ParseFrame(data).value, m);
      RxComebackMarks(h, k, ParseFrame(data).value, txOk, m);
    }
  }

  lemma RxMarks(g: Gas, sa: Addr, prot: bool, pmf: bool, data: seq<Byte>, txOk: bool, m: set<nat>)
    requires Marked(g, m)
    ensures Marked(Rx(g, sa, prot, pmf, data, txOk), m)
  {
    hide Marked;
    var k := Match(g, sa, prot, pmf, data);
    if k < |g.pending| { HandleMarks(g, k, data, txOk, m); }
  }

  lemma RequestMarks(g: Gas, dst: Addr, req: seq<Byte>, addOk: bool, m: set<nat>)
    requires Marked(g, m)
    ensures Marked(Request(g, dst, req, addOk), m)
  {
    hide NewToken;
    var h := Request(g, dst, req, addOk);
    if h.nextSerial > g.nextSerial {
      assert Marks(h.pending[0], m);
      assert forall i | 1 <= i < |h.pending| :: h.pending[i] == g.pending[i - 1];
    }
  }

  lemma StartMarks(g: Gas, w: nat, addrOk: bool, txOk: bool, m: set<nat>)
    requires Marked(g, m) && w < |g.radio|
    ensures Marked(Start(g, w, addrOk, txOk), m)
  {
    hide Marked, TxInitialReq, Free;
    var s := g.radio[w].serial;
    var h := g.(radio := g.radio[w := Work(s, true)]);
    var k := Find(h, s);
    SameMarks(g, h, m);
    if k == |h.pending| {
      SameMarks(g, Fault(h), m);
    } else if addrOk {
      SameMarks(g, h.(work := Some(s)), m);
      TxInitialReqMarks(h.(work := Some(s)), k, txOk, m);
    } else {
      FreeMarks(h, k, m);
      SameMarks(Free(h, k), Start(g, w, addrOk, txOk), m);
    }
  }

  lemma RemoveMarks(g: Gas, w: nat, m: set<nat>)
    requires Marked(g, m) && w < |g.radio|
    ensures Marked(Remove(g, w), m)
  {
    hide Marked, Done, Free;
    var s := g.radio[w].serial;
    var k := Find(g, s);
    if k == |g.pending| {
      SameMarks(g, Fault(g), m);
    } else {
      SameMarks(g, g.(work := None), m);
      DoneMarks(g.(work := None), k, DeletedAtDeinit, m);
      FreeMarks(g, k, m);
      SameMarks(if g.radio[w].started then Done(g.(work := None), k, DeletedAtDeinit) else Free(g, k), Remove(g, w), m);
    }
  }

  lemma {:induction false} DeinitMarks(g: Gas, m: set<nat>)
    requires Marked(g, m)
    ensures Marked(Deinit(g), m)
    decreases |g.pending|
  {
    hide Marked;
    if g.pending != [] {
      DoneMarks(g, 0, DeletedAtDeinit, m);
      DeinitMarks(Done(g, 0, DeletedAtDeinit), m);
    }
  }

  // --- the retry -------------------------------------------------------------

  lemma PendingUnanswered(g: Gas, k: nat, i: nat)
    requires Accounted(g) && k < |g.pending| && i < |g.calls|
    ensures g.calls[i].query.serial != g.pending[k].serial
  {
    var s := g.pending[k].serial;
    assert Serials(g.pending)[k] == s;
    assert Occurrences(g, s) == if s < g.nextSerial then 1 else 0;
    assert Served(g.calls)[i] == g.calls[i].query.serial;
    assert multiset(Served(g.calls))[Served(g.calls)[i]] >= 1;
  }

  lemma PendingIssued(g: Gas, k: nat)
    requires Accounted(g) && k < |g.pending|
    ensures g.pending[k].serial < g.nextSerial
  {
    var s := g.pending[k].serial;
    assert Serials(g.pending)[k] == s;
    assert Occurrences(g, s) == if s < g.nextSerial then 1 else 0;
  }

  lemma OtherMark(q: Query, s: nat, m: set<nat>)
    requires q.serial != s && Marks(q, m)
    ensures Marks(q, m + {s})
  {
  }

  /** The query in hand is restarted: its mark follows from the octets it held. */
  lemma RestartMarks(g: Gas, k: nat, token: Byte, m: set<nat>)
    requires Keys(g.pending) && Accounted(g) && k < |g.pending| && QueryOk(g.pending[k], true) && Marked(g, m)
    ensures var q := g.pending[k];
      Marked(Put(g, k, Restarted(q, token)), if q.resp != [] then m + {q.serial} else m)
  {
    var q := g.pending[k];
    var r := Restarted(q, token);
    var h := Put(g, k, r);
    var n := if q.resp != [] then m + {q.serial} else m;
    PendingIssued(g, k);
    RestartedMark(q, token, m);
    hide Marks, Accounted, QueryOk;
    forall i | 0 <= i < |h.pending| ensures Marks(h.pending[i], n) {
      if i != k {
        assert Marks(g.pending[i], m);
        OtherMark(g.pending[i], q.serial, m);
      }
    }
    forall i | 0 <= i < |h.calls| ensures Marks(h.calls[i].query, n) {
      PendingUnanswered(g, k, i);
      assert Marks(g.calls[i].query, m);
      OtherMark(g.calls[i].query, q.serial, m);
    }
  }

  lemma RestartedMark(q: Query, token: Byte, m: set<nat>)
    requires QueryOk(q, true) && Marks(q, m)
    ensures Marks(Restarted(q, token), if q.resp != [] then m + {q.serial} else m)
  {
  }

  lemma RetryMarks(g: Gas, k: nat, txOk: bool, m: set<nat>)
    requires Core(g, -1) && k < |g.pending| && Marked(g, m)
    ensures var q := g.pending[k];
      Marked(Retry(g, k, txOk),
             if g.current == Some(q.serial) && !q.retry && NewToken(g, q.addr).Some? && q.resp != []
             then m + {q.serial} else m)
  {
    hide NewToken, Marked, QueryOk;
    var q := g.pending[k];
    if g.current == Some(q.serial) && !q.retry && NewToken(g, q.addr).Some? {
      var token := NewToken(g, q.addr).value;
      var n := if q.resp != [] then m + {q.serial} else m;
      assert QueryOk(q, true);
      RestartMarks(g, k, token, m);
      hide TxInitialReq, Core;
      var p := Put(TakeToken(g, token), k, Restarted(q, token));
      var h := Cancel(Cancel(p, TxComeback, q.serial), QueryTimeout, q.serial);
      SameMarks(Put(g, k, Restarted(q, token)), h, n);
      TxInitialReqMarks(h, k, txOk, n);
      assert Retry(g, k, txOk) == TxInitialReq(h, k, txOk);
    }
  }

  lemma FireMarks(g: Gas, timer: Timer, txOk: bool, m: set<nat>)
    requires Core(g, -1) && timer in g.timers && Marked(g, m)
    ensures Marked(Fire(g, timer, txOk), if SpoilingRetry(g, EvFire(timer, txOk)) then m + {timer.serial} else m)
  {
    hide Core, Marked, TxComebackReq, Done, Retry;
    var h := g.(timers := g.timers - multiset{timer});
    var k := Find(h, timer.serial);
    assert k == Find(g, timer.serial);
    SameCore(g, h, -1);
    SameMarks(g, h, m);
    if k == |h.pending| {
      SameMarks(h, Fault(h), m);
    } else {
      match timer.kind {
        case TxComeback => TxComebackReqMarks(h, k, txOk, m);
        case QueryTimeout => DoneMarks(h, k, Timeout, m);
        case RxComeback =>
          RetryMarks(h, k, txOk, m);
          assert NewToken(h, h.pending[k].addr) == NewToken(g, g.pending[k].addr);
      }
    }
  }

  // --- runs ------------------------------------------------------------------

  lemma StepMarks(g: Gas, ev: Event, m: set<nat>)
    requires Core(g, -1) && Enabled(g, ev) && Marked(g, m)
    ensures Marked(Step(g, ev), if SpoilingRetry(g, ev) then m + {ev.timer.serial} else m)
  {
    hide Core, Marked, SpoilingRetry, AnyStarted, Request, Start, Remove, Rx, TxStatus, Fire, Deinit;
    NotSpoiling(g, ev);
    match ev
    case EvRequest(dst, req, addOk) => RequestMarks(g, dst, req, addOk, m);
    case EvStart(s, addrOk, txOk) => StartMarks(g, IndexOf(g.radio, Work(s, false)), addrOk, txOk, m);
    case EvRemove(s) => RemoveMarks(g, IndexOf(Contexts(g.radio), s), m);
    case EvRx(sa, prot, pmf, data, txOk) => RxMarks(g, sa, prot, pmf, data, txOk, m);
    case EvTxStatus(dst, result) => TxStatusMarks(g, dst, result, m);
    case EvFire(timer, txOk) => FireMarks(g, timer, txOk, m);
    case EvDeinit => DeinitMarks(g, m);
  }

  lemma NotSpoiling(g: Gas, ev: Event)
    ensures SpoilingRetry(g, ev) ==> ev.EvFire?
  {
  }

  lemma {:induction false} RunMarks(g: Gas, run: seq<Event>, m: set<nat>)
    requires Core(g, -1) && Feasible(g, run) && Marked(g, m)
    ensures Marked(Run(g, run), m + Spoiled(g, run))
    decreases |run|
  {
    hide Core, Enabled, Step, Marked, SpoilingRetry;
    if run == [] {
      assert m + {} == m;
    } else {
      var h := Step(g, run[0]);
      NotSpoiling(g, run[0]);
      var n := if SpoilingRetry(g, run[0]) then m + {run[0].timer.serial} else m;
      StepMarks(g, run[0], m);
      StepCore(g, run[0]);
      RunMarks(h, run[1..], n);
      assert n + Spoiled(h, run[1..]) == m + Spoiled(g, run);
    }
  }

  /** A SUCCESS gives the caller just the fragments of the last exchange if and only if the
      query was never started over while it held octets. */
  lemma SuccessUnspoiledIff(run: seq<Event>, c: Call)
    requires Feasible(Init(), run)
    requires c in Run(Init(), run).calls && c.result == Success
    ensures c.query.resp == Concat(c.query.frags) <==> c.query.serial !in Spoiled(Init(), run)
  {
    InitCore();
    assert Marked(Init(), {});
    RunMarks(Init(), run, {});
    assert {} + Spoiled(Init(), run) == Spoiled(Init(), run);
    SuccessDelivers(run, c);
    var q := c.query;
    assert Marks(q, Spoiled(Init(), run));
    if q.base != [] { assert |q.resp| > |Concat(q.frags)|; }
  }
}
