/** Safety of whole runs of the GAS query component, and exactly when a step gives it up. */
module GasSafety {
  import opened Collections
  import opened GasModel
  import opened GasInvariants
  import opened GasRuns

  // --- responses -------------------------------------------------------------

  lemma AssembledAppend(q: Query, id: nat, data: seq<Byte>)
    requires Assembled(q) && id == |q.frags| < 128
    ensures Assembled(Append(q, id, data))
  {
    var r := Append(q, id, data);
    assert r.frags[..|r.frags| - 1] == q.frags;
  }

  lemma CompleteInv(g: Gas, k: nat, q: Query)
    requires Handling(g, k) && Compatible(g, k, q) && Assembled(q) && q.frags != []
    ensures Inv(Done(Put(g, k, q), k, Success))
  {
    PutHandling(g, k, q);
    DoneInv(Put(g, k, q), k, Success);
  }

  lemma RxInitialInv(g: Gas, k: nat, f: Frame)
    requires k < |g.pending|
    requires Handling(g, k) && QueryOk(g.pending[k], true) && !g.pending[k].waitComeback
    ensures Inv(RxInitial(g, k, f))
  {
    hide Inv, Handling, Done, DelayComeback;
    var q := g.pending[k].(adv := Some(f.adv));
    if f.delay > 0 {
      var r := q.(waitComeback := true);
      PutHandling(g, k, r);
      DelayComebackInv(Put(g, k, r), k, f.delay);
    } else {
      AssembledAppend(q, 0, f.data);
      CompleteInv(g, k, Append(q, 0, f.data));
    }
  }

  lemma AcceptedOk(q: Query, id: nat, data: seq<Byte>)
    requires QueryOk(q, true) && q.waitComeback && id == q.nextFrag < 128
    ensures var u := Append(q.(nextFrag := (q.nextFrag + 1) % 256), id, data);
      QueryOk(u, true) && Assembled(u) && u.frags != []
  {
    AssembledAppend(q, id, data);
  }

  lemma RxComebackInv(g: Gas, k: nat, f: Frame, txOk: bool)
    requires k < |g.pending|
    requires Handling(g, k) && QueryOk(g.pending[k], true) && g.pending[k].waitComeback && f.fragId < 128
    ensures Inv(RxComebackResp(g, k, f, txOk))
  {
    var q := g.pending[k];
    var h := Cancel(g, RxComeback, q.serial);
    assert q.adv.Some?;
    CancelHandling(g, k, RxComeback);
    hide Inv, Handling, Done, DelayComeback, QueryOk, TxComebackReq;
    if f.adv != q.adv.value {
      DoneInv(h, k, PeerError);
    } else if f.delay > 0 {
      if f.fragId != 0 { DoneInv(h, k, PeerError); } else { DelayComebackInv(h, k, f.delay); }
    } else if f.fragId != q.nextFrag {
      if f.fragId + 1 == q.nextFrag { Finish(h, k); } else { DoneInv(h, k, PeerError); }
    } else {
      var u := Append(q.(nextFrag := (q.nextFrag + 1) % 256), f.fragId, f.data);
      AcceptedOk(q, f.fragId, f.data);
      if f.more {
        PutHandling(h, k, u);
        TxComebackReqInv(Put(h, k, u), k, txOk);
      } else {
        CompleteInv(h, k, u);
      }
    }
  }

  lemma StatusOk(q: Query, status: nat, started: bool)
    requires QueryOk(q, started)
    ensures QueryOk(q.(status := status), started)
  {
  }

  /** The query answered by a frame is being served, or the frame is without effect on it. */
  ghost predicate Timely(g: Gas, k: nat, data: seq<Byte>)
    requires k < |g.pending| && |data| >= 4
  {
    || g.work == Some(g.pending[k].serial)
    || data[0] == COMEBACK_RESP
    || (LittleEndian16(data, 2) == STATUS_SUCCESS && ParseFrame(data).None?)
  }

  lemma UnstartedWaits(g: Gas, k: nat)
    requires Inv(g) && k < |g.pending| && g.work != Some(g.pending[k].serial)
    ensures !g.pending[k].waitComeback
  {
  }

  lemma HandleInv(g: Gas, k: nat, data: seq<Byte>, txOk: bool)
    requires k < |g.pending| && |data| >= 4 && Inv(g) && Timely(g, k, data)
    requires data[0] == INITIAL_RESP || data[0] == COMEBACK_RESP
    ensures Inv(Handle(g, k, data, txOk))
  {
    var q := g.pending[k];
    var status := LittleEndian16(data, 2);
    var h := Put(g, k, q.(status := status));
    StatusOk(q, status, g.work == Some(q.serial));
    PutInv(g, k, q.(status := status));
    if g.work == Some(q.serial) {
      Begin(h, k);
      hide Inv, Handling, QueryOk, RxComebackResp, RxInitial, Done, Delivered, ParseFrame;
      DoneInv(h, k, Failure) by { DeliveredFailure(h.pending[k]); }
      if ParseFrame(data).Some? {
        var f := ParseFrame(data).value;
        if q.waitComeback { RxComebackInv(h, k, f, txOk); } else { RxInitialInv(h, k, f); }
      }
    } else {
      UnstartedWaits(g, k);
    }
  }

  lemma DeliveredFailure(q: Query)
    ensures Delivered(Call(q, Failure))
  {
  }

  /** The pending query that gas_query_rx finds for a frame; |pending| when it handles none. */
  function Match(g: Gas, sa: Addr, prot: bool, pmf: bool, data: seq<Byte>): (k: nat)
    ensures k <= |g.pending|
    ensures k < |g.pending| ==> |data| >= 4 && (data[0] == INITIAL_RESP || data[0] == COMEBACK_RESP)
  {
    if |data| < 4 || (data[0] != INITIAL_RESP && data[0] != COMEBACK_RESP) || prot != pmf then |g.pending|
    else GetPending(g.pending, sa, data[1])
  }

  /** A frame finishes, or starts the comeback of, a query whose request was not sent yet. */
  ghost predicate EarlyAnswer(g: Gas, sa: Addr, prot: bool, pmf: bool, data: seq<Byte>) {
    var k := Match(g, sa, prot, pmf, data);
    k < |g.pending| && !Timely(g, k, data)
  }

  lemma RxInv(g: Gas, sa: Addr, prot: bool, pmf: bool, data: seq<Byte>, txOk: bool)
    requires Inv(g) && !EarlyAnswer(g, sa, prot, pmf, data)
    ensures Inv(Rx(g, sa, prot, pmf, data, txOk))
  {
    var k := Match(g, sa, prot, pmf, data);
    if k < |g.pending| { HandleInv(g, k, data, txOk); }
  }

  // --- deinit ----------------------------------------------------------------

  ghost predicate SomeQueued(g: Gas) {
    exists w :: 0 <= w < |g.radio| && !g.radio[w].started
  }

  lemma AllServed(g: Gas)
    requires Inv(g) && !SomeQueued(g) && g.pending != []
    ensures Handling(g, 0) && QueryOk(g.pending[0], true)
    ensures !SomeQueued(Done(g, 0, DeletedAtDeinit))
  {
    var s := g.pending[0].serial;
    assert IsPending(g, s);
    var w :| 0 <= w < |g.radio| && g.radio[w].serial == s;
    assert g.radio[w].started;
    Begin(g, 0);
    DropWorkIs(g.radio, w);
  }

  lemma {:induction false} DeinitInv(g: Gas)
    requires Inv(g) && !SomeQueued(g)
    ensures Inv(Deinit(g)) && Deinit(g).pending == [] && Deinit(g).radio == [] && Deinit(g).timers == multiset{}
    decreases |g.pending|
  {
    if g.pending == [] {
      if g.radio != [] { assert HasWork(g, g.radio[0].serial); assert false; }
      NothingStarted(g);
    } else {
      AllServed(g);
      DoneInv(g, 0, DeletedAtDeinit);
      DeinitInv(Done(g, 0, DeletedAtDeinit));
    }
  }

  // --- steps and runs --------------------------------------------------------

  /** The steps that the component does not survive: an answer to a request not yet sent, and
      gas_query_deinit while radio work is still queued. */
  ghost predicate Hazard(g: Gas, ev: Event) {
    match ev
    case EvRx(sa, prot, pmf, data, _) => EarlyAnswer(g, sa, prot, pmf, data)
    case EvDeinit => SomeQueued(g)
    case _ => false
  }

  lemma StepInv(g: Gas, ev: Event)
    requires Inv(g) && Enabled(g, ev) && !Hazard(g, ev)
    ensures Inv(Step(g, ev))
  {
    hide Inv, EarlyAnswer, SomeQueued, AnyStarted, Request, Start, Remove, Rx, TxStatus, Fire, Deinit;
    match ev
    case EvRequest(dst, req, addOk) => RequestInv(g, dst, req, addOk);
    case EvStart(s, addrOk, txOk) => StartInv(g, IndexOf(g.radio, Work(s, false)), addrOk, txOk);
    case EvRemove(s) => RemoveInv(g, IndexOf(Contexts(g.radio), s));
    case EvRx(sa, prot, pmf, data, txOk) => RxInv(g, sa, prot, pmf, data, txOk);
    case EvTxStatus(dst, result) => TxStatusInv(g, dst, result);
    case EvFire(timer, txOk) => FireInv(g, timer, txOk);
    case EvDeinit => DeinitInv(g);
  }

  ghost predicate Feasible(g: Gas, run: seq<Event>)
    decreases |run|
  {
    run == [] || (Enabled(g, run[0]) && Feasible(Step(g, run[0]), run[1..]))
  }

  ghost function Run(g: Gas, run: seq<Event>): Gas
    requires Feasible(g, run)
    decreases |run|
  {
    if run == [] then g else Run(Step(g, run[0]), run[1..])
  }

  ghost predicate Harmless(g: Gas, run: seq<Event>)
    requires Feasible(g, run)
    decreases |run|
  {
    run == [] || (!Hazard(g, run[0]) && Harmless(Step(g, run[0]), run[1..]))
  }

  lemma {:induction false} RunInv(g: Gas, run: seq<Event>)
    requires Inv(g) && Feasible(g, run) && Harmless(g, run)
    ensures Inv(Run(g, run))
    decreases |run|
  {
    hide Inv, Enabled, Hazard, Step;
    if run != [] {
      StepInv(g, run[0]);
      RunInv(Step(g, run[0]), run[1..]);
    }
  }

  // --- what a hazard leads to ------------------------------------------------

  lemma QueuedWork(g: Gas, k: nat)
    requires Inv(g) && k < |g.pending| && g.work != Some(g.pending[k].serial)
    ensures Work(g.pending[k].serial, false) in g.radio
  {
    var s := g.pending[k].serial;
    assert IsPending(g, s);
    var w :| 0 <= w < |g.radio| && g.radio[w].serial == s;
  }

  lemma GoneIsUnfindable(g: Gas, h: Gas, k: nat)
    requires Keys(g.pending) && k < |g.pending| && h.pending == RemoveAt(g.pending, k)
    ensures Find(h, g.pending[k].serial) == |h.pending|
  {
    RemovedPending(g, h, k);
    var s := g.pending[k].serial;
    if Find(h, s) < |h.pending| { assert IsPending(h, s); assert false; }
  }

  lemma WorkContext(radio: seq<Work>, s: nat)
    requires Work(s, false) in radio
    ensures s in Contexts(radio)
  {
    var w :| 0 <= w < |radio| && radio[w] == Work(s, false);
    assert Contexts(radio)[w] == s;
  }

  /** The work of a query that is gone cannot be removed any more without using freed memory. */
  lemma OrphanFaults(h: Gas, s: nat)
    requires Work(s, false) in h.radio && Find(h, s) == |h.pending|
    ensures Enabled(h, EvRemove(s)) && Step(h, EvRemove(s)).fault
  {
    WorkContext(h.radio, s);
  }

  lemma EarlyEffect(g: Gas, k: nat, data: seq<Byte>, txOk: bool)
    requires k < |g.pending| && |data| >= 4 && Inv(g) && !Timely(g, k, data)
    requires data[0] == INITIAL_RESP || data[0] == COMEBACK_RESP
    ensures var h := Handle(g, k, data, txOk); var s := g.pending[k].serial;
      && h.radio == g.radio && h.work == g.work
      && (|| h.pending == RemoveAt(g.pending, k)
          || (|h.pending| == |g.pending| && Timer(TxComeback, s) in h.timers
              && Keys(h.pending) && IsPending(h, s)))
  {
    UnstartedWaits(g, k);
    hide Inv, ParseFrame;
    var q := g.pending[k];
    var h := Put(g, k, q.(status := LittleEndian16(data, 2)));
    assert RemoveAt(h.pending, k) == RemoveAt(g.pending, k);
    if LittleEndian16(data, 2) == STATUS_SUCCESS {
      var f := ParseFrame(data).value;
      var u := h.pending[k].(adv := Some(f.adv));
      assert RemoveAt(Put(h, k, Append(u, 0, f.data)).pending, k) == RemoveAt(g.pending, k);
      if f.delay > 0 {
        InvDistinctWork(g);
        var e := Handle(g, k, data, txOk);
        assert e.pending[k].serial == q.serial;
        assert Keys(e.pending);
      }
    }
  }

  /** A query with a comeback timer whose work is still queued: removing the work frees the
      query, and the timer then expires for a freed structure. */
  lemma StaleTimerFaults(g: Gas, h: Gas, s: nat)
    requires Keys(h.pending) && DistinctWork(h.radio) && Work(s, false) in h.radio && h.work != Some(s)
    requires IsPending(h, s) && Timer(TxComeback, s) in h.timers
    ensures Enabled(h, EvRemove(s))
    ensures var r := Step(h, EvRemove(s)); var t := EvFire(Timer(TxComeback, s), true);
      Enabled(r, t) && Step(r, t).fault
  {
    WorkContext(h.radio, s);
    FindPending(h, s);
    var w := IndexOf(Contexts(h.radio), s);
    var v :| 0 <= v < |h.radio| && h.radio[v] == Work(s, false);
    assert w == v;
    var k := Find(h, s);
    var f := Free(h, k);
    GoneIsUnfindable(h, f, k);
    var r := Step(h, EvRemove(s));
    assert r == f.(radio := DropWork(f.radio, s));
    assert Serials(r.pending) == Serials(f.pending);
  }

  /** The events that bring a hazard's fault to light: the radio removes the queued work, and
      then perhaps the comeback timer expires. */
  function Doom(s: nat, timer: bool): seq<Event> {
    if timer then [EvRemove(s), EvFire(Timer(TxComeback, s), true)] else [EvRemove(s)]
  }

  ghost predicate Doomed(h: Gas) {
    exists s: nat, timer: bool :: Feasible(h, Doom(s, timer)) && Run(h, Doom(s, timer)).fault
  }

  lemma DoomOne(h: Gas, s: nat)
    requires Enabled(h, EvRemove(s)) && Step(h, EvRemove(s)).fault
    ensures Doomed(h)
  {
    var run := Doom(s, false);
    var r := Step(h, run[0]);
    assert run[1..] == [];
    assert Feasible(r, []) && Run(r, []) == r;
    assert Feasible(h, run) && Run(h, run).fault;
  }

  lemma DoomTwo(h: Gas, s: nat)
    requires Enabled(h, EvRemove(s))
    requires var r := Step(h, EvRemove(s)); var t := EvFire(Timer(TxComeback, s), true);
      Enabled(r, t) && Step(r, t).fault
    ensures Doomed(h)
  {
    hide Step, Enabled;
    var run := Doom(s, true);
    var r := Step(h, run[0]);
    var e := Step(r, run[1]);
    assert run[1..][1..] == [];
    assert Feasible(e, []) && Run(e, []) == e;
    assert run[1..][0] == run[1];
    assert Feasible(r, run[1..]) && Run(r, run[1..]) == e;
    assert Feasible(h, run) && Run(h, run).fault;
  }

  lemma EarlyAnswerDooms(g: Gas, ev: Event)
    requires Inv(g) && ev.EvRx? && Hazard(g, ev)
    ensures Doomed(Step(g, ev))
  {
    var k := Match(g, ev.sa, ev.prot, ev.pmf, ev.data);
    var h := Handle(g, k, ev.data, ev.txOk);
    assert Step(g, ev) == h;
    var s := g.pending[k].serial;
    EarlyEffect(g, k, ev.data, ev.txOk);
    QueuedWork(g, k);
    InvDistinctWork(g);
    hide Inv, Handle, Doomed, Step, Enabled, Timely;
    if h.pending == RemoveAt(g.pending, k) {
      GoneIsUnfindable(g, h, k);
      OrphanFaults(h, s);
      DoomOne(h, s);
    } else {
      StaleTimerFaults(g, h, s);
      DoomTwo(h, s);
    }
  }

  lemma DoneKeepsQueued(g: Gas, k: nat, result: Result, s: nat)
    requires k < |g.pending| && DistinctWork(g.radio) && Work(s, false) in g.radio && g.work != Some(s)
    ensures var h := Done(g, k, result);
      DistinctWork(h.radio) && Work(s, false) in h.radio && h.work != Some(s)
  {
    DoneParts(g, k, result);
    DropKeeps(g.radio, g.pending[k].serial, Work(s, false));
    hide Done, DropWork, DistinctWork;
  }

  lemma DropKeeps(radio: seq<Work>, t: nat, w: Work)
    requires DistinctWork(radio) && w in radio
    ensures DistinctWork(DropWork(radio, t)) && (w.serial != t ==> w in DropWork(radio, t))
  {
    var k := IndexOf(Contexts(radio), t);
    if k < |radio| {
      var v :| 0 <= v < |radio| && radio[v] == w;
      assert Contexts(radio)[k] == t;
      if w.serial != t { assert RemoveAt(radio, k)[if v < k then v else v - 1] == w; }
    }
  }

  lemma {:induction false} DeinitKeepsQueued(g: Gas, s: nat)
    requires DistinctWork(g.radio) && Work(s, false) in g.radio && g.work != Some(s)
    ensures Deinit(g).pending == [] && Work(s, false) in Deinit(g).radio
    decreases |g.pending|
  {
    if g.pending != [] {
      hide DistinctWork;
      DoneKeepsQueued(g, 0, DeletedAtDeinit, s);
      DeinitKeepsQueued(Done(g, 0, DeletedAtDeinit), s);
    }
  }

  lemma DeinitDooms(g: Gas)
    requires Inv(g) && SomeQueued(g)
    ensures Doomed(Deinit(g))
  {
    var w :| 0 <= w < |g.radio| && !g.radio[w].started;
    var s := g.radio[w].serial;
    assert g.radio[w] == Work(s, false);
    QueuedNotCurrent(g, w);
    InvDistinctWork(g);
    DeinitKeepsQueued(g, s);
    hide Doomed;
    OrphanFaults(Deinit(g), s);
    DoomOne(Deinit(g), s);
  }

  lemma DoomedIsUnsafe(h: Gas)
    requires Doomed(h)
    ensures !Inv(h)
  {
    var s: nat, timer: bool :| Feasible(h, Doom(s, timer)) && Run(h, Doom(s, timer)).fault;
    if Inv(h) {
      DoomIsHarmless(h, s, timer);
      RunInv(h, Doom(s, timer));
      assert false;
    }
  }

  lemma DoomIsHarmless(h: Gas, s: nat, timer: bool)
    requires Feasible(h, Doom(s, timer))
    ensures Harmless(h, Doom(s, timer))
  {
    hide Step, Enabled;
    var run := Doom(s, timer);
    var r := Step(h, run[0]);
    if timer {
      assert run[1..][0] == run[1] && run[1..][1..] == [];
      assert Harmless(Step(r, run[1]), []);
      assert Harmless(r, run[1..]);
    } else {
      assert run[1..] == [];
      assert Harmless(r, []);
    }
  }

  /** A step keeps the invariant exactly when it is no hazard; after a hazard, removing the
      queued work (and perhaps one timer) uses freed memory. */
  lemma SafeStepIff(g: Gas, ev: Event)
    requires Inv(g) && Enabled(g, ev)
    ensures Inv(Step(g, ev)) <==> !Hazard(g, ev)
    ensures Hazard(g, ev) <==> Doomed(Step(g, ev))
  {
    hide Inv, EarlyAnswer, SomeQueued, Deinit, Doomed, Request, Start, Remove, Rx, TxStatus, Fire;
    if Hazard(g, ev) {
      if ev.EvRx? { EarlyAnswerDooms(g, ev); } else { DeinitDooms(g); }
      DoomedIsUnsafe(Step(g, ev));
    } else {
      StepInv(g, ev);
      if Doomed(Step(g, ev)) { DoomedIsUnsafe(Step(g, ev)); assert false; }
    }
  }

  // --- what holds in every harmless run --------------------------------------

  /** No freed structure is used, and no null buffer read. */
  lemma NeverFaults(run: seq<Event>)
    requires Feasible(Init(), run) && Harmless(Init(), run)
    ensures !Run(Init(), run).fault
  {
    InitInv();
    RunInv(Init(), run);
  }

  /** Each pending query has one radio work item and each work item one pending query; just the
      work of the current query has started. */
  lemma WorkForQuery(run: seq<Event>, s: nat)
    requires Feasible(Init(), run) && Harmless(Init(), run)
    ensures var g := Run(Init(), run);
      && (HasWork(g, s) <==> IsPending(g, s))
      && DistinctWork(g.radio)
      && (Work(s, true) in g.radio <==> g.current == Some(s))
  {
    InitInv();
    RunInv(Init(), run);
    var g := Run(Init(), run);
    assert Work(s, true) in g.radio ==> HasWork(g, s);
    assert g.current == Some(s) ==> HasWork(g, s);
  }

  /** Every timer belongs to the query being served, and none is registered twice. */
  lemma TimersOfCurrent(run: seq<Event>, t: Timer)
    requires Feasible(Init(), run) && Harmless(Init(), run)
    ensures var g := Run(Init(), run);
      g.timers[t] <= 1 && (t in g.timers ==> g.current == Some(t.serial) && IsPending(g, t.serial))
  {
    InitInv();
    RunInv(Init(), run);
  }
}
