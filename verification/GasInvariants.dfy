/** What every step of the GAS query component keeps. */
module GasInvariants {
  import opened Collections
  import opened GasModel

  // --- the invariant ---------------------------------------------------------

  /** Serial numbers, and pairs of address and dialog token, tell pending queries apart. */
  ghost predicate Keys(p: seq<Query>) {
    forall i, j | 0 <= i < j < |p| ::
      p[i].serial != p[j].serial && (p[i].addr != p[j].addr || p[i].token != p[j].token)
  }

  function Served(calls: seq<Call>): (r: seq<nat>)
    ensures |r| == |calls| && forall i | 0 <= i < |r| :: r[i] == calls[i].query.serial
  {
    seq(|calls|, i requires 0 <= i < |calls| => calls[i].query.serial)
  }

  function Occurrences(g: Gas, s: nat): nat {
    multiset(Serials(g.pending))[s] + multiset(Served(g.calls))[s] + multiset(g.dropped)[s]
  }

  /** Every accepted query is pending, was answered, or was dropped: exactly one of them, once. */
  ghost predicate Accounted(g: Gas) {
    forall s: nat :: Occurrences(g, s) == if s < g.nextSerial then 1 else 0
  }

  ghost predicate IsPending(g: Gas, s: nat) {
    exists i :: 0 <= i < |g.pending| && g.pending[i].serial == s
  }

  ghost predicate HasWork(g: Gas, s: nat) {
    exists i :: 0 <= i < |g.radio| && g.radio[i].serial == s
  }

  ghost predicate Radio(g: Gas) {
    && (forall i, j | 0 <= i < j < |g.radio| :: g.radio[i].serial != g.radio[j].serial)
    && (forall s: nat :: HasWork(g, s) <==> IsPending(g, s))
    && (forall i | 0 <= i < |g.radio| :: g.radio[i].started <==> g.work == Some(g.radio[i].serial))
    && (g.work.Some? ==> HasWork(g, g.work.value))
    && g.current == g.work
  }

  /** Only the query whose work has started owns timers, at most one of a kind. */
  ghost predicate Timers(g: Gas) {
    forall t: Timer :: g.timers[t] <= 1 && (t in g.timers ==> g.work == Some(t.serial))
  }

  function Concat(frags: seq<Fragment>): seq<Byte> {
    if frags == [] then [] else Concat(frags[..|frags| - 1]) + frags[|frags| - 1].data
  }

  ghost predicate InOrder(frags: seq<Fragment>) {
    |frags| <= 128 && forall i | 0 <= i < |frags| :: frags[i].id == i
  }

  /** The octets held are those held at the retry followed by fragments 0, 1, 2, ... */
  ghost predicate Assembled(q: Query) {
    && InOrder(q.frags)
    && q.resp == q.base + Concat(q.frags)
    && (!q.retry ==> q.base == [])
  }

  ghost predicate Untouched(q: Query) {
    && q.nextFrag == 0 && !q.waitComeback && !q.retry && !q.offchannel
    && q.adv.None? && q.resp == [] && q.base == [] && q.frags == []
  }

  ghost predicate QueryOk(q: Query, started: bool) {
    && Assembled(q)
    && q.nextFrag == |q.frags|
    && (q.waitComeback <==> q.adv.Some?)
    && (!q.waitComeback ==> q.frags == [])
    && (!started ==> Untouched(q))
  }

  ghost predicate OthersOk(g: Gas, k: int) {
    forall i | 0 <= i < |g.pending| && i != k :: QueryOk(g.pending[i], g.work == Some(g.pending[i].serial))
  }

  ghost predicate Delivered(c: Call) {
    c.result == Success ==> Assembled(c.query) && c.query.frags != []
  }

  ghost predicate CallsOk(calls: seq<Call>) {
    forall i | 0 <= i < |calls| :: Delivered(calls[i])
  }

  ghost predicate Inv(g: Gas) {
    Keys(g.pending) && Accounted(g) && Radio(g) && Timers(g) && OthersOk(g, -1) && CallsOk(g.calls) && !g.fault
  }

  /** Inv while the k-th query, whose work has started, is being handled. */
  ghost predicate Handling(g: Gas, k: nat) {
    && k < |g.pending| && g.work == Some(g.pending[k].serial)
    && Keys(g.pending) && Accounted(g) && Radio(g) && Timers(g) && OthersOk(g, k) && CallsOk(g.calls) && !g.fault
  }

  lemma InitInv()
    ensures Inv(Init())
  {
  }

  lemma Begin(g: Gas, k: nat)
    requires Inv(g) && k < |g.pending| && g.work == Some(g.pending[k].serial)
    ensures Handling(g, k) && QueryOk(g.pending[k], true)
  {
  }

  lemma Finish(g: Gas, k: nat)
    requires Handling(g, k) && QueryOk(g.pending[k], true)
    ensures Inv(g)
  {
    hide Keys, Accounted, Radio, Timers, CallsOk, QueryOk;
  }

  // --- primitive steps -------------------------------------------------------

  lemma SerialsRemoveAt(p: seq<Query>, k: nat)
    requires k < |p|
    ensures Serials(RemoveAt(p, k)) == RemoveAt(Serials(p), k)
  {
  }

  lemma RemoveAtCount<T>(s: seq<T>, k: nat)
    requires k < |s|
    ensures multiset(s) == multiset(RemoveAt(s, k)) + multiset{s[k]}
  {
    assert s == s[..k] + [s[k]] + s[k + 1..];
  }

  lemma RemoveKeys(p: seq<Query>, k: nat)
    requires Keys(p) && k < |p|
    ensures Keys(RemoveAt(p, k))
  {
  }

  lemma ServedAppend(calls: seq<Call>, c: Call)
    ensures Served(calls + [c]) == Served(calls) + [c.query.serial]
  {
  }

  lemma DoneAccounted(g: Gas, k: nat, result: Result)
    requires Accounted(g) && k < |g.pending|
    ensures Accounted(Done(g, k, result))
  {
    var h := Done(g, k, result);
    SerialsRemoveAt(g.pending, k);
    RemoveAtCount(Serials(g.pending), k);
    ServedAppend(g.calls, Call(g.pending[k], result));
    forall s: nat ensures Occurrences(h, s) == if s < h.nextSerial then 1 else 0 {
      assert Occurrences(g, s) == if s < g.nextSerial then 1 else 0;
    }
  }

  lemma FreeAccounted(g: Gas, k: nat)
    requires Accounted(g) && k < |g.pending|
    ensures Accounted(Free(g, k))
  {
    var h := Free(g, k);
    SerialsRemoveAt(g.pending, k);
    RemoveAtCount(Serials(g.pending), k);
    forall s: nat ensures Occurrences(h, s) == if s < h.nextSerial then 1 else 0 {
      assert Occurrences(g, s) == if s < g.nextSerial then 1 else 0;
    }
  }

  lemma RemovedPending(g: Gas, h: Gas, k: nat)
    requires Keys(g.pending) && k < |g.pending| && h.pending == RemoveAt(g.pending, k)
    ensures forall s: nat :: IsPending(h, s) <==> IsPending(g, s) && s != g.pending[k].serial
  {
    forall s: nat ensures IsPending(h, s) <==> IsPending(g, s) && s != g.pending[k].serial {
      if IsPending(g, s) && s != g.pending[k].serial {
        var i :| 0 <= i < |g.pending| && g.pending[i].serial == s;
        assert h.pending[if i < k then i else i - 1].serial == s;
      }
      if IsPending(h, s) {
        var i :| 0 <= i < |h.pending| && h.pending[i].serial == s;
        assert g.pending[if i < k then i else i + 1].serial == s;
      }
    }
  }

  ghost predicate DistinctWork(radio: seq<Work>) {
    forall i, j | 0 <= i < j < |radio| :: radio[i].serial != radio[j].serial
  }

  lemma DropWorkIs(radio: seq<Work>, k: nat)
    requires DistinctWork(radio) && k < |radio|
    ensures DropWork(radio, radio[k].serial) == RemoveAt(radio, k)
  {
    assert Contexts(radio)[k] == radio[k].serial;
    assert forall i | 0 <= i < |radio| && i != k :: Contexts(radio)[i] != Contexts(radio)[k];
  }

  lemma DroppedWork(g: Gas, h: Gas, k: nat)
    requires DistinctWork(g.radio) && k < |g.radio| && h.radio == RemoveAt(g.radio, k)
    ensures DistinctWork(h.radio)
    ensures forall s: nat :: HasWork(h, s) <==> HasWork(g, s) && s != g.radio[k].serial
  {
    forall s: nat ensures HasWork(h, s) <==> HasWork(g, s) && s != g.radio[k].serial {
      if HasWork(g, s) && s != g.radio[k].serial {
        var i :| 0 <= i < |g.radio| && g.radio[i].serial == s;
        assert h.radio[if i < k then i else i - 1].serial == s;
      }
      if HasWork(h, s) {
        var i :| 0 <= i < |h.radio| && h.radio[i].serial == s;
        assert g.radio[if i < k then i else i + 1].serial == s;
      }
    }
  }

  /** Taking a query and its work away together. */
  lemma BothRemoved(g: Gas, h: Gas, k: nat, w: nat)
    requires Keys(g.pending) && Radio(g) && k < |g.pending| && w < |g.radio|
    requires g.radio[w].serial == g.pending[k].serial
    requires h.pending == RemoveAt(g.pending, k) && h.radio == RemoveAt(g.radio, w)
    requires h.current == h.work
    requires h.work == if g.work == Some(g.pending[k].serial) then None else g.work
    ensures Radio(h)
  {
    RemovedPending(g, h, k);
    DroppedWork(g, h, w);
  }

  lemma DoneRadio(g: Gas, k: nat, result: Result)
    requires Handling(g, k)
    ensures Radio(Done(g, k, result))
  {
    hide Accounted, Timers, OthersOk, CallsOk;
    var s := g.pending[k].serial;
    assert HasWork(g, s);
    var w :| 0 <= w < |g.radio| && g.radio[w].serial == s;
    DropWorkIs(g.radio, w);
    BothRemoved(g, Done(g, k, result), k, w);
  }

  lemma DoneTimers(g: Gas, k: nat, result: Result)
    requires Handling(g, k)
    ensures Done(g, k, result).timers == multiset{}
    ensures Timers(Done(g, k, result))
  {
    hide Keys, Accounted, OthersOk, CallsOk;
    var h := Done(g, k, result);
    var s := g.pending[k].serial;
    forall t: Timer ensures h.timers[t] == 0 {
      assert g.timers[t] <= 1 && (t in g.timers ==> g.work == Some(t.serial));
      if t.serial == s {
        match t.kind {
          case TxComeback => assert t == Timer(TxComeback, s);
          case QueryTimeout => assert t == Timer(QueryTimeout, s);
          case RxComeback => assert t == Timer(RxComeback, s);
        }
      }
    }
  }

  lemma RemovedOthers(g: Gas, h: Gas, k: nat)
    requires Keys(g.pending) && OthersOk(g, k) && k < |g.pending| && h.pending == RemoveAt(g.pending, k)
    requires h.work == if g.work == Some(g.pending[k].serial) then None else g.work
    ensures OthersOk(h, -1)
  {
    hide QueryOk;
    forall i | 0 <= i < |h.pending|
      ensures QueryOk(h.pending[i], h.work == Some(h.pending[i].serial))
    {
      var j := if i < k then i else i + 1;
      assert h.pending[i] == g.pending[j];
    }
  }

  lemma DoneInv(g: Gas, k: nat, result: Result)
    requires Handling(g, k)
    requires Delivered(Call(g.pending[k], result))
    ensures Inv(Done(g, k, result))
  {
    var h := Done(g, k, result);
    RemoveKeys(g.pending, k);
    DoneAccounted(g, k, result);
    DoneRadio(g, k, result);
    DoneTimers(g, k, result);
    assert OthersOk(h, -1) by { RemovedOthers(g, h, k); }
    assert CallsOk(h.calls) by { assert h.calls == g.calls + [Call(g.pending[k], result)]; }
    assert h.pending == RemoveAt(g.pending, k) && !h.fault;
  }

  lemma DoneParts(g: Gas, k: nat, result: Result)
    requires k < |g.pending|
    ensures var h := Done(g, k, result); var s := g.pending[k].serial;
      && h.pending == RemoveAt(g.pending, k) && h.nextSerial == g.nextSerial
      && h.current == (if g.current == Some(s) then None else g.current)
      && h.work == (if g.work == Some(s) then None else g.work)
      && h.radio == (if g.work == Some(s) then DropWork(g.radio, s) else g.radio)
  {
    hide DropWork;
  }

  lemma FindPending(g: Gas, s: nat)
    requires IsPending(g, s)
    ensures Find(g, s) < |g.pending|
  {
    var i :| 0 <= i < |g.pending| && g.pending[i].serial == s;
    assert Serials(g.pending)[i] == s;
  }

  // --- updates of the query in hand ------------------------------------------

  ghost predicate Compatible(g: Gas, k: nat, q: Query)
    requires k < |g.pending|
  {
    && q.serial == g.pending[k].serial && q.addr == g.pending[k].addr
    && (q.token == g.pending[k].token || Available(g.pending, q.addr, q.token))
  }

  lemma PutPending(g: Gas, k: nat, q: Query)
    requires k < |g.pending| && Compatible(g, k, q)
    ensures Keys(g.pending) ==> Keys(Put(g, k, q).pending)
    ensures Accounted(g) ==> Accounted(Put(g, k, q))
    ensures Radio(g) ==> Radio(Put(g, k, q))
  {
    var h := Put(g, k, q);
    assert Serials(h.pending) == Serials(g.pending);
    if Accounted(g) {
      forall s: nat ensures Occurrences(h, s) == if s < h.nextSerial then 1 else 0 {
        assert Occurrences(g, s) == if s < g.nextSerial then 1 else 0;
      }
    }
    if Radio(g) {
      forall s: nat ensures HasWork(h, s) <==> IsPending(h, s) {
        assert HasWork(g, s) <==> HasWork(h, s);
        assert IsPending(g, s) <==> IsPending(h, s) by {
          if IsPending(g, s) {
            var i :| 0 <= i < |g.pending| && g.pending[i].serial == s;
            assert h.pending[i].serial == s;
          }
          if IsPending(h, s) {
            var i :| 0 <= i < |h.pending| && h.pending[i].serial == s;
            assert g.pending[i].serial == s;
          }
        }
      }
    }
  }

  lemma PutHandling(g: Gas, k: nat, q: Query)
    requires Handling(g, k) && Compatible(g, k, q)
    ensures Handling(Put(g, k, q), k)
  {
    PutPending(g, k, q);
    hide Keys, Accounted, Radio, CallsOk, QueryOk;
    var h := Put(g, k, q);
    assert forall i | 0 <= i < |h.pending| && i != k :: h.pending[i] == g.pending[i];
  }

  lemma PutInv(g: Gas, k: nat, q: Query)
    requires Inv(g) && k < |g.pending| && Compatible(g, k, q)
    requires QueryOk(q, g.work == Some(q.serial))
    ensures Inv(Put(g, k, q))
  {
    PutPending(g, k, q);
    hide Keys, Accounted, Radio, CallsOk, QueryOk;
    var h := Put(g, k, q);
    assert forall i | 0 <= i < |h.pending| && i != k :: h.pending[i] == g.pending[i];
  }

  /** Nothing but the timers and next_start differs. */
  ghost predicate SameButTimers(g: Gas, h: Gas) {
    && h.pending == g.pending && h.current == g.current && h.work == g.work && h.radio == g.radio
    && h.nextSerial == g.nextSerial && h.calls == g.calls && h.dropped == g.dropped && h.fault == g.fault
  }

  lemma TimersHandling(g: Gas, h: Gas, k: nat)
    requires Handling(g, k) && SameButTimers(g, h) && Timers(h)
    ensures Handling(h, k)
  {
    hide Keys, CallsOk, QueryOk;
    assert Accounted(h) by {
      forall s: nat ensures Occurrences(h, s) == if s < h.nextSerial then 1 else 0 {
        assert Occurrences(g, s) == if s < g.nextSerial then 1 else 0;
      }
    }
    assert Radio(h) by {
      forall s: nat ensures HasWork(h, s) <==> IsPending(h, s) {
        assert HasWork(g, s) <==> IsPending(g, s);
      }
    }
  }

  lemma CancelHandling(g: Gas, k: nat, kind: Kind)
    requires Handling(g, k)
    ensures Handling(Cancel(g, kind, g.pending[k].serial), k)
  {
    var h := Cancel(g, kind, g.pending[k].serial);
    assert Timers(h) by {
      hide Keys, Accounted, Radio, CallsOk, OthersOk;
      forall t: Timer ensures h.timers[t] <= 1 && (t in h.timers ==> h.work == Some(t.serial)) {
        assert g.timers[t] <= 1 && (t in g.timers ==> g.work == Some(t.serial));
      }
    }
    TimersHandling(g, h, k);
  }

  lemma RegisterHandling(g: Gas, k: nat, kind: Kind)
    requires Handling(g, k) && Timer(kind, g.pending[k].serial) !in g.timers
    ensures Handling(Register(g, kind, g.pending[k].serial), k)
  {
    var h := Register(g, kind, g.pending[k].serial);
    assert Timers(h) by {
      hide Keys, Accounted, Radio, CallsOk, OthersOk;
      forall t: Timer ensures h.timers[t] <= 1 && (t in h.timers ==> h.work == Some(t.serial)) {
        assert g.timers[t] <= 1 && (t in g.timers ==> g.work == Some(t.serial));
      }
    }
    TimersHandling(g, h, k);
  }

  lemma RestartTimer(g: Gas, k: nat, kind: Kind)
    requires Handling(g, k)
    ensures Handling(Register(Cancel(g, kind, g.pending[k].serial), kind, g.pending[k].serial), k)
  {
    CancelHandling(g, k, kind);
    RegisterHandling(Cancel(g, kind, g.pending[k].serial), k, kind);
  }

  // --- dialog tokens ---------------------------------------------------------

  lemma {:induction false} TokenOffsetFirst(pending: seq<Query>, dst: Addr, start: nat, offset: nat)
    requires offset <= 256
    ensures var r := TokenOffset(pending, dst, start, offset);
      && (r < 256 ==> AvailableAt(pending, dst, start, r))
      && (forall d | offset <= d < r :: !AvailableAt(pending, dst, start, d))
    decreases 256 - offset
  {
    hide AvailableAt;
    if offset < 256 && !AvailableAt(pending, dst, start, offset) {
      TokenOffsetFirst(pending, dst, start, offset + 1);
    }
  }

  lemma CyclicOffset(start: nat, token: Byte)
    ensures 0 <= (token - start) % 256 < 256
    ensures (start + (token - start) % 256) % 256 == token
  {
  }

  /** A token request fails exactly when all 256 tokens are pending for the address; otherwise
      it gives the available token that comes first cyclically from next_start. */
  lemma NewTokenFirst(g: Gas, dst: Addr)
    ensures NewToken(g, dst).None? <==> forall t: Byte :: !Available(g.pending, dst, t)
    ensures NewToken(g, dst).Some? ==>
      exists d | 0 <= d < 256 && AvailableAt(g.pending, dst, g.nextStart, d) ::
        && NewToken(g, dst).value == (g.nextStart + d) % 256
        && forall e | 0 <= e < d :: !AvailableAt(g.pending, dst, g.nextStart, e)
  {
    hide Available;
    TokenOffsetFirst(g.pending, dst, g.nextStart, 0);
    var r := TokenOffset(g.pending, dst, g.nextStart, 0);
    if r == 256 {
      forall t: Byte ensures !Available(g.pending, dst, t) {
        CyclicOffset(g.nextStart, t);
        assert !AvailableAt(g.pending, dst, g.nextStart, (t - g.nextStart) % 256);
      }
    }
  }

  lemma NewTokenAvailable(g: Gas, dst: Addr)
    requires NewToken(g, dst).Some?
    ensures Available(g.pending, dst, NewToken(g, dst).value)
  {
    TokenOffsetFirst(g.pending, dst, g.nextStart, 0);
  }
}
