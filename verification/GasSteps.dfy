/** What each event of the GAS component does to the query it concerns, and to the others. */
module GasSteps {
  import opened Collections
  import opened GasModel

  /** The k-th query is the first pending one with its serial number. */
  ghost predicate Pending(g: Gas, k: nat) {
    k < |g.pending| && forall i | 0 <= i < k :: g.pending[i].serial != g.pending[k].serial
  }

  lemma FindPending(g: Gas, k: nat)
    requires Pending(g, k)
    ensures Find(g, g.pending[k].serial) == k
  {
  }

  ghost predicate OthersSame(g: Gas, h: Gas, k: nat)
    requires k < |g.pending|
  {
    |h.pending| == |g.pending| && forall i | 0 <= i < |g.pending| && i != k :: h.pending[i] == g.pending[i]
  }

  /** The query leaves the list with one callback; its timers go, and so does its radio work if that
      is the one the component holds. Nothing of the others changes. */
  ghost predicate Answered(g: Gas, h: Gas, k: nat, q: Query, result: Result)
    requires k < |g.pending|
  {
    && h.pending == g.pending[..k] + g.pending[k + 1..] && h.calls == g.calls + [Call(q, result)]
    && h.current == (if g.current == Some(q.serial) then None else g.current)
    && (forall t: Timer :: h.timers[t] == if t.serial == q.serial then 0 else g.timers[t])
    && h.work == (if g.work == Some(q.serial) then None else g.work)
    && (g.work != Some(q.serial) ==> h.radio == g.radio)
    && (g.work == Some(q.serial) ==> WithoutFirst(g.radio, q.serial, h.radio))
    && h.nextStart == g.nextStart && h.nextSerial == g.nextSerial && h.dropped == g.dropped && h.fault == g.fault
  }

  /** s is r without its first item for that query, if it has one. */
  ghost predicate WithoutFirst(r: seq<Work>, serial: nat, s: seq<Work>) {
    if exists i :: 0 <= i < |r| && r[i].serial == serial
    then exists i :: 0 <= i < |r| && r[i].serial == serial && (forall j | 0 <= j < i :: r[j].serial != serial)
           && s == r[..i] + r[i + 1..]
    else s == r
  }

  lemma DropIsWithout(r: seq<Work>, serial: nat)
    ensures WithoutFirst(r, serial, DropWork(r, serial))
  {
    var k := IndexOf(Contexts(r), serial);
    if k < |r| {
      assert r[k].serial == serial;
      forall j | 0 <= j < k ensures r[j].serial != serial { assert Contexts(r)[j] == r[j].serial; }
    } else {
      forall j | 0 <= j < |r| ensures r[j].serial != serial { assert Contexts(r)[j] == r[j].serial; }
    }
  }

  lemma DoneAnswers(g: Gas, k: nat, result: Result)
    requires k < |g.pending|
    ensures Answered(g, Done(g, k, result), k, g.pending[k], result)
  {
    DropIsWithout(g.radio, g.pending[k].serial);
    DoneTimers(g, k, result);
    hide DropWork, WithoutFirst, Cancel;
  }

  lemma DoneTimers(g: Gas, k: nat, result: Result)
    requires k < |g.pending|
    ensures var h := Done(g, k, result); var s := g.pending[k].serial;
      forall t: Timer :: h.timers[t] == if t.serial == s then 0 else g.timers[t]
    ensures Done(g, k, result).nextStart == g.nextStart && Done(g, k, result).nextSerial == g.nextSerial
    ensures Done(g, k, result).dropped == g.dropped && Done(g, k, result).fault == g.fault
  {
    hide DropWork;
    var h, s := Done(g, k, result), g.pending[k].serial;
    forall t: Timer ensures h.timers[t] == if t.serial == s then 0 else g.timers[t] {
      assert t.serial == s ==> t in [Timer(TxComeback, s), Timer(QueryTimeout, s), Timer(RxComeback, s)] by {
        match t.kind
        case TxComeback => assert t == Timer(TxComeback, s) || t.serial != s;
        case QueryTimeout => assert t == Timer(QueryTimeout, s) || t.serial != s;
        case RxComeback => assert t == Timer(RxComeback, s) || t.serial != s;
      }
    }
  }

  // --- requests --------------------------------------------------------------

  /** A request of at least three octets that gets a token is filed in front of the others, with the
      token as its third octet, and a radio work item behind the others; if the radio takes no
      work, only the place where the next token is looked for changes. Any other request changes
      nothing. */
  lemma RequestFiled(g: Gas, dst: Addr, req: seq<Byte>, addOk: bool)
    ensures var h := Step(g, EvRequest(dst, req, addOk)); var token := NewToken(g, dst);
      if |req| < 3 || token.None? then h == g
      else
        && h.nextStart == (token.value + 1) % 256
        && h.(nextStart := g.nextStart) ==
           if !addOk then g
           else
             var q := Query(g.nextSerial, dst, token.value, 0, false, false, false, 0,
                            req[..2] + [token.value] + req[3..], None, [], [], []);
             g.(pending := [q] + g.pending, radio := g.radio + [Work(q.serial, false)], nextSerial := g.nextSerial + 1)
  {
    if |req| >= 3 && NewToken(g, dst).Some? {
      var t := NewToken(g, dst).value;
      assert req[2 := t] == req[..2] + [t] + req[3..];
    }
    hide NewToken;
  }

  // --- radio work ------------------------------------------------------------

  /** The request is sent: the query is the one that is served and has its timeout registered. */
  ghost predicate Sent(g: Gas, h: Gas, k: nat)
    requires k < |g.pending|
  {
    var q := g.pending[k];
    && OthersSame(g, h, k) && h.pending[k] == q.(offchannel := true) && h.current == Some(q.serial)
    && h.timers == g.timers + multiset{Timer(QueryTimeout, q.serial)} && h.calls == g.calls && h.dropped == g.dropped
  }

  lemma SendInitial(g: Gas, k: nat, txOk: bool)
    requires k < |g.pending|
    ensures var h := TxInitialReq(g, k, txOk);
      if txOk then Sent(g, h, k) && h.work == g.work && h.radio == g.radio
      else Answered(g, h, k, g.pending[k], InternalError)
  {
    if !txOk { DoneAnswers(g, k, InternalError); }
    hide Done;
  }

  /** The work item of the query has started. */
  function Begun(g: Gas, s: nat): Gas
    requires Work(s, false) in g.radio
  {
    g.(radio := g.radio[IndexOf(g.radio, Work(s, false)) := Work(s, true)])
  }

  lemma StartIs(g: Gas, k: nat, s: nat, addrOk: bool, txOk: bool)
    requires Enabled(g, EvStart(s, addrOk, txOk)) && Pending(g, k) && g.pending[k].serial == s
    ensures var h := Step(g, EvStart(s, addrOk, txOk)); var b := Begun(g, s);
      if addrOk then h == TxInitialReq(b.(work := Some(s)), k, txOk)
      else h == Free(b, k).(radio := DropWork(Free(b, k).radio, s))
  {
    FindPending(Begun(g, s), k);
    hide TxInitialReq, DropWork, Find, Free, IndexOf;
  }

  /** Started radio work sends the request of its query; if that fails, the query is answered with an
      internal error, and if there is no address to send it from, it goes without an answer. */
  lemma StartSends(g: Gas, k: nat, s: nat, addrOk: bool, txOk: bool)
    requires Enabled(g, EvStart(s, addrOk, txOk)) && Pending(g, k) && g.pending[k].serial == s
    ensures var h := Step(g, EvStart(s, addrOk, txOk)); var b := Begun(g, s).(work := Some(s));
      if !addrOk then h.pending == g.pending[..k] + g.pending[k + 1..] && h.dropped == g.dropped + [s]
                      && h.calls == g.calls && h.timers == g.timers && h.current == g.current
      else if txOk then Sent(b, h, k) && h.work == Some(s) && h.radio == b.radio
      else Answered(b, h, k, g.pending[k], InternalError)
  {
    StartIs(g, k, s, addrOk, txOk);
    hide Step, Enabled, TxInitialReq, DropWork, IndexOf, Sent, Answered, Pending;
    SendInitial(Begun(g, s).(work := Some(s)), k, txOk);
  }

  /** Removed radio work ends its query: with an answer if it had started, and else without. */
  lemma RemoveEnds(g: Gas, k: nat, s: nat)
    requires Enabled(g, EvRemove(s)) && Pending(g, k) && g.pending[k].serial == s
    ensures var h := Step(g, EvRemove(s)); var j := IndexOf(Contexts(g.radio), s);
      && h.pending == g.pending[..k] + g.pending[k + 1..] && h.fault == g.fault
      && (if g.radio[j].started
          then h.calls == g.calls + [Call(g.pending[k], DeletedAtDeinit)] && h.dropped == g.dropped
               && (forall t: Timer :: h.timers[t] == if t.serial == s then 0 else g.timers[t]) && h.work == None
          else h.calls == g.calls && h.dropped == g.dropped + [s] && h.timers == g.timers)
      && (g.radio[j].started || g.work != Some(s) ==> WithoutFirst(g.radio, s, h.radio))
  {
    FindPending(g, k);
    DropIsWithout(g.radio, s);
    hide WithoutFirst;
    var j := IndexOf(Contexts(g.radio), s);
    if g.radio[j].started { DoneAnswers(g.(work := None), k, DeletedAtDeinit); }
    hide Done, DropWork, Find, IndexOf;
  }

  // --- timers ----------------------------------------------------------------

  /** The registration that expired is gone when the handler runs. */
  function Expire(g: Gas, kind: Kind, serial: nat): Gas {
    g.(timers := g.timers - multiset{Timer(kind, serial)})
  }

  /** An expired timer finds its query. */
  lemma FireFinds(g: Gas, k: nat, kind: Kind, txOk: bool)
    requires Pending(g, k) && Timer(kind, g.pending[k].serial) in g.timers
    ensures var s := g.pending[k].serial; var h := Expire(g, kind, s);
      Step(g, EvFire(Timer(kind, s), txOk)) ==
        match kind
        case TxComeback => TxComebackReq(h, k, txOk)
        case QueryTimeout => Done(h, k, Timeout)
        case RxComeback => Retry(h, k, txOk)
  {
    hide Find, TxComebackReq, Done, Retry, Fire;
    var t := Timer(kind, g.pending[k].serial);
    FireIs(g, t, txOk);
    hide Step;
    FindPending(Expire(g, kind, t.serial), k);
    FireTo(g, t, k, txOk);
  }

  lemma FireIs(g: Gas, t: Timer, txOk: bool)
    requires t in g.timers
    ensures Step(g, EvFire(t, txOk)) == Fire(g, t, txOk)
  {
    hide Fire;
  }

  lemma FireTo(g: Gas, t: Timer, k: nat, txOk: bool)
    requires t in g.timers && k < |g.pending| && Find(Expire(g, t.kind, t.serial), t.serial) == k
    ensures var h := Expire(g, t.kind, t.serial);
      Fire(g, t, txOk) ==
        match t.kind
        case TxComeback => TxComebackReq(h, k, txOk)
        case QueryTimeout => Done(h, k, Timeout)
        case RxComeback => Retry(h, k, txOk)
  {
    hide Find, TxComebackReq, Done, Retry;
    assert t == Timer(t.kind, t.serial);
  }

  lemma AnsweredLater(g: Gas, k: nat, kind: Kind, h: Gas, result: Result)
    requires k < |g.pending| && Answered(Expire(g, kind, g.pending[k].serial), h, k, g.pending[k], result)
    ensures Answered(g, h, k, g.pending[k], result)
  {
    hide WithoutFirst;
    var s := g.pending[k].serial;
    assert forall t: Timer :: t.serial != s ==> Expire(g, kind, s).timers[t] == g.timers[t];
  }

  /** The timeout of a query answers it so. */
  lemma TimeoutAnswers(g: Gas, k: nat, txOk: bool)
    requires Pending(g, k) && Timer(QueryTimeout, g.pending[k].serial) in g.timers
    ensures var h := Step(g, EvFire(Timer(QueryTimeout, g.pending[k].serial), txOk));
      Answered(g, h, k, g.pending[k], Timeout)
  {
    hide Step, Done, Answered, Expire, Enabled;
    var h := Expire(g, QueryTimeout, g.pending[k].serial);
    FireFinds(g, k, QueryTimeout, txOk);
    ExpirePending(g, QueryTimeout, g.pending[k].serial);
    DoneAnswers(h, k, Timeout);
    AnsweredLater(g, k, QueryTimeout, Done(h, k, Timeout), Timeout);
  }

  lemma ExpirePending(g: Gas, kind: Kind, serial: nat)
    ensures Expire(g, kind, serial).pending == g.pending
  {
  }

  /** When the peer's delay is over the comeback request is sent, or the query answered with an
      internal error. */
  lemma ComebackSent(g: Gas, k: nat, txOk: bool)
    requires Pending(g, k) && Timer(TxComeback, g.pending[k].serial) in g.timers
    ensures var t := Timer(TxComeback, g.pending[k].serial); var h := Step(g, EvFire(t, txOk));
      if txOk then OthersSame(g, h, k) && h.pending[k] == g.pending[k].(offchannel := true)
                   && h == g.(pending := h.pending, timers := g.timers - multiset{t})
      else Answered(g, h, k, g.pending[k], InternalError)
  {
    var h := Expire(g, TxComeback, g.pending[k].serial);
    hide Step, Done, Answered, Enabled;
    FireFinds(g, k, TxComeback, txOk);
    if !txOk {
      DoneAnswers(h, k, InternalError);
      AnsweredLater(g, k, TxComeback, Done(h, k, InternalError), InternalError);
    }
  }

  /** The query as the retry sends it: a new token, also in the request, and nothing received yet; the
      octets it holds stay. */
  function Restarted(q: Query, token: Byte): Query {
    Query(q.serial, q.addr, token, 0, false, q.offchannel, true, q.status,
          if |q.req| >= 3 then q.req[..2] + [token] + q.req[3..] else q.req, None, q.resp, q.resp, [])
  }

  /** What the retry of a query makes of g. */
  ghost predicate StartsOver(g: Gas, h: Gas, k: nat, txOk: bool)
    requires k < |g.pending|
  {
    var q := g.pending[k];
    var token := NewToken(g, q.addr);
    if g.current != Some(q.serial) || q.retry || token.None? then h == g
    else
      var r := Restarted(q, token.value);
      h.nextStart == (token.value + 1) % 256 &&
      if txOk
      then OthersSame(g, h, k) && h.pending[k] == r.(offchannel := true) && h.current == g.current
           && h.calls == g.calls
           && h.timers == g.timers[Timer(TxComeback, q.serial) := 0][Timer(QueryTimeout, q.serial) := 1]
      else h.calls == g.calls + [Call(r, InternalError)] && h.pending == g.pending[..k] + g.pending[k + 1..]
  }

  /** The state in which the retry sends its request */
  function BeforeRetry(g: Gas, k: nat, token: Byte): Gas
    requires k < |g.pending|
  {
    var s := g.pending[k].serial;
    Cancel(Cancel(Put(TakeToken(g, token), k, Restarted(g.pending[k], token)), TxComeback, s), QueryTimeout, s)
  }

  lemma RetrySends(g: Gas, k: nat, txOk: bool)
    requires k < |g.pending|
    ensures var q := g.pending[k]; var token := NewToken(g, q.addr);
      Retry(g, k, txOk) == if g.current != Some(q.serial) || q.retry || token.None? then g
                           else TxInitialReq(BeforeRetry(g, k, token.value), k, txOk)
  {
    var q := g.pending[k];
    var token := NewToken(g, q.addr);
    if token.Some? && |q.req| > 2 { assert q.req[2 := token.value] == q.req[..2] + [token.value] + q.req[3..]; }
    hide NewToken, TxInitialReq;
  }

  lemma RetryTimers(g: Gas, k: nat, token: Byte)
    requires k < |g.pending|
    ensures var a := BeforeRetry(g, k, token); var s := g.pending[k].serial;
      && a.timers + multiset{Timer(QueryTimeout, s)}
         == g.timers[Timer(TxComeback, s) := 0][Timer(QueryTimeout, s) := 1]
      && a.pending[..k] == g.pending[..k] && a.pending[k + 1..] == g.pending[k + 1..]
      && a.pending == g.pending[k := Restarted(g.pending[k], token)] && a.calls == g.calls && a.current == g.current
      && a.nextStart == (token + 1) % 256
  {
    hide Restarted;
    var a, s := BeforeRetry(g, k, token), g.pending[k].serial;
    var t := Timer(QueryTimeout, s);
    assert a.timers + multiset{t} == a.timers[t := 1];
    assert a.timers[t := 1] == g.timers[Timer(TxComeback, s) := 0][t := 1];
  }

  lemma RetrySent(g: Gas, h: Gas, k: nat)
    requires k < |g.pending| && g.current == Some(g.pending[k].serial) && !g.pending[k].retry
    requires NewToken(g, g.pending[k].addr).Some?
    requires Sent(BeforeRetry(g, k, NewToken(g, g.pending[k].addr).value), h, k)
    requires h.nextStart == BeforeRetry(g, k, NewToken(g, g.pending[k].addr).value).nextStart
    ensures StartsOver(g, h, k, true)
  {
    var token := NewToken(g, g.pending[k].addr).value;
    hide NewToken, BeforeRetry, Restarted;
    RetryTimers(g, k, token);
    RestartedSerial(g.pending[k], token);
  }

  lemma RetryFailed(g: Gas, h: Gas, k: nat)
    requires k < |g.pending| && g.current == Some(g.pending[k].serial) && !g.pending[k].retry
    requires NewToken(g, g.pending[k].addr).Some?
    requires var r := BeforeRetry(g, k, NewToken(g, g.pending[k].addr).value);
      k < |r.pending| && Answered(r, h, k, r.pending[k], InternalError)
    ensures StartsOver(g, h, k, false)
  {
    var token := NewToken(g, g.pending[k].addr).value;
    hide NewToken, BeforeRetry, Restarted, WithoutFirst;
    RetryTimers(g, k, token);
  }

  lemma RetryIs(g: Gas, k: nat, txOk: bool)
    requires k < |g.pending|
    ensures StartsOver(g, Retry(g, k, txOk), k, txOk)
  {
    RetrySends(g, k, txOk);
    var q := g.pending[k];
    var token := NewToken(g, q.addr);
    if g.current == Some(q.serial) && !q.retry && token.Some? {
      hide Retry, NewToken, BeforeRetry, Restarted, Sent, Answered, StartsOver;
      var b := BeforeRetry(g, k, token.value);
      RetryTimers(g, k, token.value);
      SendInitial(b, k, txOk);
      SameStart(b, k, txOk);
      if txOk { RetrySent(g, Retry(g, k, txOk), k); } else { RetryFailed(g, Retry(g, k, txOk), k); }
    }
    hide Retry, NewToken, BeforeRetry, Restarted, Sent, Answered;
  }

  lemma SameStart(g: Gas, k: nat, txOk: bool)
    requires k < |g.pending|
    ensures TxInitialReq(g, k, txOk).nextStart == g.nextStart
  {
  }

  lemma RestartedSerial(q: Query, token: Byte)
    ensures Restarted(q, token).serial == q.serial
  {
  }

  /** When no comeback response came, the query that is served starts over, if it has not before and
      there is a token, with neither a comeback request nor an old timeout left over; any other is
      left as it is. */
  lemma RetryStartsOver(g: Gas, k: nat, txOk: bool)
    requires Pending(g, k) && Timer(RxComeback, g.pending[k].serial) in g.timers
    ensures var s := g.pending[k].serial;
      StartsOver(Expire(g, RxComeback, s), Step(g, EvFire(Timer(RxComeback, s), txOk)), k, txOk)
  {
    hide Step, Retry, StartsOver, Enabled, Expire;
    ExpirePending(g, RxComeback, g.pending[k].serial);
    FireFinds(g, k, RxComeback, txOk);
    RetryIs(Expire(g, RxComeback, g.pending[k].serial), k, txOk);
  }

  // --- the outcome of a transmission -----------------------------------------

  /** An acknowledged frame starts the timeout of the query that is served anew, and, while it waits
      for a comeback response and has not started over, the wait for that; a frame that could not
      be sent makes the timeout expire at once. An answer for another address, or without an
      acknowledgement, changes nothing. */
  lemma StatusTimers(g: Gas, k: nat, dst: Addr, result: TxResult)
    requires Pending(g, k) && g.current == Some(g.pending[k].serial)
    ensures var q := g.pending[k]; var h := Step(g, EvTxStatus(dst, result));
      h == g.(timers :=
        if dst != q.addr || result == NoAck then g.timers
        else if result == Acked && q.waitComeback && !q.retry
        then g.timers[Timer(QueryTimeout, q.serial) := 1][Timer(RxComeback, q.serial) := 1]
        else g.timers[Timer(QueryTimeout, q.serial) := 1])
  {
    FindPending(g, k);
    hide Find;
    var s := g.pending[k].serial;
    var a, b := Timer(QueryTimeout, s), Timer(RxComeback, s);
    assert g.timers[a := 0] + multiset{a} == g.timers[a := 1];
    assert g.timers[a := 1][b := 0] + multiset{b} == g.timers[a := 1][b := 1];
  }

  /** Without a query that is served it changes nothing. */
  lemma StatusUnexpected(g: Gas, dst: Addr, result: TxResult)
    requires g.current.None?
    ensures Step(g, EvTxStatus(dst, result)) == g
  {
  }

  // --- the end ---------------------------------------------------------------

  function Farewells(pending: seq<Query>): (r: seq<Call>)
    ensures |r| == |pending| && forall i | 0 <= i < |r| :: r[i] == Call(pending[i], DeletedAtDeinit)
  {
    seq(|pending|, i requires 0 <= i < |pending| => Call(pending[i], DeletedAtDeinit))
  }

  /** At the end every pending query is answered, in order, as deleted. */
  lemma {:induction false} DeinitAnswers(g: Gas)
    ensures var h := Step(g, EvDeinit); h.pending == [] && h.calls == g.calls + Farewells(g.pending)
    decreases |g.pending|
  {
    hide Done, Deinit, Farewells;
    DeinitUnfolds(g);
    if g.pending == [] {
      NoFarewells(g.calls);
    } else {
      DeinitFirst(g);
      DeinitAnswers(Done(g, 0, DeletedAtDeinit));
      FarewellFirst(g.calls, g.pending);
    }
  }

  lemma DeinitUnfolds(g: Gas)
    ensures Deinit(g) == if g.pending == [] then g else Deinit(Done(g, 0, DeletedAtDeinit))
  {
    hide Done;
  }

  lemma NoFarewells(calls: seq<Call>)
    ensures calls + Farewells([]) == calls
  {
  }

  lemma DeinitFirst(g: Gas)
    requires g.pending != []
    ensures var d := Done(g, 0, DeletedAtDeinit);
      d.pending == g.pending[1..] && d.calls == g.calls + [Call(g.pending[0], DeletedAtDeinit)]
  {
    assert g.pending[..0] + g.pending[1..] == g.pending[1..];
    hide DropWork;
  }

  lemma FarewellFirst(calls: seq<Call>, pending: seq<Query>)
    requires pending != []
    ensures calls + [Call(pending[0], DeletedAtDeinit)] + Farewells(pending[1..]) == calls + Farewells(pending)
  {
    var first := Call(pending[0], DeletedAtDeinit);
    assert Farewells(pending) == [first] + Farewells(pending[1..]);
    assert calls + [first] + Farewells(pending[1..]) == calls + ([first] + Farewells(pending[1..]));
  }
}
