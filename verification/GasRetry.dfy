/** A run in which the single retry spoils the response that SUCCESS delivers. */
module GasRetry {
  import opened Collections
  import opened GasModel
  import opened GasInvariants
  import opened GasSafety
  import opened GasExchange

  const PEER: Addr := [2, 0, 0, 0, 0, 1]
  const ADV: seq<Byte> := [ADV_PROTO, 0]
  const REQUEST: seq<Byte> := [4, 10, 0]

  function OneQuery(q: Query, timers: multiset<Timer>, next: nat, calls: seq<Call>): Gas {
    if calls == []
    then Gas([q], Some(0), Some(0), [Work(0, true)], timers, next, 1, [], [], false)
    else Gas([], None, None, [], timers, next, 1, calls, [], false)
  }

  function Fresh(token: Byte): Query {
    Query(0, PEER, token, 0, false, false, false, 0, REQUEST[2 := token], None, [], [], [])
  }

  const TIMEOUT := Timer(QueryTimeout, 0)
  const COMEBACK := Timer(TxComeback, 0)
  const RESPONSE := Timer(RxComeback, 0)

  const SENT_QUERY := Fresh(0).(offchannel := true)
  const WAITING_QUERY := SENT_QUERY.(waitComeback := true, adv := Some(ADV))
  const HOLDING_QUERY := WAITING_QUERY.(nextFrag := 1, resp := [7], frags := [Fragment(0, [7])])
  const RESTARTED_QUERY := SENT_QUERY.(retry := true, token := 1, req := REQUEST[2 := 1], resp := [7], base := [7])
  const ANSWERED_QUERY := RESTARTED_QUERY.(adv := Some(ADV), resp := [7, 9], frags := [Fragment(0, [9])])

  const QUEUED := Gas([Fresh(0)], None, None, [Work(0, false)], multiset{}, 1, 1, [], [], false)
  const SENT := OneQuery(SENT_QUERY, multiset{TIMEOUT}, 1, [])
  const TOLD_TO_WAIT := OneQuery(WAITING_QUERY, multiset{TIMEOUT, COMEBACK}, 1, [])
  const ASKING := OneQuery(WAITING_QUERY, multiset{TIMEOUT}, 1, [])
  const HOLDING := OneQuery(HOLDING_QUERY, multiset{TIMEOUT}, 1, [])
  const EXPECTING := OneQuery(HOLDING_QUERY, multiset{TIMEOUT, RESPONSE}, 1, [])
  const RESTARTED := OneQuery(RESTARTED_QUERY, multiset{TIMEOUT}, 2, [])
  const DELIVERED := OneQuery(RESTARTED_QUERY, multiset{}, 2, [Call(ANSWERED_QUERY, Success)])

  const REQUEST_MADE := EvRequest(PEER, REQUEST, true)
  const WORK_STARTED := EvStart(0, true, true)
  const DELAY_RECEIVED := EvRx(PEER, false, false, InitialFrame(0, 1, ADV, []), true)
  const DELAY_OVER := EvFire(COMEBACK, true)
  const FRAGMENT_RECEIVED := EvRx(PEER, false, false, ComebackFrame(0, 0, true, 0, ADV, [7]), true)
  const REQUEST_ACKED := EvTxStatus(PEER, Acked)
  const RESPONSE_OVERDUE := EvFire(RESPONSE, true)
  const ANSWER_RECEIVED := EvRx(PEER, false, false, InitialFrame(1, 0, ADV, [9]), true)

  ghost predicate Leads(g: Gas, ev: Event, h: Gas) {
    Enabled(g, ev) && !Hazard(g, ev) && Step(g, ev) == h
  }

  ghost predicate RunsTo(g: Gas, run: seq<Event>, h: Gas) {
    Feasible(g, run) && Harmless(g, run) && Run(g, run) == h
  }

  lemma TokenFree(g: Gas, dst: Addr, token: Byte)
    requires g.nextStart == token && Available(g.pending, dst, token)
    ensures NewToken(g, dst) == Some(token)
  {
    assert AvailableAt(g.pending, dst, g.nextStart, 0);
  }

  lemma RequestStep()
    ensures Leads(Init(), REQUEST_MADE, QUEUED)
  {
    TokenFree(Init(), PEER, 0);
  }

  lemma StartStep()
    ensures Leads(QUEUED, WORK_STARTED, SENT)
  {
    assert QUEUED.radio[0] == Work(0, false);
    assert Serials([Fresh(0)])[0] == 0;
  }

  lemma Answer(g: Gas, q: Query, ev: Event)
    requires g.pending == [q] && ev.EvRx? && ev.sa == q.addr && !ev.prot && !ev.pmf
    requires |ev.data| >= 4 && (ev.data[0] == INITIAL_RESP || ev.data[0] == COMEBACK_RESP) && ev.data[1] == q.token
    ensures Step(g, ev) == Handle(g, 0, ev.data, ev.txOk)
    ensures g.work == Some(q.serial) ==> !Hazard(g, ev)
  {
  }

  lemma DelayStep()
    ensures Leads(SENT, DELAY_RECEIVED, TOLD_TO_WAIT)
  {
    ParseInitial(0, 1, ADV, [], []);
    assert InitialFrame(0, 1, ADV, []) + [] == InitialFrame(0, 1, ADV, []);
    Answer(SENT, SENT_QUERY, DELAY_RECEIVED);
    hide ParseFrame, InitialFrame;
  }

  lemma DelayOverStep()
    ensures Leads(TOLD_TO_WAIT, DELAY_OVER, ASKING)
  {
    assert multiset{TIMEOUT, COMEBACK} - multiset{COMEBACK} == multiset{TIMEOUT};
    assert Serials([WAITING_QUERY])[0] == 0;
  }

  lemma FragmentStep()
    ensures Leads(ASKING, FRAGMENT_RECEIVED, HOLDING)
  {
    ParseComeback(0, 0, true, 0, ADV, [7], []);
    assert ComebackFrame(0, 0, true, 0, ADV, [7]) + [] == ComebackFrame(0, 0, true, 0, ADV, [7]);
    Answer(ASKING, WAITING_QUERY, FRAGMENT_RECEIVED);
    hide ParseFrame, ComebackFrame;
    AcceptMore(ASKING, 0, Frame(ADV, [7], 0, 0, true));
    assert Accepted(WAITING_QUERY, Frame(ADV, [7], 0, 0, true)) == HOLDING_QUERY;
    assert multiset{TIMEOUT}[RESPONSE := 0] == multiset{TIMEOUT};
  }

  lemma AckStep()
    ensures Leads(HOLDING, REQUEST_ACKED, EXPECTING)
  {
    assert Serials([HOLDING_QUERY])[0] == 0;
    assert multiset{TIMEOUT}[TIMEOUT := 0] + multiset{TIMEOUT} == multiset{TIMEOUT};
    assert multiset{TIMEOUT}[RESPONSE := 0] + multiset{RESPONSE} == multiset{TIMEOUT, RESPONSE};
  }

  lemma RestartStep(h: Gas)
    requires h == OneQuery(HOLDING_QUERY, multiset{TIMEOUT}, 1, [])
    ensures Retry(h, 0, true) == RESTARTED
  {
    TokenFree(h, PEER, 1);
    hide NewToken;
    assert REQUEST[2 := 0][2 := 1] == REQUEST[2 := 1];
    assert multiset{TIMEOUT}[COMEBACK := 0][TIMEOUT := 0] + multiset{TIMEOUT} == multiset{TIMEOUT};
  }

  lemma OverdueFires(h: Gas)
    requires h == OneQuery(HOLDING_QUERY, multiset{TIMEOUT}, 1, [])
    ensures Fire(EXPECTING, RESPONSE, true) == Retry(h, 0, true)
  {
    hide Retry, NewToken;
    assert EXPECTING.(timers := EXPECTING.timers - multiset{RESPONSE}) == h by {
      assert multiset{TIMEOUT, RESPONSE} - multiset{RESPONSE} == multiset{TIMEOUT};
    }
    assert Find(h, 0) == 0 by { assert Serials([HOLDING_QUERY])[0] == 0; }
    hide Find;
  }

  lemma OverdueStep()
    ensures Leads(EXPECTING, RESPONSE_OVERDUE, RESTARTED)
  {
    var h := OneQuery(HOLDING_QUERY, multiset{TIMEOUT}, 1, []);
    OverdueFires(h);
    RestartStep(h);
    hide Fire, Retry;
  }

  lemma AnswerDone(g: Gas)
    requires g == OneQuery(ANSWERED_QUERY, multiset{TIMEOUT}, 2, [])
    ensures Done(g, 0, Success) == DELIVERED
  {
    assert multiset{TIMEOUT}[COMEBACK := 0][TIMEOUT := 0][RESPONSE := 0] == multiset{};
    assert RemoveAt([ANSWERED_QUERY], 0) == [];
    assert [] + [Call(ANSWERED_QUERY, Success)] == [Call(ANSWERED_QUERY, Success)];
    assert Contexts([Work(0, true)])[0] == 0;
  }

  lemma AnswerAccepted(g: Gas)
    requires g == OneQuery(RESTARTED_QUERY, multiset{TIMEOUT}, 2, [])
    ensures RxInitial(g, 0, Frame(ADV, [9], 0, 0, false)) == DELIVERED
  {
    var q := RESTARTED_QUERY.(adv := Some(ADV));
    assert [7] + [9] == [7, 9] && [] + [Fragment(0, [9])] == [Fragment(0, [9])];
    assert Append(q, 0, [9]) == ANSWERED_QUERY;
    assert [RESTARTED_QUERY][0 := ANSWERED_QUERY] == [ANSWERED_QUERY];
    AnswerDone(OneQuery(ANSWERED_QUERY, multiset{TIMEOUT}, 2, []));
    hide Done;
  }

  lemma AnswerStep()
    ensures Leads(RESTARTED, ANSWER_RECEIVED, DELIVERED)
  {
    ParseInitial(1, 0, ADV, [9], []);
    assert InitialFrame(1, 0, ADV, [9]) + [] == InitialFrame(1, 0, ADV, [9]);
    Answer(RESTARTED, RESTARTED_QUERY, ANSWER_RECEIVED);
    assert [RESTARTED_QUERY][0 := RESTARTED_QUERY] == [RESTARTED_QUERY];
    AnswerAccepted(RESTARTED);
    hide ParseFrame, InitialFrame, RxInitial, Done;
  }

  lemma RunStep(g: Gas, ev: Event, h: Gas, rest: seq<Event>, end: Gas)
    requires Leads(g, ev, h) && RunsTo(h, rest, end)
    ensures RunsTo(g, [ev] + rest, end)
  {
    hide Step, Enabled, Hazard;
    var run := [ev] + rest;
    assert run[0] == ev && run[1..] == rest;
  }

  const FROM_RESTARTED: seq<Event> := [ANSWER_RECEIVED]
  const FROM_EXPECTING := [RESPONSE_OVERDUE] + FROM_RESTARTED
  const FROM_HOLDING := [REQUEST_ACKED] + FROM_EXPECTING
  const FROM_ASKING := [FRAGMENT_RECEIVED] + FROM_HOLDING
  const FROM_TOLD_TO_WAIT := [DELAY_OVER] + FROM_ASKING
  const FROM_SENT := [DELAY_RECEIVED] + FROM_TOLD_TO_WAIT
  const FROM_QUEUED := [WORK_STARTED] + FROM_SENT
  const WHOLE_RUN := [REQUEST_MADE] + FROM_QUEUED

  lemma WholeRun()
    ensures RunsTo(Init(), WHOLE_RUN, DELIVERED)
  {
    assert RunsTo(DELIVERED, [], DELIVERED);
    assert [ANSWER_RECEIVED] + [] == FROM_RESTARTED;
    hide Leads, RunsTo;
    AnswerStep(); RunStep(RESTARTED, ANSWER_RECEIVED, DELIVERED, [], DELIVERED);
    OverdueStep(); RunStep(EXPECTING, RESPONSE_OVERDUE, RESTARTED, FROM_RESTARTED, DELIVERED);
    AckStep(); RunStep(HOLDING, REQUEST_ACKED, EXPECTING, FROM_EXPECTING, DELIVERED);
    FragmentStep(); RunStep(ASKING, FRAGMENT_RECEIVED, HOLDING, FROM_HOLDING, DELIVERED);
    DelayOverStep(); RunStep(TOLD_TO_WAIT, DELAY_OVER, ASKING, FROM_ASKING, DELIVERED);
    DelayStep(); RunStep(SENT, DELAY_RECEIVED, TOLD_TO_WAIT, FROM_TOLD_TO_WAIT, DELIVERED);
    StartStep(); RunStep(QUEUED, WORK_STARTED, SENT, FROM_SENT, DELIVERED);
    RequestStep(); RunStep(Init(), REQUEST_MADE, QUEUED, FROM_QUEUED, DELIVERED);
  }

  /** The peer answers the retried request with [9], but the caller is given [7, 9]. */
  lemma RetrySpoilsResponse()
    ensures exists run: seq<Event>, c: Call ::
      && Feasible(Init(), run) && Harmless(Init(), run) && c in Run(Init(), run).calls
      && c.result == Success && c.query.frags == [Fragment(0, [9])] && c.query.resp == [7, 9]
  {
    WholeRun();
    hide Harmless, Feasible, Run;
    assert DELIVERED.calls[0] == Call(ANSWERED_QUERY, Success);
    assert Call(ANSWERED_QUERY, Success) in Run(Init(), WHOLE_RUN).calls;
  }

  // --- an answer to a request that was not sent yet --------------------------

  const REFUSAL := EvRx(PEER, false, false, [INITIAL_RESP, 0, 1, 0], true)

  lemma RequestRun()
    ensures RunsTo(Init(), [REQUEST_MADE], QUEUED) && Inv(QUEUED)
  {
    RequestStep();
    InitInv();
    assert RunsTo(QUEUED, [], QUEUED);
    assert [REQUEST_MADE] + [] == [REQUEST_MADE];
    hide RunsTo, Inv, Step;
    StepInv(Init(), REQUEST_MADE);
    RunStep(Init(), REQUEST_MADE, QUEUED, [], QUEUED);
  }

  lemma RefusalIsHazard()
    ensures Hazard(QUEUED, REFUSAL)
  {
    assert Match(QUEUED, PEER, false, false, REFUSAL.data) == 0;
  }

  /** The second event of a run can already be a hazard: a refusal that arrives before the radio
      has started the query. */
  lemma EarlyAnswerReachable()
    ensures Feasible(Init(), [REQUEST_MADE]) && Run(Init(), [REQUEST_MADE]) == QUEUED
    ensures Hazard(QUEUED, REFUSAL) && Doomed(Step(QUEUED, REFUSAL))
  {
    RequestRun();
    RefusalIsHazard();
    hide Inv, Hazard, Doomed, Step, Feasible, Run, Harmless;
    SafeStepIff(QUEUED, REFUSAL);
  }

  /** So is a deinit that finds the query still queued. */
  lemma DeinitReachable()
    ensures Feasible(Init(), [REQUEST_MADE]) && Run(Init(), [REQUEST_MADE]) == QUEUED
    ensures Hazard(QUEUED, EvDeinit) && Doomed(Step(QUEUED, EvDeinit))
  {
    RequestRun();
    assert !QUEUED.radio[0].started;
    hide Inv, Doomed, Step, Feasible, Run, Harmless;
    SafeStepIff(QUEUED, EvDeinit);
  }
}
