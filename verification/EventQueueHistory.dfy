/** What the throttle counters of the event queues count, told from the messages of a run. */
module EventQueueHistory {
  import opened Collections
  import opened EventQueue
  import opened EventQueueRuns

  datatype Place = Interface(wpa: nat) | GlobalSocket

  function At(c: Ctrl, p: Place): Option<Channel> {
    match p
    case Interface(i) => if i in c.ifaces then Some(c.ifaces[i]) else None
    case GlobalSocket => c.global
  }

  // --- which channels a message reaches --------------------------------------

  /** The interface of a message gets all but those for the global channel alone; the global channel
      gets all but those not meant for it, while somebody listens there. */
  predicate Reaches(c: Ctrl, m: Msg, p: Place) {
    match p
    case Interface(i) => i == m.wpa && i in c.ifaces && m.kind != OnlyGlobal
    case GlobalSocket => c.global.Some? && c.global.value.monitors && m.kind != NoGlobal
  }

  function AttemptAt(ev: Event, p: Place): Attempt
    requires ev.EvMessage?
  {
    if p.GlobalSocket? then ev.g else ev.a
  }

  lemma MessageAt(c: Ctrl, ev: Event, p: Place)
    requires ev.EvMessage?
    ensures var d := At(Step(c, ev), p);
      d == if Reaches(c, ev.m, p) then Some(Offer(At(c, p).value, ev.m, AttemptAt(ev, p))) else At(c, p)
  {
    hide Offer;
  }

  /** A message is recorded where it reaches, and nothing else of any channel changes elsewhere. */
  lemma MessageReaches(c: Ctrl, ev: Event, p: Place)
    requires ev.EvMessage?
    ensures var d := At(Step(c, ev), p);
      if Reaches(c, ev.m, p) then d.Some? && d.value.offered == At(c, p).value.offered + [ev.m] else d == At(c, p)
  {
    MessageAt(c, ev, p);
    hide Step;
    if Reaches(c, ev.m, p) { OfferRecords(At(c, p).value, ev.m, AttemptAt(ev, p)); }
    hide Offer;
  }

  lemma OfferRecords(ch: Channel, m: Msg, a: Attempt)
    ensures Offer(ch, m, a).offered == ch.offered + [m]
  {
  }

  // --- what becomes of a message ---------------------------------------------

  /** A message is handed over at once when nothing waits and the socket is not known to be full. */
  predicate AtOnce(ch: Channel, a: Attempt) {
    ch.queue == [] && !(ch.open && a.full)
  }

  /** A message that is not handed over at once waits at the end of the queue. */
  lemma WaitsOrGoes(ch: Channel, m: Msg, a: Attempt)
    ensures var r := Offer(ch, m, a);
      if AtOnce(ch, a) then r.queue == [] && r.handed == ch.handed + [m] && r.dropped == ch.dropped
      else r.queue != [] && r.queue[|r.queue| - 1] == m && r.handed == ch.handed && r.delivered == ch.delivered
           && r.dropped + r.queue == ch.dropped + ch.queue + [m]
  {
    if !AtOnce(ch, a) && ch.queue != [] {
      assert ch.queue == [ch.queue[0]] + ch.queue[1..];
    }
  }

  /** A message that is handed over is sent if and only if the channel has a socket and a monitor. */
  lemma HandedOver(ch: Channel, m: Msg, a: Attempt)
    requires AtOnce(ch, a)
    ensures var r := Offer(ch, m, a);
      if ch.open && ch.monitors
      then r.delivered == ch.delivered + [m] && r.unsent == ch.unsent && r.open == a.open && r.monitors == a.monitors
      else r.delivered == ch.delivered && r.unsent == ch.unsent + [m] && r.open == ch.open && r.monitors == ch.monitors
  {
  }

  // --- the history of a channel ----------------------------------------------

  /** A message that reached the channel: handed over at once, or throttled, and then whether it met
      others that wait. */
  datatype Arrival = Direct | Queued(others: bool)

  function Arrived(ch: Channel, a: Attempt): Arrival {
    if AtOnce(ch, a) then Direct else Queued(ch.queue != [])
  }

  predicate SetUp(ev: Event, p: Place) {
    match ev
    case EvInit(wpa, _) => p == Interface(wpa)
    case EvGlobalInit(_) => p.GlobalSocket?
    case _ => false
  }

  function Record(c: Ctrl, ev: Event, p: Place, log: seq<Arrival>): seq<Arrival> {
    if SetUp(ev, p) then []
    else if ev.EvMessage? && Reaches(c, ev.m, p) then log + [Arrived(At(c, p).value, AttemptAt(ev, p))]
    else log
  }

  /** What reached the channel at p since it was set up, oldest first */
  ghost function History(c: Ctrl, run: seq<Event>, p: Place, log: seq<Arrival>): seq<Arrival>
    requires Feasible(c, run)
    decreases |run|
  {
    if run == [] then log else History(Step(c, run[0]), run[1..], p, Record(c, run[0], p, log))
  }

  /** How many throttled messages are in a row at the end of the history */
  function InARow(log: seq<Arrival>): nat {
    if log == [] || log[|log| - 1].Direct? then 0 else 1 + InARow(log[..|log| - 1])
  }

  /** The n-th message met others that wait, as the 2000th or a later one in a row. */
  predicate Overflows(log: seq<Arrival>, n: nat)
    requires n < |log|
  {
    log[n] == Queued(true) && InARow(log[..n]) >= 1999
  }

  function Overflown(log: seq<Arrival>): nat {
    if log == [] then 0
    else Overflown(log[..|log| - 1]) + if Overflows(log, |log| - 1) then 1 else 0
  }

  ghost predicate Tracks(ch: Option<Channel>, log: seq<Arrival>) {
    ch.Some? ==> ch.value.count == InARow(log) && |ch.value.dropped| == Overflown(log)
  }

  lemma OfferTracks(ch: Channel, m: Msg, a: Attempt, log: seq<Arrival>)
    requires Tracks(Some(ch), log)
    ensures Tracks(Some(Offer(ch, m, a)), log + [Arrived(ch, a)])
  {
    assert (log + [Arrived(ch, a)])[..|log|] == log;
  }

  lemma {:induction false} DrainCounts(ch: Channel, attempts: seq<Attempt>)
    requires |attempts| >= |ch.queue|
    ensures Drain(ch, attempts).count == ch.count && Drain(ch, attempts).dropped == ch.dropped
    decreases |attempts|
  {
    if ch.queue != [] && !Throttled(ch, attempts[0]) {
      DrainCounts(Shift(ch, attempts[0]), attempts[1..]);
    }
  }

  /** What a retransmission makes of the channel at p */
  lemma TimeoutAt(c: Ctrl, ev: Event, p: Place)
    requires Enabled(c, ev) && ev.EvTimeout?
    ensures At(Step(c, ev), p) ==
      match p
      case GlobalSocket => if c.global.None? then None else Some(Drain(c.global.value, ev.gs))
      case Interface(i) =>
        if i == ev.wpa && i in c.ifaces then Some(Drain(c.ifaces[i], ev.attempts)) else At(c, p)
  {
    hide Drain;
  }

  lemma TimeoutTracks(c: Ctrl, ev: Event, p: Place, log: seq<Arrival>)
    requires Enabled(c, ev) && ev.EvTimeout? && Tracks(At(c, p), log)
    ensures Tracks(At(Step(c, ev), p), log)
  {
    TimeoutAt(c, ev, p);
    if c.global.Some? { DrainCounts(c.global.value, ev.gs); }
    if ev.wpa in c.ifaces { DrainCounts(c.ifaces[ev.wpa], ev.attempts); }
    hide Step, Drain, InARow, Overflown;
  }

  lemma StepTracks(c: Ctrl, ev: Event, p: Place, log: seq<Arrival>)
    requires Enabled(c, ev) && Tracks(At(c, p), log)
    ensures Tracks(At(Step(c, ev), p), Record(c, ev, p, log))
  {
    if ev.EvMessage? {
      MessageAt(c, ev, p);
      if Reaches(c, ev.m, p) { OfferTracks(At(c, p).value, ev.m, AttemptAt(ev, p), log); }
      hide Offer, InARow, Overflown, Step;
    } else if ev.EvTimeout? {
      TimeoutTracks(c, ev, p, log);
    } else {
      hide Select;
    }
  }

  lemma {:induction false} RunTracks(c: Ctrl, run: seq<Event>, p: Place, log: seq<Arrival>)
    requires Feasible(c, run) && Tracks(At(c, p), log)
    ensures Tracks(At(Run(c, run), p), History(c, run, p, log))
    decreases |run|
  {
    hide Tracks, Step, Enabled, Record, At;
    if run != [] {
      StepTracks(c, run[0], p, log);
      RunTracks(Step(c, run[0]), run[1..], p, Record(c, run[0], p, log));
    }
  }

  /** In every run the throttle counter is the number of messages that reached the channel since one
      was last handed over at once. */
  lemma CounterCounts(run: seq<Event>, p: Place)
    requires Feasible(EMPTY, run) && At(Run(EMPTY, run), p).Some?
    ensures At(Run(EMPTY, run), p).value.count == InARow(History(EMPTY, run, p, []))
  {
    RunTracks(EMPTY, run, p, []);
  }

  /** A message is dropped if and only if a new one meets others that wait and at least 1999 throttled
      ones precede it since the last that was handed over at once; it is then the oldest. */
  lemma DropsInARow(run: seq<Event>, p: Place, m: Msg, a: Attempt)
    requires Feasible(EMPTY, run) && At(Run(EMPTY, run), p).Some?
    ensures var ch := At(Run(EMPTY, run), p).value; var r := Offer(ch, m, a);
      if ch.queue != [] && InARow(History(EMPTY, run, p, [])) >= 1999
      then r.dropped == ch.dropped + [ch.queue[0]] && r.queue == ch.queue[1..] + [m]
      else r.dropped == ch.dropped && r.queue == if AtOnce(ch, a) then [] else ch.queue + [m]
  {
    CounterCounts(run, p);
    hide InARow, History, Run;
  }

  /** So many messages are dropped in a run, and no others. */
  lemma DroppedInARun(run: seq<Event>, p: Place)
    requires Feasible(EMPTY, run) && At(Run(EMPTY, run), p).Some?
    ensures |At(Run(EMPTY, run), p).value.dropped| == Overflown(History(EMPTY, run, p, []))
  {
    RunTracks(EMPTY, run, p, []);
  }

  lemma {:induction false} NoOverflow(log: seq<Arrival>)
    requires forall n | 0 <= n <= |log| :: InARow(log[..n]) < 2000
    ensures Overflown(log) == 0
  {
    if log != [] {
      var m := |log| - 1;
      var r := log[..m];
      forall n | 0 <= n <= |r| ensures InARow(r[..n]) < 2000 {
        assert r[..n] == log[..n];
      }
      NoOverflow(r);
      assert log[..|log|] == log;
      hide Overflown;
    }
  }

  /** With fewer than 2000 throttled messages in a row, at any time, none is dropped. */
  lemma NoneDropped(run: seq<Event>, p: Place)
    requires Feasible(EMPTY, run) && At(Run(EMPTY, run), p).Some?
    requires forall n | 0 <= n <= |History(EMPTY, run, p, [])| :: InARow(History(EMPTY, run, p, [])[..n]) < 2000
    ensures At(Run(EMPTY, run), p).value.dropped == []
  {
    DroppedInARun(run, p);
    NoOverflow(History(EMPTY, run, p, []));
    hide History, Run;
  }

  // --- retransmission --------------------------------------------------------

  /** Whether the channel has a socket, and a monitor, after the first n sends */
  function SocketAfter(open: bool, monitors: bool, attempts: seq<Attempt>, n: nat): (bool, bool)
    requires n <= |attempts|
  {
    if n == 0 then (open, monitors)
    else if open && monitors then SocketAfter(attempts[0].open, attempts[0].monitors, attempts[1..], n - 1)
    else SocketAfter(open, monitors, attempts[1..], n - 1)
  }

  /** The socket is open, and too full, for message i of the queue. */
  predicate Blocked(ch: Channel, attempts: seq<Attempt>, i: nat)
    requires i < |attempts|
  {
    SocketAfter(ch.open, ch.monitors, attempts, i).0 && attempts[i].full
  }

  /** n messages of the queue are handed over. */
  ghost predicate HandsOver(ch: Channel, attempts: seq<Attempt>, n: nat, r: Channel)
    requires |attempts| >= |ch.queue|
  {
    && n <= |ch.queue| && r.queue == ch.queue[n..] && r.handed == ch.handed + ch.queue[..n]
    && (r.open, r.monitors) == SocketAfter(ch.open, ch.monitors, attempts, n)
    && (forall i | 0 <= i < n :: !Blocked(ch, attempts, i))
    && (n < |ch.queue| ==> Blocked(ch, attempts, n))
  }

  lemma HandsOverNext(ch: Channel, attempts: seq<Attempt>, n: nat, r: Channel)
    requires |attempts| >= |ch.queue| && ch.queue != [] && !Throttled(ch, attempts[0])
    requires HandsOver(Shift(ch, attempts[0]), attempts[1..], n, r)
    ensures HandsOver(ch, attempts, n + 1, r)
  {
    var d := Shift(ch, attempts[0]);
    assert ch.queue[..n + 1] == [ch.queue[0]] + d.queue[..n];
    forall i | 0 <= i <= n ensures !Blocked(ch, attempts, i) {
      if i > 0 { assert !Blocked(d, attempts[1..], i - 1); }
    }
  }

  /** A retransmission hands over the messages in front of the first that meets a full socket, and
      leaves that one and those behind it. */
  lemma {:induction false} DrainStopsAtFull(ch: Channel, attempts: seq<Attempt>)
    requires |attempts| >= |ch.queue|
    ensures var r := Drain(ch, attempts);
      |r.queue| <= |ch.queue| && HandsOver(ch, attempts, |ch.queue| - |r.queue|, r)
    decreases |attempts|
  {
    if ch.queue == [] || Throttled(ch, attempts[0]) {
      NoneHandedOver(ch, attempts);
    } else {
      hide HandsOver, Shift, Drain, Throttled;
      var d := Shift(ch, attempts[0]);
      DrainGoesOn(ch, attempts);
      DrainStopsAtFull(d, attempts[1..]);
      HandsOverNext(ch, attempts, |d.queue| - |Drain(d, attempts[1..]).queue|, Drain(d, attempts[1..]));
    }
  }

  lemma DrainGoesOn(ch: Channel, attempts: seq<Attempt>)
    requires |attempts| >= |ch.queue| && ch.queue != [] && !Throttled(ch, attempts[0])
    ensures |Shift(ch, attempts[0]).queue| == |ch.queue| - 1
    ensures Drain(ch, attempts) == Drain(Shift(ch, attempts[0]), attempts[1..])
  {
    hide Send;
  }

  lemma NoneHandedOver(ch: Channel, attempts: seq<Attempt>)
    requires |attempts| >= |ch.queue| && (ch.queue == [] || Throttled(ch, attempts[0]))
    ensures HandsOver(ch, attempts, 0, ch)
  {
    assert ch.queue[0..] == ch.queue && ch.handed + ch.queue[..0] == ch.handed;
  }

  /** A message registers the timer of its interface if and only if it waits somewhere. */
  lemma MessageTimer(c: Ctrl, ev: Event)
    requires ev.EvMessage?
    ensures Step(c, ev).timers
         == if exists p :: Reaches(c, ev.m, p) && !AtOnce(At(c, p).value, AttemptAt(ev, p))
            then c.timers[ev.m.wpa := 1] else c.timers
  {
    hide Offer;
    var i, g := Interface(ev.m.wpa), GlobalSocket;
    if Reaches(c, ev.m, i) { assert At(c, i) == Some(c.ifaces[ev.m.wpa]); }
    if Reaches(c, ev.m, g) { assert At(c, g) == c.global; }
    assert c.timers[ev.m.wpa := 1][ev.m.wpa := 1] == c.timers[ev.m.wpa := 1];
    forall p | Reaches(c, ev.m, p) ensures p == i || p == g {}
  }

  /** A message waits at p, and a socket is open there. */
  predicate CanSend(c: Ctrl, p: Place) {
    At(c, p).Some? && At(c, p).value.queue != [] && At(c, p).value.open
  }

  lemma MoreIs(c: Ctrl, wpa: nat)
    ensures MoreToSend(c, wpa) <==> CanSend(c, Interface(wpa)) || CanSend(c, GlobalSocket)
  {
  }

  lemma CanSendSame(c: Ctrl, d: Ctrl, p: Place)
    requires d.ifaces == c.ifaces && d.global == c.global
    ensures CanSend(d, p) == CanSend(c, p)
  {
  }

  lemma TimeoutSends(c: Ctrl, wpa: nat, g: seq<Attempt>, a: seq<Attempt>) returns (d: Ctrl)
    requires Enough(c, wpa, g, a)
    ensures d.timers == c.timers - multiset{wpa}
    ensures Timeout(c, wpa, g, a) == if MoreToSend(d, wpa) then d.(timers := d.timers + multiset{wpa}) else d
  {
    hide Drain, MoreToSend;
    d := DrainInterface(DrainGlobal(c.(timers := c.timers - multiset{wpa}), g), wpa, a);
  }

  /** A retransmission registers its timer again if and only if a message waits, in the queue of the
      interface or in the global one, where a socket is open. */
  lemma TimeoutTimer(c: Ctrl, ev: Event)
    requires ev.EvTimeout? && Enabled(c, ev)
    ensures var d := Step(c, ev);
      d.timers == if CanSend(d, Interface(ev.wpa)) || CanSend(d, GlobalSocket)
                  then c.timers else c.timers - multiset{ev.wpa}
  {
    assert c.timers - multiset{ev.wpa} + multiset{ev.wpa} == c.timers;
    var e := TimeoutSends(c, ev.wpa, ev.gs, ev.attempts);
    var d := Step(c, ev);
    hide Timeout, MoreToSend, CanSend, Enough;
    MoreIs(e, ev.wpa);
    CanSendSame(e, d, Interface(ev.wpa));
    CanSendSame(e, d, GlobalSocket);
  }

  /** When an interface goes, nothing of it stays: no channel, no message that waits elsewhere, no timer.
      What waits for others stays. */
  lemma DeinitForgets(c: Ctrl, wpa: nat)
    ensures var d := Step(c, EvDeinit(wpa));
      && d.ifaces == c.ifaces - {wpa} && d.timers[wpa] == 0 && (forall i | i != wpa :: d.timers[i] == c.timers[i])
      && (d.global.Some? <==> c.global.Some?)
      && (c.global.Some? ==> forall m :: m in d.global.value.queue <==> m in c.global.value.queue && m.wpa != wpa)
  {
    if c.global.Some? { SelectMembers(c.global.value.queue, wpa); }
    hide Select;
  }

  lemma {:induction false} SelectMembers(s: seq<Msg>, wpa: nat)
    ensures forall m :: m in Select(s, wpa, false) <==> m in s && m.wpa != wpa
  {
    if s != [] {
      SelectMembers(s[..|s| - 1], wpa);
      assert s == s[..|s| - 1] + [s[|s| - 1]];
    }
  }
}
