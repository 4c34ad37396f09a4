/** Runs of the throttled event queues. */
module EventQueueRuns {
  import opened Collections
  import opened EventQueue

  /** A waiting message is never forgotten: its interface has a retransmission timer. */
  ghost predicate GlobalOk(g: Option<Channel>, timers: multiset<nat>) {
    g.Some? ==> Fifo(g.value) && forall m | m in g.value.queue :: m.wpa in timers
  }

  ghost predicate InterfaceOk(ch: Channel, wpa: nat, timers: multiset<nat>) {
    Fifo(ch) && ch.purged == [] && (ch.queue != [] ==> wpa in timers)
  }

  ghost predicate InterfacesOk(c: Ctrl) {
    forall i | i in c.ifaces :: InterfaceOk(c.ifaces[i], i, c.timers)
  }

  ghost predicate SingleTimers(timers: multiset<nat>) {
    forall i: nat :: timers[i] <= 1
  }

  ghost predicate Inv(c: Ctrl) {
    GlobalOk(c.global, c.timers) && InterfacesOk(c) && SingleTimers(c.timers)
  }

  const EMPTY := Ctrl(map[], None, multiset{})

  lemma NewFifo(open: bool)
    ensures Fifo(NewChannel(open))
  {
  }

  lemma OfferMembers(ch: Channel, m: Msg, a: Attempt)
    ensures forall x | x in Offer(ch, m, a).queue :: x in ch.queue || (x == m && Queues(ch, a))
    ensures Offer(ch, m, a).purged == ch.purged
    ensures Offer(ch, m, a).queue != [] ==> Queues(ch, a)
  {
  }

  lemma LaterTimers(c: Ctrl, wpa: nat)
    requires Inv(c)
    ensures Inv(RestartTimer(c, wpa))
  {
    hide Fifo;
    var d := RestartTimer(c, wpa);
    forall i | i in d.ifaces ensures InterfaceOk(d.ifaces[i], i, d.timers) {
      assert InterfaceOk(c.ifaces[i], i, c.timers);
    }
  }

  lemma ToGlobalInv(c: Ctrl, m: Msg, a: Attempt)
    requires Inv(c)
    ensures Inv(ToGlobal(c, m, a))
  {
    if m.kind != NoGlobal && c.global.Some? && c.global.value.monitors {
      var ch := c.global.value;
      OfferFifo(ch, m, a);
      OfferMembers(ch, m, a);
      LaterTimers(c, m.wpa);
      hide Fifo, Offer, InterfacesOk;
      var t := if Queues(ch, a) then c.timers[m.wpa := 1] else c.timers;
      assert GlobalOk(Some(Offer(ch, m, a)), t);
      hide GlobalOk;
      InterfacesSame(if Queues(ch, a) then RestartTimer(c, m.wpa) else c, ToGlobal(c, m, a));
    }
  }

  lemma InterfacesSame(c: Ctrl, d: Ctrl)
    requires InterfacesOk(c) && d.ifaces == c.ifaces && d.timers == c.timers
    ensures InterfacesOk(d)
  {
  }

  lemma ToInterfaceInv(c: Ctrl, m: Msg, a: Attempt)
    requires Inv(c)
    ensures Inv(ToInterface(c, m, a))
  {
    if m.kind != OnlyGlobal && m.wpa in c.ifaces {
      assert InterfaceOk(c.ifaces[m.wpa], m.wpa, c.timers);
      OfferFifo(c.ifaces[m.wpa], m, a);
      OfferMembers(c.ifaces[m.wpa], m, a);
      hide Fifo, Offer;
      var d := ToInterface(c, m, a);
      forall i | i in d.ifaces ensures InterfaceOk(d.ifaces[i], i, d.timers) {
        if i != m.wpa { assert InterfaceOk(c.ifaces[i], i, c.timers); }
      }
    }
  }

  lemma DrainGlobalOk(g: Option<Channel>, timers: multiset<nat>, attempts: seq<Attempt>)
    requires GlobalOk(g, timers) && (g.Some? ==> |attempts| >= |g.value.queue|)
    ensures g.Some? ==> var r := Drain(g.value, attempts); GlobalOk(Some(r), timers) && (r.queue != [] ==> r.open)
  {
    if g.Some? {
      DrainFifo(g.value, attempts);
      hide Fifo, Drain;
    }
  }

  lemma DrainInterfaceOk(c: Ctrl, wpa: nat, attempts: seq<Attempt>)
    requires InterfacesOk(c) && wpa in c.ifaces && |attempts| >= |c.ifaces[wpa].queue|
    ensures var d := DrainInterface(c, wpa, attempts); var r := d.ifaces[wpa];
      InterfacesOk(d) && (r.queue != [] ==> r.open)
  {
    assert InterfaceOk(c.ifaces[wpa], wpa, c.timers);
    DrainFifo(c.ifaces[wpa], attempts);
    hide Fifo, Drain;
    var d := DrainInterface(c, wpa, attempts);
    forall i | i in d.ifaces ensures InterfaceOk(d.ifaces[i], i, d.timers) {
      assert InterfaceOk(c.ifaces[i], i, c.timers);
    }
  }

  /** With nothing left to send for an interface, it needs no timer. */
  lemma Unneeded(c: Ctrl, wpa: nat)
    requires Inv(c)
    requires c.global.Some? ==> c.global.value.queue == []
    requires wpa in c.ifaces ==> c.ifaces[wpa].queue == []
    ensures Inv(c.(timers := c.timers - multiset{wpa}))
  {
    hide Fifo;
    var d := c.(timers := c.timers - multiset{wpa});
    forall i | i in d.ifaces ensures InterfaceOk(d.ifaces[i], i, d.timers) {
      assert InterfaceOk(c.ifaces[i], i, c.timers);
    }
  }

  /** The handler registers its timer again whenever something is left to send. */
  lemma TimeoutInv(c: Ctrl, wpa: nat, g: seq<Attempt>, a: seq<Attempt>)
    requires Inv(c) && wpa in c.timers && Enough(c, wpa, g, a)
    ensures Inv(Timeout(c, wpa, g, a))
  {
    hide Drain, Fifo;
    DrainGlobalOk(c.global, c.timers, g);
    var d := DrainGlobal(c, g);
    assert InterfacesOk(d) by { InterfacesSame(c, d); }
    if wpa in c.ifaces { DrainInterfaceOk(d, wpa, a); }
    hide GlobalOk, InterfacesOk;
    var e := DrainInterface(d, wpa, a);
    assert Inv(e);
    TimeoutIs(c, wpa, g, a);
    if MoreToSend(e, wpa) {
      assert c.timers - multiset{wpa} + multiset{wpa} == c.timers;
      assert Timeout(c, wpa, g, a) == e;
    } else {
      hide Timeout;
      Unneeded(e, wpa);
    }
  }

  lemma TimeoutIs(c: Ctrl, wpa: nat, g: seq<Attempt>, a: seq<Attempt>)
    requires Enough(c, wpa, g, a)
    ensures var e := DrainInterface(DrainGlobal(c, g), wpa, a);
      !MoreToSend(e, wpa) ==> Timeout(c, wpa, g, a) == e.(timers := e.timers - multiset{wpa})
  {
    hide Drain;
  }

  lemma DeinitInv(c: Ctrl, wpa: nat)
    requires Inv(c)
    ensures Inv(Deinit(c, wpa))
  {
    var d := Deinit(c, wpa);
    if c.global.Some? { PurgeFifo(c.global.value, wpa); }
    hide Fifo;
    forall i | i in d.ifaces ensures InterfaceOk(d.ifaces[i], i, d.timers) {
      assert InterfaceOk(c.ifaces[i], i, c.timers);
    }
  }

  lemma SettingsFifo(ch: Channel, open: bool, monitors: bool)
    requires Fifo(ch)
    ensures Fifo(ch.(open := open)) && Fifo(ch.(monitors := monitors))
  {
    hide Subsequence;
  }

  /** Opening, closing or setting up the global channel */
  lemma GlobalSettingsInv(c: Ctrl, ev: Event)
    requires Inv(c) && Enabled(c, ev)
    requires ev.EvGlobalInit? || ev.EvGlobalDeinit? || ev.EvGlobalMonitors? || ev.EvGlobalSocket?
    ensures Inv(Step(c, ev))
  {
    hide Fifo, InterfacesOk, NewChannel;
    if c.global.Some? {
      SettingsFifo(c.global.value, if ev.EvGlobalSocket? then ev.open else true,
                   if ev.EvGlobalMonitors? then ev.monitors else true);
    }
    if ev.EvGlobalInit? { EmptyChannel(ev.open); }
    InterfacesSame(c, Step(c, ev));
  }

  lemma EmptyChannel(open: bool)
    ensures Fifo(NewChannel(open)) && NewChannel(open).queue == [] && NewChannel(open).purged == []
  {
    NewFifo(open);
  }

  /** One interface gets a new channel, or its channel new settings. */
  lemma InterfaceSet(c: Ctrl, wpa: nat, ch: Channel)
    requires Inv(c) && InterfaceOk(ch, wpa, c.timers)
    ensures Inv(c.(ifaces := c.ifaces[wpa := ch]))
  {
    hide Fifo, InterfaceOk, GlobalOk;
    var d := c.(ifaces := c.ifaces[wpa := ch]);
    forall i | i in d.ifaces ensures InterfaceOk(d.ifaces[i], i, d.timers) {
      if i != wpa { assert InterfaceOk(c.ifaces[i], i, c.timers); }
    }
  }

  lemma InterfaceSettingsInv(c: Ctrl, ev: Event)
    requires Inv(c) && Enabled(c, ev) && (ev.EvInit? || ev.EvSocket? || ev.EvMonitors?)
    ensures Inv(Step(c, ev))
  {
    if ev.EvInit? {
      EmptyChannel(ev.open);
      hide Fifo, NewChannel;
      InterfaceSet(c, ev.wpa, NewChannel(ev.open));
    } else if ev.wpa in c.ifaces {
      var ch := c.ifaces[ev.wpa];
      assert InterfaceOk(ch, ev.wpa, c.timers);
      SettingsFifo(ch, if ev.EvSocket? then ev.open else true, if ev.EvMonitors? then ev.monitors else true);
      hide Fifo, Inv;
      InterfaceSet(c, ev.wpa, if ev.EvSocket? then ch.(open := ev.open) else ch.(monitors := ev.monitors));
    }
  }

  lemma OtherInv(c: Ctrl, ev: Event)
    requires Inv(c) && Enabled(c, ev) && !ev.EvMessage? && !ev.EvTimeout? && !ev.EvDeinit?
    ensures Inv(Step(c, ev))
  {
    hide Inv, Step, Enabled;
    if ev.EvInit? || ev.EvSocket? || ev.EvMonitors? {
      InterfaceSettingsInv(c, ev);
    } else {
      GlobalSettingsInv(c, ev);
    }
  }

  lemma StepInv(c: Ctrl, ev: Event)
    requires Inv(c) && Enabled(c, ev)
    ensures Inv(Step(c, ev))
  {
    hide Inv;
    match ev
    case EvMessage(m, g, a) => ToGlobalInv(c, m, g); ToInterfaceInv(ToGlobal(c, m, g), m, a);
    case EvTimeout(wpa, g, a) => TimeoutInv(c, wpa, g, a);
    case EvDeinit(wpa) => DeinitInv(c, wpa);
    case _ => OtherInv(c, ev);
  }

  ghost predicate Feasible(c: Ctrl, run: seq<Event>)
    decreases |run|
  {
    run == [] || (Enabled(c, run[0]) && Feasible(Step(c, run[0]), run[1..]))
  }

  ghost function Run(c: Ctrl, run: seq<Event>): Ctrl
    requires Feasible(c, run)
    decreases |run|
  {
    if run == [] then c else Run(Step(c, run[0]), run[1..])
  }

  lemma {:induction false} RunInv(c: Ctrl, run: seq<Event>)
    requires Inv(c) && Feasible(c, run)
    ensures Inv(Run(c, run))
    decreases |run|
  {
    hide Inv, Step, Enabled;
    if run != [] {
      StepInv(c, run[0]);
      RunInv(Step(c, run[0]), run[1..]);
    }
  }

  // --- what holds in every run -----------------------------------------------

  ghost predicate IsChannel(c: Ctrl, ch: Channel) {
    c.global == Some(ch) || exists i :: i in c.ifaces && c.ifaces[i] == ch
  }

  lemma ChannelFifo(c: Ctrl, ch: Channel)
    requires Inv(c) && IsChannel(c, ch)
    ensures Fifo(ch)
  {
    if c.global != Some(ch) {
      var i :| i in c.ifaces && c.ifaces[i] == ch;
      assert InterfaceOk(c.ifaces[i], i, c.timers);
    }
  }

  /** Sent and then queued messages are the offered ones, in order, but for those that met no
      socket or no monitor, those the limiter dropped and those discarded with their interface. */
  lemma LossyFifo(run: seq<Event>, ch: Channel)
    requires Feasible(EMPTY, run) && IsChannel(Run(EMPTY, run), ch)
    ensures Subsequence(ch.delivered + ch.queue, ch.offered)
    ensures multiset(ch.offered) == multiset(ch.delivered) + multiset(ch.queue)
                                  + multiset(ch.unsent) + multiset(ch.dropped) + multiset(ch.purged)
    ensures ch.unsent == [] && ch.dropped == [] && ch.purged == [] ==> ch.delivered + ch.queue == ch.offered
  {
    RunInv(EMPTY, run);
    ChannelFifo(Run(EMPTY, run), ch);
    SubsequenceRefl(ch.queue);
    SubsequenceConcat(ch.delivered, ch.queue, ch.handed, ch.queue);
    SubsequenceTrans(ch.delivered + ch.queue, ch.handed + ch.queue, ch.offered);
    hide Subsequence;
  }

  /** The queue never exceeds the throttle counter nor 1999 messages; the first 1999 messages
      claim no victim, and each later one at most one. */
  lemma QueueBounded(run: seq<Event>, ch: Channel)
    requires Feasible(EMPTY, run) && IsChannel(Run(EMPTY, run), ch)
    ensures |ch.queue| <= ch.count && |ch.queue| <= 1999
    ensures |ch.dropped| <= if |ch.offered| <= 1999 then 0 else |ch.offered| - 1999
  {
    RunInv(EMPTY, run);
    ChannelFifo(Run(EMPTY, run), ch);
  }

  /** An interface's own queue holds its latest messages: the limiter takes the oldest. */
  lemma LatestKept(run: seq<Event>, wpa: nat)
    requires Feasible(EMPTY, run) && wpa in Run(EMPTY, run).ifaces
    ensures var ch := Run(EMPTY, run).ifaces[wpa];
      ch.purged == [] && |ch.queue| <= |ch.offered| && ch.queue == ch.offered[|ch.offered| - |ch.queue|..]
  {
    RunInv(EMPTY, run);
    var c := Run(EMPTY, run);
    assert InterfaceOk(c.ifaces[wpa], wpa, c.timers);
  }

  /** A waiting message implies exactly one retransmission timer for its interface. */
  lemma WaitingHasTimer(run: seq<Event>, wpa: nat)
    requires Feasible(EMPTY, run)
    ensures var c := Run(EMPTY, run);
      && c.timers[wpa] <= 1
      && (wpa in c.ifaces && c.ifaces[wpa].queue != [] ==> c.timers[wpa] == 1)
      && (c.global.Some? && (exists m :: m in c.global.value.queue && m.wpa == wpa) ==> c.timers[wpa] == 1)
  {
    RunInv(EMPTY, run);
    var c := Run(EMPTY, run);
    if wpa in c.ifaces { assert InterfaceOk(c.ifaces[wpa], wpa, c.timers); }
  }

  /** A message is dropped exactly when it meets a non-empty queue as the 2000th or a later one
      in a row to be throttled; the victim is the oldest, and the new message is kept. */
  lemma DropsIff(ch: Channel, m: Msg, a: Attempt)
    requires Fifo(ch)
    ensures var r := Offer(ch, m, a);
      && (r.dropped != ch.dropped <==> ch.queue != [] && ch.count >= 1999)
      && (r.dropped != ch.dropped ==> r.dropped == ch.dropped + [ch.queue[0]] && r.queue == ch.queue[1..] + [m])
  {
    hide Subsequence;
  }

  /** The socket never fails and never runs full while the queue is sent. */
  predicate Smooth(ch: Channel, attempts: seq<Attempt>)
    requires |attempts| >= |ch.queue|
  {
    ch.open && ch.monitors &&
    forall i | 0 <= i < |ch.queue| :: !attempts[i].full && attempts[i].open && attempts[i].monitors
  }

  lemma {:induction false} SmoothDelivers(ch: Channel, attempts: seq<Attempt>)
    requires |attempts| >= |ch.queue| && Smooth(ch, attempts)
    ensures var r := Drain(ch, attempts); r.delivered == ch.delivered + ch.queue && r.unsent == ch.unsent
    decreases |attempts|
  {
    if ch.queue != [] {
      assert ch.queue == [ch.queue[0]] + ch.queue[1..];
      SmoothDelivers(Shift(ch, attempts[0]), attempts[1..]);
    }
  }

  lemma ShiftHandsOver(ch: Channel, a: Attempt)
    requires ch.queue != []
    ensures var d := Shift(ch, a);
      d.queue == ch.queue[1..] && d.handed + d.queue == ch.handed + ch.queue && (d.open ==> ch.open)
  {
    assert ch.queue == [ch.queue[0]] + ch.queue[1..];
  }

  lemma {:induction false} RoomHandsOver(ch: Channel, attempts: seq<Attempt>)
    requires |attempts| >= |ch.queue| && forall i | 0 <= i < |ch.queue| :: !Throttled(ch, attempts[i])
    ensures var r := Drain(ch, attempts); r.queue == [] && r.handed == ch.handed + ch.queue
    decreases |attempts|
  {
    if ch.queue != [] {
      hide Shift;
      ShiftHandsOver(ch, attempts[0]);
      var d := Shift(ch, attempts[0]);
      forall i | 0 <= i < |d.queue| ensures !Throttled(d, attempts[1..][i]) {
        assert !Throttled(ch, attempts[i + 1]);
      }
      RoomHandsOver(d, attempts[1..]);
    } else {
      assert ch.handed + [] == ch.handed;
    }
  }

  /** A retransmission that meets no full socket hands over the whole queue, in order, and if
      socket and monitors stay, sends it. */
  lemma RoomDelivers(ch: Channel, attempts: seq<Attempt>)
    requires |attempts| >= |ch.queue| && forall i | 0 <= i < |ch.queue| :: !Throttled(ch, attempts[i])
    ensures var r := Drain(ch, attempts);
      && r.queue == [] && r.handed == ch.handed + ch.queue
      && (Smooth(ch, attempts) ==> r.delivered == ch.delivered + ch.queue && r.unsent == ch.unsent)
  {
    hide Drain;
    RoomHandsOver(ch, attempts);
    if Smooth(ch, attempts) { SmoothDelivers(ch, attempts); }
  }
}
