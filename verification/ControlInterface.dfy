/** The event queues of ctrl_iface_unix.c as they run, proved against the values of EventQueue. */
module ControlInterface {
  import opened Collections
  import opened EventQueue

  class CtrlIface {
    var ifaces: map<nat, Channel>
    var global: Option<Channel>
    var timers: multiset<nat>

    function View(): Ctrl
      reads this
    {
      Ctrl(ifaces, global, timers)
    }

    constructor ()
      ensures View() == Ctrl(map[], None, multiset{})
    {
      ifaces, global, timers := map[], None, multiset{};
    }

    /** The timer part of wpas_ctrl_msg_queue */
    method RestartQueueTimer(wpa: nat)
      modifies `timers
      ensures View() == RestartTimer(old(View()), wpa)
    {
      timers := timers[wpa := 0];
      timers := timers + multiset{wpa};
    }

    /** wpas_ctrl_msg_queue_limit and the list part of wpas_ctrl_msg_queue */
    static method Append(queue: seq<Msg>, count: nat, m: Msg) returns (r: seq<Msg>, victim: Option<Msg>)
      ensures victim == if count >= LIMIT && queue != [] then Some(queue[0]) else None
      ensures r == (if victim.Some? then queue[1..] else queue) + [m]
    {
      r, victim := queue, None;
      if count >= LIMIT {
        if r != [] {
          victim := Some(r[0]);
          r := r[1..];
        }
      }
      r := r + [m];
    }

    /** What wpa_supplicant_ctrl_iface_msg_cb does with either channel */
    method OfferTo(ch0: Channel, m: Msg, a: Attempt) returns (ch: Channel)
      modifies `timers
      ensures ch == Offer(ch0, m, a)
      ensures View() == if Queues(ch0, a) then RestartTimer(old(View()), m.wpa) else old(View())
    {
      ch := ch0.(offered := ch0.offered + [m]);
      if ch.queue != [] || Throttled(ch, a) {
        var count := ch.count + 1;
        var queue, victim := Append(ch.queue, count, m);
        ch := ch.(count := count, queue := queue);
        if victim.Some? { ch := ch.(dropped := ch.dropped + [victim.value]); }
        RestartQueueTimer(m.wpa);
      } else {
        ch := ch.(count := 0);
        ch := Send(ch, m, a);
      }
    }

    method MessageCallback(m: Msg, g: Attempt, a: Attempt)
      modifies this
      ensures View() == Message(old(View()), m, g, a)
    {
      if m.kind != NoGlobal && global.Some? && global.value.monitors {
        var ch := OfferTo(global.value, m, g);
        global := Some(ch);
      }
      assert View() == ToGlobal(old(View()), m, g);
      if m.kind != OnlyGlobal && m.wpa in ifaces {
        var ch := OfferTo(ifaces[m.wpa], m, a);
        ifaces := ifaces[m.wpa := ch];
      }
    }

    /** The loop of wpas_ctrl_msg_send_pending_global and wpas_ctrl_msg_send_pending_iface */
    static method SendPending(ch0: Channel, attempts: seq<Attempt>) returns (ch: Channel)
      requires |attempts| >= |ch0.queue|
      ensures ch == Drain(ch0, attempts)
    {
      ch := ch0;
      var i := 0;
      while ch.queue != [] && !Throttled(ch, attempts[i])
        invariant i + |ch.queue| <= |attempts|
        invariant Drain(ch, attempts[i..]) == Drain(ch0, attempts)
        decreases |ch.queue|
      {
        var m := ch.queue[0];
        assert attempts[i..][1..] == attempts[i + 1..];
        assert Shift(ch, attempts[i]) == Send(ch, m, attempts[i]).(queue := ch.queue[1..]);
        ch := Send(ch, m, attempts[i]).(queue := ch.queue[1..]);
        i := i + 1;
      }
    }

    method QueueTimeout(wpa: nat, gs: seq<Attempt>, attempts: seq<Attempt>)
      requires wpa in timers && Enough(View(), wpa, gs, attempts)
      modifies this
      ensures View() == Timeout(old(View()), wpa, gs, attempts)
    {
      hide Drain;
      timers := timers - multiset{wpa};
      if global.Some? {
        var ch := SendPending(global.value, gs);
        global := Some(ch);
      }
      if wpa in ifaces {
        var ch := SendPending(ifaces[wpa], attempts);
        ifaces := ifaces[wpa := ch];
      }
      var more := wpa in ifaces && ifaces[wpa].queue != [] && ifaces[wpa].open;
      if global.Some? && global.value.queue != [] && global.value.open { more := true; }
      if more { timers := timers + multiset{wpa}; }
    }

    /** The search for messages of the interface in the global queue */
    static method Discard(queue: seq<Msg>, wpa: nat) returns (rest: seq<Msg>, purged: seq<Msg>)
      ensures rest == Select(queue, wpa, false) && purged == Select(queue, wpa, true)
    {
      rest, purged := [], [];
      var i := 0;
      while i < |queue|
        invariant i <= |queue|
        invariant rest == Select(queue[..i], wpa, false) && purged == Select(queue[..i], wpa, true)
      {
        assert queue[..i + 1][..i] == queue[..i];
        if queue[i].wpa == wpa { purged := purged + [queue[i]]; } else { rest := rest + [queue[i]]; }
        i := i + 1;
      }
      assert queue[..i] == queue;
    }

    method DeinitInterface(wpa: nat)
      modifies this
      ensures View() == Deinit(old(View()), wpa)
    {
      if global.Some? {
        var rest, purged := Discard(global.value.queue, wpa);
        global := Some(global.value.(queue := rest, purged := global.value.purged + purged));
      }
      timers := timers[wpa := 0];
      ifaces := ifaces - {wpa};
    }
  }
}
