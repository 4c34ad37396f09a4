/** Throttled event messages of ctrl_iface_unix.c, on values: the queues, the counters and the
    retransmission timers. */
module EventQueue {
  import opened Collections

  datatype Type = PerInterface | Global | NoGlobal | OnlyGlobal

  /** struct ctrl_iface_msg; wpa is the interface that the message belongs to */
  datatype Msg = Msg(wpa: nat, kind: Type, text: nat)

  /** struct ctrl_iface_priv and struct ctrl_iface_global_priv. open: sock >= 0; monitors: some
      monitor is attached. The last six fields only record history: messages that reached this
      channel, were handed to wpa_supplicant_ctrl_iface_send, were sent by it, were not because
      there was no socket or no monitor, were dropped by the limiter, and were discarded with
      their interface. */
  datatype Channel = Channel(
    queue: seq<Msg>, count: nat, open: bool, monitors: bool,
    offered: seq<Msg>, handed: seq<Msg>, delivered: seq<Msg>, unsent: seq<Msg>,
    dropped: seq<Msg>, purged: seq<Msg>)

  /** What the kernel says around one message: whether the socket is too full to send now, and
      whether the channel still has a socket, and a monitor, after the send. */
  datatype Attempt = Attempt(full: bool, open: bool, monitors: bool)

  const LIMIT := 2000

  function NewChannel(open: bool): Channel {
    Channel([], 0, open, false, [], [], [], [], [], [])
  }

  /** wpas_ctrl_iface_throttle: a channel without a socket is never throttled. */
  predicate Throttled(ch: Channel, a: Attempt) {
    ch.open && a.full
  }

  /** wpas_ctrl_msg_queue_limit */
  function QueueLimit(ch: Channel): Channel {
    if ch.count < LIMIT || ch.queue == [] then ch
    else ch.(queue := ch.queue[1..], dropped := ch.dropped + [ch.queue[0]])
  }

  /** wpa_supplicant_ctrl_iface_send */
  function Send(ch: Channel, m: Msg, a: Attempt): Channel {
    var h := ch.(handed := ch.handed + [m]);
    if ch.open && ch.monitors then h.(open := a.open, monitors := a.monitors, delivered := ch.delivered + [m])
    else h.(unsent := ch.unsent + [m])
  }

  /** One half of wpa_supplicant_ctrl_iface_msg_cb, without the timer */
  function Offer(ch: Channel, m: Msg, a: Attempt): Channel {
    var o := ch.(offered := ch.offered + [m]);
    if Queues(ch, a) then
      var l := QueueLimit(o.(count := ch.count + 1));
      l.(queue := l.queue + [m])
    else Send(o.(count := 0), m, a)
  }

  predicate Queues(ch: Channel, a: Attempt) {
    ch.queue != [] || Throttled(ch, a)
  }

  /** One message of the queue is handed over. */
  function Shift(ch: Channel, a: Attempt): Channel
    requires ch.queue != []
  {
    Send(ch, ch.queue[0], a).(queue := ch.queue[1..])
  }

  /** wpas_ctrl_msg_send_pending_*: send while there is something to send and room for it. */
  function Drain(ch: Channel, attempts: seq<Attempt>): Channel
    requires |attempts| >= |ch.queue|
    decreases |attempts|
  {
    if ch.queue == [] || Throttled(ch, attempts[0]) then ch
    else Drain(Shift(ch, attempts[0]), attempts[1..])
  }

  /** The messages of the queue that do not belong to an interface, or do. */
  function Select(s: seq<Msg>, wpa: nat, own: bool): (r: seq<Msg>)
    ensures |r| <= |s|
    ensures forall m | m in r :: m in s && (own <==> m.wpa == wpa)
  {
    if s == [] then []
    else
      var m := s[|s| - 1];
      Select(s[..|s| - 1], wpa, own) + if own <==> m.wpa == wpa then [m] else []
  }

  function Purge(ch: Channel, wpa: nat): Channel {
    ch.(queue := Select(ch.queue, wpa, false), purged := ch.purged + Select(ch.queue, wpa, true))
  }

  // --- the whole control interface -------------------------------------------

  datatype Ctrl = Ctrl(ifaces: map<nat, Channel>, global: Option<Channel>, timers: multiset<nat>)

  function RestartTimer(c: Ctrl, wpa: nat): Ctrl {
    c.(timers := c.timers[wpa := 1])
  }

  function ToGlobal(c: Ctrl, m: Msg, a: Attempt): Ctrl {
    if m.kind == NoGlobal || c.global.None? || !c.global.value.monitors then c
    else
      var d := c.(global := Some(Offer(c.global.value, m, a)));
      if Queues(c.global.value, a) then RestartTimer(d, m.wpa) else d
  }

  function ToInterface(c: Ctrl, m: Msg, a: Attempt): Ctrl {
    if m.kind == OnlyGlobal || m.wpa !in c.ifaces then c
    else
      var d := c.(ifaces := c.ifaces[m.wpa := Offer(c.ifaces[m.wpa], m, a)]);
      if Queues(c.ifaces[m.wpa], a) then RestartTimer(d, m.wpa) else d
  }

  /** wpa_supplicant_ctrl_iface_msg_cb */
  function Message(c: Ctrl, m: Msg, g: Attempt, a: Attempt): Ctrl {
    ToInterface(ToGlobal(c, m, g), m, a)
  }

  function DrainGlobal(c: Ctrl, attempts: seq<Attempt>): Ctrl
    requires c.global.Some? ==> |attempts| >= |c.global.value.queue|
  {
    if c.global.None? then c else c.(global := Some(Drain(c.global.value, attempts)))
  }

  function DrainInterface(c: Ctrl, wpa: nat, attempts: seq<Attempt>): Ctrl
    requires wpa in c.ifaces ==> |attempts| >= |c.ifaces[wpa].queue|
  {
    if wpa !in c.ifaces then c else c.(ifaces := c.ifaces[wpa := Drain(c.ifaces[wpa], attempts)])
  }

  /** The condition sock > -1 || gsock > -1 */
  predicate MoreToSend(c: Ctrl, wpa: nat) {
    || (wpa in c.ifaces && c.ifaces[wpa].queue != [] && c.ifaces[wpa].open)
    || (c.global.Some? && c.global.value.queue != [] && c.global.value.open)
  }

  predicate Enough(c: Ctrl, wpa: nat, g: seq<Attempt>, a: seq<Attempt>) {
    && (c.global.Some? ==> |g| >= |c.global.value.queue|)
    && (wpa in c.ifaces ==> |a| >= |c.ifaces[wpa].queue|)
  }

  /** wpas_ctrl_msg_queue_timeout, once its registration has expired */
  function Timeout(c: Ctrl, wpa: nat, g: seq<Attempt>, a: seq<Attempt>): Ctrl
    requires Enough(c, wpa, g, a)
  {
    var e := c.(timers := c.timers - multiset{wpa});
    var d := DrainInterface(DrainGlobal(e, g), wpa, a);
    if MoreToSend(d, wpa) then d.(timers := d.timers + multiset{wpa}) else d
  }

  /** wpa_supplicant_ctrl_iface_deinit */
  function Deinit(c: Ctrl, wpa: nat): Ctrl {
    var global := if c.global.None? then None else Some(Purge(c.global.value, wpa));
    Ctrl(c.ifaces - {wpa}, global, c.timers[wpa := 0])
  }

  datatype Event =
    | EvMessage(m: Msg, g: Attempt, a: Attempt)
    | EvTimeout(wpa: nat, gs: seq<Attempt>, attempts: seq<Attempt>)
    | EvInit(wpa: nat, open: bool)
    | EvDeinit(wpa: nat)
    | EvGlobalInit(open: bool)
    | EvGlobalDeinit
    | EvMonitors(wpa: nat, monitors: bool)
    | EvGlobalMonitors(monitors: bool)
    | EvSocket(wpa: nat, open: bool)      // a reply elsewhere reopened, or lost, a socket
    | EvGlobalSocket(open: bool)

  predicate Enabled(c: Ctrl, ev: Event) {
    match ev
    case EvTimeout(wpa, g, a) => wpa in c.timers && Enough(c, wpa, g, a)
    case EvInit(wpa, _) => wpa !in c.ifaces
    case EvGlobalInit(_) => c.global.None?
    case _ => true
  }

  function Step(c: Ctrl, ev: Event): Ctrl
    requires Enabled(c, ev)
  {
    match ev
    case EvMessage(m, g, a) => Message(c, m, g, a)
    case EvTimeout(wpa, g, a) => Timeout(c, wpa, g, a)
    case EvInit(wpa, open) => c.(ifaces := c.ifaces[wpa := NewChannel(open)])
    case EvDeinit(wpa) => Deinit(c, wpa)
    case EvGlobalInit(open) => c.(global := Some(NewChannel(open)))
    case EvGlobalDeinit => c.(global := None)
    case EvMonitors(wpa, b) =>
      if wpa in c.ifaces then c.(ifaces := c.ifaces[wpa := c.ifaces[wpa].(monitors := b)]) else c
    case EvGlobalMonitors(b) => if c.global.None? then c else c.(global := Some(c.global.value.(monitors := b)))
    case EvSocket(wpa, open) =>
      if wpa in c.ifaces then c.(ifaces := c.ifaces[wpa := c.ifaces[wpa].(open := open)]) else c
    case EvGlobalSocket(open) => if c.global.None? then c else c.(global := Some(c.global.value.(open := open)))
  }

  // --- one channel is a lossy first-in first-out queue -----------------------

  ghost predicate Suffix(q: seq<Msg>, s: seq<Msg>) {
    |q| <= |s| && q == s[|s| - |q|..]
  }

  function Min(a: nat, b: nat): nat {
    if a < b then a else b
  }

  /** What was handed over was sent, in order, but for what met no socket or no monitor. */
  ghost predicate Sent(ch: Channel) {
    && Subsequence(ch.delivered, ch.handed)
    && multiset(ch.handed) == multiset(ch.delivered) + multiset(ch.unsent)
    && (ch.unsent == [] ==> ch.delivered == ch.handed)
  }

  /** Messages handed over and then the queue are what was offered with messages left out. */
  ghost predicate Ordered(ch: Channel) {
    Subsequence(ch.handed + ch.queue, ch.offered)
  }

  /** What was left out fell to the limiter, or was discarded with its interface. */
  ghost predicate Counted(ch: Channel) {
    multiset(ch.offered) == multiset(ch.handed) + multiset(ch.queue) + multiset(ch.dropped) + multiset(ch.purged)
  }

  ghost predicate Exact(ch: Channel) {
    ch.dropped == [] && ch.purged == [] ==> ch.handed + ch.queue == ch.offered
  }

  /** The queue holds the latest messages. */
  ghost predicate Latest(ch: Channel) {
    ch.purged == [] ==> Suffix(ch.queue, ch.offered)
  }

  ghost predicate Lossy(ch: Channel) {
    Ordered(ch) && Counted(ch) && Exact(ch) && Latest(ch)
  }

  /** The queue is no longer than the throttle counter, nor than 1999; the first 1999 messages
      claim no victim, and each later one at most one. */
  ghost predicate Bounded(ch: Channel) {
    && |ch.queue| <= Min(ch.count, LIMIT - 1)
    && ch.count <= |ch.offered|
    && (ch.dropped != [] ==> |ch.dropped| + LIMIT - 1 <= |ch.offered|)
  }

  ghost predicate Fifo(ch: Channel) {
    Lossy(ch) && Bounded(ch) && Sent(ch)
  }

  lemma SubsequenceAppend(a: seq<Msg>, b: seq<Msg>, m: Msg)
    requires Subsequence(a, b)
    ensures Subsequence(a + [m], b + [m])
  {
    SubsequenceRefl([m]);
    SubsequenceConcat(a, [m], b, [m]);
  }

  lemma SubsequenceDrop(a: seq<Msg>, q: seq<Msg>, s: seq<Msg>)
    requires Subsequence(a + q, s) && q != []
    ensures Subsequence(a + q[1..], s)
  {
    assert Subsequence([], [q[0]]);
    hide Subsequence;
    SubsequenceRefl(a);
    SubsequenceRefl(q[1..]);
    SubsequenceConcat([], q[1..], [q[0]], q[1..]);
    assert [] + q[1..] == q[1..] && [q[0]] + q[1..] == q;
    SubsequenceConcat(a, q[1..], a, q);
    SubsequenceTrans(a + q[1..], a + q, s);
  }

  lemma LimitLossy(ch: Channel)
    requires Lossy(ch)
    ensures Lossy(QueueLimit(ch))
  {
    var r := QueueLimit(ch);
    if ch.count >= LIMIT && ch.queue != [] {
      assert Ordered(r) by { SubsequenceDrop(ch.handed, ch.queue, ch.offered); }
      assert Counted(r) by {
        hide Ordered, Exact, Latest, Subsequence;
        assert ch.queue == [ch.queue[0]] + ch.queue[1..];
      }
      assert Latest(r) by { hide Ordered, Exact, Counted, Subsequence; }
    }
  }

  function Enqueue(ch: Channel, m: Msg): Channel {
    ch.(queue := ch.queue + [m], offered := ch.offered + [m])
  }

  lemma EnqueueOrdered(ch: Channel, m: Msg)
    ensures Ordered(ch) ==> Ordered(Enqueue(ch, m))
    ensures Exact(ch) ==> Exact(Enqueue(ch, m))
  {
    assert ch.handed + (ch.queue + [m]) == ch.handed + ch.queue + [m];
    if Ordered(ch) { SubsequenceAppend(ch.handed + ch.queue, ch.offered, m); }
    hide Subsequence;
  }

  lemma EnqueueCounted(ch: Channel, m: Msg)
    ensures Counted(ch) ==> Counted(Enqueue(ch, m))
  {
  }

  lemma EnqueueLatest(ch: Channel, m: Msg)
    ensures Latest(ch) ==> Latest(Enqueue(ch, m))
  {
  }

  lemma EnqueueLossy(ch: Channel, m: Msg)
    requires Lossy(ch)
    ensures Lossy(Enqueue(ch, m))
  {
    EnqueueOrdered(ch, m);
    EnqueueCounted(ch, m);
    EnqueueLatest(ch, m);
    hide Ordered, Counted, Exact, Latest, Enqueue;
  }

  /** What sending changes in the eyes of the queue: the socket, the monitors and who got it */
  ghost predicate SameQueue(ch: Channel, r: Channel) {
    && r.queue == ch.queue && r.offered == ch.offered && r.handed == ch.handed
    && r.dropped == ch.dropped && r.purged == ch.purged
  }

  lemma SameLossy(ch: Channel, r: Channel)
    requires Lossy(ch) && SameQueue(ch, r)
    ensures Lossy(r)
  {
    hide Subsequence;
  }

  lemma SendSent(ch: Channel, m: Msg, a: Attempt)
    requires Sent(ch)
    ensures Sent(Send(ch, m, a))
  {
    SubsequenceAppend(ch.delivered, ch.handed, m);
    SubsequenceRefl(ch.delivered);
    assert Subsequence([], [m]);
    SubsequenceConcat(ch.delivered, [], ch.handed, [m]);
    assert ch.delivered + [] == ch.delivered;
    hide Subsequence;
  }

  lemma DirectLossy(ch: Channel, m: Msg)
    requires Lossy(ch) && ch.queue == []
    ensures Lossy(ch.(offered := ch.offered + [m], handed := ch.handed + [m]))
  {
    var r := ch.(offered := ch.offered + [m], handed := ch.handed + [m]);
    assert ch.handed + [] == ch.handed && r.handed + [] == ch.handed + [m];
    assert Ordered(r) by { SubsequenceAppend(ch.handed + ch.queue, ch.offered, m); }
    hide Ordered;
    assert Counted(r) by { hide Exact, Latest; }
  }

  /** Sending the first message of the queue */
  lemma ShiftLossy(ch: Channel)
    requires Lossy(ch) && ch.queue != []
    ensures var r := ch.(queue := ch.queue[1..], handed := ch.handed + [ch.queue[0]]);
      Lossy(r) && r.handed + r.queue == ch.handed + ch.queue
  {
    var r := ch.(queue := ch.queue[1..], handed := ch.handed + [ch.queue[0]]);
    assert ch.queue == [ch.queue[0]] + ch.queue[1..];
    assert r.handed + r.queue == ch.handed + ch.queue;
    hide Subsequence;
    assert Counted(r) by { hide Ordered, Exact, Latest; }
    assert Latest(r) by { hide Ordered, Exact, Counted; }
  }

  lemma OfferQueued(ch: Channel, m: Msg, a: Attempt)
    requires Queues(ch, a)
    ensures Offer(ch, m, a) == Enqueue(QueueLimit(ch.(count := ch.count + 1)), m)
  {
  }

  lemma CountLossy(ch: Channel, count: nat)
    requires Lossy(ch)
    ensures Lossy(ch.(count := count))
  {
    hide Subsequence;
  }

  lemma OfferLossy(ch: Channel, m: Msg, a: Attempt)
    requires Lossy(ch)
    ensures Lossy(Offer(ch, m, a))
  {
    hide Lossy, QueueLimit, Enqueue;
    if Queues(ch, a) {
      CountLossy(ch, ch.count + 1);
      LimitLossy(ch.(count := ch.count + 1));
      EnqueueLossy(QueueLimit(ch.(count := ch.count + 1)), m);
      OfferQueued(ch, m, a);
    } else {
      DirectLossy(ch, m);
      SameLossy(ch.(offered := ch.offered + [m], handed := ch.handed + [m]), Offer(ch, m, a));
    }
  }

  lemma OfferBounded(ch: Channel, m: Msg, a: Attempt)
    requires Bounded(ch)
    ensures Bounded(Offer(ch, m, a))
  {
  }

  lemma OfferSent(ch: Channel, m: Msg, a: Attempt)
    requires Sent(ch)
    ensures Sent(Offer(ch, m, a))
  {
    hide Subsequence;
    if !Queues(ch, a) {
      var o := ch.(offered := ch.offered + [m], count := 0);
      assert Sent(o);
      hide Sent;
      SendSent(o, m, a);
    }
  }

  lemma OfferFifo(ch: Channel, m: Msg, a: Attempt)
    requires Fifo(ch)
    ensures Fifo(Offer(ch, m, a))
  {
    hide Lossy, Bounded, Sent, Offer;
    OfferLossy(ch, m, a);
    OfferBounded(ch, m, a);
    OfferSent(ch, m, a);
  }

  lemma ShiftSent(ch: Channel, a: Attempt)
    requires ch.queue != [] && Sent(ch)
    ensures Sent(Shift(ch, a))
  {
    SendSent(ch, ch.queue[0], a);
    hide Subsequence, Send;
  }

  lemma ShiftBounded(ch: Channel, a: Attempt)
    requires ch.queue != [] && Bounded(ch)
    ensures Bounded(Shift(ch, a))
  {
  }

  lemma ShiftFifo(ch: Channel, a: Attempt)
    requires ch.queue != [] && Fifo(ch)
    ensures Fifo(Shift(ch, a)) && Shift(ch, a).handed + Shift(ch, a).queue == ch.handed + ch.queue
  {
    hide Sent, Bounded, Lossy;
    ShiftLossy(ch);
    SameLossy(ch.(queue := ch.queue[1..], handed := ch.handed + [ch.queue[0]]), Shift(ch, a));
    ShiftSent(ch, a);
    ShiftBounded(ch, a);
  }

  /** What a retransmission leaves: the same messages in the same order, and something to send
      only while the channel has a socket. */
  ghost predicate Drained(ch: Channel, r: Channel) {
    && r.offered == ch.offered && r.handed + r.queue == ch.handed + ch.queue
    && (r.queue != [] ==> r.open)
    && r.count == ch.count && r.dropped == ch.dropped && r.purged == ch.purged
    && Suffix(r.queue, ch.queue)
  }

  lemma {:induction false} DrainFifo(ch: Channel, attempts: seq<Attempt>)
    requires |attempts| >= |ch.queue| && Fifo(ch)
    ensures Fifo(Drain(ch, attempts)) && Drained(ch, Drain(ch, attempts))
    decreases |attempts|
  {
    hide Fifo;
    if ch.queue != [] && !Throttled(ch, attempts[0]) {
      ShiftFifo(ch, attempts[0]);
      DrainFifo(Shift(ch, attempts[0]), attempts[1..]);
    }
  }

  lemma {:induction false} SelectSubsequence(s: seq<Msg>, wpa: nat)
    ensures Subsequence(Select(s, wpa, false), s)
  {
    if s != [] {
      var t, m := s[..|s| - 1], s[|s| - 1];
      SelectSubsequence(t, wpa);
      if m.wpa == wpa {
        assert Select(s, wpa, false) == Select(t, wpa, false);
      } else {
        assert t + [m] == s;
        SubsequenceAppend(Select(t, wpa, false), t, m);
        hide Subsequence;
      }
    }
  }

  lemma {:induction false} SelectCounts(s: seq<Msg>, wpa: nat)
    ensures multiset(s) == multiset(Select(s, wpa, false)) + multiset(Select(s, wpa, true))
  {
    if s != [] {
      var t, m := s[..|s| - 1], s[|s| - 1];
      SelectCounts(t, wpa);
      assert s == t + [m];
    }
  }

  lemma PurgeOrdered(ch: Channel, wpa: nat)
    requires Ordered(ch)
    ensures Ordered(Purge(ch, wpa))
  {
    hide Subsequence;
    var q := Select(ch.queue, wpa, false);
    SelectSubsequence(ch.queue, wpa);
    SubsequenceRefl(ch.handed);
    SubsequenceConcat(ch.handed, q, ch.handed, ch.queue);
    SubsequenceTrans(ch.handed + q, ch.handed + ch.queue, ch.offered);
  }

  lemma PurgeCounted(ch: Channel, wpa: nat)
    requires Counted(ch)
    ensures Counted(Purge(ch, wpa))
  {
    SelectCounts(ch.queue, wpa);
  }

  lemma PurgeNothing(ch: Channel, wpa: nat)
    ensures Purge(ch, wpa).purged == [] ==> Purge(ch, wpa).queue == ch.queue && ch.purged == []
  {
    if Purge(ch, wpa).purged == [] {
      assert Select(ch.queue, wpa, true) == [];
      NothingOwn(ch.queue, wpa);
    }
  }

  lemma PurgeExact(ch: Channel, wpa: nat)
    ensures Exact(ch) ==> Exact(Purge(ch, wpa))
    ensures Latest(ch) ==> Latest(Purge(ch, wpa))
  {
    PurgeNothing(ch, wpa);
    hide Suffix, Select;
  }

  lemma PurgeBounded(ch: Channel, wpa: nat)
    requires Bounded(ch)
    ensures Bounded(Purge(ch, wpa))
  {
    hide Select;
  }

  lemma PurgeFifo(ch: Channel, wpa: nat)
    requires Fifo(ch)
    ensures Fifo(Purge(ch, wpa))
  {
    PurgeSent(ch, wpa);
    hide Ordered, Counted, Exact, Latest, Bounded, Sent, Purge;
    PurgeOrdered(ch, wpa);
    PurgeCounted(ch, wpa);
    PurgeExact(ch, wpa);
    PurgeBounded(ch, wpa);
  }

  lemma PurgeSent(ch: Channel, wpa: nat)
    requires Sent(ch)
    ensures Sent(Purge(ch, wpa))
  {
    hide Subsequence, Select;
  }

  lemma {:induction false} NothingOwn(s: seq<Msg>, wpa: nat)
    requires Select(s, wpa, true) == []
    ensures Select(s, wpa, false) == s
  {
    if s != [] { NothingOwn(s[..|s| - 1], wpa); }
  }
}
