/** The short-scan budget of bgscan_simple.c. */
module BackgroundScan {
  import opened Collections

  /** struct bgscan_simple_data; timers holds the delays of the registered scan timeouts. */
  datatype Data = Data(
    interval: nat, threshold: int, count: nat, maxShort: nat, short: nat, long: nat,
    lastScan: int, timers: multiset<nat>)

  function Register(d: Data, delay: nat): Data {
    d.(timers := d.timers + multiset{delay})
  }

  /** eloop_cancel_timeout, then eloop_register_timeout */
  function Restart(d: Data, delay: nat): Data {
    d.(timers := multiset{delay})
  }

  function Interval(v: int): (r: nat)
    ensures r > 0
  {
    if v <= 0 then 30 else v
  }

  /** bgscan_simple_init, for the parsed parameters; signal is the polled signal, if any */
  function Init(short: int, threshold: int, long: int, signal: Option<int>, now: int): Data {
    var s, l := Interval(short), Interval(long);
    var strong := threshold != 0 && signal.Some? && signal.value >= threshold;
    var interval := if strong then l else s;
    Data(interval, threshold, 0, l / s + 1, s, l, now, multiset{interval})
  }

  /** bgscan_simple_timeout, once its registration has expired; ok is the outcome of the scan
      request */
  function Timeout(d: Data, delay: nat, ok: bool, now: int): Data {
    var e := d.(timers := d.timers - multiset{delay});
    if !ok then Register(e, e.interval)
    else Scanned(e).(lastScan := now)
  }

  function Scanned(d: Data): Data {
    if d.interval == d.short then
      var c := d.count + 1;
      if c > d.maxShort then d.(count := c, interval := d.long) else d.(count := c)
    else if d.count > 0 then d.(count := d.count - 1)
    else d
  }

  /** bgscan_simple_notify_scan */
  function NotifyScan(d: Data): Data {
    Restart(d, d.interval)
  }

  /** bgscan_simple_notify_signal_change */
  function SignalChange(d: Data, above: bool, now: int): Data {
    if d.short == d.long || d.threshold == 0 then d
    else if d.interval == d.long && !above then
      var e := d.(interval := d.short);
      if now > d.lastScan + 1 && d.count <= d.maxShort then Restart(e, 0)
      else if d.lastScan + d.long > now + d.short then Restart(e, d.short)
      else e
    else if d.interval == d.short && above then Restart(d.(interval := d.long), d.long)
    else if !above && now > d.lastScan + 10 then Restart(d, 0)
    else d
  }

  datatype Event =
    | EvTimeout(delay: nat, ok: bool, now: int)
    | EvScan(elapsed: nat)            // how long the timer had run, if one was registered
    | EvSignal(above: bool, now: int)

  predicate Enabled(d: Data, ev: Event) {
    match ev
    case EvTimeout(delay, _, _) => delay in d.timers
    case EvScan(elapsed) => elapsed == 0 || exists t :: t in d.timers && elapsed <= t
    case _ => true
  }

  function Step(d: Data, ev: Event): Data {
    match ev
    case EvTimeout(delay, ok, now) => Timeout(d, delay, ok, now)
    case EvScan(_) => NotifyScan(d)
    case EvSignal(above, now) => SignalChange(d, above, now)
  }

  predicate Feasible(d: Data, run: seq<Event>)
    decreases |run|
  {
    run == [] || (Enabled(d, run[0]) && Feasible(Step(d, run[0]), run[1..]))
  }

  function Run(d: Data, run: seq<Event>): Data
    decreases |run|
  {
    if run == [] then d else Run(Step(d, run[0]), run[1..])
  }

  // --- every run -------------------------------------------------------------

  ghost predicate Inv(d: Data) {
    && d.short > 0 && d.long > 0 && d.maxShort == d.long / d.short + 1
    && (d.interval == d.short || d.interval == d.long) && |d.timers| <= 1
  }

  lemma StepInv(d: Data, ev: Event)
    requires Inv(d) && Enabled(d, ev)
    ensures Inv(Step(d, ev))
  {
    if ev.EvTimeout? {
      assert |d.timers - multiset{ev.delay}| == |d.timers| - 1;
    }
  }

  lemma {:induction false} RunInv(d: Data, run: seq<Event>)
    requires Inv(d) && Feasible(d, run)
    ensures Inv(Run(d, run))
    decreases |run|
  {
    hide Inv, Step, Enabled;
    if run != [] {
      StepInv(d, run[0]);
      RunInv(Step(d, run[0]), run[1..]);
    }
  }

  /** At most one scan timer is registered at any time, and the interval is one of the two. */
  lemma SingleTimer(short: int, threshold: int, long: int, signal: Option<int>, now: int, run: seq<Event>)
    requires Feasible(Init(short, threshold, long, signal, now), run)
    ensures var d := Run(Init(short, threshold, long, signal, now), run);
      |d.timers| <= 1 && (d.interval == d.short || d.interval == d.long)
  {
    RunInv(Init(short, threshold, long, signal, now), run);
  }

  // --- the budget ------------------------------------------------------------

  /** The successful scans at the short interval that are left before the long one is used */
  function Budget(d: Data): (n: nat) {
    if d.interval != d.short then 0
    else if d.count > d.maxShort then 1
    else d.maxShort + 1 - d.count
  }

  predicate ShortScan(d: Data, ev: Event) {
    ev.EvTimeout? && ev.ok && d.interval == d.short
  }

  function ShortScans(d: Data, run: seq<Event>): nat
    decreases |run|
  {
    if run == [] then 0
    else (if ShortScan(d, run[0]) then 1 else 0) + ShortScans(Step(d, run[0]), run[1..])
  }

  predicate Quiet(run: seq<Event>) {
    forall i | 0 <= i < |run| :: !run[i].EvSignal?
  }

  /** One event: a successful scan at the short interval uses up one of the budget. */
  lemma BudgetStep(d: Data, ev: Event)
    requires d.short != d.long && (d.interval == d.short || d.interval == d.long) && !ev.EvSignal?
    ensures var e := Step(d, ev);
      && e.short == d.short && e.long == d.long && (e.interval == e.short || e.interval == e.long)
      && Budget(e) == Budget(d) - (if ShortScan(d, ev) then 1 else 0)
  {
  }

  lemma BudgetZero(d: Data)
    requires d.short != d.long && (d.interval == d.short || d.interval == d.long)
    ensures Budget(d) == 0 <==> d.interval == d.long
  {
  }

  /** Without signal events, every successful scan at the short interval uses up one of the
      budget: exactly when it is spent the interval is long, and stays so. */
  lemma {:induction false} BudgetSpent(d: Data, run: seq<Event>)
    requires d.short != d.long && (d.interval == d.short || d.interval == d.long) && Quiet(run)
    ensures ShortScans(d, run) + Budget(Run(d, run)) == Budget(d)
    ensures Run(d, run).interval == d.long <==> ShortScans(d, run) == Budget(d)
    ensures Run(d, run).long == d.long && Run(d, run).short == d.short
    decreases |run|
  {
    hide Step, Budget, ShortScan;
    BudgetZero(d);
    if run != [] {
      assert !run[0].EvSignal?;
      assert forall i | 0 <= i < |run[1..]| :: run[1..][i] == run[i + 1];
      BudgetStep(d, run[0]);
      BudgetSpent(Step(d, run[0]), run[1..]);
    }
  }

  lemma {:induction false} ShortTime(long: nat, short: nat)
    requires short > 0
    ensures long + short < (long / short + 2) * short <= long + 2 * short
  {
    assert long == short * (long / short) + long % short;
    assert (long / short + 2) * short == short * (long / short) + 2 * short;
  }

  predicate Failure(d: Data, ev: Event) {
    ev.EvTimeout? && !ev.ok && d.interval == d.short
  }

  /** The scan requests that fail while the interval is short */
  function ShortFailures(d: Data, run: seq<Event>): nat
    decreases |run|
  {
    if run == [] then 0
    else (if Failure(d, run[0]) then 1 else 0) + ShortFailures(Step(d, run[0]), run[1..])
  }

  /** The delays of the timers that expire while the interval is short, in all: waits that a restart
      cuts short are not in it */
  function ShortWait(d: Data, run: seq<Event>): nat
    decreases |run|
  {
    if run == [] then 0
    else (if run[0].EvTimeout? && d.interval == d.short then run[0].delay else 0)
         + ShortWait(Step(d, run[0]), run[1..])
  }

  /** Whatever is waited for, is waited for at the current interval. */
  ghost predicate AtInterval(d: Data) {
    forall t | t in d.timers :: t == d.interval
  }

  lemma QuietStep(d: Data, ev: Event)
    requires Inv(d) && AtInterval(d) && Enabled(d, ev) && !ev.EvSignal?
    ensures AtInterval(Step(d, ev)) && (ev.EvTimeout? ==> ev.delay == d.interval)
  {
    if ev.EvTimeout? {
      assert d.timers[ev.delay] >= 1 && |d.timers| <= 1;
      assert |d.timers - multiset{ev.delay}| == 0;
    }
  }

  /** What one event adds to the waits and to the scans and failures that they end in */
  lemma WaitStep(d: Data, run: seq<Event>)
    requires run != []
    ensures var e := Step(d, run[0]); var wait := run[0].EvTimeout? && d.interval == d.short;
      && ShortWait(d, run) == (if wait then run[0].delay else 0) + ShortWait(e, run[1..])
      && ShortScans(d, run) + ShortFailures(d, run)
         == ShortScans(e, run[1..]) + ShortFailures(e, run[1..]) + (if wait then 1 else 0)
  {
  }

  lemma SameShort(d: Data, ev: Event)
    ensures Step(d, ev).short == d.short
  {
  }

  /** Without signal events, every wait that expires at the short interval takes that interval, and
      ends in a scan or a failed request. */
  lemma {:induction false} WaitsCounted(d: Data, run: seq<Event>)
    requires Inv(d) && AtInterval(d) && Feasible(d, run) && Quiet(run)
    ensures ShortWait(d, run) == Times(ShortScans(d, run) + ShortFailures(d, run), d.short)
    decreases |run|
  {
    hide Inv, AtInterval, Step, Enabled;
    if run != [] {
      var e := Step(d, run[0]);
      var rest := run[1..];
      assert !run[0].EvSignal?;
      assert forall i | 0 <= i < |rest| :: rest[i] == run[i + 1];
      QuietStep(d, run[0]);
      StepInv(d, run[0]);
      SameShort(d, run[0]);
      WaitsCounted(e, rest);
      WaitStep(d, run);
      var n := ShortScans(e, rest) + ShortFailures(e, rest);
      hide ShortWait, ShortScans, ShortFailures, Feasible, Quiet;
      if run[0].EvTimeout? && d.interval == d.short {
        assert ShortWait(d, run) == d.short + Times(n, d.short);
        assert Times(n + 1, d.short) == d.short + Times(n, d.short);
      } else {
        assert ShortWait(d, run) == Times(n, d.short);
      }
    }
  }

  /** n intervals of s seconds */
  function Times(n: nat, s: nat): nat {
    if n == 0 then 0 else s + Times(n - 1, s)
  }

  lemma {:induction false} TimesIs(n: nat, s: nat)
    ensures Times(n, s) == n * s
  {
    if n > 0 { TimesIs(n - 1, s); }
  }

  /** A scan that someone else asked for restarts a timer that is running at the short interval. */
  predicate Restarted(d: Data, ev: Event) {
    ev.EvScan? && d.interval == d.short && d.timers != multiset{}
  }

  function ShortRestarts(d: Data, run: seq<Event>): nat
    decreases |run|
  {
    if run == [] then 0
    else (if Restarted(d, run[0]) then 1 else 0) + ShortRestarts(Step(d, run[0]), run[1..])
  }

  /** The time that had passed, in all, when timers were restarted at the short interval */
  function ShortInterrupted(d: Data, run: seq<Event>): nat
    decreases |run|
  {
    if run == [] then 0
    else (if run[0].EvScan? && d.interval == d.short then run[0].elapsed else 0)
         + ShortInterrupted(Step(d, run[0]), run[1..])
  }

  lemma RestartStep(d: Data, run: seq<Event>)
    requires run != [] && AtInterval(d) && Enabled(d, run[0])
    ensures var e := Step(d, run[0]); var again := Restarted(d, run[0]);
      && ShortRestarts(d, run) == ShortRestarts(e, run[1..]) + (if again then 1 else 0)
      && ShortInterrupted(d, run) <= ShortInterrupted(e, run[1..]) + (if again then d.short else 0)
  {
  }

  /** Each restart cuts a wait short that had lasted no longer than the short interval. */
  lemma {:induction false} RestartsCounted(d: Data, run: seq<Event>)
    requires Inv(d) && AtInterval(d) && Feasible(d, run) && Quiet(run)
    ensures ShortInterrupted(d, run) <= Times(ShortRestarts(d, run), d.short)
    decreases |run|
  {
    hide Inv, AtInterval, Step, Enabled;
    if run != [] {
      var e := Step(d, run[0]);
      var rest := run[1..];
      assert !run[0].EvSignal?;
      assert forall i | 0 <= i < |rest| :: rest[i] == run[i + 1];
      QuietStep(d, run[0]);
      StepInv(d, run[0]);
      SameShort(d, run[0]);
      RestartsCounted(e, rest);
      RestartStep(d, run);
      var n := ShortRestarts(e, rest);
      hide ShortRestarts, ShortInterrupted, Restarted, Feasible, Quiet;
      assert Times(n + 1, d.short) == d.short + Times(n, d.short);
    }
  }

  lemma Sum(a: nat, b: nat, s: nat)
    ensures (a + b) * s == a * s + b * s
  {
  }

  lemma WaitBound(n: nat, b: nat, f: nat, r: nat, s: nat, long: nat, expired: nat, cut: nat)
    requires n <= b && b * s <= long + 2 * s && expired == (n + f) * s && cut <= r * s
    ensures expired + cut <= long + 2 * s + (f + r) * s
  {
    Scale(n, b, s);
    Sum(n, f, s);
    Sum(f, r, s);
  }

  /** The time waited at the short interval, whether a wait expired or was cut short, is at most a
      long interval and two short ones, and one short one for each scan request that fails and
      for each restart that someone else's scan causes. */
  lemma ShortWaiting(short: int, threshold: int, long: int, signal: Option<int>, now: int, run: seq<Event>)
    requires Interval(short) != Interval(long)
    requires Quiet(run) && Feasible(Init(short, threshold, long, signal, now), run)
    ensures var d := Init(short, threshold, long, signal, now);
      ShortWait(d, run) + ShortInterrupted(d, run)
      <= d.long + 2 * d.short + (ShortFailures(d, run) + ShortRestarts(d, run)) * d.short
  {
    var d := Init(short, threshold, long, signal, now);
    BudgetSpent(d, run);
    ShortTime(d.long, d.short);
    WaitsCounted(d, run);
    RestartsCounted(d, run);
    TimesIs(ShortScans(d, run) + ShortFailures(d, run), d.short);
    TimesIs(ShortRestarts(d, run), d.short);
    hide Quiet, Feasible, ShortScans, ShortFailures, ShortRestarts, ShortWait, ShortInterrupted, Times, Run;
    WaitBound(ShortScans(d, run), d.long / d.short + 2, ShortFailures(d, run), ShortRestarts(d, run), d.short, d.long,
              ShortWait(d, run), ShortInterrupted(d, run));
  }

  /** Whenever the long interval is reached without signal events, the short scans have taken
      longer than a long interval and a short one. */
  lemma ShortOverrun(short: int, threshold: int, long: int, signal: Option<int>, now: int, run: seq<Event>)
    requires Interval(short) != Interval(long)
    requires Quiet(run) && Feasible(Init(short, threshold, long, signal, now), run)
    ensures var d := Init(short, threshold, long, signal, now);
      d.interval == d.short && Run(d, run).interval == d.long ==> ShortWait(d, run) > d.long + d.short
  {
    var d := Init(short, threshold, long, signal, now);
    BudgetSpent(d, run);
    ShortTime(d.long, d.short);
    WaitsCounted(d, run);
    var n, f := ShortScans(d, run), ShortFailures(d, run);
    TimesIs(n + f, d.short);
    Scale(n, n + f, d.short);
  }

  lemma Scale(n: nat, b: nat, s: nat)
    requires n <= b
    ensures n * s <= b * s
  {
  }

  /** At the long interval, quiet successful scans pay the count back one by one. */
  lemma {:induction false} PaidBack(d: Data, run: seq<Event>)
    requires d.short != d.long && d.interval == d.long
    requires forall i | 0 <= i < |run| :: run[i].EvTimeout? && run[i].ok
    ensures Run(d, run).count == if d.count >= |run| then d.count - |run| else 0
    decreases |run|
  {
    if run != [] {
      assert forall i | 0 <= i < |run[1..]| :: run[1..][i] == run[i + 1];
      PaidBack(Step(d, run[0]), run[1..]);
    }
  }

  // --- the handlers ----------------------------------------------------------

  class SimpleData {
    var interval: nat
    var threshold: int
    var count: nat
    var maxShort: nat
    var short: nat
    var long: nat
    var lastScan: int
    var timers: multiset<nat>

    function View(): Data
      reads this
    {
      Data(interval, threshold, count, maxShort, short, long, lastScan, timers)
    }

    constructor (shortParam: int, signalThreshold: int, longParam: int, signal: Option<int>, now: int)
      ensures View() == Init(shortParam, signalThreshold, longParam, signal, now)
    {
      var s, l := shortParam, longParam;
      if s <= 0 { s := 30; }
      if l <= 0 { l := 30; }
      var i := s;
      if signalThreshold != 0 {
        if signal.Some? && signal.value >= signalThreshold { i := l; }
      }
      short, long, threshold, count, lastScan := s, l, signalThreshold, 0, now;
      interval, maxShort, timers := i, l / s + 1, multiset{i};
    }

    method CountScan()
      modifies `count, `interval
      ensures View() == Scanned(old(View()))
    {
      if interval == short {
        count := count + 1;
        if count > maxShort { interval := long; }
      } else if count > 0 {
        count := count - 1;
      }
    }

    method HandleTimeout(delay: nat, ok: bool, now: int)
      requires delay in timers
      modifies this
      ensures View() == Timeout(old(View()), delay, ok, now)
    {
      hide Scanned;
      timers := timers - multiset{delay};
      if !ok {
        timers := timers + multiset{interval};
      } else {
        CountScan();
        lastScan := now;
      }
    }

    /** eloop_cancel_timeout, then eloop_register_timeout */
    method RestartTimer(delay: nat)
      modifies `timers
      ensures View() == Restart(old(View()), delay)
    {
      timers := multiset{};
      timers := timers + multiset{delay};
    }

    method HandleScan()
      modifies this
      ensures View() == NotifyScan(old(View()))
    {
      RestartTimer(interval);
    }

    method HandleSignal(above: bool, now: int)
      modifies this
      ensures View() == SignalChange(old(View()), above, now)
    {
      var scan := false;
      if short == long || threshold == 0 { return; }
      if interval == long && !above {
        interval := short;
        if now > lastScan + 1 && count <= maxShort {
          scan := true;
        } else if lastScan + long > now + interval {
          RestartTimer(interval);
        }
      } else if interval == short && above {
        interval := long;
        RestartTimer(interval);
      } else if !above {
        if now > lastScan + 10 { scan := true; }
      }
      if scan {
        RestartTimer(0);
      }
    }
  }
}
