/** Signal events in bgscan_simple.c, and the short-scan budget over runs that have them. */
module BackgroundSignals {
  import opened Collections
  import opened BackgroundScan

  /** There are two intervals to choose from, and a threshold to choose by. */
  predicate Adaptive(d: Data) {
    d.short != d.long && d.threshold != 0 && (d.interval == d.short || d.interval == d.long)
  }

  // --- one signal event ------------------------------------------------------

  /** A weak signal asks for a scan at once unless a scan was requested just before: in the last
      second or, at the short interval already, in the last ten. A fall from the long interval
      must be within the budget besides. */
  predicate ScanDue(d: Data, above: bool, now: int) {
    !above &&
    if d.interval == d.long then now - d.lastScan > 1 && d.count <= d.maxShort else now - d.lastScan > 10
  }

  /** A fall that asks for no scan makes the next one wait for a short interval, when the scan that is
      due a long interval behind the last one is later than that. */
  predicate Hastened(d: Data, above: bool, now: int) {
    !above && d.interval == d.long && !ScanDue(d, above, now) && d.lastScan + d.long > now + d.short
  }

  /** The long interval belongs to a strong signal, the short one to a weak one. */
  lemma SignalInterval(d: Data, above: bool, now: int)
    requires Adaptive(d)
    ensures var e := Step(d, EvSignal(above, now));
      && (e.interval == d.long <==> above) && (e.interval == d.short <==> !above)
      && e.count == d.count && e.lastScan == d.lastScan
      && Adaptive(e) && e.short == d.short && e.long == d.long && e.maxShort == d.maxShort
  {
  }

  /** The only timer is one that expires at once if and only if a scan is due, or it was so before
      and the event restarts nothing; a rise restarts the timer at the long interval, a fall may at
      the short one. */
  lemma SignalTimer(d: Data, above: bool, now: int)
    requires Adaptive(d) && d.short > 0 && d.long > 0
    ensures var e := Step(d, EvSignal(above, now)); var rise := above && d.interval == d.short;
      && (e.timers == multiset{0} <==>
          ScanDue(d, above, now) || (d.timers == multiset{0} && !rise && !Hastened(d, above, now)))
      && (rise ==> e.timers == multiset{d.long})
      && (Hastened(d, above, now) ==> e.timers == multiset{d.short})
      && (!ScanDue(d, above, now) && !rise && !Hastened(d, above, now) ==> e.timers == d.timers)
  {
    assert forall x: nat, y: nat :: multiset{x} == multiset{y} ==> x in multiset{y};
  }

  /** With one interval, or without a threshold, nothing changes. */
  lemma SignalIgnored(d: Data, above: bool, now: int)
    requires d.short == d.long || d.threshold == 0
    ensures Step(d, EvSignal(above, now)) == d
  {
  }

  /** When the next scan is requested, for a timer of the long interval that runs since then */
  function NextScan(d: Data, e: Data, since: int, now: int): int {
    if e.timers == multiset{0} then now
    else if e.timers == d.timers then since + d.long
    else now + d.short
  }

  /** After a fall the next scan comes within a short interval if and only if it is due at once, or
      was, or is moved. It is not when the timer was restarted behind the last request, by the
      results of a scan, because the code looks at the time of that request. */
  lemma FallScansSoon(d: Data, since: int, now: int)
    requires Adaptive(d) && 0 < d.short < d.long && d.interval == d.long && d.timers == multiset{d.long}
    ensures var e := Step(d, EvSignal(false, now));
      NextScan(d, e, since, now) <= now + d.short <==>
        ScanDue(d, false, now) || since + d.long <= now + d.short || d.lastScan + d.long > now + d.short
  {
    SignalTimer(d, false, now);
    assert multiset{0} != multiset{d.long} by { assert 0 !in multiset{d.long}; }
    assert multiset{d.short} != multiset{d.long} by { assert d.short !in multiset{d.long}; }
    assert multiset{d.short} != multiset{0} by { assert d.short !in multiset{0}; }
    hide Step;
  }

  /** A timer that runs since the last request is never left too late. */
  lemma FallScansInTime(d: Data, now: int)
    requires Adaptive(d) && 0 < d.short < d.long && d.interval == d.long && d.timers == multiset{d.long}
    ensures NextScan(d, Step(d, EvSignal(false, now)), d.lastScan, now) <= now + d.short
  {
    hide Step, NextScan;
    FallScansSoon(d, d.lastScan, now);
  }

  /** A scan requested at 0 used up the budget, its results restarted the timer of 300 seconds at 5, and
      the signal falls at 292: the next scan stays at 305, although a short interval takes 10. */
  lemma FallScansLate()
    ensures var d := Data(300, -70, 32, 31, 10, 300, 0, multiset{300});
      NextScan(d, Step(d, EvSignal(false, 292)), 5, 292) == 305 > 292 + d.short
  {
    assert multiset{300} != multiset{0} by { assert 300 !in multiset{0}; }
  }

  // --- the timer -------------------------------------------------------------

  /** A failed request and the results of a scan start the wait of one current interval; while a
      scan that was requested runs, nothing is waited for. */
  lemma TimerAfter(d: Data, ev: BackgroundScan.Event)
    requires Inv(d) && Enabled(d, ev) && !ev.EvSignal?
    ensures var e := Step(d, ev);
      e.timers == if ev.EvTimeout? && ev.ok then multiset{} else multiset{e.interval}
  {
    if ev.EvTimeout? {
      assert d.timers[ev.delay] >= 1 && |d.timers| <= 1;
      assert |d.timers - multiset{ev.delay}| == 0;
    }
  }

  // --- runs ------------------------------------------------------------------

  lemma {:induction false} RunAppend(d: Data, a: seq<Event>, b: seq<Event>)
    ensures Run(d, a + b) == Run(Run(d, a), b)
    decreases |a|
  {
    hide Step;
    if a == [] {
      assert a + b == b;
    } else {
      assert (a + b)[1..] == a[1..] + b;
      RunAppend(Step(d, a[0]), a[1..], b);
    }
  }

  lemma RunOne(d: Data, ev: Event)
    ensures Run(d, [ev]) == Step(d, ev)
  {
    assert [ev][1..] == [];
  }

  lemma RunLast(d: Data, run: seq<Event>)
    requires run != []
    ensures Run(d, run) == Step(Run(d, run[..|run| - 1]), run[|run| - 1])
  {
    var m := |run| - 1;
    assert run[..m] + [run[m]] == run;
    RunAppend(d, run[..m], [run[m]]);
    RunOne(Run(d, run[..m]), run[m]);
  }

  lemma StepAdaptive(d: Data, ev: Event)
    requires Adaptive(d)
    ensures var e := Step(d, ev);
      Adaptive(e) && e.short == d.short && e.long == d.long && e.maxShort == d.maxShort
  {
  }

  lemma {:induction false} RunAdaptive(d: Data, run: seq<Event>)
    requires Adaptive(d)
    ensures var e := Run(d, run);
      Adaptive(e) && e.short == d.short && e.long == d.long && e.maxShort == d.maxShort
    decreases |run|
  {
    hide Step, Adaptive;
    if run != [] {
      StepAdaptive(d, run[0]);
      RunAdaptive(Step(d, run[0]), run[1..]);
    }
  }

  // --- the time of the last request ------------------------------------------

  /** The time of the last scan request of the run that succeeded, or else what it was before */
  function LastRequest(before: int, run: seq<Event>): int {
    if run == [] then before
    else
      var ev := run[|run| - 1];
      if ev.EvTimeout? && ev.ok then ev.now else LastRequest(before, run[..|run| - 1])
  }

  lemma {:induction false} LastScanIs(d: Data, run: seq<Event>)
    ensures Run(d, run).lastScan == LastRequest(d.lastScan, run)
    decreases |run|
  {
    if run != [] {
      RunLast(d, run);
      LastScanIs(d, run[..|run| - 1]);
    }
  }

  // --- the count -------------------------------------------------------------

  /** What a successful scan does to the balance of short scans against long ones */
  function Worth(d: Data, ev: Event): int {
    if ev.EvTimeout? && ev.ok then (if d.interval == d.short then 1 else -1) else 0
  }

  /** The successful scans of the run at the short interval, less those at the long one */
  function Balance(d: Data, run: seq<Event>): int {
    if run == [] then 0
    else
      var m := |run| - 1;
      Balance(d, run[..m]) + Worth(Run(d, run[..m]), run[m])
  }

  /** The balance of the events from position k on */
  function BalanceFrom(d: Data, run: seq<Event>, k: nat): int
    requires k <= |run|
  {
    Balance(d, run) - Balance(d, run[..k])
  }

  lemma CountStep(d: Data, ev: Event)
    ensures Step(d, ev).count == if d.count + Worth(d, ev) > 0 then d.count + Worth(d, ev) else 0
  {
  }

  /** c is at least the balance of every last part of the run, and the largest of them. */
  ghost predicate LargestBalance(d: Data, run: seq<Event>, c: int) {
    && c >= d.count + Balance(d, run)
    && (forall k | 0 <= k <= |run| :: c >= BalanceFrom(d, run, k))
    && (c == d.count + Balance(d, run) || exists k :: 0 <= k <= |run| && c == BalanceFrom(d, run, k))
  }

  lemma BalanceNext(d: Data, run: seq<Event>, ev: Event, k: nat)
    requires k <= |run|
    ensures BalanceFrom(d, run + [ev], k) == BalanceFrom(d, run, k) + Worth(Run(d, run), ev)
    ensures Balance(d, run + [ev]) == Balance(d, run) + Worth(Run(d, run), ev)
    ensures BalanceFrom(d, run + [ev], |run| + 1) == 0
  {
    var s := run + [ev];
    assert s[..|run|] == run && s[..k] == run[..k] && s[..|run| + 1] == s;
    hide Run, Worth;
  }

  lemma LargestNext(d: Data, run: seq<Event>, ev: Event, c: nat, w: int)
    requires LargestBalance(d, run, c) && w == Worth(Run(d, run), ev)
    ensures LargestBalance(d, run + [ev], if c + w > 0 then c + w else 0)
  {
    hide Run, Worth, Balance, BalanceFrom;
    var s, e: int := run + [ev], if c + w > 0 then c + w else 0;
    BalanceNext(d, run, ev, 0);
    forall k | 0 <= k <= |s| ensures e >= BalanceFrom(d, s, k) {
      if k <= |run| { BalanceNext(d, run, ev, k); }
    }
    if c + w > 0 {
      if c != d.count + Balance(d, run) {
        var k :| 0 <= k <= |run| && c == BalanceFrom(d, run, k);
        BalanceNext(d, run, ev, k);
        assert e == BalanceFrom(d, s, k);
      }
    } else {
      assert e == BalanceFrom(d, s, |s|);
    }
  }

  /** The count over every run, signal events included: a successful scan at the short interval is
      charged, one at the long interval pays one back, and nothing is saved up below zero. So the
      count is the largest balance of any last part of the run, the empty one included, or of the
      whole on top of what was charged before it. */
  lemma {:induction false} CountIsLargestBalance(d: Data, run: seq<Event>)
    ensures LargestBalance(d, run, Run(d, run).count)
    decreases |run|
  {
    if run == [] {
      assert BalanceFrom(d, run, 0) == 0;
    } else {
      var m := |run| - 1;
      var r, ev := run[..m], run[m];
      assert r + [ev] == run;
      CountIsLargestBalance(d, r);
      RunLast(d, run);
      CountStep(Run(d, r), ev);
      LargestNext(d, r, ev, Run(d, r).count, Worth(Run(d, r), ev));
    }
  }

  /** What a signal event leaves of the budget */
  function BudgetAfter(d: Data, above: bool): nat {
    if above then 0 else if d.count > d.maxShort then 1 else d.maxShort + 1 - d.count
  }

  /** The budget over every run with signal events: behind the last of them, each successful scan at
      the short interval uses up one of what the event left, and the interval is long if and only
      if that is spent. A strong signal leaves nothing, a weak one what the count so far does not
      take, and never less than one. */
  lemma BudgetAfterSignal(d: Data, run: seq<Event>, above: bool, now: int, quiet: seq<Event>)
    requires Adaptive(d) && Quiet(quiet)
    ensures var b := Run(d, run); var s := Step(b, EvSignal(above, now));
      var e := Run(d, run + [EvSignal(above, now)] + quiet);
      && ShortScans(s, quiet) + Budget(e) == BudgetAfter(b, above)
      && (e.interval == d.long <==> ShortScans(s, quiet) == BudgetAfter(b, above))
  {
    var b, ev := Run(d, run), EvSignal(above, now);
    var s := Step(b, ev);
    RunAdaptive(d, run);
    SignalInterval(b, above, now);
    RunAppend(d, run + [ev], quiet);
    RunAppend(d, run, [ev]);
    RunOne(b, ev);
    assert Budget(s) == BudgetAfter(b, above);
    hide Step, Budget, Quiet, ShortScans;
    BudgetSpent(s, quiet);
  }

  // --- the start -------------------------------------------------------------

  /** Parameters that are missing or not positive count as 30 seconds; the first interval is the long
      one if and only if the polled signal reaches the threshold, and is waited for. */
  lemma InitInterval(short: int, threshold: int, long: int, signal: Option<int>, now: int)
    requires Interval(short) != Interval(long)
    ensures var d := Init(short, threshold, long, signal, now);
      && d.short == (if short > 0 then short else 30) && d.long == (if long > 0 then long else 30)
      && (d.interval == d.long <==> threshold != 0 && signal.Some? && signal.value >= threshold)
      && d.timers == multiset{d.interval} && d.count == 0 && d.lastScan == now
      && (threshold != 0 ==> Adaptive(d)) && Inv(d)
  {
  }
}
