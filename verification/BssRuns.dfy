/** Runs of the BSS table: every function of bss.c that changes it, called in any order. */
module BssRuns {
  import opened Collections
  import opened BssModel
  import opened BssInvariants

  // --- the expiry and flush loops as filters ---------------------------------

  /** Equal in all that the loops consult besides the entries. */
  ghost predicate SameContext(c: Table, t: Table) {
    && c.nextId == t.nextId && c.updateIdx == t.updateIdx && c.conf == t.conf
    && c.current == t.current && c.bssid == t.bssid && c.pending == t.pending
  }

  /** What is left of list after the expiry loop: missed entries counted, expired ones gone. */
  function Ends(c: Table, info: Option<ScanInfo>, list: seq<Entry>): seq<Entry> {
    if list == [] then []
    else (if Expired(c, info, list[0]) then [] else [Missed(c, info, list[0])]) + Ends(c, info, list[1..])
  }

  function UsedOnly(c: Table, list: seq<Entry>): seq<Entry> {
    if list == [] then []
    else (if InUse(c, list[0]) then [list[0]] else []) + UsedOnly(c, list[1..])
  }

  /** In-use entries, and from the first young entry that is not in use on, all entries. */
  function Younger(c: Table, limit: Time, list: seq<Entry>): seq<Entry> {
    if list == [] then []
    else if InUse(c, list[0]) then [list[0]] + Younger(c, limit, list[1..])
    else if Before(list[0].lastUpdate, limit) then Younger(c, limit, list[1..])
    else list
  }

  /** What a removal loop guarantees besides the entries it leaves. */
  ghost predicate Shrunk(t: Table, u: Table) {
    Inv(u) && SameContext(t, u) && Shrinks(t, u) && (UniqueKeys(t) ==> UniqueKeys(u)) && u.num <= t.num
  }

  /** The same entry with other measurements. */
  predicate SameSighting(e: Entry, f: Entry) {
    e.id == f.id && e.lastIdx == f.lastIdx && e.bssid == f.bssid && e.ssid == f.ssid
  }

  lemma SetLinked(t: Table, k: nat, e: Entry)
    requires Linked(t) && k < |t.list| && SameSighting(e, t.list[k])
    ensures Linked(t.(list := t.list[k := e]))
  {
    assert Ids(t.list[k := e]) == Ids(t.list);
  }

  lemma SetRound(t: Table, k: nat, e: Entry)
    requires Ordered(t) && RoundExact(t) && k < |t.list| && SameSighting(e, t.list[k])
    ensures var u := t.(list := t.list[k := e]); Ordered(u) && RoundExact(u)
  {
  }

  lemma SetUnique(list: seq<Entry>, k: nat, e: Entry)
    requires UniqueList(list) && k < |list| && SameSighting(e, list[k])
    ensures UniqueList(list[k := e])
  {
  }

  lemma SetShrunk(t: Table, k: nat, e: Entry)
    requires Inv(t) && k < |t.list| && SameSighting(e, t.list[k])
    ensures Shrunk(t, t.(list := t.list[k := e]))
  {
    SetLinked(t, k, e);
    SetRound(t, k, e);
    if UniqueKeys(t) { SetUnique(t.list, k, e); }
    ShrinksRefl(t);
    hide Linked, Ordered, RoundExact, UniqueList, SameSighting;
  }

  lemma RemoveShrunk(t: Table, k: nat)
    requires Inv(t) && k < |t.list|
    ensures Shrunk(t, Remove(t, k))
  {
    RemoveInv(t, k);
    RemoveShrinks(t, k);
  }

  lemma ShrunkTrans(t: Table, u: Table, v: Table)
    requires Shrunk(t, u) && Shrunk(u, v)
    ensures Shrunk(t, v)
  {
    ShrinksTrans(t, u, v);
  }

  /** One turn of the expiry loop: the table it leaves. */
  function EndTurn(t: Table, info: Option<ScanInfo>, k: nat): Table
    requires k < |t.list|
  {
    var u := t.(list := t.list[k := Missed(t, info, t.list[k])]);
    if Expired(t, info, t.list[k]) then Remove(u, k) else u
  }

  lemma EndFromTurn(t: Table, info: Option<ScanInfo>, k: nat)
    requires k < |t.list|
    ensures EndFrom(t, info, k)
         == EndFrom(EndTurn(t, info, k), info, if Expired(t, info, t.list[k]) then k else k + 1)
  {
  }

  lemma EndTurnShrunk(t: Table, info: Option<ScanInfo>, k: nat)
    requires Inv(t) && k < |t.list|
    ensures Shrunk(t, EndTurn(t, info, k))
  {
    var e := Missed(t, info, t.list[k]);
    var u := t.(list := t.list[k := e]);
    SetShrunk(t, k, e);
    if Expired(t, info, t.list[k]) {
      RemoveShrunk(u, k);
      ShrunkTrans(t, u, Remove(u, k));
    }
  }

  lemma {:induction false} EndFromShrunk(t: Table, info: Option<ScanInfo>, k: nat)
    requires Inv(t) && k <= |t.list|
    ensures Shrunk(t, EndFrom(t, info, k))
    decreases |t.list| - k
  {
    if k == |t.list| {
      ShrinksRefl(t);
    } else {
      var u := EndTurn(t, info, k);
      var next := if Expired(t, info, t.list[k]) then k else k + 1;
      EndTurnShrunk(t, info, k);
      EndFromShrunk(u, info, next);
      ShrunkTrans(t, u, EndFrom(u, info, next));
    }
  }

  lemma EndTurnList(t: Table, info: Option<ScanInfo>, k: nat)
    requires k < |t.list|
    ensures var l := EndTurn(t, info, k).list;
            if Expired(t, info, t.list[k])
            then |l| == |t.list| - 1 && l[..k] == t.list[..k] && l[k..] == t.list[k + 1..]
            else |l| == |t.list| && l[..k + 1] == t.list[..k] + [Missed(t, info, t.list[k])]
                 && l[k + 1..] == t.list[k + 1..]
  {
  }

  lemma ContextAlike(c: Table, t: Table, info: Option<ScanInfo>, k: nat)
    requires SameContext(c, t) && k < |t.list|
    ensures var e := t.list[k]; Expired(c, info, e) == Expired(t, info, e) && Missed(c, info, e) == Missed(t, info, e)
    ensures SameContext(c, EndTurn(t, info, k))
  {
    hide Covered;
  }

  lemma EndsCons(c: Table, info: Option<ScanInfo>, e: Entry, rest: seq<Entry>)
    ensures Ends(c, info, [e] + rest)
         == if Expired(c, info, e) then Ends(c, info, rest) else [Missed(c, info, e)] + Ends(c, info, rest)
  {
    assert ([e] + rest)[1..] == rest;
    assert [] + Ends(c, info, rest) == Ends(c, info, rest);
    hide Expired, Missed;
  }

  /** What is in front of the loop, and what it makes of the rest */
  function EndsFrom(c: Table, info: Option<ScanInfo>, list: seq<Entry>, k: nat): seq<Entry>
    requires k <= |list|
  {
    list[..k] + Ends(c, info, list[k..])
  }

  lemma Regroup<T>(a: seq<T>, b: seq<T>, c: seq<T>)
    ensures a + b + c == a + (b + c)
  {
  }

  lemma SplitAt<T>(l: seq<T>, k: nat)
    requires k < |l|
    ensures l[k..] == [l[k]] + l[k + 1..]
  {
  }

  lemma EndsFromDropped(c: Table, info: Option<ScanInfo>, l: seq<Entry>, u: seq<Entry>, k: nat)
    requires k < |l| && |u| == |l| - 1 && u[..k] == l[..k] && u[k..] == l[k + 1..]
    requires Expired(c, info, l[k])
    ensures EndsFrom(c, info, l, k) == EndsFrom(c, info, u, k)
  {
    hide Ends, Expired, Missed;
    EndsCons(c, info, l[k], l[k + 1..]);
    SplitAt(l, k);
  }

  lemma EndsFromCounted(c: Table, info: Option<ScanInfo>, l: seq<Entry>, u: seq<Entry>, k: nat)
    requires k < |l| == |u| && u[..k + 1] == l[..k] + [Missed(c, info, l[k])] && u[k + 1..] == l[k + 1..]
    requires !Expired(c, info, l[k])
    ensures EndsFrom(c, info, l, k) == EndsFrom(c, info, u, k + 1)
  {
    hide Ends, Expired, Missed;
    EndsCons(c, info, l[k], l[k + 1..]);
    SplitAt(l, k);
    Regroup(l[..k], [Missed(c, info, l[k])], Ends(c, info, l[k + 1..]));
  }

  lemma EndsFromTurn(c: Table, t: Table, info: Option<ScanInfo>, k: nat)
    requires k < |t.list| && SameContext(c, t)
    ensures var next := if Expired(t, info, t.list[k]) then k else k + 1; var u := EndTurn(t, info, k);
      next <= |u.list| && EndsFrom(c, info, t.list, k) == EndsFrom(c, info, u.list, next)
  {
    hide EndTurn, EndsFrom, Expired, Missed, SameContext;
    ContextAlike(c, t, info, k);
    EndTurnList(t, info, k);
    if Expired(t, info, t.list[k]) {
      EndsFromDropped(c, info, t.list, EndTurn(t, info, k).list, k);
    } else {
      EndsFromCounted(c, info, t.list, EndTurn(t, info, k).list, k);
    }
  }

  lemma {:induction false} EndFromList(c: Table, t: Table, info: Option<ScanInfo>, k: nat)
    requires k <= |t.list| && SameContext(c, t)
    ensures EndFrom(t, info, k).list == EndsFrom(c, info, t.list, k)
    decreases |t.list| - k
  {
    if k < |t.list| {
      ContextAlike(c, t, info, k);
      EndTurnList(t, info, k);
      EndFromTurn(t, info, k);
      EndsFromTurn(c, t, info, k);
      hide EndTurn, EndFrom, EndsFrom, Expired, SameContext;
      EndFromList(c, EndTurn(t, info, k), info, if Expired(t, info, t.list[k]) then k else k + 1);
    } else {
      assert t.list[..k] + [] == t.list;
    }
  }

  lemma {:induction false} FlushFromShrunk(t: Table, k: nat)
    requires Inv(t) && k <= |t.list|
    ensures Shrunk(t, FlushFrom(t, k))
    decreases |t.list| - k
  {
    if k == |t.list| {
      ShrinksRefl(t);
    } else if InUse(t, t.list[k]) {
      FlushFromShrunk(t, k + 1);
    } else {
      var v := Remove(t, k);
      RemoveShrunk(t, k);
      FlushFromShrunk(v, k);
      ShrunkTrans(t, v, FlushFrom(v, k));
    }
  }

  lemma {:induction false} FlushFromList(c: Table, t: Table, k: nat)
    requires k <= |t.list| && SameContext(c, t)
    ensures FlushFrom(t, k).list == t.list[..k] + UsedOnly(c, t.list[k..])
    decreases |t.list| - k
  {
    if k < |t.list| {
      assert t.list[k..] == [t.list[k]] + t.list[k + 1..];
      if InUse(t, t.list[k]) {
        FlushFromList(c, t, k + 1);
        assert t.list[..k + 1] == t.list[..k] + [t.list[k]];
      } else {
        var v := Remove(t, k);
        FlushFromList(c, v, k);
        assert v.list[..k] == t.list[..k] && v.list[k..] == t.list[k + 1..];
      }
    }
  }

  lemma {:induction false} AgeFromShrunk(t: Table, limit: Time, k: nat)
    requires Inv(t) && k <= |t.list|
    ensures Shrunk(t, AgeFrom(t, limit, k))
    decreases |t.list| - k
  {
    if k == |t.list| {
      ShrinksRefl(t);
    } else if InUse(t, t.list[k]) {
      AgeFromShrunk(t, limit, k + 1);
    } else if Before(t.list[k].lastUpdate, limit) {
      var v := Remove(t, k);
      RemoveShrunk(t, k);
      AgeFromShrunk(v, limit, k);
      ShrunkTrans(t, v, AgeFrom(v, limit, k));
    } else {
      ShrinksRefl(t);
    }
  }

  lemma {:induction false} AgeFromList(c: Table, t: Table, limit: Time, k: nat)
    requires k <= |t.list| && SameContext(c, t)
    ensures AgeFrom(t, limit, k).list == t.list[..k] + Younger(c, limit, t.list[k..])
    decreases |t.list| - k
  {
    if k < |t.list| {
      assert t.list[k..] == [t.list[k]] + t.list[k + 1..];
      if InUse(t, t.list[k]) {
        AgeFromList(c, t, limit, k + 1);
        assert t.list[..k + 1] == t.list[..k] + [t.list[k]];
      } else if Before(t.list[k].lastUpdate, limit) {
        var v := Remove(t, k);
        AgeFromList(c, v, limit, k);
        assert v.list[..k] == t.list[..k] && v.list[k..] == t.list[k + 1..];
      }
    }
  }

  /** The end of a complete round removes exactly the entries that were covered,
      not in use and missed too often; the others stay, in order, misses counted. */
  lemma EndIsExpiry(t: Table, info: Option<ScanInfo>, newScan: bool)
    ensures End(t, info, newScan).list == if Complete(info, newScan) then Ends(t, info, t.list) else t.list
  {
    EndFromList(t, t, info, 0);
    assert t.list[0..] == t.list;
  }

  /** wpa_bss_flush keeps exactly the in-use entries, in order. */
  lemma FlushKeepsUsed(t: Table)
    ensures Flush(t).list == UsedOnly(t, t.list)
  {
    FlushFromList(t, t, 0);
    assert t.list[0..] == t.list;
  }

  lemma FlushByAgeKeepsYounger(t: Table, now: Time, age: int)
    ensures FlushByAge(t, now, age).list == Younger(t, Time(now.sec - age, now.usec), t.list)
  {
    AgeFromList(t, t, Time(now.sec - age, now.usec), 0);
    assert t.list[0..] == t.list;
  }

  lemma {:induction false} UsedOnlyMembers(c: Table, list: seq<Entry>)
    ensures forall e :: e in UsedOnly(c, list) <==> e in list && InUse(c, e)
  {
    if list != [] {
      UsedOnlyMembers(c, list[1..]);
      assert forall e :: e in list <==> e == list[0] || e in list[1..];
    }
  }

  lemma {:induction false} YoungerKeepsUsed(c: Table, limit: Time, list: seq<Entry>)
    ensures forall e | e in list && InUse(c, e) :: e in Younger(c, limit, list)
    ensures forall e | e in list && !Before(e.lastUpdate, limit) :: e in Younger(c, limit, list)
  {
    if list != [] {
      YoungerKeepsUsed(c, limit, list[1..]);
      assert forall e :: e in list <==> e == list[0] || e in list[1..];
    }
  }

  lemma {:induction false} EndsKeepsUsed(c: Table, info: Option<ScanInfo>, list: seq<Entry>)
    ensures forall e | e in list && InUse(c, e) :: e in Ends(c, info, list)
  {
    if list != [] {
      EndsKeepsUsed(c, info, list[1..]);
      assert forall e :: e in list <==> e == list[0] || e in list[1..];
    }
  }

  /** The end of a round removes no entry in use. */
  lemma EndKeepsUsed(t: Table, info: Option<ScanInfo>, newScan: bool, e: Entry)
    requires e in t.list && InUse(t, e)
    ensures e in End(t, info, newScan).list
  {
    EndIsExpiry(t, info, newScan);
    EndsKeepsUsed(t, info, t.list);
  }

  /** A flush removes every entry but those in use. */
  lemma FlushIffUnused(t: Table, e: Entry)
    ensures e in Flush(t).list <==> e in t.list && InUse(t, e)
  {
    FlushKeepsUsed(t);
    UsedOnlyMembers(t, t.list);
  }

  /** A flush by age removes no entry in use and none updated since the age limit. */
  lemma FlushByAgeKeeps(t: Table, now: Time, age: int, e: Entry)
    requires e in t.list
    requires InUse(t, e) || !Before(e.lastUpdate, Time(now.sec - age, now.usec))
    ensures e in FlushByAge(t, now, age).list
  {
    FlushByAgeKeepsYounger(t, now, age);
    YoungerKeepsUsed(t, Time(now.sec - age, now.usec), t.list);
  }

  // --- events and runs -------------------------------------------------------

  datatype Event =
    | StartRound
    | Result(res: ScanRes, fetch: Time)
    | EndRound(info: Option<ScanInfo>, newScan: bool)
    | FlushAll
    | FlushOld(now: Time, age: int)
    | SetCurrent(to: Option<nat>)          // association changes, to an entry of the table
    | SetConnect(work: Option<nat>)        // a connect work is queued for an entry, or ends
    | Lose(id: nat)                        // wpa_bss_remove, called when a connection is lost
    | Signal(level: int)                   // wpa_bss_update_level for current_bss
    | SetAddrs(bssid: Addr, pending: Addr)
    | SetConf(conf: Conf)

  function CurrentFor(t: Table, to: Option<nat>): Option<Current> {
    if to.None? then None
    else
      var k := IndexOf(Ids(t.list), to.value);
      if k < |t.list| then Some(Current(to.value, t.list[k].ssid)) else t.current
  }

  function Step(t: Table, ev: Event): Table {
    match ev
    case StartRound => Start(t)
    case Result(res, fetch) => ScanResult(t, res, fetch)
    case EndRound(info, newScan) => End(t, info, newScan)
    case FlushAll => Flush(t)
    case FlushOld(now, age) => FlushByAge(t, now, age)
    case SetCurrent(to) => t.(current := CurrentFor(t, to))
    case SetConnect(work) => t.(connect := if work.Some? && work.value !in t.ids then t.connect else work)
    case Lose(id) => Drop(t, id)
    case Signal(level) => SetLevel(t, level)
    case SetAddrs(bssid, pending) => t.(bssid := bssid, pending := pending)
    case SetConf(conf) => t.(conf := conf)
  }

  function Run(t: Table, evs: seq<Event>): Table
    decreases |evs|
  {
    if evs == [] then t else Run(Step(t, evs[0]), evs[1..])
  }

  function Init(conf: Conf): Table {
    Table([], [], 0, 0, 0, [], None, None, ZERO_ADDR, ZERO_ADDR, conf)
  }

  /** The events that only remove entries, or change their measurements. */
  predicate Shrinking(ev: Event) {
    ev.EndRound? || ev.FlushAll? || ev.FlushOld? || ev.Lose? || ev.Signal?
  }

  lemma DropShrunk(t: Table, id: nat)
    requires Inv(t)
    ensures Shrunk(t, Drop(t, id))
  {
    var k := IndexOf(Ids(t.list), id);
    if k < |t.list| { RemoveShrunk(t, k); } else { ShrinksRefl(t); }
  }

  lemma LevelShrunk(t: Table, level: int)
    requires Inv(t)
    ensures Shrunk(t, SetLevel(t, level))
  {
    ShrinksRefl(t);
    if level < 0 && t.current.Some? {
      var k := IndexOf(Ids(t.list), t.current.value.id);
      if k < |t.list| { SetShrunk(t, k, Levelled(t.list[k], level)); }
    }
  }

  lemma StepShrunk(t: Table, ev: Event)
    requires Inv(t) && Shrinking(ev)
    ensures Shrunk(t, Step(t, ev))
  {
    hide Shrunk, Inv;
    match ev
    case EndRound(info, newScan) => EndFromShrunk(t, info, 0); Same(t);
    case FlushAll => FlushFromShrunk(t, 0);
    case FlushOld(now, age) => AgeFromShrunk(t, Time(now.sec - age, now.usec), 0);
    case Lose(id) => DropShrunk(t, id);
    case Signal(level) => LevelShrunk(t, level);
  }

  lemma Same(t: Table)
    requires Inv(t)
    ensures Shrunk(t, t)
  {
    ShrinksRefl(t);
  }

  lemma StepInv(t: Table, ev: Event)
    requires Inv(t)
    ensures Inv(Step(t, ev))
  {
    if Shrinking(ev) {
      StepShrunk(t, ev);
    } else if ev.Result? {
      var ssid := ResultSsid(t.conf, ev.res, ev.fetch);
      if ssid.Some? { SightInv(t, ssid.value, ev.res, ev.fetch); }
    }
  }

  lemma {:induction false} RunInv(t: Table, evs: seq<Event>)
    requires Inv(t)
    ensures Inv(Run(t, evs))
    decreases |evs|
  {
    if evs != [] {
      StepInv(t, evs[0]);
      RunInv(Step(t, evs[0]), evs[1..]);
    }
  }

  /** Over every run from the empty table: both lists hold the same entries, num_bss
      of them, ids strictly ascending, updates non-decreasing, the scan results exact. */
  lemma ReachableInv(conf: Conf, evs: seq<Event>)
    ensures Inv(Run(Init(conf), evs))
  {
    RunInv(Init(conf), evs);
  }

  // --- unique keys -----------------------------------------------------------

  /** Every result of the run passes the BSSID filter in force when it arrives. */
  ghost predicate AllAccepted(t: Table, evs: seq<Event>)
    decreases |evs|
  {
    evs == [] ||
    ((evs[0].Result? ==> Accepts(t.conf, evs[0].res.bssid)) && AllAccepted(Step(t, evs[0]), evs[1..]))
  }

  lemma StepUnique(t: Table, ev: Event)
    requires Inv(t) && UniqueKeys(t) && (ev.Result? ==> Accepts(t.conf, ev.res.bssid))
    ensures UniqueKeys(Step(t, ev))
  {
    if Shrinking(ev) {
      StepShrunk(t, ev);
    } else if ev.Result? {
      var ssid := ResultSsid(t.conf, ev.res, ev.fetch);
      if ssid.Some? { SightUnique(t, ssid.value, ev.res, ev.fetch); }
    }
  }

  lemma {:induction false} RunUnique(t: Table, evs: seq<Event>)
    requires Inv(t) && UniqueKeys(t) && AllAccepted(t, evs)
    ensures UniqueKeys(Run(t, evs))
    decreases |evs|
  {
    if evs != [] {
      StepInv(t, evs[0]);
      StepUnique(t, evs[0]);
      RunUnique(Step(t, evs[0]), evs[1..]);
    }
  }

  // --- the scan results of a round -------------------------------------------

  /** Each id once, where it first occurs. */
  function FirstSightings(log: seq<nat>): (r: seq<nat>)
    ensures forall x :: x in r <==> x in log
  {
    if log == [] then []
    else
      var before := FirstSightings(log[..|log| - 1]);
      var x := log[|log| - 1];
      if x in before then before else before + [x]
  }

  /** The ids sighted so far in the current round, in order and with repeats. */
  function StepLog(t: Table, log: seq<nat>, ev: Event): seq<nat> {
    match ev
    case StartRound => []
    case Result(res, fetch) =>
      (match ResultSsid(t.conf, res, fetch)
       case None => log
       case Some(ssid) => log + [SightedId(t, ssid, res)])
    case _ => log
  }

  function RunLog(t: Table, log: seq<nat>, evs: seq<Event>): seq<nat>
    decreases |evs|
  {
    if evs == [] then log else RunLog(Step(t, evs[0]), StepLog(t, log, evs[0]), evs[1..])
  }

  /** last_scan_res lists the live entries among those sighted, in order of first sighting. */
  ghost predicate InSightingOrder(t: Table, log: seq<nat>) {
    t.last == Keep(FirstSightings(log), Elements(t.ids)) && forall x | x in log :: x < t.nextId
  }

  lemma ShrinkSightings(t: Table, u: Table, log: seq<nat>)
    requires Shrinks(t, u) && InSightingOrder(t, log)
    ensures InSightingOrder(u, log)
  {
    KeepKeep(FirstSightings(log), Elements(t.ids), Elements(u.ids));
    assert Elements(t.ids) * Elements(u.ids) == Elements(u.ids);
  }

  lemma AppendSightings(u: Table, log: seq<nat>, e: Entry)
    requires InSightingOrder(u, log) && e.id == u.nextId
    ensures InSightingOrder(Append(u.(nextId := u.nextId + 1), e), log + [e.id])
  {
    var ids := u.ids + [e.id];
    assert Elements(ids) == Elements(u.ids) + {e.id};
    AddSighting(log, e.id, Elements(u.ids), Elements(ids));
  }

  lemma SightNewSightings(t: Table, log: seq<nat>, ssid: seq<Byte>, res: ScanRes, fetch: Time)
    requires Inv(t) && InSightingOrder(t, log) && Get(t, res.bssid, ssid) == |t.list|
    ensures InSightingOrder(Sight(t, ssid, res, fetch), log + [t.nextId])
  {
    SightNewInv(t, ssid, res, fetch);
    MakeRoomInv(t);
    ShrinkSightings(t, MakeRoom(t), log);
    AppendSightings(MakeRoom(t), log, NewEntry(t, ssid, res, fetch));
  }

  lemma AddSighting(log: seq<nat>, x: nat, before: set<nat>, after: set<nat>)
    requires x !in log && after == before + {x}
    ensures Keep(FirstSightings(log + [x]), after) == Keep(FirstSightings(log), before) + [x]
  {
    assert (log + [x])[..|log|] == log;
    KeepAgree(FirstSightings(log), before, after);
    KeepAppend(FirstSightings(log), [x], after);
  }

  lemma SightOldFrame(t: Table, ssid: seq<Byte>, res: ScanRes, fetch: Time)
    requires Get(t, res.bssid, ssid) < |t.list|
    ensures var u, x := Sight(t, ssid, res, fetch), t.list[Get(t, res.bssid, ssid)].id;
      && SightedId(t, ssid, res) == x && u.ids == t.ids && u.nextId == t.nextId
      && u.last == if x in t.last then t.last else t.last + [x]
  {
    hide Get, Refresh;
  }

  /** A sighting of a live entry is noted unless it was before. */
  lemma RepeatSighting(log: seq<nat>, x: nat, live: set<nat>)
    requires x in live
    ensures var before := Keep(FirstSightings(log), live);
      Keep(FirstSightings(log + [x]), live) == if x in before then before else before + [x]
  {
    assert (log + [x])[..|log|] == log;
    KeepAppend(FirstSightings(log), [x], live);
  }

  lemma SightOldSightings(t: Table, log: seq<nat>, ssid: seq<Byte>, res: ScanRes, fetch: Time)
    requires Inv(t) && InSightingOrder(t, log) && Get(t, res.bssid, ssid) < |t.list|
    ensures InSightingOrder(Sight(t, ssid, res, fetch), log + [SightedId(t, ssid, res)])
  {
    LinkedIds(t);
    SightOldFrame(t, ssid, res, fetch);
    var k := Get(t, res.bssid, ssid);
    assert Ids(t.list)[k] in t.ids;
    assert t.list[k].id < t.nextId;
    RepeatSighting(log, t.list[k].id, Elements(t.ids));
    hide Sight, SightedId, Get, Inv, FirstSightings, Keep;
  }

  lemma SightSightings(t: Table, log: seq<nat>, ssid: seq<Byte>, res: ScanRes, fetch: Time)
    requires Inv(t) && InSightingOrder(t, log)
    ensures InSightingOrder(Sight(t, ssid, res, fetch), log + [SightedId(t, ssid, res)])
  {
    if Get(t, res.bssid, ssid) == |t.list| {
      SightNewSightings(t, log, ssid, res, fetch);
    } else {
      SightOldSightings(t, log, ssid, res, fetch);
    }
  }

  lemma StepSightings(t: Table, log: seq<nat>, ev: Event)
    requires Inv(t) && InSightingOrder(t, log)
    ensures InSightingOrder(Step(t, ev), StepLog(t, log, ev))
  {
    if Shrinking(ev) {
      StepShrunk(t, ev);
      ShrinkSightings(t, Step(t, ev), log);
    } else if ev.Result? {
      var ssid := ResultSsid(t.conf, ev.res, ev.fetch);
      if ssid.Some? { SightSightings(t, log, ssid.value, ev.res, ev.fetch); }
    }
  }

  lemma {:induction false} RunSightings(t: Table, log: seq<nat>, evs: seq<Event>)
    requires Inv(t) && InSightingOrder(t, log)
    ensures InSightingOrder(Run(t, evs), RunLog(t, log, evs))
    decreases |evs|
  {
    if evs != [] {
      StepInv(t, evs[0]);
      StepSightings(t, log, evs[0]);
      RunSightings(Step(t, evs[0]), StepLog(t, log, evs[0]), evs[1..]);
    }
  }

  // --- the size limit --------------------------------------------------------

  ghost predicate WithinLimit(t: Table) {
    t.num <= t.conf.maxCount
  }

  lemma SightLimit(t: Table, ssid: seq<Byte>, res: ScanRes, fetch: Time)
    requires Inv(t) && WithinLimit(t)
    ensures WithinLimit(Sight(t, ssid, res, fetch))
  {
    if Get(t, res.bssid, ssid) == |t.list| {
      SightNewInv(t, ssid, res, fetch);
      MakeRoomInv(t);
    }
  }

  /** Every operation keeps num_bss within bss_max_count; a change of configuration
      does so exactly when the new limit covers the table. */
  lemma StepLimit(t: Table, ev: Event)
    requires Inv(t) && WithinLimit(t)
    ensures WithinLimit(Step(t, ev)) <==> (ev.SetConf? ==> t.num <= ev.conf.maxCount)
  {
    if Shrinking(ev) {
      StepShrunk(t, ev);
    } else if ev.Result? {
      var ssid := ResultSsid(t.conf, ev.res, ev.fetch);
      if ssid.Some? { SightLimit(t, ssid.value, ev.res, ev.fetch); }
    }
  }

  /** The result of a scan is new to a full table that has nothing to evict: every entry is in
      use and is known or a WPS candidate. */
  ghost predicate NoRoomFor(t: Table, ev: Event) {
    && ev.Result? && ResultSsid(t.conf, ev.res, ev.fetch).Some?
    && Get(t, ev.res.bssid, ResultSsid(t.conf, ev.res, ev.fetch).value) == |t.list|
    && t.num + 1 > t.conf.maxCount
    && forall e | e in t.list :: InUse(t, e) && !Unknown(t.conf, e)
  }

  lemma VictimIff(t: Table)
    ensures Victim(t) == |t.list| <==> forall e | e in t.list :: InUse(t, e) && !Unknown(t.conf, e)
  {
    hide InUse, Unknown;
    if FirstUnknown(t, 0) < |t.list| { assert t.list[FirstUnknown(t, 0)] in t.list; }
    if FirstNotInUse(t, 0) < |t.list| { assert t.list[FirstNotInUse(t, 0)] in t.list; }
  }

  lemma SightConf(t: Table, ssid: seq<Byte>, res: ScanRes, fetch: Time)
    ensures Sight(t, ssid, res, fetch).conf ==
      if Get(t, res.bssid, ssid) == |t.list| && t.num + 1 > t.conf.maxCount && Victim(t) == |t.list|
      then t.conf.(maxCount := t.num + 1) else t.conf
  {
    hide Get, Victim, Accepts;
  }

  /** An operation raises the limit if and only if it files a new entry for which there is no
      room, and then by exactly what is needed. */
  lemma LimitRises(t: Table, ev: Event)
    requires Inv(t) && !ev.SetConf?
    ensures Step(t, ev).conf == if NoRoomFor(t, ev) then t.conf.(maxCount := t.num + 1) else t.conf
  {
    VictimIff(t);
    if Shrinking(ev) {
      StepShrunk(t, ev);
      hide Step, NoRoomFor;
      assert !NoRoomFor(t, ev) by { OnlyResults(t, ev); }
    } else if ev.Result? {
      var ssid := ResultSsid(t.conf, ev.res, ev.fetch);
      if ssid.Some? { SightConf(t, ssid.value, ev.res, ev.fetch); }
      hide InUse, Unknown, Victim, Get, ResultSsid, Sight, Inv;
    }
  }

  lemma OnlyResults(t: Table, ev: Event)
    ensures NoRoomFor(t, ev) ==> ev.Result?
  {
  }
}
