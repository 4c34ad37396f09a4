/** Eviction, expiry and lookup in the BSS table: who goes, who stays, who is found. */
module BssProperties {
  import opened Collections
  import opened BssModel
  import opened BssInvariants
  import opened BssRuns

  /** From the empty table, last_scan_res lists in every state the live entries
      sighted in the current round, in the order in which they were first sighted. */
  lemma ReachableSightings(conf: Conf, evs: seq<Event>)
    ensures var t, log := Run(Init(conf), evs), RunLog(Init(conf), [], evs);
            t.last == Keep(FirstSightings(log), Elements(t.ids))
  {
    RunSightings(Init(conf), [], evs);
  }

  // --- eviction --------------------------------------------------------------

  /** A sighting drops an entry iff it adds one to a full table, and then only the victim. */
  lemma EvictedIff(t: Table, ssid: seq<Byte>, res: ScanRes, fetch: Time, i: nat)
    requires Inv(t) && i < |t.list|
    ensures t.list[i].id !in Sight(t, ssid, res, fetch).ids
       <==> Get(t, res.bssid, ssid) == |t.list| && t.num + 1 > t.conf.maxCount && i == Victim(t)
  {
    LinkedIds(t);
    var id := Ids(t.list)[i];
    assert id in t.ids;
    if Get(t, res.bssid, ssid) == |t.list| {
      SightNewInv(t, ssid, res, fetch);
      assert id < t.nextId;
      if t.num + 1 > t.conf.maxCount && Victim(t) < |t.list| {
        RemoveShrinks(t, Victim(t));
        assert Ids(t.list)[Victim(t)] == id <==> Victim(t) == i;
        assert id in Remove(t, Victim(t)).ids <==> id in Elements(Remove(t, Victim(t)).ids);
      }
    }
  }

  /** The victim is the first entry in update order that is neither known nor a
      WPS candidate, or else the first that is not in use. */
  lemma VictimIs(t: Table, i: nat)
    requires i < |t.list|
    ensures i == Victim(t) <==>
            if exists j :: 0 <= j < |t.list| && Unknown(t.conf, t.list[j])
            then Unknown(t.conf, t.list[i]) && forall j | 0 <= j < i :: !Unknown(t.conf, t.list[j])
            else !InUse(t, t.list[i]) && forall j | 0 <= j < i :: InUse(t, t.list[j])
  {
  }

  /** An entry in use that has a configured SSID is never evicted. */
  lemma UsedKnownStays(t: Table, ssid: seq<Byte>, res: ScanRes, fetch: Time, i: nat)
    requires Inv(t) && i < |t.list| && InUse(t, t.list[i]) && Known(t.conf, t.list[i])
    ensures t.list[i].id in Sight(t, ssid, res, fetch).ids
  {
    EvictedIff(t, ssid, res, fetch, i);
    VictimChoice(t);
  }

  /** current_bss is null or an entry of the table. */
  ghost predicate CurrentLive(t: Table) {
    t.current.Some? ==> t.current.value.id in t.ids
  }

  /** The eviction pass over unknown entries does not ask whether an entry is in use. */
  predicate EvictsCurrent(t: Table, ev: Event) {
    ev.Result? && ResultSsid(t.conf, ev.res, ev.fetch).Some?
    && Get(t, ev.res.bssid, ResultSsid(t.conf, ev.res, ev.fetch).value) == |t.list|
    && t.num + 1 > t.conf.maxCount
    && FirstUnknown(t, 0) < |t.list|
    && t.current.Some? && t.list[FirstUnknown(t, 0)].id == t.current.value.id
  }

  /** A lost connection removes its entry whether or not that is the current one still. */
  predicate LosesCurrent(t: Table, ev: Event) {
    ev.Lose? && t.current.Some? && t.current.value.id == ev.id
  }

  /** current_bss stays valid through an event exactly when the event is not a new
      result, filed in a full table, whose first unknown entry is the current one, and
      not the removal of the current entry. */
  lemma CurrentStaysLive(t: Table, ev: Event)
    requires Inv(t) && CurrentLive(t)
    ensures CurrentLive(Step(t, ev)) <==> !EvictsCurrent(t, ev) && !LosesCurrent(t, ev)
  {
    match ev
    case Result(res, fetch) =>
      var ssid := ResultSsid(t.conf, res, fetch);
      if ssid.Some? {
        SightFrame(t, ssid.value, res, fetch);
        if t.current.Some? {
          var i := CurrentIndex(t);
          CurrentEvicted(t, ssid.value, res, fetch, i);
        }
      }
    case SetCurrent(to) => NewCurrent(t, to);
    case Lose(id) => LoseKeepsCurrent(t, id);
    case _ => SweepKeepsCurrent(t, ev);
  }

  lemma DropIds(t: Table, id: nat)
    requires Inv(t)
    ensures forall x :: x in Drop(t, id).ids <==> x in t.ids && x != id
  {
    LinkedIds(t);
    var k := IndexOf(Ids(t.list), id);
    if k < |t.list| {
      RemoveShrinks(t, k);
      assert forall x :: x in Remove(t, k).ids <==> x in Elements(Remove(t, k).ids);
    }
  }

  lemma LoseKeepsCurrent(t: Table, id: nat)
    requires Inv(t) && CurrentLive(t)
    ensures CurrentLive(Drop(t, id)) <==> !(t.current.Some? && t.current.value.id == id)
  {
    DropIds(t, id);
    assert Drop(t, id).current == t.current;
    hide Drop;
  }

  lemma LevelIds(t: Table, level: int)
    ensures SetLevel(t, level).ids == t.ids && SetLevel(t, level).current == t.current
  {
  }

  lemma SweepKeepsCurrent(t: Table, ev: Event)
    requires Inv(t) && CurrentLive(t) && !ev.Result? && !ev.SetCurrent? && !ev.Lose?
    ensures CurrentLive(Step(t, ev))
  {
    StepInv(t, ev);
    if ev.Signal? {
      LevelIds(t, ev.level);
    } else if Shrinking(ev) {
      StepShrunk(t, ev);
      if t.current.Some? {
        var i := CurrentIndex(t);
        SweepKeepsUsed(t, ev, t.list[i]);
        MemberLive(Step(t, ev), t.list[i]);
      }
      hide Step;
    }
  }

  lemma SweepKeepsUsed(t: Table, ev: Event, e: Entry)
    requires e in t.list && InUse(t, e)
    ensures ev.EndRound? || ev.FlushAll? || ev.FlushOld? ==> e in Step(t, ev).list
  {
    match ev
    case EndRound(info, newScan) => EndKeepsUsed(t, info, newScan, e);
    case FlushAll => FlushIffUnused(t, e);
    case FlushOld(now, age) => FlushByAgeKeeps(t, now, age, e);
    case _ =>
  }

  lemma CurrentIndex(t: Table) returns (i: nat)
    requires Inv(t) && CurrentLive(t) && t.current.Some?
    ensures i < |t.list| && t.list[i].id == t.current.value.id
  {
    LinkedIds(t);
    i := IndexOf(Ids(t.list), t.current.value.id);
  }

  lemma MemberLive(t: Table, e: Entry)
    requires Inv(t) && e in t.list
    ensures e.id in t.ids
  {
    var i :| 0 <= i < |t.list| && t.list[i] == e;
    LinkedIds(t);
    assert Ids(t.list)[i] == e.id;
  }

  lemma CurrentEvicted(t: Table, ssid: seq<Byte>, res: ScanRes, fetch: Time, i: nat)
    requires Inv(t) && i < |t.list| && t.current.Some? && t.list[i].id == t.current.value.id
    ensures t.list[i].id in Sight(t, ssid, res, fetch).ids
       <==> !(Get(t, res.bssid, ssid) == |t.list| && t.num + 1 > t.conf.maxCount
              && FirstUnknown(t, 0) < |t.list| && t.list[FirstUnknown(t, 0)].id == t.list[i].id)
    ensures Sight(t, ssid, res, fetch).current == t.current
  {
    EvictedIff(t, ssid, res, fetch, i);
    LinkedIds(t);
    var k := FirstUnknown(t, 0);
    if k < |t.list| {
      assert Ids(t.list)[k] == Ids(t.list)[i] <==> k == i;
    }
    MakeRoomInv(t);
  }

  lemma NewCurrent(t: Table, to: Option<nat>)
    requires Inv(t) && CurrentLive(t)
    ensures CurrentLive(t.(current := CurrentFor(t, to)))
  {
    LinkedIds(t);
  }

  // --- expiry ----------------------------------------------------------------

  /** From e in t on: nothing refreshes, flushes or evicts e, every complete round
      covers it, it is never in use, and the expiration count stays what it is. */
  ghost predicate Undisturbed(t: Table, evs: seq<Event>, e: Entry)
    decreases |evs|
  {
    evs == [] ||
    match evs[0]
    case EndRound(info, newScan) =>
      if !Complete(info, newScan) then Undisturbed(t, evs[1..], e)
      else !Exempt(t, info, e)
           && (Expired(t, info, e) || Undisturbed(Step(t, evs[0]), evs[1..], Missed(t, info, e)))
    case SetConf(conf) => conf.expiration == t.conf.expiration && Undisturbed(Step(t, evs[0]), evs[1..], e)
    case _ => e in Step(t, evs[0]).list && Undisturbed(Step(t, evs[0]), evs[1..], e)
  }

  /** How many complete rounds end after a new round has begun (stale: one already has). */
  function Unsighted(stale: bool, evs: seq<Event>): nat
    decreases |evs|
  {
    if evs == [] then 0
    else if evs[0].StartRound? then Unsighted(true, evs[1..])
    else (if stale && evs[0].EndRound? && Complete(evs[0].info, evs[0].newScan) then 1 else 0)
         + Unsighted(stale, evs[1..])
  }

  lemma {:induction false} EndsOfOne(c: Table, info: Option<ScanInfo>, list: seq<Entry>, e: Entry)
    requires e in list && Distinct(Ids(list))
    ensures Expired(c, info, e) ==> e.id !in Ids(Ends(c, info, list))
    ensures !Expired(c, info, e) ==> Missed(c, info, e) in Ends(c, info, list)
  {
    var rest := list[1..];
    assert Ids(rest) == Ids(list)[1..];
    assert forall i | 0 <= i < |Ids(rest)| :: Ids(rest)[i] == Ids(list)[i + 1];
    var tail := Ends(c, info, rest);
    var head := if Expired(c, info, list[0]) then [] else [Missed(c, info, list[0])];
    assert Ids(Ends(c, info, list)) == Ids(head) + Ids(tail);
    if e == list[0] {
      EndsIds(c, info, rest);
      assert e.id == Ids(list)[0] && e.id !in Ids(rest);
    } else {
      var i :| 0 <= i < |list| && list[i] == e;
      assert rest[i - 1] == e && Ids(list)[i] == e.id != Ids(list)[0];
      EndsOfOne(c, info, rest, e);
    }
  }

  lemma {:induction false} EndsIds(c: Table, info: Option<ScanInfo>, list: seq<Entry>)
    ensures forall x | x in Ids(Ends(c, info, list)) :: x in Ids(list)
  {
    if list != [] {
      EndsIds(c, info, list[1..]);
      var head := if Expired(c, info, list[0]) then [] else [Missed(c, info, list[0])];
      assert Ids(Ends(c, info, list)) == Ids(head) + Ids(Ends(c, info, list[1..]));
      assert Ids(list) == [list[0].id] + Ids(list[1..]);
    }
  }

  lemma EndOfOne(t: Table, info: Option<ScanInfo>, e: Entry)
    requires Inv(t) && e in t.list && Complete(info, true)
    ensures Expired(t, info, e) ==> e.id !in End(t, info, true).ids
    ensures !Expired(t, info, e) ==> Missed(t, info, e) in End(t, info, true).list
  {
    LinkedIds(t);
    EndIsExpiry(t, info, true);
    EndsOfOne(t, info, t.list, e);
    EndFromShrunk(t, info, 0);
    LinkedIds(End(t, info, true));
  }

  /** Ids are never reused: what has left the table stays out. */
  lemma {:induction false} GoneForGood(t: Table, evs: seq<Event>, id: nat)
    requires Inv(t) && id !in t.ids && id < t.nextId
    ensures id !in Run(t, evs).ids
    decreases |evs|
  {
    if evs != [] {
      StepInv(t, evs[0]);
      StepIds(t, evs[0]);
      GoneForGood(Step(t, evs[0]), evs[1..], id);
    }
  }

  /** What filing a result leaves alone. */
  lemma SightFrame(t: Table, ssid: seq<Byte>, res: ScanRes, fetch: Time)
    ensures var u := Sight(t, ssid, res, fetch);
            u.updateIdx == t.updateIdx && u.current == t.current && u.conf.expiration == t.conf.expiration
            && t.nextId <= u.nextId
  {
  }

  lemma SightIds(t: Table, ssid: seq<Byte>, res: ScanRes, fetch: Time)
    requires Inv(t)
    ensures forall x | x in Sight(t, ssid, res, fetch).ids ::
              x in t.ids || x == t.nextId < Sight(t, ssid, res, fetch).nextId
  {
    if Get(t, res.bssid, ssid) == |t.list| {
      SightNewInv(t, ssid, res, fetch);
      MakeRoomInv(t);
      assert forall x | x in MakeRoom(t).ids :: x in Elements(t.ids);
    }
  }

  lemma StepIds(t: Table, ev: Event)
    requires Inv(t)
    ensures Step(t, ev).nextId >= t.nextId
    ensures forall x | x in Step(t, ev).ids :: x in t.ids || x == t.nextId < Step(t, ev).nextId
  {
    if Shrinking(ev) {
      StepShrunk(t, ev);
      assert forall x | x in Step(t, ev).ids :: x in Elements(t.ids);
    } else if ev.Result? {
      var ssid := ResultSsid(t.conf, ev.res, ev.fetch);
      if ssid.Some? {
        SightFrame(t, ssid.value, ev.res, ev.fetch);
        SightIds(t, ssid.value, ev.res, ev.fetch);
      }
    }
  }

  /** One event in the life of an undisturbed entry. */
  lemma SurvivesStep(t: Table, evs: seq<Event>, e: Entry)
    requires Inv(t) && e in t.list && e.misses < t.conf.expiration && Undisturbed(t, evs, e) && evs != []
    ensures var u := Step(t, evs[0]);
            var f := if evs[0].EndRound? && Complete(evs[0].info, evs[0].newScan) then Missed(t, evs[0].info, e) else e;
            if f.misses < t.conf.expiration
            then f in u.list && u.conf.expiration == t.conf.expiration && Undisturbed(u, evs[1..], f)
                 && (f.lastIdx < u.updateIdx <==> evs[0].StartRound? || e.lastIdx < t.updateIdx)
            else e.id !in u.ids && e.id < u.nextId
  {
    MemberLive(t, e);
    match evs[0]
    case EndRound(info, newScan) =>
      if Complete(info, newScan) { EndOfOne(t, info, e); }
      EndFromShrunk(t, info, 0);
    case StartRound => OrderedAt(t, e);
    case _ => StepConf(t, evs[0]);
  }

  /** An undisturbed entry is in the table exactly as long as its misses, one for
      each complete round without a sighting, stay below bss_expiration_scan_count. */
  lemma {:induction false} SurvivesIff(t: Table, evs: seq<Event>, e: Entry)
    requires Inv(t) && e in t.list && e.misses < t.conf.expiration && Undisturbed(t, evs, e)
    ensures e.id in Run(t, evs).ids
       <==> e.misses + Unsighted(e.lastIdx < t.updateIdx, evs) < t.conf.expiration
    decreases |evs|
  {
    if evs == [] {
      MemberLive(t, e);
    } else {
      var u := Step(t, evs[0]);
      var f := if evs[0].EndRound? && Complete(evs[0].info, evs[0].newScan) then Missed(t, evs[0].info, e) else e;
      StepInv(t, evs[0]);
      SurvivesStep(t, evs, e);
      if f.misses < t.conf.expiration {
        SurvivesIff(u, evs[1..], f);
      } else {
        GoneForGood(u, evs[1..], e.id);
      }
    }
  }

  lemma OrderedAt(t: Table, e: Entry)
    requires Inv(t) && e in t.list
    ensures e.lastIdx <= t.updateIdx
  {
  }

  lemma StepConf(t: Table, ev: Event)
    requires Inv(t) && !ev.StartRound?
    ensures Step(t, ev).updateIdx == t.updateIdx
    ensures !ev.SetConf? ==> Step(t, ev).conf.expiration == t.conf.expiration
  {
    if Shrinking(ev) {
      StepShrunk(t, ev);
    } else if ev.Result? {
      var ssid := ResultSsid(t.conf, ev.res, ev.fetch);
      if ssid.Some? { SightFrame(t, ssid.value, ev.res, ev.fetch); }
    }
  }

  // --- two runs that break what is not promised ------------------------------

  function Sample(bssid: Addr): ScanRes {
    ScanRes(bssid, 2412, Radio(0, 0, 0, 0, 0, 0, 0, 0, 0), 0, [EID_SSID, 0], [])
  }

  function SampleConf(maxCount: nat, filter: Option<seq<Addr>>): Conf {
    Conf(maxCount, 2, [], filter, false, Time(0, 0), false, {}, {})
  }

  const A1: Addr := [2, 0, 0, 0, 0, 1]
  const A2: Addr := [2, 0, 0, 0, 0, 2]

  lemma SampleSsid(conf: Conf, bssid: Addr, fetch: Time)
    requires !conf.ignoreOld && !conf.p2pGroup
    ensures ResultSsid(conf, Sample(bssid), fetch) == Some([])
    ensures !HasP2p(Sample(bssid).ies)
  {
    var e := VendorIe.Element(EID_SSID, []);
    VendorIe.DecodeOne(e, []);
    assert VendorIe.EncodeElement(e) + [] == Sample(bssid).ies;
    assert VendorIe.Decode(Sample(bssid).ies) == [e];
    assert [e][1..] == [];
    assert VendorIe.FirstVendor([e], VendorIe.P2P_TYPE) == None;
    assert VendorIe.FirstId([e], EID_MESH_ID) == None;
  }

  /** A first sighting in a table with room. */
  lemma SampleSight(t: Table, bssid: Addr, e: Entry)
    requires !t.conf.ignoreOld && !t.conf.p2pGroup && t.num + 1 <= t.conf.maxCount
    requires Get(t, bssid, []) == |t.list| && e == NewEntry(t, [], Sample(bssid), Time(0, 0))
    ensures Step(t, Result(Sample(bssid), Time(0, 0)))
         == t.(nextId := t.nextId + 1, list := t.list + [e], ids := t.ids + [e.id], num := t.num + 1,
               last := t.last + [e.id])
  {
    SampleSsid(t.conf, bssid, Time(0, 0));
  }

  /** With a filter that rejects it, one access point is filed twice. */
  lemma DuplicateKey()
    ensures var r := Result(Sample(A1), Time(0, 0));
            !UniqueKeys(Run(Init(SampleConf(8, Some([]))), [r, r]))
  {
    var r := Result(Sample(A1), Time(0, 0));
    var t0 := Init(SampleConf(8, Some([])));
    SampleSight(t0, A1, NewEntry(t0, [], Sample(A1), Time(0, 0)));
    var t1 := Step(t0, r);
    SampleSight(t1, A1, NewEntry(t1, [], Sample(A1), Time(0, 0)));
    var t2 := Step(t1, r);
    RunTwo(t0, r, r);
    assert t2.list[0].bssid == t2.list[1].bssid && t2.list[0].ssid == t2.list[1].ssid;
  }

  /** In a full table the current entry can be evicted while it is current. */
  lemma CurrentEvictedInARun()
    ensures var r1, r2 := Result(Sample(A1), Time(0, 0)), Result(Sample(A2), Time(0, 0));
            !CurrentLive(Run(Init(SampleConf(1, None)), [r1, SetCurrent(Some(0)), r2]))
  {
    var t0 := Init(SampleConf(1, None));
    var r1, c, r2 := Result(Sample(A1), Time(0, 0)), SetCurrent(Some(0)), Result(Sample(A2), Time(0, 0));
    SampleSight(t0, A1, NewEntry(t0, [], Sample(A1), Time(0, 0)));
    var t1 := Step(t0, r1);
    var t2 := Step(t1, c);
    StepInv(t0, r1);
    StepInv(t1, c);
    assert Ids(t1.list) == [0];
    FullOfCurrent(t2);
    CurrentStaysLive(t2, r2);
    RunThree(t0, r1, c, r2);
  }

  lemma FullOfCurrent(t: Table)
    requires t.conf == SampleConf(1, None) && t.num == 1 && |t.list| == 1
    requires t.list[0].bssid == A1 && t.current.Some? && t.current.value.id == t.list[0].id
    ensures EvictsCurrent(t, Result(Sample(A2), Time(0, 0)))
  {
    SampleSsid(t.conf, A2, Time(0, 0));
  }

  lemma RunThree(t: Table, a: Event, b: Event, c: Event)
    ensures Run(t, [a, b, c]) == Step(Step(Step(t, a), b), c)
  {
    assert [a, b, c][1..] == [b, c] && [b, c][1..] == [c] && [c][1..] == [];
    RunTwo(Step(t, a), b, c);
  }

  lemma RunTwo(t: Table, a: Event, b: Event)
    ensures Run(t, [a, b]) == Step(Step(t, a), b)
  {
    assert [a, b][1..] == [b] && [b][1..] == [];
    assert Run(Step(t, a), [b]) == Step(Step(t, a), b);
  }

  // --- lookups ---------------------------------------------------------------

  /** The loop of wpa_bss_get_bssid, backwards through the update list */
  function LastWithBssid(list: seq<Entry>, bssid: Addr): Option<Entry> {
    if list == [] then None
    else if list[|list| - 1].bssid == bssid then Some(list[|list| - 1])
    else LastWithBssid(list[..|list| - 1], bssid)
  }

  /** wpa_bss_get_bssid */
  function GetBssid(t: Table, bssid: Addr): Option<Entry> {
    if Accepts(t.conf, bssid) then LastWithBssid(t.list, bssid) else None
  }

  lemma {:induction false} LastWithBssidIsLatest(t: Table, n: nat, bssid: Addr)
    requires Inv(t) && n <= |t.list|
    ensures var r := LastWithBssid(t.list[..n], bssid);
            if r.None? then forall e | e in t.list[..n] :: e.bssid != bssid
            else r.value in t.list[..n] && r.value.bssid == bssid
                 && forall e | e in t.list[..n] && e.bssid == bssid :: e.lastIdx <= r.value.lastIdx
  {
    if n > 0 {
      assert t.list[..n][..n - 1] == t.list[..n - 1];
      assert t.list[..n] == t.list[..n - 1] + [t.list[n - 1]];
      LastWithBssidIsLatest(t, n - 1, bssid);
    }
  }

  /** The lookup finds an entry of that BSSID sighted no earlier than any other, and fails if and
      only if there is none or the filter rejects the BSSID. */
  lemma GetBssidIsLatest(t: Table, bssid: Addr)
    requires Inv(t)
    ensures var r := GetBssid(t, bssid);
      && (r.Some? <==> Accepts(t.conf, bssid) && exists e :: e in t.list && e.bssid == bssid)
      && (r.Some? ==> r.value in t.list && r.value.bssid == bssid
                      && forall e | e in t.list && e.bssid == bssid :: e.lastIdx <= r.value.lastIdx)
  {
    assert t.list[..|t.list|] == t.list;
    LastWithBssidIsLatest(t, |t.list|, bssid);
  }
}
