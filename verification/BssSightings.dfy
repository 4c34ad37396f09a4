/** What a scan result leaves in the BSS table, and how long an entry stays that is sighted again and
    again. */
module BssSightings {
  import opened Collections
  import opened BssModel
  import opened BssInvariants
  import opened BssRuns
  import BssProperties

  // --- the entry of a result -------------------------------------------------

  function Micros(t: Time): int {
    t.sec * 1000000 + t.usec
  }

  /** The update time lies the age of the result before the time it was fetched. */
  lemma UpdateTimeIs(fetch: Time, ageMs: nat)
    requires 0 <= fetch.usec < 1000000
    ensures var r := UpdateTime(fetch, ageMs); Micros(r) == Micros(fetch) - ageMs * 1000 && 0 <= r.usec < 1000000
  {
    assert ageMs == ageMs / 1000 * 1000 + ageMs % 1000;
  }

  /** Times are compared as numbers of microseconds. */
  lemma BeforeIff(a: Time, b: Time)
    requires 0 <= a.usec < 1000000 && 0 <= b.usec < 1000000
    ensures Before(a, b) <==> Micros(a) < Micros(b)
  {
  }

  /** The first element of es with that id stands at i. */
  ghost predicate FirstAt(es: seq<VendorIe.Element>, id: Byte, i: int) {
    0 <= i < |es| && es[i].id == id && forall j | 0 <= j < i :: es[j].id != id
  }

  lemma {:induction false} FirstIdAt(es: seq<VendorIe.Element>, id: Byte)
    ensures match VendorIe.FirstId(es, id)
      case None => forall i | 0 <= i < |es| :: es[i].id != id
      case Some(e) => exists i :: FirstAt(es, id, i) && e == es[i]
  {
    if es != [] && es[0].id != id {
      FirstIdAt(es[1..], id);
      assert forall i | 1 <= i < |es| :: es[i] == es[1..][i - 1];
      var r := VendorIe.FirstId(es[1..], id);
      if r.Some? {
        var i :| FirstAt(es[1..], id, i) && r.value == es[1..][i];
        assert FirstAt(es, id, i + 1);
      }
    } else if es != [] {
      assert FirstAt(es, id, 0);
    }
  }

  /** The body of the first element with that id is b. */
  ghost predicate FirstBody(es: seq<VendorIe.Element>, id: Byte, b: seq<Byte>) {
    exists i :: FirstAt(es, id, i) && es[i].body == b
  }

  lemma FirstBodyIs(es: seq<VendorIe.Element>, id: Byte, b: seq<Byte>)
    ensures FirstBody(es, id, b) <==> VendorIe.FirstId(es, id).Some? && VendorIe.FirstId(es, id).value.body == b
  {
    FirstIdAt(es, id);
    if i :| FirstAt(es, id, i) && es[i].body == b {
      var j :| FirstAt(es, id, j) && VendorIe.FirstId(es, id) == Some(es[j]);
      assert i == j;
    }
  }

  /** A result is skipped for its name: it has none, or one that is too long; a group interface wants
      results with a P2P element, and such a result must not carry the wildcard name. */
  ghost predicate Nameless(conf: Conf, es: seq<VendorIe.Element>, p2p: bool) {
    !exists b :: FirstBody(es, 0, b) && |b| <= 32 && (if p2p then b != P2P_WILDCARD_SSID else !conf.p2pGroup)
  }

  /** A result is filed under its mesh id, if it has one that is no longer than a name, else under its
      name; it is skipped if and only if its name is not right or it is older than asked for. */
  lemma ResultFiledIff(conf: Conf, res: ScanRes, fetch: Time, ssid: seq<Byte>)
    ensures var es := VendorIe.Decode(res.ies);
      ResultSsid(conf, res, fetch) == Some(ssid) <==>
        && !(conf.ignoreOld && Before(UpdateTime(fetch, res.age), conf.scanTrigger))
        && !Nameless(conf, es, HasP2p(res.ies))
        && (if exists m :: FirstBody(es, 114, m) && |m| <= 32 then FirstBody(es, 114, ssid) else FirstBody(es, 0, ssid))
  {
    var es := VendorIe.Decode(res.ies);
    hide FirstBody;
    forall b ensures FirstBody(es, 0, b) <==> VendorIe.FirstId(es, 0).Some? && VendorIe.FirstId(es, 0).value.body == b {
      FirstBodyIs(es, 0, b);
    }
    forall b
      ensures FirstBody(es, 114, b) <==> VendorIe.FirstId(es, 114).Some? && VendorIe.FirstId(es, 114).value.body == b
    {
      FirstBodyIs(es, 114, b);
    }
  }

  lemma RemoveAtEntries(list: seq<Entry>, k: nat)
    requires k < |list| && Distinct(Ids(list))
    ensures forall e :: e in RemoveAt(list, k) <==> e in list && e.id != list[k].id
  {
    forall e ensures e in RemoveAt(list, k) <==> e in list && e.id != list[k].id {
      if e in list && e.id != list[k].id {
        var i :| 0 <= i < |list| && list[i] == e;
        assert RemoveAt(list, k)[if i < k then i else i - 1] == e;
      }
      if e in RemoveAt(list, k) {
        var j :| 0 <= j < |RemoveAt(list, k)| && RemoveAt(list, k)[j] == e;
        var i := if j < k then j else j + 1;
        assert list[i] == e && Ids(list)[i] != Ids(list)[k];
      }
    }
  }

  /** The entries of a table are those of its list, by id. */
  lemma EntriesOf(t: Table, e: Entry, f: Entry)
    requires Inv(t) && e in t.list && f in t.list && e.id == f.id
    ensures e == f && e.id in t.ids
  {
    LinkedIds(t);
    var i :| 0 <= i < |t.list| && t.list[i] == e;
    var j :| 0 <= j < |t.list| && t.list[j] == f;
    assert Ids(t.list)[i] == Ids(t.list)[j];
  }

  lemma IdListed(t: Table, id: nat)
    requires Inv(t)
    ensures id in t.ids <==> exists e :: e in t.list && e.id == id
  {
    LinkedIds(t);
    if id in t.ids {
      var i :| 0 <= i < |Ids(t.list)| && Ids(t.list)[i] == id;
      assert t.list[i] in t.list;
    }
    if e :| e in t.list && e.id == id {
      var i :| 0 <= i < |t.list| && t.list[i] == e;
      assert Ids(t.list)[i] == id;
    }
  }

  /** Making room removes one entry or none, and changes no other. */
  lemma MakeRoomEntries(t: Table)
    requires Inv(t)
    ensures forall e :: e in MakeRoom(t).list <==> e in t.list && e.id in MakeRoom(t).ids
  {
    MakeRoomInv(t);
    LinkedIds(t);
    var m, k := MakeRoom(t), Victim(t);
    if t.num + 1 > t.conf.maxCount && k < |t.list| { RemoveAtEntries(t.list, k); }
    forall e ensures e in m.list <==> e in t.list && e.id in m.ids {
      IdListed(m, e.id);
      if e in t.list && e.id in m.ids {
        var f :| f in m.list && f.id == e.id;
        EntriesOf(t, e, f);
      }
    }
  }

  /** The other entries: those that are still there are what they were. */
  ghost predicate OthersKept(t: Table, u: Table, f: Entry) {
    forall e :: e in u.list && e != f <==> e in t.list && e.id != f.id && e.id in u.ids
  }

  lemma AppendedOthers(t: Table, m: Table, u: Table, f: Entry)
    requires forall e :: e in m.list <==> e in t.list && e.id in m.ids
    requires u.list == m.list + [f] && u.ids == m.ids + [f.id] && forall e | e in t.list :: e.id != f.id
    ensures OthersKept(t, u, f)
  {
  }

  lemma NewIdUnused(t: Table, e: Entry)
    requires Inv(t) && e in t.list
    ensures e.id != t.nextId
  {
    IdListed(t, e.id);
    OldIds(t, e.id);
  }

  lemma NewOthersKept(t: Table, ssid: seq<Byte>, res: ScanRes, fetch: Time)
    requires Inv(t) && Get(t, res.bssid, ssid) == |t.list|
    ensures var u := Sight(t, ssid, res, fetch); u.list != [] && OthersKept(t, u, u.list[|u.list| - 1])
  {
    var u, m, f := Sight(t, ssid, res, fetch), MakeRoom(t), NewEntry(t, ssid, res, fetch);
    assert f.id == t.nextId;
    hide Inv, MakeRoom, Sight, NewEntry, OthersKept;
    SightNewInv(t, ssid, res, fetch);
    MakeRoomEntries(t);
    forall e | e in t.list ensures e.id != f.id { NewIdUnused(t, e); }
    AppendedOthers(t, m, u, f);
  }

  lemma OldIds(t: Table, id: nat)
    requires Inv(t) && id in t.ids
    ensures id < t.nextId
  {
  }

  lemma OldOthersKept(t: Table, ssid: seq<Byte>, res: ScanRes, fetch: Time)
    requires Inv(t) && Get(t, res.bssid, ssid) < |t.list|
    ensures var u := Sight(t, ssid, res, fetch); u.list != [] && OthersKept(t, u, u.list[|u.list| - 1])
  {
    var k := Get(t, res.bssid, ssid);
    var u := Sight(t, ssid, res, fetch);
    var f := u.list[|u.list| - 1];
    assert u.list == RemoveAt(t.list, k) + [f] && u.ids == t.ids && f.id == t.list[k].id;
    LinkedIds(t);
    RemoveAtEntries(t.list, k);
    hide Sight, Get;
    forall e ensures e in u.list && e != f <==> e in t.list && e.id != f.id && e.id in u.ids {
      if e in t.list { IdListed(t, e.id); }
    }
  }

  /** What a sighting tells of an entry: everything it measures, and that it is not missing. */
  ghost predicate Measured(f: Entry, ssid: seq<Byte>, res: ScanRes, fetch: Time, round: nat) {
    && f.bssid == res.bssid && f.ssid == ssid && f.misses == 0 && f.lastIdx == round
    && f.freq == res.freq && f.radio == res.radio && f.lastUpdate == UpdateTime(fetch, res.age)
  }

  /** The elements are those of the result, but where a P2P element would be lost those from before. */
  ghost predicate ElementsKept(t: Table, f: Entry, res: ScanRes) {
    if exists e :: e in t.list && e.id == f.id && HasP2p(e.ies) && !HasP2p(res.ies)
    then exists e :: e in t.list && e.id == f.id && f.ies == e.ies && f.beaconIes == e.beaconIes
    else f.ies == res.ies && f.beaconIes == res.beaconIes
  }

  ghost predicate Filed(t: Table, u: Table, f: Entry, ssid: seq<Byte>, res: ScanRes, fetch: Time) {
    && f.id == SightedId(t, ssid, res) && Measured(f, ssid, res, fetch, u.updateIdx)
    && ElementsKept(t, f, res) && OthersKept(t, u, f)
  }

  /** A result leaves, last in update order, an entry with everything it measured and no misses,
      and the other entries, as far as they are still there, as they were. */
  lemma SightingFiled(t: Table, ssid: seq<Byte>, res: ScanRes, fetch: Time)
    requires Inv(t) && ResultSsid(t.conf, res, fetch) == Some(ssid)
    ensures var u := Step(t, Result(res, fetch)); u.list != [] && Filed(t, u, u.list[|u.list| - 1], ssid, res, fetch)
  {
    assert Step(t, Result(res, fetch)) == Sight(t, ssid, res, fetch);
    if Get(t, res.bssid, ssid) == |t.list| {
      NewOthersKept(t, ssid, res, fetch);
      NewMeasured(t, ssid, res, fetch);
    } else {
      OldOthersKept(t, ssid, res, fetch);
      OldMeasured(t, ssid, res, fetch);
    }
    hide Step, Sight, ResultSsid, SightedId, Inv, Measured, ElementsKept, OthersKept, Get;
  }

  lemma NewMeasured(t: Table, ssid: seq<Byte>, res: ScanRes, fetch: Time)
    requires Inv(t) && Get(t, res.bssid, ssid) == |t.list|
    ensures Sight(t, ssid, res, fetch).list != []
    ensures var u := Sight(t, ssid, res, fetch); var f := u.list[|u.list| - 1];
      f.id == SightedId(t, ssid, res) && Measured(f, ssid, res, fetch, u.updateIdx) && ElementsKept(t, f, res)
  {
    forall e | e in t.list ensures e.id != t.nextId { NewIdUnused(t, e); }
    hide Inv, Get, HasP2p;
  }

  lemma OldMeasured(t: Table, ssid: seq<Byte>, res: ScanRes, fetch: Time)
    requires Inv(t) && Get(t, res.bssid, ssid) < |t.list|
    ensures Sight(t, ssid, res, fetch).list != []
    ensures var u := Sight(t, ssid, res, fetch); var f := u.list[|u.list| - 1];
      f.id == SightedId(t, ssid, res) && Measured(f, ssid, res, fetch, u.updateIdx) && ElementsKept(t, f, res)
  {
    var k := Get(t, res.bssid, ssid);
    assert t.list[k] in t.list;
    forall e | e in t.list && e.id == t.list[k].id ensures e == t.list[k] { EntriesOf(t, e, t.list[k]); }
    hide Inv, HasP2p;
  }

  /** A sighting is of the first entry with that BSSID and name, if the filter accepts the BSSID and
      there is one, and else of a new entry. */
  lemma SightedIdIs(t: Table, ssid: seq<Byte>, res: ScanRes)
    requires Inv(t)
    ensures var id := SightedId(t, ssid, res);
      if (t.conf.filter.Some? ==> res.bssid in t.conf.filter.value)
         && exists i :: 0 <= i < |t.list| && t.list[i].bssid == res.bssid && t.list[i].ssid == ssid
      then exists i :: 0 <= i < |t.list| && t.list[i].id == id && t.list[i].bssid == res.bssid && t.list[i].ssid == ssid
             && forall j | 0 <= j < i :: t.list[j].bssid != res.bssid || t.list[j].ssid != ssid
      else id == t.nextId && id !in t.ids
  {
    if t.nextId in t.ids { OldIds(t, t.nextId); }
  }

  // --- one entry over a run --------------------------------------------------

  ghost predicate Live(t: Table, id: nat) {
    id in Ids(t.list)
  }

  ghost function EntryOf(t: Table, id: nat): (e: Entry)
    requires Live(t, id)
    ensures e in t.list && e.id == id
  {
    t.list[IndexOf(Ids(t.list), id)]
  }

  lemma EntryIs(t: Table, e: Entry)
    requires Inv(t) && e in t.list
    ensures Live(t, e.id) && EntryOf(t, e.id) == e
  {
    IdListed(t, e.id);
    LinkedIds(t);
    EntriesOf(t, e, EntryOf(t, e.id));
  }

  /** The event is a result of the entry with that id. */
  predicate Sights(t: Table, ev: Event, id: nat) {
    ev.Result? &&
    match ResultSsid(t.conf, ev.res, ev.fetch)
    case None => false
    case Some(ssid) => SightedId(t, ssid, ev.res) == id
  }

  predicate Counting(ev: Event) {
    ev.EndRound? && Complete(ev.info, ev.newScan)
  }

  /** Every complete round covers the entry and finds it not in use, nothing but such a round removes
      it, and the expiration count stays what it is. Results may sight it at any time. */
  ghost predicate Followed(t: Table, evs: seq<Event>, id: nat)
    requires Live(t, id)
    decreases |evs|
  {
    evs == [] ||
    var u := Step(t, evs[0]);
    if Counting(evs[0]) then
      !Exempt(t, evs[0].info, EntryOf(t, id)) && (Live(u, id) ==> Followed(u, evs[1..], id))
    else
      Live(u, id) && (evs[0].SetConf? ==> u.conf.expiration == t.conf.expiration) && Followed(u, evs[1..], id)
  }

  /** How many complete rounds that began without it have ended since the entry was last sighted, if
      there were n so far; stale: a round has begun since. */
  ghost function Unseen(t: Table, evs: seq<Event>, id: nat, stale: bool, n: nat): nat
    decreases |evs|
  {
    if evs == [] then n
    else
      var u := Step(t, evs[0]);
      if Sights(t, evs[0], id) then Unseen(u, evs[1..], id, false, 0)
      else if evs[0].StartRound? then Unseen(u, evs[1..], id, true, n)
      else Unseen(u, evs[1..], id, stale, if Counting(evs[0]) && stale then n + 1 else n)
  }

  /** What the expiry loop looks at in an entry */
  predicate SameMisses(e: Entry, f: Entry) {
    e.id == f.id && e.misses == f.misses && e.lastIdx == f.lastIdx
  }

  /** The entries that are left have the misses they had. */
  ghost predicate MissesKept(t: Table, u: Table) {
    forall f | f in u.list :: exists e :: e in t.list && SameMisses(e, f)
  }

  lemma {:induction false} UsedOnlySome(c: Table, list: seq<Entry>)
    ensures forall e | e in UsedOnly(c, list) :: e in list
  {
    UsedOnlyMembers(c, list);
  }

  lemma {:induction false} YoungerSome(c: Table, limit: Time, list: seq<Entry>)
    ensures forall e | e in Younger(c, limit, list) :: e in list
  {
    if list != [] { YoungerSome(c, limit, list[1..]); }
  }

  lemma SomeKept(t: Table, u: Table)
    requires forall e | e in u.list :: e in t.list
    ensures MissesKept(t, u)
  {
    forall f | f in u.list ensures exists e :: e in t.list && SameMisses(e, f) {
      assert SameMisses(f, f);
    }
  }

  lemma LevelKept(t: Table, level: int)
    ensures MissesKept(t, SetLevel(t, level))
  {
    var u := SetLevel(t, level);
    forall f | f in u.list ensures exists e :: e in t.list && SameMisses(e, f) {
      var i :| 0 <= i < |u.list| && u.list[i] == f;
      assert SameMisses(t.list[i], f) && t.list[i] in t.list;
    }
  }

  lemma FlushKept(t: Table)
    ensures MissesKept(t, Flush(t))
  {
    hide Flush, MissesKept;
    FlushKeepsUsed(t);
    UsedOnlySome(t, t.list);
    SomeKept(t, Flush(t));
  }

  lemma AgeKept(t: Table, now: Time, age: int)
    ensures MissesKept(t, FlushByAge(t, now, age))
  {
    hide FlushByAge, MissesKept;
    FlushByAgeKeepsYounger(t, now, age);
    YoungerSome(t, Time(now.sec - age, now.usec), t.list);
    SomeKept(t, FlushByAge(t, now, age));
  }

  lemma DropKept(t: Table, id: nat)
    requires Inv(t)
    ensures MissesKept(t, Drop(t, id))
  {
    LinkedIds(t);
    hide MissesKept, Inv;
    var k := IndexOf(Ids(t.list), id);
    if k < |t.list| { RemoveAtEntries(t.list, k); }
    SomeKept(t, Drop(t, id));
  }

  lemma ShrinkingKept(t: Table, ev: Event)
    requires Inv(t) && Shrinking(ev) && !Counting(ev)
    ensures MissesKept(t, Step(t, ev))
  {
    hide MissesKept, Inv, EndFrom, Flush, FlushByAge, Drop, SetLevel;
    match ev
    case EndRound(info, newScan) => SomeKept(t, t);
    case FlushAll => FlushKept(t);
    case FlushOld(now, age) => AgeKept(t, now, age);
    case Lose(id) => DropKept(t, id);
    case Signal(level) => LevelKept(t, level);
  }

  /** An event that neither sights the entry nor ends a complete round leaves its misses alone. */
  lemma StepKept(t: Table, ev: Event, e: Entry)
    requires Inv(t) && e in t.list && !Sights(t, ev, e.id) && !Counting(ev) && Live(Step(t, ev), e.id)
    ensures SameMisses(e, EntryOf(Step(t, ev), e.id))
  {
    hide Step, Inv, Live, Sights, SameMisses;
    var u := Step(t, ev);
    var f := EntryOf(u, e.id);
    if ev.Result? {
      ResultKept(t, ev, e);
      Itself(e);
    } else {
      if Shrinking(ev) { ShrinkingKept(t, ev); } else { SettingKept(t, ev); }
      assert MissesKept(t, u);
      var d :| d in t.list && SameMisses(d, f);
      SameId(d, f);
      EntriesOf(t, d, e);
    }
  }

  lemma Itself(e: Entry)
    ensures SameMisses(e, e)
  {
  }

  lemma SameId(e: Entry, f: Entry)
    requires SameMisses(e, f)
    ensures e.id == f.id
  {
  }

  lemma SettingKept(t: Table, ev: Event)
    requires !Shrinking(ev) && !ev.Result?
    ensures MissesKept(t, Step(t, ev))
  {
    SomeKept(t, Step(t, ev));
  }

  lemma ResultKept(t: Table, ev: Event, e: Entry)
    requires Inv(t) && ev.Result? && e in t.list && !Sights(t, ev, e.id) && Live(Step(t, ev), e.id)
    ensures EntryOf(Step(t, ev), e.id) == e
  {
    var ssid := ResultSsid(t.conf, ev.res, ev.fetch);
    if ssid.None? {
      SkippedKept(t, ev);
    } else {
      SightedOther(t, ev, e.id, ssid.value);
      SightingFiled(t, ssid.value, ev.res, ev.fetch);
    }
    hide Step, Inv, ResultSsid, SightedId, Sights, Measured, ElementsKept, Live;
    var u := Step(t, ev);
    var f := EntryOf(u, e.id);
    if ssid.Some? {
      var g := u.list[|u.list| - 1];
      assert f != g && OthersKept(t, u, g);
    }
    EntriesOf(t, e, f);
  }

  lemma SkippedKept(t: Table, ev: Event)
    requires ev.Result? && ResultSsid(t.conf, ev.res, ev.fetch).None?
    ensures Step(t, ev) == t
  {
  }

  lemma SightedOther(t: Table, ev: Event, id: nat, ssid: seq<Byte>)
    requires ev.Result? && ResultSsid(t.conf, ev.res, ev.fetch) == Some(ssid) && !Sights(t, ev, id)
    ensures SightedId(t, ssid, ev.res) != id
  {
  }

  lemma SightedNow(t: Table, ev: Event, id: nat)
    requires Inv(t) && Sights(t, ev, id)
    ensures var u := Step(t, ev);
      Live(u, id) && EntryOf(u, id).misses == 0 && EntryOf(u, id).lastIdx == u.updateIdx
      && u.conf.expiration == t.conf.expiration
  {
    var ssid := ResultSsid(t.conf, ev.res, ev.fetch).value;
    var u := Step(t, ev);
    SightingFiled(t, ssid, ev.res, ev.fetch);
    BssProperties.SightFrame(t, ssid, ev.res, ev.fetch);
    StepInv(t, ev);
    hide Step, ResultSsid, SightedId, Inv, ElementsKept, OthersKept;
    EntryIs(u, u.list[|u.list| - 1]);
  }

  /** An id that is gone is not sighted. */
  lemma GoneUnsighted(t: Table, ev: Event, id: nat)
    requires Inv(t) && id !in t.ids && id < t.nextId
    ensures !Sights(t, ev, id)
  {
    LinkedIds(t);
    if ev.Result? {
      var ssid := ResultSsid(t.conf, ev.res, ev.fetch);
      if ssid.Some? { ListedOrNew(t, ssid.value, ev.res); }
    }
    hide SightedId, Inv;
  }

  lemma ListedOrNew(t: Table, ssid: seq<Byte>, res: ScanRes)
    ensures SightedId(t, ssid, res) in Ids(t.list) || SightedId(t, ssid, res) == t.nextId
  {
    var k := Get(t, res.bssid, ssid);
    assert k < |t.list| ==> Ids(t.list)[k] == t.list[k].id;
  }

  lemma {:induction false} UnseenGone(t: Table, evs: seq<Event>, id: nat, stale: bool, n: nat)
    requires Inv(t) && id !in t.ids && id < t.nextId
    ensures Unseen(t, evs, id, stale, n) >= n
    decreases |evs|
  {
    if evs != [] {
      GoneUnsighted(t, evs[0], id);
      StepInv(t, evs[0]);
      BssProperties.StepIds(t, evs[0]);
      hide Step, Sights, Inv;
      var u := Step(t, evs[0]);
      if evs[0].StartRound? {
        UnseenGone(u, evs[1..], id, true, n);
      } else {
        UnseenGone(u, evs[1..], id, stale, if Counting(evs[0]) && stale then n + 1 else n);
      }
    }
  }

  /** The end of a complete round, for an entry that it covers and that is not in use */
  lemma RoundEnds(t: Table, ev: Event, id: nat)
    requires Inv(t) && Counting(ev) && Live(t, id) && !Exempt(t, ev.info, EntryOf(t, id))
    ensures var e, u := EntryOf(t, id), Step(t, ev);
      var m := if e.lastIdx < t.updateIdx then e.misses + 1 else e.misses;
      && u.updateIdx == t.updateIdx && u.conf.expiration == t.conf.expiration && id < u.nextId
      && (id in u.ids <==> m < t.conf.expiration) && (Live(u, id) <==> id in u.ids)
      && (Live(u, id) ==> EntryOf(u, id).misses == m && EntryOf(u, id).lastIdx == e.lastIdx)
  {
    var e, u := EntryOf(t, id), Step(t, ev);
    BssProperties.EndOfOne(t, ev.info, e);
    StepInv(t, ev);
    StepShrunk(t, ev);
    BssProperties.MemberLive(t, e);
    OldIds(t, id);
    LinkedIds(u);
    assert u == End(t, ev.info, true);
    if !Expired(t, ev.info, e) {
      EntryIs(u, Missed(t, ev.info, e));
      BssProperties.MemberLive(u, Missed(t, ev.info, e));
    }
    hide Step, Inv, InUse, Covered;
  }

  /** Where the entry and the count stand: what its misses are, from the history. */
  ghost predicate Stands(t: Table, id: nat, stale: bool, n: nat) {
    && Live(t, id) && EntryOf(t, id).misses == n < t.conf.expiration
    && (stale <==> EntryOf(t, id).lastIdx < t.updateIdx)
  }

  lemma QuietStands(t: Table, ev: Event, id: nat, stale: bool, n: nat)
    requires Inv(t) && Stands(t, id, stale, n) && !Sights(t, ev, id) && !Counting(ev) && Live(Step(t, ev), id)
    requires ev.SetConf? ==> Step(t, ev).conf.expiration == t.conf.expiration
    ensures Stands(Step(t, ev), id, stale || ev.StartRound?, n)
  {
    StepKept(t, ev, EntryOf(t, id));
    if ev.StartRound? {
      BssProperties.OrderedAt(t, EntryOf(t, id));
    } else {
      BssProperties.StepConf(t, ev);
    }
  }

  lemma LiveListed(t: Table, id: nat)
    requires Inv(t)
    ensures Live(t, id) <==> id in t.ids
  {
    LinkedIds(t);
  }

  lemma SightsNoRound(t: Table, ev: Event, id: nat)
    requires Sights(t, ev, id)
    ensures !Counting(ev) && !ev.SetConf?
  {
  }

  lemma SameExpiration(t: Table, ev: Event)
    requires Inv(t) && !ev.SetConf?
    ensures Step(t, ev).conf.expiration == t.conf.expiration
  {
    if !ev.StartRound? { BssProperties.StepConf(t, ev); }
  }

  /** However often it is sighted again, an entry is in the table if and only if the complete rounds
      that began and ended since its last sighting are fewer than bss_expiration_scan_count. */
  lemma {:induction false} StaysIff(t: Table, evs: seq<Event>, id: nat, stale: bool, n: nat)
    requires Inv(t) && Stands(t, id, stale, n) && Followed(t, evs, id)
    ensures id in Run(t, evs).ids <==> Unseen(t, evs, id, stale, n) < t.conf.expiration
    decreases |evs|
  {
    hide Step, Inv, Sights, Exempt, EntryOf, Live;
    LiveListed(t, id);
    if evs != [] {
      var u := Step(t, evs[0]);
      StepInv(t, evs[0]);
      if Sights(t, evs[0], id) {
        SightedNow(t, evs[0], id);
        SightsNoRound(t, evs[0], id);
        StaysIff(u, evs[1..], id, false, 0);
      } else if Counting(evs[0]) {
        RoundEnds(t, evs[0], id);
        var m := if stale then n + 1 else n;
        if Live(u, id) { StaysIff(u, evs[1..], id, stale, m); }
        else { BssProperties.GoneForGood(u, evs[1..], id); UnseenGone(u, evs[1..], id, stale, m); }
      } else {
        QuietStands(t, evs[0], id, stale, n);
        if !evs[0].SetConf? { SameExpiration(t, evs[0]); }
        StaysIff(u, evs[1..], id, stale || evs[0].StartRound?, n);
      }
    }
  }

  /** So a sighting starts the count anew, whatever was counted before it. */
  lemma StaysSinceSighting(t: Table, res: ScanRes, fetch: Time, evs: seq<Event>, id: nat)
    requires Inv(t) && Sights(t, Result(res, fetch), id) && t.conf.expiration > 0
    requires Live(Step(t, Result(res, fetch)), id) && Followed(Step(t, Result(res, fetch)), evs, id)
    ensures var u := Step(t, Result(res, fetch));
      id in Run(u, evs).ids <==> Unseen(u, evs, id, false, 0) < t.conf.expiration
  {
    var ev := Result(res, fetch);
    SightedNow(t, ev, id);
    StepInv(t, ev);
    hide Step, Inv, Sights;
    StaysIff(Step(t, ev), evs, id, false, 0);
  }
}
