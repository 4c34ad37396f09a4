/** Whole runs of the BSS table on addresses: the memory that bss.c leaves behind represents the
    table of BssRuns, whatever addresses the allocator hands out. */
module BssMemoryRuns {
  import opened Collections
  import opened BssModel
  import opened BssMemory
  import opened BssInvariants
  import opened BssRuns

  /** The links are sound and hold the entries and the plain fields of the table. */
  ghost predicate Shows(l: Links, t: Table) {
    Ok(l) && Abstract(l, t) == t
  }

  /** No entry but the current one has the id that current_bss last had: ids are not reused. */
  ghost predicate CurrentKnown(l: Links) {
    l.currentRec.Some? ==>
      && l.currentRec.value.id < l.nextId
      && forall q | q in l.mem && l.mem[q].id == l.currentRec.value.id :: q == l.current
  }

  /** The memory represents the table. */
  ghost predicate Represents(l: Links, t: Table) {
    Shows(l, t) && CurrentKnown(l)
  }

  ghost predicate SamePlain(t: Table, u: Table) {
    t.num == u.num && t.updateIdx == u.updateIdx && t.bssid == u.bssid && t.pending == u.pending && t.conf == u.conf
  }

  lemma PlainFields(l: Good, t: Table, u: Table)
    requires SamePlain(t, u)
    ensures Abstract(l, t) == Abstract(l, u)
  {
  }

  lemma AsListed(l: Links, t: Table, k: nat)
    requires Shows(l, t)
    ensures |t.list| == |l.list|
    ensures k < |t.list| ==> l.list[k] in l.mem && t.list[k] == l.mem[l.list[k]]
    ensures t.nextId == l.nextId && t.current == l.currentRec && t.last == IdsOf(l.mem, l.last)
  {
  }

  // --- operations on addresses -----------------------------------------------

  ghost function Store(l: Links, k: nat, e: Entry): Links
    requires k < |l.list|
  {
    l.(mem := l.mem[l.list[k] := e])
  }

  /** The expiry loop from position k on */
  ghost function EndOn(l: Links, t: Table, info: Option<ScanInfo>, k: nat): Links
    requires |l.list| == |t.list| && k <= |t.list|
    decreases |t.list| - k
  {
    if k == |t.list| then l
    else
      var e := Missed(t, info, t.list[k]);
      var m, u := Store(l, k, e), t.(list := t.list[k := e]);
      if Expired(t, info, t.list[k]) then EndOn(Unlink(m, k), Remove(u, k), info, k)
      else EndOn(m, u, info, k + 1)
  }

  ghost function FlushOn(l: Links, t: Table, k: nat): Links
    requires |l.list| == |t.list| && k <= |t.list|
    decreases |t.list| - k
  {
    if k == |t.list| then l
    else if InUse(t, t.list[k]) then FlushOn(l, t, k + 1)
    else FlushOn(Unlink(l, k), Remove(t, k), k)
  }

  ghost function AgeOn(l: Links, t: Table, limit: Time, k: nat): Links
    requires |l.list| == |t.list| && k <= |t.list|
    decreases |t.list| - k
  {
    if k == |t.list| then l
    else if InUse(t, t.list[k]) then AgeOn(l, t, limit, k + 1)
    else if Before(t.list[k].lastUpdate, limit) then AgeOn(Unlink(l, k), Remove(t, k), limit, k)
    else l
  }

  ghost function RoomOn(l: Links, t: Table): Links
    requires |l.list| == |t.list|
  {
    if t.num + 1 > t.conf.maxCount && Victim(t) < |t.list| then Unlink(l, Victim(t)) else l
  }

  /** wpa_bss_add, with the new structure at p, and the note in last_scan_res */
  ghost function AddOn(l: Links, t: Table, e: Entry, p: Ptr): Links
    requires |l.list| == |t.list|
  {
    var m := LinkTail(RoomOn(l, t), p, e);
    m.(last := m.last + [p])
  }

  /** wpa_bss_update of the k-th entry, which os_realloc leaves at n, and the note */
  ghost function UpdateOn(l: Links, k: nat, n: Ptr, e: Entry): Links
    requires k < |l.list|
  {
    var m := Moved(l, k, n, e);
    if n in m.last then m else m.(last := m.last + [n])
  }

  ghost function SightOn(l: Links, t: Table, ssid: seq<Byte>, res: ScanRes, fetch: Time, p: Ptr): Links
    requires |l.list| == |t.list|
  {
    var k := Get(t, res.bssid, ssid);
    if k == |t.list| then AddOn(l, t, NewEntry(t, ssid, res, fetch), p)
    else UpdateOn(l, k, p, Refresh(t.list[k], t.updateIdx, res, fetch))
  }

  ghost function ResultOn(l: Links, t: Table, res: ScanRes, fetch: Time, p: Ptr): Links
    requires |l.list| == |t.list|
  {
    match ResultSsid(t.conf, res, fetch)
    case None => l
    case Some(ssid) => SightOn(l, t, ssid, res, fetch, p)
  }

  /** The address of the entry with that id, or other */
  function AddressOf(l: Links, t: Table, id: nat, other: Ptr): Ptr
    requires |l.list| == |t.list|
  {
    var k := IndexOf(Ids(t.list), id);
    if k < |t.list| then l.list[k] else other
  }

  /** wpa_bss_remove of the entry with that id */
  ghost function LoseOn(l: Links, t: Table, id: nat): Links
    requires |l.list| == |t.list|
  {
    var k := IndexOf(Ids(t.list), id);
    if k < |t.list| then Unlink(l, k) else l
  }

  /** wpa_bss_update_level of the structure that current_bss points to, if it is still there */
  ghost function LevelOn(l: Links, level: int): Links {
    if level >= 0 || l.current !in l.mem then l
    else l.(mem := l.mem[l.current := Levelled(l.mem[l.current], level)])
  }

  ghost function StepOn(l: Links, t: Table, ev: Event, p: Ptr): Links
    requires |l.list| == |t.list|
  {
    match ev
    case StartRound => l.(last := [])
    case Result(res, fetch) => ResultOn(l, t, res, fetch, p)
    case EndRound(info, newScan) => if Complete(info, newScan) then EndOn(l, t, info, 0) else l
    case FlushAll => FlushOn(l, t, 0)
    case FlushOld(now, age) => AgeOn(l, t, Time(now.sec - age, now.usec), 0)
    case SetCurrent(to) =>
      if to.None? then l.(current := NULL, currentRec := None)
      else l.(current := AddressOf(l, t, to.value, l.current), currentRec := CurrentFor(t, to))
    case SetConnect(work) => l.(connect := if work.None? then NULL else AddressOf(l, t, work.value, l.connect))
    case Lose(id) => LoseOn(l, t, id)
    case Signal(level) => LevelOn(l, level)
    case _ => l
  }

  /** What os_zalloc or os_realloc may answer when the event asks for memory: any address not in
      use, or that of the structure itself when it stays where it is. */
  ghost predicate Allocated(l: Links, t: Table, ev: Event, p: Ptr)
    requires |l.list| == |t.list|
  {
    ev.Result? ==>
      var ssid := ResultSsid(t.conf, ev.res, ev.fetch);
      ssid.Some? ==>
        var k := Get(t, ev.res.bssid, ssid.value);
        (k < |t.list| && p == l.list[k]) || (p != NULL && p !in l.mem)
  }

  /** The table as the event finds it: when the allocator answers with the address that a dangling
      current_bss still holds, current_bss points to the entry that the result is filed in. */
  ghost function Seeing(l: Links, t: Table, ev: Event, p: Ptr): Table {
    if ev.Result? && ResultSsid(t.conf, ev.res, ev.fetch).Some? && Reused(l, p) then
      var ssid := ResultSsid(t.conf, ev.res, ev.fetch).value;
      t.(current := Some(Current(SightedId(t, ssid, ev.res), ssid)))
    else t
  }

  ghost predicate Reused(l: Links, p: Ptr) {
    p == l.current && p != NULL && p !in l.mem
  }

  // --- current_bss by address and by id --------------------------------------

  lemma KnownUnlink(l: Links, k: nat)
    requires CurrentKnown(l) && k < |l.list|
    ensures CurrentKnown(Unlink(l, k))
  {
  }

  lemma KnownStore(l: Links, p: Ptr, e: Entry)
    requires CurrentKnown(l) && p in l.mem && e.id == l.mem[p].id
    ensures CurrentKnown(l.(mem := l.mem[p := e]))
  {
  }

  lemma KnownLink(l: Links, p: Ptr, e: Entry)
    requires e.id == l.nextId && (CurrentKnown(l) || p == l.current)
    requires forall q | q in l.mem :: l.mem[q].id < l.nextId
    ensures CurrentKnown(LinkTail(l, p, e))
  {
  }

  lemma KnownMove(l: Links, k: nat, n: Ptr, e: Entry)
    requires Ok(l) && CurrentKnown(l) && Movable(l, k, n, e)
    ensures CurrentKnown(Moved(l, k, n, e))
  {
    var p := l.list[k];
    assert p in l.mem && forall q | q in l.mem && l.mem[q].id == l.mem[p].id :: q == p;
    assert l.mem[p].id < l.nextId;
    hide Ok, Distinct, Patch, RemoveAt;
  }

  /** wpa_bss_in_use as it compares addresses */
  ghost predicate InUseAt(l: Links, t: Table, k: nat)
    requires k < |l.list| && l.list[k] in l.mem
  {
    var e := l.mem[l.list[k]];
    if l.list[k] == l.current then true
    else if l.current != NULL && l.currentRec.Some? && e.ssid != l.currentRec.value.ssid then false
    else e.bssid != ZERO_ADDR && (e.bssid == t.bssid || e.bssid == t.pending)
  }

  /** Comparing addresses is comparing ids, also while current_bss dangles. */
  lemma InUseByAddress(l: Links, t: Table, k: nat)
    requires Represents(l, t) && k < |l.list|
    ensures l.list[k] in l.mem && k < |t.list|
    ensures InUseAt(l, t, k) <==> InUse(t, t.list[k])
  {
    AsListed(l, t, k);
    hide Abstract, Distinct, ById;
  }

  // --- each represents the operation on values -------------------------------

  lemma RemoveShows(l: Links, t: Table, k: nat)
    requires Shows(l, t) && k < |t.list|
    ensures |l.list| == |t.list| && Shows(Unlink(l, k), Remove(t, k))
  {
    AsListed(l, t, k);
    UnlinkOk(l, k);
    UnlinkAbstract(l, k, t);
    hide Ok, Unlink, Abstract;
    PlainFields(Unlink(l, k), t.(num := t.num - 1), Remove(t, k));
  }

  lemma RemoveOn(l: Links, t: Table, k: nat)
    requires Represents(l, t) && k < |t.list|
    ensures |l.list| == |t.list| && Represents(Unlink(l, k), Remove(t, k))
  {
    hide Shows, CurrentKnown, Unlink, Remove;
    RemoveShows(l, t, k);
    KnownUnlink(l, k);
  }

  lemma StoreShows(l: Links, t: Table, k: nat, e: Entry)
    requires Shows(l, t) && k < |t.list| && e.id == t.list[k].id && e.ssid == t.list[k].ssid
    ensures |l.list| == |t.list| && Shows(Store(l, k, e), t.(list := t.list[k := e]))
  {
    AsListed(l, t, k);
    StoreOk(l, k, e, t);
    hide Ok, Abstract;
    PlainFields(Store(l, k, e), t, t.(list := t.list[k := e]));
  }

  lemma StoreOn(l: Links, t: Table, k: nat, e: Entry)
    requires Represents(l, t) && k < |t.list| && e.id == t.list[k].id && e.ssid == t.list[k].ssid
    ensures |l.list| == |t.list| && Represents(Store(l, k, e), t.(list := t.list[k := e]))
  {
    StoreShows(l, t, k, e);
    AsListed(l, t, k);
    hide Shows, CurrentKnown;
    KnownStore(l, l.list[k], e);
  }

  /** One turn of the expiry loop up to the removal */
  lemma MissRepresents(l: Links, t: Table, info: Option<ScanInfo>, k: nat)
    requires Represents(l, t) && k < |t.list|
    ensures var e := Missed(t, info, t.list[k]);
      |l.list| == |t.list| && Represents(Store(l, k, e), t.(list := t.list[k := e]))
      && |Store(l, k, e).list| == |l.list|
  {
    hide Represents, Missed;
    MissedKeeps(t, info, t.list[k]);
    StoreOn(l, t, k, Missed(t, info, t.list[k]));
  }

  lemma {:induction false} EndRepresents(l: Links, t: Table, info: Option<ScanInfo>, k: nat)
    requires Represents(l, t) && k <= |t.list|
    ensures |l.list| == |t.list| && Represents(EndOn(l, t, info, k), EndFrom(t, info, k))
    decreases |t.list| - k
  {
    hide Represents, Missed, Expired, Remove, Unlink, Store;
    SameLength(l, t);
    if k < |t.list| {
      var e := Missed(t, info, t.list[k]);
      var m, u := Store(l, k, e), t.(list := t.list[k := e]);
      MissRepresents(l, t, info, k);
      if Expired(t, info, t.list[k]) {
        RemoveOn(m, u, k);
        Shorter(m, u, k);
        EndRepresents(Unlink(m, k), Remove(u, k), info, k);
      } else {
        EndRepresents(m, u, info, k + 1);
      }
    }
  }

  lemma MissedKeeps(t: Table, info: Option<ScanInfo>, e: Entry)
    ensures Missed(t, info, e).id == e.id && Missed(t, info, e).ssid == e.ssid
  {
  }

  lemma SameLength(l: Links, t: Table)
    requires Represents(l, t)
    ensures |l.list| == |t.list|
  {
  }

  lemma Shorter(l: Links, t: Table, k: nat)
    requires k < |l.list| == |t.list|
    ensures |Unlink(l, k).list| == |Remove(t, k).list| == |t.list| - 1
  {
  }

  lemma {:induction false} FlushRepresents(l: Links, t: Table, k: nat)
    requires Represents(l, t) && k <= |t.list|
    ensures |l.list| == |t.list| && Represents(FlushOn(l, t, k), FlushFrom(t, k))
    decreases |t.list| - k
  {
    hide Represents, InUse, Remove, Unlink;
    SameLength(l, t);
    if k < |t.list| {
      if InUse(t, t.list[k]) {
        FlushRepresents(l, t, k + 1);
      } else {
        RemoveOn(l, t, k);
        Shorter(l, t, k);
        FlushRepresents(Unlink(l, k), Remove(t, k), k);
      }
    }
  }

  lemma {:induction false} AgeRepresents(l: Links, t: Table, limit: Time, k: nat)
    requires Represents(l, t) && k <= |t.list|
    ensures |l.list| == |t.list| && Represents(AgeOn(l, t, limit, k), AgeFrom(t, limit, k))
    decreases |t.list| - k
  {
    hide Represents, InUse, Remove, Unlink, Before;
    SameLength(l, t);
    if k < |t.list| {
      if InUse(t, t.list[k]) {
        AgeRepresents(l, t, limit, k + 1);
      } else if Before(t.list[k].lastUpdate, limit) {
        RemoveOn(l, t, k);
        Shorter(l, t, k);
        AgeRepresents(Unlink(l, k), Remove(t, k), limit, k);
      }
    }
  }

  lemma SameLengthShown(l: Links, t: Table)
    requires Shows(l, t)
    ensures |l.list| == |t.list|
  {
  }

  lemma RoomShows(l: Links, t: Table)
    requires Shows(l, t)
    ensures |l.list| == |t.list| && Shows(RoomOn(l, t), MakeRoom(t))
    ensures RoomOn(l, t).nextId == l.nextId && RoomOn(l, t).current == l.current
    ensures RoomOn(l, t).currentRec == l.currentRec && RoomOn(l, t).mem.Keys <= l.mem.Keys
  {
    hide Shows, Victim, Remove;
    SameLengthShown(l, t);
    if t.num + 1 > t.conf.maxCount {
      if Victim(t) < |t.list| {
        RemoveShows(l, t, Victim(t));
      } else {
        PlainConf(l, t, t.conf.(maxCount := t.num + 1));
      }
    }
  }

  lemma PlainConf(l: Links, t: Table, c: Conf)
    requires Shows(l, t)
    ensures Shows(l, t.(conf := c))
  {
  }

  lemma NoteShows(l: Links, t: Table, k: nat)
    requires Shows(l, t) && k < |l.list| == |t.list| && l.list[k] !in l.last
    ensures Shows(l.(last := l.last + [l.list[k]]), t.(last := t.last + [t.list[k].id]))
  {
    NoteOk(l, k, t);
    var m := l.(last := l.last + [l.list[k]]);
    hide Ok, Abstract;
    PlainFields(m, t, t.(last := t.last + [t.list[k].id]));
  }

  lemma LinkShows(l: Links, t: Table, p: Ptr, e: Entry)
    requires Shows(l, t) && p != NULL && p !in l.mem && Seen(l, p, e) == l.currentRec && e.id == t.nextId
    ensures Shows(LinkTail(l, p, e),
                  t.(list := t.list + [e], ids := t.ids + [e.id], nextId := t.nextId + 1, num := t.num + 1))
  {
    AsListed(l, t, 0);
    LinkTailOk(l, p, e);
    LinkTailAbstract(l, p, e, t);
    var u := t.(list := t.list + [e], ids := t.ids + [e.id], nextId := t.nextId + 1);
    hide Ok, Abstract, LinkTail;
    PlainFields(LinkTail(l, p, e), t, u);
    NumberOf(LinkTail(l, p, e), u, t.num + 1);
  }

  lemma NumberOf(l: Good, t: Table, n: int)
    requires Abstract(l, t) == t
    ensures Abstract(l, t.(num := n)) == t.(num := n)
  {
  }

  lemma LinkedLast(l: Links, p: Ptr, e: Entry)
    requires Ok(l) && p !in l.mem
    ensures var m := LinkTail(l, p, e); |m.list| > 0 && m.list[|m.list| - 1] == p && p !in m.last
  {
  }

  /** Adding, when current_bss already shows what it will show */
  lemma AddShows(l: Links, t: Table, ssid: seq<Byte>, res: ScanRes, fetch: Time, p: Ptr)
    requires Shows(l, t) && p != NULL && p !in l.mem
    requires Seen(l, p, NewEntry(t, ssid, res, fetch)) == l.currentRec
    ensures var e := NewEntry(t, ssid, res, fetch); var u := Add(t, ssid, res, fetch);
      |l.list| == |t.list| && Shows(AddOn(l, t, e, p), u.(last := u.last + [t.nextId]))
  {
    var e := NewEntry(t, ssid, res, fetch);
    var r, w := RoomOn(l, t), MakeRoom(t);
    RoomShows(l, t);
    AsListed(l, t, 0);
    AsListed(r, w, 0);
    hide MakeRoom, RoomOn, LinkTail, Abstract;
    LinkShows(r, w, p, e);
    LinkedLast(r, p, e);
    hide Ok;
    var m, u := LinkTail(r, p, e), Add(t, ssid, res, fetch);
    SameLengthShown(m, u);
    NoteShows(m, u, |m.list| - 1);
  }

  /** A dangling current_bss whose address is reused */
  lemma ReuseShows(l: Links, t: Table, c: Current)
    requires Shows(l, t) && l.current != NULL && l.current !in l.mem
    ensures Shows(l.(currentRec := Some(c)), t.(current := Some(c)))
  {
  }

  lemma ReuseAdds(l: Links, t: Table, e: Entry, c: Option<Current>)
    requires |l.list| == |t.list|
    ensures AddOn(l, t, e, l.current) == AddOn(l.(currentRec := c), t, e, l.current)
  {
  }

  lemma RoomKnown(l: Links, t: Table)
    requires |l.list| == |t.list|
    ensures CurrentKnown(l) ==> CurrentKnown(RoomOn(l, t))
    ensures var r := RoomOn(l, t);
      r.nextId == l.nextId && r.current == l.current
      && forall q | q in r.mem :: q in l.mem && r.mem[q] == l.mem[q]
  {
    if Victim(t) < |t.list| && CurrentKnown(l) { KnownUnlink(l, Victim(t)); }
    hide CurrentKnown, Victim;
  }

  lemma AddKnown(l: Links, t: Table, e: Entry, p: Ptr)
    requires |l.list| == |t.list| && Ok(l) && e.id == l.nextId && (CurrentKnown(l) || p == l.current)
    ensures CurrentKnown(AddOn(l, t, e, p))
  {
    RoomKnown(l, t);
    var r := RoomOn(l, t);
    assert forall q | q in r.mem :: r.mem[q].id < r.nextId;
    KnownLink(r, p, e);
    hide Ok, RoomOn, LinkTail;
  }

  lemma AddRepresents(l: Links, t: Table, ssid: seq<Byte>, res: ScanRes, fetch: Time, p: Ptr)
    requires Represents(l, t) && p != NULL && p !in l.mem
    ensures var e := NewEntry(t, ssid, res, fetch);
      var s := if p == l.current then t.(current := Some(Current(t.nextId, ssid))) else t;
      var u := Add(s, ssid, res, fetch);
      |l.list| == |t.list| && Represents(AddOn(l, s, e, p), u.(last := u.last + [t.nextId]))
  {
    var e := NewEntry(t, ssid, res, fetch);
    var c := Current(t.nextId, ssid);
    AsListed(l, t, 0);
    if p == l.current {
      var m, s := l.(currentRec := Some(c)), t.(current := Some(c));
      ReuseShows(l, t, c);
      ReuseAdds(l, s, e, Some(c));
      AddKnown(l, s, e, p);
      hide Shows, CurrentKnown, AddOn, Add;
      AddShows(m, s, ssid, res, fetch, p);
    } else {
      AddKnown(l, t, e, p);
      hide Shows, CurrentKnown, AddOn, Add;
      AddShows(l, t, ssid, res, fetch, p);
    }
  }

  lemma MoveShows(l: Links, t: Table, k: nat, n: Ptr, e: Entry)
    requires Shows(l, t) && Movable(l, k, n, e)
    ensures k < |t.list|
    ensures Shows(Moved(l, k, n, e), t.(list := RemoveAt(t.list, k) + [e], current := Seen(l, n, e)))
  {
    AsListed(l, t, k);
    MovedOk(l, k, n, e);
    MovedAbstract(l, k, n, e, t);
    hide Ok, Abstract, Moved, Seen;
    PlainFields(Moved(l, k, n, e), t, t.(list := RemoveAt(t.list, k) + [e], current := Seen(l, n, e)));
  }

  lemma MovedLast(l: Links, k: nat, n: Ptr, e: Entry)
    requires k < |l.list|
    ensures var m := Moved(l, k, n, e); |m.list| == |l.list| && m.list[|m.list| - 1] == n && n in m.mem && m.mem[n] == e
  {
  }

  lemma UpdateShows(l: Links, t: Table, k: nat, res: ScanRes, fetch: Time, n: Ptr)
    requires Shows(l, t) && k < |t.list| == |l.list| && (n == l.list[k] || (n != NULL && n !in l.mem))
    ensures var id := t.list[k].id; var e := Refresh(t.list[k], t.updateIdx, res, fetch);
      var u := Update(t, k, res, fetch).(current := Seen(l, n, e));
      Movable(l, k, n, e) && Shows(UpdateOn(l, k, n, e), if id in u.last then u else u.(last := u.last + [id]))
  {
    var e := Refresh(t.list[k], t.updateIdx, res, fetch);
    AsListed(l, t, k);
    RefreshKeeps(t.list[k], t.updateIdx, res, fetch);
    assert Movable(l, k, n, e) by { assert l.list[k] != NULL; }
    hide Refresh, Movable, Seen, Abstract;
    MoveShows(l, t, k, n, e);
    MovedLast(l, k, n, e);
    var m, u := Moved(l, k, n, e), Update(t, k, res, fetch).(current := Seen(l, n, e));
    AsListed(m, u, |m.list| - 1);
    NotedById(m, n);
    hide Moved, Shows;
    if n !in m.last { NoteShows(m, u, |m.list| - 1); }
  }

  lemma UpdateKnown(l: Links, k: nat, n: Ptr, e: Entry)
    requires Ok(l) && CurrentKnown(l) && Movable(l, k, n, e)
    ensures CurrentKnown(UpdateOn(l, k, n, e))
  {
    KnownMove(l, k, n, e);
    hide Ok, Movable, Moved;
  }

  lemma UpdateRepresents(l: Links, t: Table, k: nat, res: ScanRes, fetch: Time, n: Ptr)
    requires Represents(l, t) && k < |t.list| == |l.list| && (n == l.list[k] || (n != NULL && n !in l.mem))
    ensures var id := t.list[k].id; var e := Refresh(t.list[k], t.updateIdx, res, fetch);
      var s := if Reused(l, n) then t.(current := Some(Current(id, t.list[k].ssid))) else t;
      var u := Update(s, k, res, fetch);
      Represents(UpdateOn(l, k, n, e), if id in u.last then u else u.(last := u.last + [id]))
  {
    var e := Refresh(t.list[k], t.updateIdx, res, fetch);
    UpdateShows(l, t, k, res, fetch, n);
    UpdateKnown(l, k, n, e);
    SeenAfter(l, t, k, res, fetch, n);
    hide Shows, CurrentKnown, UpdateOn, Refresh, Seen, Reused;
  }

  /** What current_bss shows after the entry was refreshed */
  lemma SeenAfter(l: Links, t: Table, k: nat, res: ScanRes, fetch: Time, n: Ptr)
    requires Shows(l, t) && k < |t.list| == |l.list| && (n == l.list[k] || (n != NULL && n !in l.mem))
    ensures Seen(l, n, Refresh(t.list[k], t.updateIdx, res, fetch))
         == if Reused(l, n) then Some(Current(t.list[k].id, t.list[k].ssid)) else t.current
  {
    AsListed(l, t, k);
    RefreshKeeps(t.list[k], t.updateIdx, res, fetch);
    hide Refresh, Abstract, Distinct, ById;
  }

  lemma RefreshKeeps(e: Entry, idx: nat, res: ScanRes, fetch: Time)
    ensures Refresh(e, idx, res, fetch).id == e.id && Refresh(e, idx, res, fetch).ssid == e.ssid
  {
  }

  lemma FiledAs(t: Table, ssid: seq<Byte>, res: ScanRes)
    ensures var k := Get(t, res.bssid, ssid);
      if k == |t.list| then SightedId(t, ssid, res) == t.nextId
      else SightedId(t, ssid, res) == t.list[k].id && t.list[k].ssid == ssid
  {
  }

  /** Where a result is filed does not depend on current_bss. */
  lemma FiledAlike(t: Table, c: Option<Current>, ssid: seq<Byte>, res: ScanRes, fetch: Time)
    ensures var s := t.(current := c);
      && Get(s, res.bssid, ssid) == Get(t, res.bssid, ssid)
      && NewEntry(s, ssid, res, fetch) == NewEntry(t, ssid, res, fetch)
  {
  }

  lemma ResultRepresents(l: Links, t: Table, res: ScanRes, fetch: Time, p: Ptr)
    requires Represents(l, t) && |l.list| == |t.list| && Allocated(l, t, Result(res, fetch), p)
    ensures var s := Seeing(l, t, Result(res, fetch), p);
      Represents(ResultOn(l, s, res, fetch, p), ScanResult(s, res, fetch))
  {
    hide Represents, Get, ResultSsid, Add, Update, AddOn, UpdateOn, Refresh, NewEntry, SightedId;
    var ssid := ResultSsid(t.conf, res, fetch);
    if ssid.Some? {
      var s := Seeing(l, t, Result(res, fetch), p);
      FiledAs(t, ssid.value, res);
      FiledAlike(t, s.current, ssid.value, res, fetch);
      var k := Get(t, res.bssid, ssid.value);
      if k == |t.list| {
        AddRepresents(l, t, ssid.value, res, fetch, p);
      } else {
        UpdateRepresents(l, t, k, res, fetch, p);
      }
    }
  }

  lemma EntryAddress(l: Links, t: Table, id: nat)
    requires Represents(l, t) && |l.list| == |t.list| && id in Ids(t.list)
    ensures var p := AddressOf(l, t, id, NULL); p in l.mem && p != NULL && l.mem[p].id == id
    ensures var k := IndexOf(Ids(t.list), id); k < |t.list| && l.mem[AddressOf(l, t, id, NULL)] == t.list[k]
  {
    AsListed(l, t, IndexOf(Ids(t.list), id));
  }

  lemma CurrentTo(l: Links, t: Table, p: Ptr, c: Option<Current>)
    requires Represents(l, t) && (p == NULL <==> c.None?)
    requires p != NULL ==> p in l.mem && c == Some(Current(l.mem[p].id, l.mem[p].ssid))
    ensures Represents(l.(current := p, currentRec := c), t.(current := c))
  {
    assert NULL !in l.mem;
    if p != NULL {
      assert l.mem[p].id < l.nextId && forall q | q in l.mem && l.mem[q].id == l.mem[p].id :: q == p;
    }
    hide Distinct, ById;
  }

  lemma CurrentRepresents(l: Links, t: Table, to: Option<nat>)
    requires Represents(l, t) && |l.list| == |t.list|
    ensures Represents(StepOn(l, t, SetCurrent(to), NULL), Step(t, SetCurrent(to)))
  {
    AsListed(l, t, 0);
    hide Represents, Shows, Ids, IndexOf;
    if to.None? {
      CurrentTo(l, t, NULL, None);
    } else if to.value in Ids(t.list) {
      EntryAddress(l, t, to.value);
      CurrentTo(l, t, AddressOf(l, t, to.value, NULL), CurrentFor(t, to));
    }
  }

  lemma LoseRepresents(l: Links, t: Table, id: nat)
    requires Represents(l, t) && |l.list| == |t.list|
    ensures Represents(LoseOn(l, t, id), Drop(t, id))
  {
    hide Represents, Unlink, Remove, Ids;
    var k := IndexOf(Ids(t.list), id);
    if k < |t.list| { RemoveOn(l, t, k); }
  }

  /** The entry of current_bss, by address and by id */
  lemma CurrentListed(l: Links, t: Table)
    requires Represents(l, t) && t.current.Some?
    ensures |l.list| == |t.list|
    ensures var k := IndexOf(Ids(t.list), t.current.value.id);
      if l.current in l.mem then k < |t.list| && l.list[k] == l.current && t.list[k] == l.mem[l.current]
      else k == |t.list|
  {
    AsListed(l, t, IndexOf(Ids(t.list), t.current.value.id));
    var k := IndexOf(Ids(t.list), t.current.value.id);
    if l.current in l.mem {
      var j :| 0 <= j < |l.list| && l.list[j] == l.current;
      AsListed(l, t, j);
      assert Ids(t.list)[j] == t.current.value.id;
    }
    hide Abstract, Distinct;
  }

  lemma NoCurrent(l: Links, t: Table)
    requires Represents(l, t) && t.current.None?
    ensures l.current !in l.mem
  {
  }

  lemma LevelRepresents(l: Links, t: Table, level: int)
    requires Represents(l, t)
    ensures Represents(LevelOn(l, level), SetLevel(t, level))
  {
    hide Represents, Ids, IndexOf;
    if t.current.None? {
      NoCurrent(l, t);
    } else {
      CurrentListed(l, t);
      var k := IndexOf(Ids(t.list), t.current.value.id);
      if level < 0 && k < |t.list| { StoreOn(l, t, k, Levelled(t.list[k], level)); }
    }
  }

  lemma IdsListed(l: Links, t: Table, id: nat)
    requires Represents(l, t)
    ensures id in t.ids <==> id in Ids(t.list)
  {
    if id in t.ids {
      var i :| 0 <= i < |t.ids| && t.ids[i] == id;
      assert l.listId[i] in l.mem;
      var j :| 0 <= j < |l.list| && l.list[j] == l.listId[i];
      assert Ids(t.list)[j] == id;
    }
    if id in Ids(t.list) {
      var i :| 0 <= i < |t.list| && t.list[i].id == id;
      assert l.list[i] in l.mem;
      var j :| 0 <= j < |l.listId| && l.listId[j] == l.list[i];
      assert t.ids[j] == id;
    }
  }

  lemma ConnectTo(l: Links, t: Table, p: Ptr)
    requires Represents(l, t) && (p != NULL ==> p in l.mem)
    ensures Represents(l.(connect := p), t.(connect := ConnectId(l.mem, p)))
  {
  }

  lemma ConnectRepresents(l: Links, t: Table, work: Option<nat>)
    requires Represents(l, t) && |l.list| == |t.list|
    ensures Represents(StepOn(l, t, SetConnect(work), NULL), Step(t, SetConnect(work)))
  {
    var m := StepOn(l, t, SetConnect(work), NULL);
    if work.None? {
      ConnectTo(l, t, NULL);
    } else {
      IdsListed(l, t, work.value);
      if work.value in Ids(t.list) {
        EntryAddress(l, t, work.value);
        hide Represents, Ids, IndexOf;
        ConnectTo(l, t, m.connect);
      }
    }
  }

  lemma PlainRepresents(l: Links, t: Table, ev: Event)
    requires Represents(l, t) && |l.list| == |t.list| && (ev.StartRound? || ev.SetAddrs? || ev.SetConf?)
    ensures Represents(StepOn(l, t, ev, NULL), Step(t, ev))
  {
    if ev.StartRound? { assert IdsOf(l.mem, []) == []; }
  }

  /** Every operation leaves memory behind that represents the table, whatever address the
      allocator answers with. */
  lemma StepRepresents(l: Links, t: Table, ev: Event, p: Ptr)
    requires Represents(l, t) && |l.list| == |t.list| && Allocated(l, t, ev, p)
    ensures var s := Seeing(l, t, ev, p);
      |l.list| == |s.list| && Represents(StepOn(l, s, ev, p), Step(s, ev))
  {
    hide Represents, ResultOn, ScanResult, Allocated, EndOn, EndFrom, FlushOn, FlushFrom, AgeOn, AgeFrom;
    hide CurrentFor, AddressOf, LoseOn, LevelOn, Drop, SetLevel, ResultSsid, Reused;
    match ev
    case Result(res, fetch) => ResultRepresents(l, t, res, fetch, p);
    case EndRound(info, newScan) => EndRepresents(l, t, info, 0);
    case FlushAll => FlushRepresents(l, t, 0);
    case FlushOld(now, age) => AgeRepresents(l, t, Time(now.sec - age, now.usec), 0);
    case SetCurrent(to) => CurrentRepresents(l, t, to);
    case SetConnect(work) => ConnectRepresents(l, t, work);
    case Lose(id) => LoseRepresents(l, t, id);
    case Signal(level) => LevelRepresents(l, t, level);
    case _ => PlainRepresents(l, t, ev);
  }

  // --- runs ------------------------------------------------------------------

  /** An event, and the address the allocator answers if it is asked for one */
  datatype Request = Request(ev: Event, p: Ptr)

  function Events(run: seq<Request>): (r: seq<Event>)
    ensures |r| == |run| && forall i | 0 <= i < |r| :: r[i] == run[i].ev
  {
    seq(|run|, i requires 0 <= i < |run| => run[i].ev)
  }

  /** The table behind one request */
  ghost function After(l: Links, t: Table, r: Request): Table {
    Step(Seeing(l, t, r.ev, r.p), r.ev)
  }

  ghost function AfterOn(l: Links, t: Table, r: Request): Links
    requires |l.list| == |t.list|
  {
    StepOn(l, Seeing(l, t, r.ev, r.p), r.ev, r.p)
  }

  ghost predicate AllAllocated(l: Links, t: Table, run: seq<Request>)
    decreases |run|
  {
    run == [] ||
    (|l.list| == |t.list| && Allocated(l, t, run[0].ev, run[0].p)
     && AllAllocated(AfterOn(l, t, run[0]), After(l, t, run[0]), run[1..]))
  }

  ghost function RunOn(l: Links, t: Table, run: seq<Request>): Links
    requires AllAllocated(l, t, run)
    decreases |run|
  {
    if run == [] then l else RunOn(AfterOn(l, t, run[0]), After(l, t, run[0]), run[1..])
  }

  /** The table that the run leaves */
  ghost function TableOf(l: Links, t: Table, run: seq<Request>): Table
    requires AllAllocated(l, t, run)
    decreases |run|
  {
    if run == [] then t else TableOf(AfterOn(l, t, run[0]), After(l, t, run[0]), run[1..])
  }

  /** The allocator never answers with the address that a dangling current_bss holds. */
  ghost predicate NoReuse(l: Links, t: Table, run: seq<Request>)
    requires AllAllocated(l, t, run)
    decreases |run|
  {
    run == [] || (!Reused(l, run[0].p) && NoReuse(AfterOn(l, t, run[0]), After(l, t, run[0]), run[1..]))
  }

  lemma SeeingInv(l: Links, t: Table, ev: Event, p: Ptr)
    requires Inv(t)
    ensures Inv(Seeing(l, t, ev, p)) && (!Reused(l, p) ==> Seeing(l, t, ev, p) == t)
  {
    hide ResultSsid, SightedId;
  }

  lemma {:induction false} RunRepresents(l: Links, t: Table, run: seq<Request>)
    requires Represents(l, t) && Inv(t) && AllAllocated(l, t, run)
    ensures Represents(RunOn(l, t, run), TableOf(l, t, run)) && Inv(TableOf(l, t, run))
    ensures NoReuse(l, t, run) ==> TableOf(l, t, run) == Run(t, Events(run))
    decreases |run|
  {
    hide Represents, StepOn, Step, Allocated, Inv, Seeing, Reused;
    if run != [] {
      StepRepresents(l, t, run[0].ev, run[0].p);
      SeeingInv(l, t, run[0].ev, run[0].p);
      StepInv(Seeing(l, t, run[0].ev, run[0].p), run[0].ev);
      assert Events(run)[1..] == Events(run[1..]);
      RunRepresents(AfterOn(l, t, run[0]), After(l, t, run[0]), run[1..]);
    }
  }

  const EMPTY := Links(map[], [], [], [], NULL, NULL, None, 0)

  /** From the empty memory on, for every choice of unused addresses, no list, scan result or
      pending connect work ever holds the address of a freed entry, and the memory represents a
      table that keeps the invariant: that of BssRuns, unless current_bss came back to life. */
  lemma MemoryFollows(conf: Conf, run: seq<Request>)
    requires AllAllocated(EMPTY, Init(conf), run)
    ensures var l, t := RunOn(EMPTY, Init(conf), run), TableOf(EMPTY, Init(conf), run);
      && Ok(l) && Abstract(l, t) == t && Inv(t)
      && (NoReuse(EMPTY, Init(conf), run) ==> t == Run(Init(conf), Events(run)))
  {
    RunRepresents(EMPTY, Init(conf), run);
  }
}
