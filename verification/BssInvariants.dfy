/** What every operation of the BSS table keeps, and so what holds over every run. */
module BssInvariants {
  import opened Collections
  import opened BssModel

  // --- the invariant ---------------------------------------------------------

  /** The two lists hold the same entries, num of them, the id list in id order. */
  ghost predicate Linked(t: Table) {
    && multiset(Ids(t.list)) == multiset(t.ids)
    && Ascending(t.ids)
    && t.num == |t.list|
    && forall i | 0 <= i < |t.ids| :: t.ids[i] < t.nextId
  }

  ghost predicate OrderedList(list: seq<Entry>) {
    forall i, j | 0 <= i < j < |list| :: list[i].lastIdx <= list[j].lastIdx
  }

  /** No two entries of the list share BSSID and SSID. */
  ghost predicate UniqueList(list: seq<Entry>) {
    forall i, j | 0 <= i < j < |list| :: list[i].bssid != list[j].bssid || list[i].ssid != list[j].ssid
  }

  /** The update list is ordered by the round of the last sighting. */
  ghost predicate Ordered(t: Table) {
    && OrderedList(t.list)
    && forall i | 0 <= i < |t.list| :: t.list[i].lastIdx <= t.updateIdx
  }

  /** last_scan_res holds exactly the live entries sighted in this round, each once. */
  ghost predicate RoundExact(t: Table) {
    && Distinct(t.last)
    && (forall x | x in t.last :: x in t.ids)
    && forall i | 0 <= i < |t.list| :: t.list[i].id in t.last <==> t.list[i].lastIdx == t.updateIdx
  }

  ghost predicate UniqueKeys(t: Table) {
    UniqueList(t.list)
  }

  ghost predicate ConnectLive(t: Table) {
    t.connect.Some? ==> t.connect.value in t.ids
  }

  ghost predicate Inv(t: Table) {
    Linked(t) && Ordered(t) && RoundExact(t) && ConnectLive(t)
  }

  lemma LinkedIds(t: Table)
    requires Linked(t)
    ensures Distinct(Ids(t.list)) && Distinct(t.ids)
    ensures |t.ids| == |t.list|
    ensures forall x :: x in Ids(t.list) <==> x in t.ids
  {
    var a := Ids(t.list);
    assert |multiset(a)| == |a| && |multiset(t.ids)| == |t.ids|;
    forall i, j | 0 <= i < j < |a| ensures a[i] != a[j] {
      if a[i] == a[j] {
        TwiceInMultiset(a, i, j);
        OnceInMultiset(t.ids, a[i]);
      }
    }
    forall x ensures x in a <==> x in t.ids {
      assert x in multiset(a) <==> x in multiset(t.ids);
    }
  }

  lemma TwiceInMultiset<T>(s: seq<T>, i: nat, j: nat)
    requires i < j < |s| && s[i] == s[j]
    ensures multiset(s)[s[i]] >= 2
  {
    assert s == s[..i] + [s[i]] + s[i + 1..j] + [s[j]] + s[j + 1..];
  }

  lemma {:induction false} OnceInMultiset<T>(s: seq<T>, x: T)
    requires Distinct(s)
    ensures multiset(s)[x] <= 1
  {
    if s != [] {
      assert s == [s[0]] + s[1..];
      assert forall i | 0 <= i < |s[1..]| :: s[1..][i] == s[i + 1];
      OnceInMultiset(s[1..], x);
    }
  }

  // --- keeping a set of entries ----------------------------------------------

  function KeepEntries(list: seq<Entry>, keep: set<nat>): (r: seq<Entry>)
    ensures |r| <= |list|
  {
    if list == [] then []
    else if list[0].id in keep then [list[0]] + KeepEntries(list[1..], keep)
    else KeepEntries(list[1..], keep)
  }

  lemma {:induction false} KeepEntriesMembers(list: seq<Entry>, keep: set<nat>)
    ensures forall e :: e in KeepEntries(list, keep) <==> e in list && e.id in keep
  {
    if list != [] {
      KeepEntriesMembers(list[1..], keep);
      assert forall e :: e in list <==> e == list[0] || e in list[1..];
    }
  }

  lemma {:induction false} IdsKeep(list: seq<Entry>, keep: set<nat>)
    ensures Ids(KeepEntries(list, keep)) == Keep(Ids(list), keep)
  {
    if list != [] {
      IdsKeep(list[1..], keep);
      assert Ids(list)[1..] == Ids(list[1..]);
    }
  }

  lemma {:induction false} KeepEntriesOrdered(list: seq<Entry>, keep: set<nat>)
    requires OrderedList(list)
    ensures OrderedList(KeepEntries(list, keep))
  {
    if list != [] {
      var rest := KeepEntries(list[1..], keep);
      KeepEntriesOrdered(list[1..], keep);
      KeepEntriesMembers(list[1..], keep);
      assert forall j | 0 <= j < |rest| :: rest[j] in rest && list[0].lastIdx <= rest[j].lastIdx;
    }
  }

  lemma {:induction false} KeepEntriesUnique(list: seq<Entry>, keep: set<nat>)
    requires UniqueList(list)
    ensures UniqueList(KeepEntries(list, keep))
  {
    if list != [] {
      var rest := KeepEntries(list[1..], keep);
      KeepEntriesUnique(list[1..], keep);
      KeepEntriesMembers(list[1..], keep);
      assert forall j | 0 <= j < |rest| ::
          rest[j] in rest && (list[0].bssid != rest[j].bssid || list[0].ssid != rest[j].ssid);
    }
  }

  /** t with only the entries whose id is in keep, in both lists and the scan results. */
  function Retain(t: Table, keep: set<nat>): Table {
    var list := KeepEntries(t.list, keep);
    t.(list := list, ids := Keep(t.ids, keep), last := Keep(t.last, keep),
       num := t.num - (|t.list| - |list|),
       connect := if t.connect.Some? && t.connect.value !in keep then None else t.connect)
  }

  lemma RetainSame(t: Table, keep: set<nat>)
    requires multiset(Ids(t.list)) == multiset(t.ids)
    ensures multiset(Ids(Retain(t, keep).list)) == multiset(Retain(t, keep).ids)
  {
    var u := Retain(t, keep);
    IdsKeep(t.list, keep);
    forall x ensures multiset(Ids(u.list))[x] == multiset(u.ids)[x] {
      KeepMultiset(Ids(t.list), keep, x);
      KeepMultiset(t.ids, keep, x);
    }
  }

  lemma SameSize(a: seq<nat>, b: seq<nat>)
    requires multiset(a) == multiset(b)
    ensures |a| == |b|
  {
    assert |multiset(a)| == |a| && |multiset(b)| == |b|;
  }

  lemma RetainLinked(t: Table, keep: set<nat>)
    requires Linked(t)
    ensures Linked(Retain(t, keep))
  {
    var u := Retain(t, keep);
    RetainSame(t, keep);
    KeepAscending(t.ids, keep);
    SameSize(Ids(t.list), t.ids);
    SameSize(Ids(u.list), u.ids);
    hide Ascending, Ids;
    forall i | 0 <= i < |u.ids| ensures u.ids[i] < t.nextId {
      assert u.ids[i] in t.ids;
    }
  }

  lemma RetainRound(t: Table, keep: set<nat>)
    requires Ordered(t) && RoundExact(t)
    ensures var u := Retain(t, keep); Ordered(u) && RoundExact(u)
  {
    var u := Retain(t, keep);
    KeepEntriesOrdered(t.list, keep);
    KeepEntriesMembers(t.list, keep);
    KeepDistinct(t.last, keep);
    hide OrderedList, Distinct;
    forall i | 0 <= i < |u.list|
      ensures u.list[i].lastIdx <= t.updateIdx
      ensures u.list[i].id in u.last <==> u.list[i].lastIdx == t.updateIdx
    {
      assert u.list[i] in u.list;
    }
  }

  lemma RetainInv(t: Table, keep: set<nat>)
    requires Inv(t)
    ensures Inv(Retain(t, keep))
    ensures UniqueKeys(t) ==> UniqueKeys(Retain(t, keep))
  {
    RetainLinked(t, keep);
    RetainRound(t, keep);
    if UniqueKeys(t) { KeepEntriesUnique(t.list, keep); }
    hide Linked, Ordered, RoundExact, UniqueList;
  }

  lemma {:induction false} KeepEntriesAll(list: seq<Entry>, keep: set<nat>)
    requires forall i | 0 <= i < |list| :: list[i].id in keep
    ensures KeepEntries(list, keep) == list
  {
    if list != [] { KeepEntriesAll(list[1..], keep); }
  }

  lemma {:induction false} KeepEntriesButOne(list: seq<Entry>, keep: set<nat>, k: nat)
    requires k < |list| && list[k].id !in keep
    requires forall i | 0 <= i < |list| && i != k :: list[i].id in keep
    ensures KeepEntries(list, keep) == RemoveAt(list, k)
  {
    var rest := list[1..];
    assert forall i | 0 <= i < |rest| :: rest[i] == list[i + 1];
    if k == 0 {
      KeepEntriesAll(rest, keep);
      assert RemoveAt(list, 0) == rest;
    } else {
      KeepEntriesButOne(rest, keep, k - 1);
      assert list[..k] == [list[0]] + rest[..k - 1];
      assert list[k + 1..] == rest[k..];
    }
  }

  /** Removing one entry is keeping all the others. */
  lemma RemoveIsRetain(t: Table, k: nat)
    requires Inv(t) && k < |t.list|
    ensures Remove(t, k) == Retain(t, Elements(t.ids) - {t.list[k].id})
  {
    LinkedIds(t);
    var id := t.list[k].id;
    var keep := Elements(t.ids) - {id};
    var a := Ids(t.list);
    forall i | 0 <= i < |t.list| && i != k ensures t.list[i].id in keep {
      assert a[i] in a && a[i] != a[k];
    }
    KeepEntriesButOne(t.list, keep, k);
    KeepIsDropFirst(t.ids, keep, id);
    KeepIsDropFirst(t.last, keep, id);
  }

  lemma RemoveInv(t: Table, k: nat)
    requires Inv(t) && k < |t.list|
    ensures Inv(Remove(t, k))
    ensures UniqueKeys(t) ==> UniqueKeys(Remove(t, k))
  {
    RemoveIsRetain(t, k);
    RetainInv(t, Elements(t.ids) - {t.list[k].id});
  }

  // --- adding and refreshing -------------------------------------------------

  /** u differs from t at most in the entries it lost. */
  ghost predicate Shrinks(t: Table, u: Table) {
    && u.nextId == t.nextId && u.updateIdx == t.updateIdx
    && u.current == t.current && u.bssid == t.bssid && u.pending == t.pending
    && u.conf.(maxCount := t.conf.maxCount) == t.conf
    && Elements(u.ids) <= Elements(t.ids)
    && u.ids == Keep(t.ids, Elements(u.ids))
    && u.last == Keep(t.last, Elements(u.ids))
  }

  lemma ShrinksRefl(t: Table)
    requires Inv(t)
    ensures Shrinks(t, t)
  {
    KeepAll(t.ids, Elements(t.ids));
    KeepAll(t.last, Elements(t.ids));
  }

  lemma ShrinksTrans(t: Table, u: Table, v: Table)
    requires Shrinks(t, u) && Shrinks(u, v)
    ensures Shrinks(t, v)
  {
    var a, b := Elements(u.ids), Elements(v.ids);
    KeepKeep(t.ids, a, b);
    KeepKeep(t.last, a, b);
    assert a * b == b;
  }

  lemma RemoveShrinks(t: Table, k: nat)
    requires Inv(t) && k < |t.list|
    ensures Shrinks(t, Remove(t, k))
    ensures Elements(Remove(t, k).ids) == Elements(t.ids) - {t.list[k].id}
  {
    LinkedIds(t);
    var id := t.list[k].id;
    RemoveIsRetain(t, k);
    DropFirstMembers(t.ids, id);
    assert Elements(Remove(t, k).ids) == Elements(t.ids) - {id};
  }

  lemma VictimChoice(t: Table)
    ensures var k := Victim(t);
            k == |t.list| || !InUse(t, t.list[k]) || Unknown(t.conf, t.list[k])
  {
  }

  lemma MakeRoomInv(t: Table)
    requires Inv(t)
    ensures Inv(MakeRoom(t)) && Shrinks(t, MakeRoom(t))
    ensures UniqueKeys(t) ==> UniqueKeys(MakeRoom(t))
    ensures || MakeRoom(t).num + 1 <= MakeRoom(t).conf.maxCount
            || (t.num + 1 > t.conf.maxCount && MakeRoom(t).num == t.num - 1)
  {
    ShrinksRefl(t);
    var k := Victim(t);
    if t.num + 1 > t.conf.maxCount && k < |t.list| {
      RemoveInv(t, k);
      RemoveShrinks(t, k);
    }
  }

  /** A fresh entry at the tail of both lists and of the scan results. */
  function Append(t: Table, e: Entry): Table {
    t.(list := t.list + [e], ids := t.ids + [e.id], num := t.num + 1, last := t.last + [e.id])
  }

  lemma AppendInv(t: Table, e: Entry)
    requires Inv(t) && e.lastIdx == t.updateIdx && e.id < t.nextId
    requires forall x | x in t.ids :: x < e.id
    ensures Inv(Append(t, e))
  {
    var u := Append(t, e);
    assert Ids(u.list) == Ids(t.list) + [e.id];
    assert forall i | 0 <= i < |t.ids| :: t.ids[i] in t.ids;
    assert forall i | 0 <= i < |t.last| :: t.last[i] in t.last && t.last[i] in t.ids;
    LinkedIds(t);
    forall i | 0 <= i < |t.list| ensures u.list[i].id in u.last <==> u.list[i].lastIdx == t.updateIdx {
      assert Ids(t.list)[i] in t.ids;
    }
  }

  lemma BoundIds(t: Table, u: Table)
    requires Linked(t) && Elements(u.ids) <= Elements(t.ids)
    ensures forall x | x in u.ids :: x < t.nextId
  {
    forall x | x in u.ids ensures x < t.nextId {
      assert x in Elements(t.ids);
    }
  }

  lemma SightNewInv(t: Table, ssid: seq<Byte>, res: ScanRes, fetch: Time)
    requires Inv(t) && Get(t, res.bssid, ssid) == |t.list|
    ensures Inv(Sight(t, ssid, res, fetch))
    ensures Sight(t, ssid, res, fetch)
         == Append(MakeRoom(t).(nextId := t.nextId + 1), NewEntry(t, ssid, res, fetch))
  {
    MakeRoomInv(t);
    BoundIds(t, MakeRoom(t));
    hide MakeRoom, Shrinks, Find;
    AppendInv(MakeRoom(t).(nextId := t.nextId + 1), NewEntry(t, ssid, res, fetch));
  }

  lemma MoveToEnd<T>(s: seq<T>, k: nat, x: T)
    requires k < |s|
    ensures var r := RemoveAt(s, k) + [x];
            |r| == |s| && r[|s| - 1] == x && forall i | 0 <= i < |s| - 1 :: r[i] == s[if i < k then i else i + 1]
    ensures multiset(RemoveAt(s, k) + [s[k]]) == multiset(s)
  {
    assert s == s[..k] + [s[k]] + s[k + 1..];
  }

  lemma UpdateOrdered(t: Table, k: nat, res: ScanRes, fetch: Time)
    requires Inv(t) && k < |t.list|
    ensures Ordered(Update(t, k, res, fetch))
  {
    MoveToEnd(t.list, k, Refresh(t.list[k], t.updateIdx, res, fetch));
  }

  lemma UpdateLinked(t: Table, k: nat, res: ScanRes, fetch: Time)
    requires Inv(t) && k < |t.list|
    ensures Linked(Update(t, k, res, fetch))
  {
    var e := Refresh(t.list[k], t.updateIdx, res, fetch);
    var a, b := Ids(Update(t, k, res, fetch).list), RemoveAt(Ids(t.list), k) + [e.id];
    MoveToEnd(t.list, k, e);
    MoveToEnd(Ids(t.list), k, e.id);
    assert forall i | 0 <= i < |a| :: a[i] == b[i];
    assert a == b;
  }

  lemma UpdateRound(t: Table, k: nat, res: ScanRes, fetch: Time)
    requires Inv(t) && k < |t.list|
    ensures var u := Update(t, k, res, fetch);
            RoundExact(u.(last := if t.list[k].id in t.last then t.last else t.last + [t.list[k].id]))
  {
    var id := t.list[k].id;
    var u := Update(t, k, res, fetch);
    var last := if id in t.last then t.last else t.last + [id];
    LinkedIds(t);
    assert Ids(t.list)[k] in t.ids;
    MoveToEnd(t.list, k, u.list[|t.list| - 1]);
    forall i | 0 <= i < |u.list| ensures u.list[i].id in last <==> u.list[i].lastIdx == t.updateIdx {
      if i < |u.list| - 1 {
        var j := if i < k then i else i + 1;
        assert u.list[i] == t.list[j];
        assert Ids(t.list)[j] != Ids(t.list)[k];
      }
    }
  }

  lemma UpdateUnique(t: Table, k: nat, res: ScanRes, fetch: Time)
    requires UniqueKeys(t) && k < |t.list| && t.list[k].bssid == res.bssid
    ensures UniqueKeys(Update(t, k, res, fetch))
  {
    var u := Update(t, k, res, fetch);
    MoveToEnd(t.list, k, u.list[|t.list| - 1]);
    forall i, j | 0 <= i < j < |u.list| ensures u.list[i].bssid != u.list[j].bssid || u.list[i].ssid != u.list[j].ssid {
      var i', j' := if i < k then i else i + 1, if j == |u.list| - 1 then k else if j < k then j else j + 1;
      assert u.list[i] == t.list[i'] && u.list[j].bssid == t.list[j'].bssid && u.list[j].ssid == t.list[j'].ssid;
    }
  }

  lemma SightOldInv(t: Table, ssid: seq<Byte>, res: ScanRes, fetch: Time)
    requires Inv(t) && Get(t, res.bssid, ssid) < |t.list|
    ensures Inv(Sight(t, ssid, res, fetch))
    ensures UniqueKeys(t) ==> UniqueKeys(Sight(t, ssid, res, fetch))
  {
    var k := Get(t, res.bssid, ssid);
    UpdateLinked(t, k, res, fetch);
    UpdateOrdered(t, k, res, fetch);
    UpdateRound(t, k, res, fetch);
    if UniqueKeys(t) { UpdateUnique(t, k, res, fetch); }
  }

  /** Filing a result keeps the table well formed, whatever the filter. */
  lemma SightInv(t: Table, ssid: seq<Byte>, res: ScanRes, fetch: Time)
    requires Inv(t)
    ensures Inv(Sight(t, ssid, res, fetch))
  {
    if Get(t, res.bssid, ssid) == |t.list| {
      SightNewInv(t, ssid, res, fetch);
    } else {
      SightOldInv(t, ssid, res, fetch);
    }
  }

  ghost predicate HasKey(list: seq<Entry>, bssid: Addr, ssid: seq<Byte>) {
    exists i :: 0 <= i < |list| && list[i].bssid == bssid && list[i].ssid == ssid
  }

  lemma AppendUnique(list: seq<Entry>, e: Entry)
    requires UniqueList(list)
    ensures UniqueList(list + [e]) <==> !HasKey(list, e.bssid, e.ssid)
  {
    if HasKey(list, e.bssid, e.ssid) {
      var i :| 0 <= i < |list| && list[i].bssid == e.bssid && list[i].ssid == e.ssid;
      assert (list + [e])[i] == list[i] && (list + [e])[|list|] == e;
    }
  }

  /** Exactly when a sighting keeps (BSSID, SSID) unique: the filter accepts the
      result, or no entry that survives the eviction has its key. */
  lemma SightUnique(t: Table, ssid: seq<Byte>, res: ScanRes, fetch: Time)
    requires Inv(t) && UniqueKeys(t)
    ensures UniqueKeys(Sight(t, ssid, res, fetch))
       <==> Accepts(t.conf, res.bssid) || !HasKey(MakeRoom(t).list, res.bssid, ssid)
  {
    if Get(t, res.bssid, ssid) < |t.list| {
      SightOldInv(t, ssid, res, fetch);
    } else {
      var u := MakeRoom(t);
      SightNewInv(t, ssid, res, fetch);
      MakeRoomInv(t);
      AppendUnique(u.list, NewEntry(t, ssid, res, fetch));
      if Accepts(t.conf, res.bssid) { MakeRoomKeys(t, res.bssid, ssid); }
    }
  }

  lemma MakeRoomKeys(t: Table, bssid: Addr, ssid: seq<Byte>)
    requires !HasKey(t.list, bssid, ssid)
    ensures !HasKey(MakeRoom(t).list, bssid, ssid)
  {
    var k, list := Victim(t), MakeRoom(t).list;
    assert list == t.list || (k < |t.list| && list == RemoveAt(t.list, k));
    forall i | 0 <= i < |list| ensures list[i].bssid != bssid || list[i].ssid != ssid {
      assert list[i] == t.list[i] || list[i] == t.list[i + 1];
    }
  }
}
