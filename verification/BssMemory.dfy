/** The BSS table as it lies in memory: entry structures at addresses, two lists and
    a result array that all hold these addresses. A freed address leaves mem, so a
    dangling pointer is one that is not in mem. Each change of the links that bss.c
    makes is proved to keep them sound and to be the change of BssModel on values. */
module BssMemory {
  import opened Collections
  import opened BssModel

  type Ptr = nat
  const NULL: Ptr := 0

  type Memory = map<Ptr, Entry>

  function Recs(mem: Memory, s: seq<Ptr>): (r: seq<Entry>)
    requires forall p | p in s :: p in mem
    ensures |r| == |s|
    ensures forall i | 0 <= i < |s| :: r[i] == mem[s[i]]
  {
    seq(|s|, i requires 0 <= i < |s| => mem[s[i]])
  }

  function IdsOf(mem: Memory, s: seq<Ptr>): (r: seq<nat>)
    requires forall p | p in s :: p in mem
    ensures |r| == |s|
    ensures forall i | 0 <= i < |s| :: r[i] == mem[s[i]].id
  {
    seq(|s|, i requires 0 <= i < |s| => mem[s[i]].id)
  }

  /** Different structures have different ids. */
  ghost predicate ById(mem: Memory) {
    forall p, q | p in mem && q in mem && mem[p].id == mem[q].id :: p == q
  }

  /** The addresses held by the lists, the scan results and a pending connect work. */
  datatype Links = Links(mem: Memory, list: seq<Ptr>, listId: seq<Ptr>, last: seq<Ptr>, connect: Ptr,
                         current: Ptr, ghost currentRec: Option<Current>, nextId: nat)

  /** No structure twice in a list, the same structures in both lists, these and no
      others allocated, and no reference to anything freed except possibly current,
      of which currentRec keeps what it last pointed to. */
  ghost predicate Ok(l: Links) {
    && Distinct(l.list) && Distinct(l.listId) && Distinct(l.last)
    && (forall p :: p in l.list <==> p in l.mem)
    && (forall p :: p in l.listId <==> p in l.mem)
    && (forall p | p in l.last :: p in l.mem)
    && (l.connect != NULL ==> l.connect in l.mem)
    && NULL !in l.mem
    && ById(l.mem)
    && (l.current == NULL <==> l.currentRec.None?)
    && (l.current in l.mem ==> l.currentRec == Some(Current(l.mem[l.current].id, l.mem[l.current].ssid)))
    && forall p | p in l.mem :: l.mem[p].id < l.nextId
  }

  type Good = l: Links | Ok(l) ghost witness Links(map[], [], [], [], NULL, NULL, None, 0)

  function ConnectId(mem: Memory, connect: Ptr): Option<nat>
    requires connect != NULL ==> connect in mem
  {
    if connect == NULL then None else Some(mem[connect].id)
  }

  /** The table that l represents, with the plain fields taken from t. */
  ghost function Abstract(l: Good, t: Table): Table {
    t.(list := Recs(l.mem, l.list), ids := IdsOf(l.mem, l.listId), last := IdsOf(l.mem, l.last),
       connect := ConnectId(l.mem, l.connect),
       current := l.currentRec, nextId := l.nextId)
  }

  // --- removal ---------------------------------------------------------------

  ghost function Unlink(l: Links, k: nat): Links
    requires k < |l.list|
  {
    var p := l.list[k];
    l.(mem := l.mem - {p}, list := RemoveAt(l.list, k), listId := DropFirst(l.listId, p),
       last := DropFirst(l.last, p), connect := if l.connect == p then NULL else l.connect)
  }

  lemma IdsDistinct(mem: Memory, s: seq<Ptr>)
    requires ById(mem) && Distinct(s) && forall p | p in s :: p in mem
    ensures Distinct(IdsOf(mem, s))
  {
    var ids := IdsOf(mem, s);
    forall i, j | 0 <= i < j < |s| ensures ids[i] != ids[j] {
      assert s[i] != s[j];
    }
  }

  lemma DropAt(mem: Memory, s: seq<Ptr>, k: nat)
    requires ById(mem) && Distinct(s) && k < |s| && forall q | q in s :: q in mem
    ensures var r := RemoveAt(s, k);
            (forall q | q in r :: q in mem - {s[k]}) && IdsOf(mem - {s[k]}, r) == RemoveAt(IdsOf(mem, s), k)
            && Recs(mem - {s[k]}, r) == RemoveAt(Recs(mem, s), k)
  {
    RemoveAtMembers(s, k);
  }

  lemma DropAddress(mem: Memory, s: seq<Ptr>, p: Ptr)
    requires ById(mem) && Distinct(s) && p in mem && forall q | q in s :: q in mem
    ensures forall q | q in DropFirst(s, p) :: q in mem - {p}
    ensures IdsOf(mem - {p}, DropFirst(s, p)) == DropFirst(IdsOf(mem, s), mem[p].id)
  {
    var ids := IdsOf(mem, s);
    IdsDistinct(mem, s);
    if p in s {
      var k := IndexOf(s, p);
      DropFirstAt(s, k);
      DropFirstAt(ids, k);
      DropAt(mem, s, k);
    } else {
      assert forall i | 0 <= i < |s| :: s[i] in s && ids[i] != mem[p].id;
      assert mem[p].id !in ids;
    }
  }

  lemma UnlinkOk(l: Links, k: nat)
    requires Ok(l) && k < |l.list|
    ensures Ok(Unlink(l, k))
  {
    var p := l.list[k];
    DropFirstMembers(l.listId, p);
    DropFirstMembers(l.last, p);
    RemoveAtMembers(l.list, k);
  }

  lemma UnlinkConnect(mem: Memory, connect: Ptr, p: Ptr)
    requires ById(mem) && p in mem && (connect != NULL ==> connect in mem)
    ensures ConnectId(mem - {p}, if connect == p then NULL else connect)
         == if ConnectId(mem, connect) == Some(mem[p].id) then None else ConnectId(mem, connect)
  {
  }

  /** The links that removal changes, as ids */
  lemma UnlinkIds(l: Good, k: nat)
    requires k < |l.list| && Ok(Unlink(l, k))
    ensures var u, id := Unlink(l, k), l.mem[l.list[k]].id;
      && Recs(u.mem, u.list) == RemoveAt(Recs(l.mem, l.list), k)
      && IdsOf(u.mem, u.listId) == DropFirst(IdsOf(l.mem, l.listId), id)
      && IdsOf(u.mem, u.last) == DropFirst(IdsOf(l.mem, l.last), id)
  {
    var p := l.list[k];
    DropAddress(l.mem, l.listId, p);
    DropAddress(l.mem, l.last, p);
    DropAt(l.mem, l.list, k);
    hide Distinct, ById, IndexOf, DropFirst, RemoveAt;
  }

  lemma UnlinkedConnect(l: Good, k: nat)
    requires k < |l.list| && Ok(Unlink(l, k))
    ensures l.list[k] in l.mem
    ensures var u, c := Unlink(l, k), ConnectId(l.mem, l.connect);
      ConnectId(u.mem, u.connect) == if c == Some(l.mem[l.list[k]].id) then None else c
  {
    UnlinkConnect(l.mem, l.connect, l.list[k]);
    hide Distinct, ById, DropFirst, RemoveAt;
  }

  /** The table behind l, field by field */
  lemma AbstractIs(l: Good, t: Table)
    ensures (forall p | p in l.list :: p in l.mem) && (forall p | p in l.listId :: p in l.mem)
    ensures (forall p | p in l.last :: p in l.mem) && (l.connect != NULL ==> l.connect in l.mem)
    ensures Abstract(l, t)
         == t.(list := Recs(l.mem, l.list), ids := IdsOf(l.mem, l.listId), last := IdsOf(l.mem, l.last),
               connect := ConnectId(l.mem, l.connect), current := l.currentRec, nextId := l.nextId)
  {
  }

  lemma UnlinkAbstract(l: Good, k: nat, t: Table)
    requires k < |l.list| && Ok(Unlink(l, k))
    ensures Abstract(Unlink(l, k), t.(num := t.num - 1)) == Remove(Abstract(l, t), k)
  {
    var u := Unlink(l, k);
    UnlinkIds(l, k);
    UnlinkedConnect(l, k);
    AbstractIs(l, t);
    AbstractIs(u, t.(num := t.num - 1));
    assert u.currentRec == l.currentRec && u.nextId == l.nextId;
    assert Recs(l.mem, l.list)[k].id == l.mem[l.list[k]].id;
    hide Ok, Unlink, Abstract, DropFirst, RemoveAt, Recs, IdsOf, ConnectId;
  }

  // --- a new structure, a changed one, a moved one ---------------------------

  /** What a pointer to address p sees once the structure e lies there: a dangling current_bss
      comes back to life when the allocator hands out its address. */
  ghost function Seen(l: Links, p: Ptr, e: Entry): Option<Current> {
    if l.current == p then Some(Current(e.id, e.ssid)) else l.currentRec
  }

  ghost function LinkTail(l: Links, p: Ptr, e: Entry): Links {
    l.(mem := l.mem[p := e], list := l.list + [p], listId := l.listId + [p], nextId := l.nextId + 1,
       currentRec := Seen(l, p, e))
  }

  lemma LinkTailOk(l: Good, p: Ptr, e: Entry)
    requires p != NULL && p !in l.mem && e.id == l.nextId
    ensures Ok(LinkTail(l, p, e))
  {
    assert forall i | 0 <= i < |l.list| :: l.list[i] in l.list;
    assert forall i | 0 <= i < |l.listId| :: l.listId[i] in l.listId;
  }

  lemma LinkTailAbstract(l: Good, p: Ptr, e: Entry, t: Table)
    requires p !in l.mem && Ok(LinkTail(l, p, e))
    ensures Abstract(LinkTail(l, p, e), t)
         == var a := Abstract(l, t);
            a.(list := a.list + [e], ids := a.ids + [e.id], nextId := a.nextId + 1, current := Seen(l, p, e))
  {
    hide Distinct, ById;
    var m := l.mem[p := e];
    assert Recs(m, l.list + [p]) == Recs(l.mem, l.list) + [e];
    assert IdsOf(m, l.listId + [p]) == IdsOf(l.mem, l.listId) + [e.id];
    assert IdsOf(m, l.last) == IdsOf(l.mem, l.last);
  }

  lemma StoreOk(l: Good, k: nat, e: Entry, t: Table)
    requires k < |l.list| && e.id == l.mem[l.list[k]].id && e.ssid == l.mem[l.list[k]].ssid
    ensures Ok(l.(mem := l.mem[l.list[k] := e]))
    ensures Abstract(l.(mem := l.mem[l.list[k] := e]), t)
         == var a := Abstract(l, t); a.(list := a.list[k := e])
  {
    var m := l.mem[l.list[k] := e];
    assert Recs(m, l.list) == Recs(l.mem, l.list)[k := e];
    assert IdsOf(m, l.listId) == IdsOf(l.mem, l.listId);
    assert IdsOf(m, l.last) == IdsOf(l.mem, l.last);
  }

  /** Every p in s replaced by n. */
  function Patch(s: seq<Ptr>, p: Ptr, n: Ptr): (r: seq<Ptr>)
    ensures |r| == |s| && forall i | 0 <= i < |s| :: r[i] == if s[i] == p then n else s[i]
  {
    seq(|s|, i requires 0 <= i < |s| => if s[i] == p then n else s[i])
  }

  /** The structure of the k-th entry refreshed to e, at address n, at the end of the update list. */
  ghost function Moved(l: Links, k: nat, n: Ptr, e: Entry): Links
    requires k < |l.list|
  {
    var p := l.list[k];
    l.(mem := (l.mem - {p})[n := e], list := RemoveAt(l.list, k) + [n],
       listId := Patch(l.listId, p, n), last := Patch(l.last, p, n),
       connect := if l.connect == p then n else l.connect, current := if l.current == p then n else l.current,
       currentRec := Seen(l, n, e))
  }

  lemma PatchDistinct(s: seq<Ptr>, p: Ptr, n: Ptr)
    requires Distinct(s) && (n == p || n !in s)
    ensures Distinct(Patch(s, p, n))
    ensures forall q :: q in Patch(s, p, n) <==> (q in s && q != p) || (q == n && p in s)
  {
    var r := Patch(s, p, n);
    forall q | q in s && q != p ensures q in r {
      var i :| 0 <= i < |s| && s[i] == q;
      assert r[i] == q;
    }
    if p in s {
      var i :| 0 <= i < |s| && s[i] == p;
      assert r[i] == n;
    }
    forall q | q in r ensures (q in s && q != p) || (q == n && p in s) {
      var i :| 0 <= i < |r| && r[i] == q;
      assert s[i] in s;
    }
    forall i, j | 0 <= i < j < |r| ensures r[i] != r[j] {
      assert s[i] != s[j] && s[i] in s && s[j] in s;
    }
  }

  lemma PatchIds(mem: Memory, s: seq<Ptr>, p: Ptr, n: Ptr, e: Entry)
    requires (forall q | q in s :: q in mem) && p in mem && e.id == mem[p].id && (n == p || n !in mem)
    ensures forall q | q in Patch(s, p, n) :: q in (mem - {p})[n := e]
    ensures IdsOf((mem - {p})[n := e], Patch(s, p, n)) == IdsOf(mem, s)
  {
    var m, r := (mem - {p})[n := e], Patch(s, p, n);
    forall i | 0 <= i < |s| ensures r[i] in m && m[r[i]].id == mem[s[i]].id {
      assert s[i] in s;
    }
  }

  lemma MovedRecs(mem: Memory, s: seq<Ptr>, k: nat, n: Ptr, e: Entry)
    requires Distinct(s) && k < |s| && (forall q | q in s :: q in mem) && (n == s[k] || n !in mem)
    ensures var m := (mem - {s[k]})[n := e];
            (forall q | q in RemoveAt(s, k) + [n] :: q in m)
            && Recs(m, RemoveAt(s, k) + [n]) == RemoveAt(Recs(mem, s), k) + [e]
  {
    var m, r := (mem - {s[k]})[n := e], RemoveAt(s, k);
    RemoveAtMembers(s, k);
    forall i | 0 <= i < |r| ensures r[i] in m && m[r[i]] == RemoveAt(Recs(mem, s), k)[i] {
      assert r[i] in r && r[i] in s && r[i] != s[k] && r[i] != n;
    }
    assert forall q | q in r :: q in m;
  }

  /** e is the structure of the k-th entry with the same identity, n its address from now on. */
  ghost predicate Movable(l: Links, k: nat, n: Ptr, e: Entry) {
    && k < |l.list| && l.list[k] in l.mem
    && e.id == l.mem[l.list[k]].id && e.ssid == l.mem[l.list[k]].ssid
    && n != NULL && (n == l.list[k] || n !in l.mem)
  }

  lemma MovedList(l: Good, k: nat, n: Ptr, e: Entry)
    requires Movable(l, k, n, e)
    ensures var m := Moved(l, k, n, e); Distinct(m.list) && forall p :: p in m.list <==> p in m.mem
  {
    var r, s := RemoveAt(l.list, k), RemoveAt(l.list, k) + [n];
    RemoveAtMembers(l.list, k);
    assert forall i | 0 <= i < |r| :: r[i] in r && r[i] != n;
    assert forall p :: p in s <==> p in r || p == n;
  }

  lemma MovedRest(l: Good, k: nat, n: Ptr, e: Entry)
    requires Movable(l, k, n, e)
    ensures var m := Moved(l, k, n, e);
            && Distinct(m.listId) && Distinct(m.last)
            && (forall p :: p in m.listId <==> p in m.mem)
            && forall p | p in m.last :: p in m.mem
  {
    hide Patch, RemoveAt, ById;
    PatchDistinct(l.listId, l.list[k], n);
    PatchDistinct(l.last, l.list[k], n);
  }

  lemma MovedOk(l: Good, k: nat, n: Ptr, e: Entry)
    requires Movable(l, k, n, e)
    ensures Ok(Moved(l, k, n, e))
  {
    hide Patch, RemoveAt, Distinct;
    MovedList(l, k, n, e);
    MovedRest(l, k, n, e);
  }

  lemma MovedAbstract(l: Good, k: nat, n: Ptr, e: Entry, t: Table)
    requires Movable(l, k, n, e) && Ok(Moved(l, k, n, e))
    ensures Abstract(Moved(l, k, n, e), t)
         == var a := Abstract(l, t); a.(list := RemoveAt(a.list, k) + [e], current := Seen(l, n, e))
  {
    var p := l.list[k];
    PatchIds(l.mem, l.listId, p, n, e);
    PatchIds(l.mem, l.last, p, n, e);
    MovedRecs(l.mem, l.list, k, n, e);
  }

  lemma NoteOk(l: Good, k: nat, t: Table)
    requires k < |l.list| && l.list[k] !in l.last
    ensures Ok(l.(last := l.last + [l.list[k]]))
    ensures Abstract(l.(last := l.last + [l.list[k]]), t)
         == var a := Abstract(l, t); a.(last := a.last + [a.list[k].id])
  {
    var p := l.list[k];
    assert forall i | 0 <= i < |l.last| :: l.last[i] in l.last;
    assert IdsOf(l.mem, l.last + [p]) == IdsOf(l.mem, l.last) + [l.mem[p].id];
  }

  /** Addresses and ids agree on membership in the scan results. */
  lemma NotedById(l: Good, p: Ptr)
    requires p in l.mem
    ensures p in l.last <==> l.mem[p].id in IdsOf(l.mem, l.last)
  {
    var ids := IdsOf(l.mem, l.last);
    if p in l.last {
      var i :| 0 <= i < |l.last| && l.last[i] == p;
      assert ids[i] == l.mem[p].id;
    }
    if l.mem[p].id in ids {
      var i :| 0 <= i < |ids| && ids[i] == l.mem[p].id;
      assert l.last[i] in l.last;
    }
  }
}
