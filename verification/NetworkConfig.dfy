/** The network blocks of config.c and their links: next, pnext, and the array pssid. */
module NetworkConfig {
  import opened Collections
  import opened PriorityLists

  /** struct wpa_ssid, as far as the lists are concerned */
  datatype Ssid = Ssid(id: int, priority: int, next: Option<nat>, pnext: Option<nat>)

  /** The allocated network blocks by address. */
  type Memory = map<nat, Ssid>

  function Follow(s: seq<Net>, i: nat): Option<nat>
    requires i < |s|
  {
    if i + 1 < |s| then Some(s[i + 1].ptr) else None
  }

  function First(s: seq<Net>): Option<nat> {
    if s == [] then None else Some(s[0].ptr)
  }

  ghost predicate Known(mem: Memory, n: Net) {
    n.ptr in mem && mem[n.ptr].priority == n.priority
  }

  /** The chain of next pointers from head visits exactly the networks of s. */
  ghost predicate Chain(mem: Memory, head: Option<nat>, s: seq<Net>) {
    && head == First(s)
    && Linked(mem, s)
    && (forall i, j | 0 <= i < j < |s| :: s[i].ptr != s[j].ptr)
  }

  ghost predicate Member(groups: Groups, p: nat) {
    exists i, j :: 0 <= i < |groups| && 0 <= j < |groups[i]| && groups[i][j].ptr == p
  }

  ghost predicate HeadPtrs(pssid: seq<nat>, groups: Groups) {
    NonEmpty(groups) && |pssid| == |groups| && forall i | 0 <= i < |groups| :: pssid[i] == groups[i][0].ptr
  }

  ghost predicate Followed(mem: Memory, groups: Groups) {
    forall i, j | 0 <= i < |groups| && 0 <= j < |groups[i]| ::
      Known(mem, groups[i][j]) && mem[groups[i][j].ptr].pnext == Follow(groups[i], j)
  }

  /** No block is in the lists twice. */
  ghost predicate Apart(groups: Groups) {
    forall i, j, k, l | 0 <= i < |groups| && 0 <= j < |groups[i]| && 0 <= k < |groups| && 0 <= l < |groups[k]|
      && groups[i][j].ptr == groups[k][l].ptr :: i == k && j == l
  }

  /** Each head in pssid starts the chain of pnext pointers of one list. */
  ghost predicate Heads(mem: Memory, pssid: seq<nat>, groups: Groups) {
    HeadPtrs(pssid, groups) && Followed(mem, groups) && Apart(groups)
  }

  ghost predicate SameButPnext(m: Memory, k: Memory) {
    m.Keys == k.Keys && forall p | p in m :: k[p] == m[p].(pnext := k[p].pnext)
  }

  lemma ChainFrame(m: Memory, k: Memory, head: Option<nat>, s: seq<Net>)
    requires Chain(m, head, s) && SameButPnext(m, k)
    ensures Chain(k, head, s)
  {
    forall i | 0 <= i < |s| ensures Known(k, s[i]) && k[s[i].ptr].next == Follow(s, i) {
      assert Known(m, s[i]);
    }
  }

  lemma LastKnown(mem: Memory, groups: Groups, k: nat)
    requires NonEmpty(groups) && Followed(mem, groups) && k < |groups|
    ensures groups[k][|groups[k]| - 1].ptr in mem
  {
    assert Known(mem, groups[k][|groups[k]| - 1]);
  }

  lemma AppendFollowed(mem: Memory, groups: Groups, k: nat, n: Net)
    requires NonEmpty(groups) && Followed(mem, groups) && Apart(groups) && k < |groups|
    requires Known(mem, n) && mem[n.ptr].pnext == None && !Member(groups, n.ptr)
    ensures var last := groups[k][|groups[k]| - 1].ptr;
      && last in mem
      && Followed(mem[last := mem[last].(pnext := Some(n.ptr))], groups[k := groups[k] + [n]])
  {
    LastKnown(mem, groups, k);
    var m := |groups[k]| - 1;
    var last := groups[k][m].ptr;
    var r := groups[k := groups[k] + [n]];
    var after := mem[last := mem[last].(pnext := Some(n.ptr))];
    forall i, j | 0 <= i < |r| && 0 <= j < |r[i]|
      ensures Known(after, r[i][j]) && after[r[i][j].ptr].pnext == Follow(r[i], j)
    {
      if i != k || j <= m {
        assert r[i][j] == groups[i][j] && Known(mem, groups[i][j]) && Member(groups, groups[i][j].ptr);
        assert groups[i][j].ptr == last ==> i == k && j == m;
      }
    }
  }

  lemma AppendApart(groups: Groups, k: nat, n: Net)
    requires Apart(groups) && k < |groups| && !Member(groups, n.ptr)
    ensures Apart(groups[k := groups[k] + [n]])
  {
    var r: Groups := groups[k := groups[k] + [n]];
    forall i, j, a, b | 0 <= i < |r| && 0 <= j < |r[i]| && 0 <= a < |r| && 0 <= b < |r[a]| && r[i][j].ptr == r[a][b].ptr
      ensures i == a && j == b
    {
      var old1, old2 := i != k || j < |groups[k]|, a != k || b < |groups[k]|;
      if old1 { assert r[i][j] == groups[i][j] && Member(groups, groups[i][j].ptr); }
      if old2 { assert r[a][b] == groups[a][b] && Member(groups, groups[a][b].ptr); }
    }
  }

  lemma AppendHeads(mem: Memory, pssid: seq<nat>, groups: Groups, k: nat, n: Net)
    requires Heads(mem, pssid, groups) && k < |groups| && Known(mem, n) && mem[n.ptr].pnext == None
    requires !Member(groups, n.ptr)
    ensures var last := groups[k][|groups[k]| - 1].ptr;
      && last in mem
      && Heads(mem[last := mem[last].(pnext := Some(n.ptr))], pssid, groups[k := groups[k] + [n]])
  {
    AppendFollowed(mem, groups, k, n);
    AppendApart(groups, k, n);
    hide Followed, Apart, Member, Known;
  }

  /** Where the i-th list was before a new one was put in at position k. */
  function Before(i: nat, k: nat): nat
    requires i != k
  {
    if i < k then i else i - 1
  }

  function Inserted(groups: Groups, k: nat, n: Net): (r: Groups)
    requires k <= |groups|
    ensures |r| == |groups| + 1 && r[k] == [n]
    ensures forall i | 0 <= i < |r| && i != k :: r[i] == groups[Before(i, k)]
  {
    groups[..k] + [[n]] + groups[k..]
  }

  lemma InsertFollowed(mem: Memory, groups: Groups, k: nat, n: Net)
    requires Followed(mem, groups) && k <= |groups| && Known(mem, n) && mem[n.ptr].pnext == None
    ensures Followed(mem, Inserted(groups, k, n))
  {
    var r: Groups := Inserted(groups, k, n);
    hide Inserted;
    forall i, j | 0 <= i < |r| && 0 <= j < |r[i]|
      ensures Known(mem, r[i][j]) && mem[r[i][j].ptr].pnext == Follow(r[i], j)
    {
      if i != k { assert Known(mem, groups[Before(i, k)][j]); }
    }
  }

  lemma InsertApart(groups: Groups, k: nat, n: Net)
    requires Apart(groups) && k <= |groups| && !Member(groups, n.ptr)
    ensures Apart(Inserted(groups, k, n))
  {
    var r: Groups := Inserted(groups, k, n);
    hide Inserted;
    forall i, j, a, b | 0 <= i < |r| && 0 <= j < |r[i]| && 0 <= a < |r| && 0 <= b < |r[a]| && r[i][j].ptr == r[a][b].ptr
      ensures i == a && j == b
    {
      if i != k { assert Member(groups, groups[Before(i, k)][j].ptr); }
      if a != k { assert Member(groups, groups[Before(a, k)][b].ptr); }
    }
  }

  lemma InsertHeadPtrs(pssid: seq<nat>, groups: Groups, k: nat, n: Net)
    requires HeadPtrs(pssid, groups) && k <= |groups|
    ensures HeadPtrs(pssid[..k] + [n.ptr] + pssid[k..], Inserted(groups, k, n))
  {
    var r: Groups := Inserted(groups, k, n);
    var q := pssid[..k] + [n.ptr] + pssid[k..];
    hide Inserted;
    forall i | 0 <= i < |r| ensures r[i] != [] && q[i] == r[i][0].ptr {
      if i != k { assert q[i] == pssid[Before(i, k)]; }
    }
  }

  lemma InsertHeads(mem: Memory, pssid: seq<nat>, groups: Groups, k: nat, n: Net)
    requires Heads(mem, pssid, groups) && k <= |groups| && Known(mem, n) && mem[n.ptr].pnext == None
    requires !Member(groups, n.ptr)
    ensures Heads(mem, pssid[..k] + [n.ptr] + pssid[k..], groups[..k] + [[n]] + groups[k..])
  {
    hide HeadPtrs, Followed, Apart, Member, Known;
    InsertHeadPtrs(pssid, groups, k, n);
    InsertFollowed(mem, groups, k, n);
    InsertApart(groups, k, n);
  }

  /** A block outside all lists may change its pnext pointer. */
  lemma HeadsFrame(mem: Memory, pssid: seq<nat>, groups: Groups, p: nat, v: Option<nat>)
    requires Heads(mem, pssid, groups) && p in mem && !Member(groups, p)
    ensures Heads(mem[p := mem[p].(pnext := v)], pssid, groups)
  {
    var after := mem[p := mem[p].(pnext := v)];
    forall i, j | 0 <= i < |groups| && 0 <= j < |groups[i]|
      ensures Known(after, groups[i][j]) && after[groups[i][j].ptr].pnext == Follow(groups[i], j)
    {
      assert Known(mem, groups[i][j]);
      assert Member(groups, groups[i][j].ptr);
    }
  }

  lemma AddPrioMembers(groups: Groups, n: Net)
    requires NonEmpty(groups)
    ensures forall p: nat | Member(AddPrio(groups, n), p) :: p == n.ptr || Member(groups, p)
  {
    var r := AddPrio(groups, n);
    forall p: nat | Member(r, p) ensures p == n.ptr || Member(groups, p) {
      var i, j :| 0 <= i < |r| && 0 <= j < |r[i]| && r[i][j].ptr == p;
      var k := SameAt(groups, n.priority);
      if k < |groups| {
        if i != k || j < |groups[k]| { assert groups[i][j].ptr == p; }
      } else {
        var l := LowerAt(groups, n.priority);
        if i != l { assert groups[if i < l then i else i - 1][j].ptr == p; }
      }
    }
  }

  lemma {:induction false} RebuildMembers(order: seq<Net>, p: nat)
    requires Member(Rebuild(order), p)
    ensures exists i :: 0 <= i < |order| && order[i].ptr == p
  {
    if order == [] {
      assert false;
    } else {
      var m := |order| - 1;
      AddPrioMembers(Rebuild(order[..m]), order[m]);
      if p != order[m].ptr {
        RebuildMembers(order[..m], p);
        var i :| 0 <= i < m && order[..m][i].ptr == p;
        assert order[i].ptr == p;
      }
    }
  }

  lemma {:induction false} SameAtIs(groups: Groups, v: int, k: nat)
    requires NonEmpty(groups) && k <= |groups| && (k < |groups| ==> groups[k][0].priority == v)
    requires forall i | 0 <= i < k :: groups[i][0].priority != v
    ensures SameAt(groups, v) == k
  {
  }

  lemma {:induction false} LowerAtIs(groups: Groups, v: int, k: nat)
    requires NonEmpty(groups) && k <= |groups| && (k < |groups| ==> groups[k][0].priority < v)
    requires forall i | 0 <= i < k :: groups[i][0].priority >= v
    ensures LowerAt(groups, v) == k
  {
  }

  lemma NotYetListed(order: seq<Net>, i: nat)
    requires i < |order| && forall a, b | 0 <= a < b < |order| :: order[a].ptr != order[b].ptr
    ensures !Member(Rebuild(order[..i]), order[i].ptr)
  {
    if Member(Rebuild(order[..i]), order[i].ptr) {
      RebuildMembers(order[..i], order[i].ptr);
      assert false;
    }
  }

  lemma RebuildNext(order: seq<Net>, i: nat)
    requires i < |order|
    ensures Rebuild(order[..i + 1]) == AddPrio(Rebuild(order[..i]), order[i])
  {
    assert order[..i + 1][..i] == order[..i];
  }

  function Id(mem: Memory, n: Net): int {
    if n.ptr in mem then mem[n.ptr].id else 0
  }

  ghost predicate Linked(mem: Memory, s: seq<Net>) {
    forall i | 0 <= i < |s| :: Known(mem, s[i]) && mem[s[i].ptr].next == Follow(s, i)
  }

  lemma AppendLinked(mem: Memory, order: seq<Net>, p: nat, b: Ssid)
    requires Linked(mem, order) && order != [] && p !in mem && b.next == None
    requires forall i, j | 0 <= i < j < |order| :: order[i].ptr != order[j].ptr
    ensures var m := mem[p := b]; var last := order[|order| - 1].ptr;
      last in m && Linked(m[last := m[last].(next := Some(p))], order + [Net(p, b.priority)])
  {
    var e := |order| - 1;
    var last := order[e].ptr;
    assert Known(mem, order[e]) && last != p;
    var after := mem[p := b][last := mem[last].(next := Some(p))];
    var s := order + [Net(p, b.priority)];
    forall i | 0 <= i < |s| ensures Known(after, s[i]) && after[s[i].ptr].next == Follow(s, i) {
      if i < e {
        assert s[i] == order[i] && Known(mem, order[i]) && order[i].ptr != p && order[i].ptr != last;
      }
    }
  }

  lemma ChainAt(mem: Memory, head: Option<nat>, order: seq<Net>, i: nat)
    requires Chain(mem, head, order) && i < |order|
    ensures Known(mem, order[i]) && mem[order[i].ptr].next == Follow(order, i)
    ensures forall a, b | 0 <= a < b < |order| :: order[a].ptr != order[b].ptr
  {
  }

  lemma AllKnown(mem: Memory, head: Option<nat>, order: seq<Net>)
    requires Chain(mem, head, order)
    ensures forall i | 0 <= i < |order| :: order[i].ptr in mem
  {
    forall i | 0 <= i < |order| ensures order[i].ptr in mem {
      assert Known(mem, order[i]);
    }
  }

  lemma AppendDistinct(mem: Memory, order: seq<Net>, n: Net)
    requires Linked(mem, order) && n.ptr !in mem
    requires forall i, j | 0 <= i < j < |order| :: order[i].ptr != order[j].ptr
    ensures var s := order + [n]; forall i, j | 0 <= i < j < |s| :: s[i].ptr != s[j].ptr
  {
    assert forall i | 0 <= i < |order| :: Known(mem, order[i]);
  }

  lemma AppendChain(mem: Memory, head: Option<nat>, order: seq<Net>, p: nat, b: Ssid)
    requires Chain(mem, head, order) && p !in mem && b.next == None && order != []
    ensures var n := Net(p, b.priority); var m := mem[p := b]; var last := order[|order| - 1].ptr;
      last in m && Chain(m[last := m[last].(next := Some(p))], head, order + [n])
  {
    AppendLinked(mem, order, p, b);
    AppendDistinct(mem, order, Net(p, b.priority));
    hide Linked, Known;
  }

  /** The block p stored, and linked behind the block tail. */
  function Attach(mem: Memory, tail: Option<nat>, p: nat, b: Ssid): Memory {
    if tail.Some? && tail.value in mem && tail.value != p
    then mem[p := b][tail.value := mem[tail.value].(next := Some(p))]
    else mem[p := b]
  }

  lemma AttachChain(mem: Memory, head: Option<nat>, order: seq<Net>, tail: Option<nat>, p: nat, b: Ssid)
    requires Chain(mem, head, order) && Tail(order, tail) && p !in mem && b.next == None
    ensures tail.Some? ==> tail.value in mem && tail.value != p
    ensures Chain(Attach(mem, tail, p, b), if head.None? then Some(p) else head, order + [Net(p, b.priority)])
  {
    if order == [] {
      assert [] + [Net(p, b.priority)] == [Net(p, b.priority)];
    } else {
      assert Known(mem, order[|order| - 1]);
      AppendChain(mem, head, order, p, b);
    }
  }

  lemma AttachHeads(mem: Memory, pssid: seq<nat>, groups: Groups, tail: Option<nat>, p: nat, b: Ssid)
    requires Heads(mem, pssid, groups) && p !in mem
    ensures Heads(Attach(mem, tail, p, b), pssid, groups)
  {
    HeadsKept(mem, Attach(mem, tail, p, b), pssid, groups);
  }

  lemma SameIds(before: Memory, linked: Memory, after: Memory, order: seq<Net>, p: nat)
    requires p !in before && p in linked && SameOldIds(before, linked) && SameButPnext(linked, after)
    requires forall i | 0 <= i < |order| :: order[i].ptr in before
    ensures forall i | 0 <= i < |order| :: Id(after, order[i]) == Id(before, order[i])
    ensures p in after && after[p].id == linked[p].id
  {
  }

  lemma SameKeys(m: Memory, k: Memory)
    requires SameButPnext(m, k)
    ensures m.Keys == k.Keys
  {
  }

  /** No network has a larger id, and some network has this one, or there is none. */
  ghost predicate LargestId(mem: Memory, order: seq<Net>, id: int) {
    && (forall i | 0 <= i < |order| :: Id(mem, order[i]) <= id)
    && (id == -1 || exists i :: 0 <= i < |order| && Id(mem, order[i]) == id)
  }

  lemma LargerId(mem: Memory, order: seq<Net>, k: nat, id: int)
    requires k < |order| && order[k].ptr in mem && LargestId(mem, order[..k], id)
    ensures LargestId(mem, order[..k + 1], if mem[order[k].ptr].id > id then mem[order[k].ptr].id else id)
  {
    var s := order[..k + 1];
    var v := mem[order[k].ptr].id;
    assert forall i | 0 <= i < k :: s[i] == order[..k][i];
    assert s[k] == order[k] && Id(mem, s[k]) == v;
    if v <= id && id != -1 {
      var i :| 0 <= i < k && Id(mem, order[..k][i]) == id;
      assert Id(mem, s[i]) == id;
    }
  }

  lemma AddedIds(before: Memory, after: Memory, order: seq<Net>, p: nat, id: int)
    requires LargestId(before, order, id) && p in after && after[p].id == id + 1
    requires forall i | 0 <= i < |order| :: Id(after, order[i]) == Id(before, order[i])
    ensures forall i | 0 <= i < |order| :: Id(after, order[i]) == Id(before, order[i]) < after[p].id
    ensures after[p].id == 0 || exists i :: 0 <= i < |order| && Id(after, order[i]) + 1 == after[p].id
  {
    hide Id;
    if id != -1 {
      var i :| 0 <= i < |order| && Id(before, order[i]) == id;
      assert Id(after, order[i]) == Id(before, order[i]);
    }
  }

  lemma UnlinkFirst(mem: Memory, head: Option<nat>, order: seq<Net>)
    requires Chain(mem, head, order) && order != []
    ensures order[0].ptr in mem && Chain(mem, mem[order[0].ptr].next, RemoveAt(order, 0))
  {
    var r := RemoveAt(order, 0);
    assert Known(mem, order[0]);
    assert forall i | 0 <= i < |r| :: r[i] == order[i + 1];
  }

  /** The k-th element of s without its m-th one is this element of s. */
  function Kept(k: nat, m: nat): nat {
    if k < m then k else k + 1
  }

  lemma UnlinkFollow(order: seq<Net>, k: nat, i: nat)
    requires 0 < k < |order| && i < |order| - 1
    ensures var r := RemoveAt(order, k);
      r[i] == order[Kept(i, k)] && Follow(r, i) == if i == k - 1 then Follow(order, k) else Follow(order, Kept(i, k))
  {
  }

  lemma UnlinkLinked(mem: Memory, order: seq<Net>, k: nat)
    requires Linked(mem, order) && 0 < k < |order|
    requires forall i, j | 0 <= i < j < |order| :: order[i].ptr != order[j].ptr
    ensures var p := order[k].ptr; var prev := order[k - 1].ptr;
      p in mem && prev in mem && Linked(mem[prev := mem[prev].(next := mem[p].next)], RemoveAt(order, k))
  {
    assert Known(mem, order[k]) && Known(mem, order[k - 1]);
    var r := RemoveAt(order, k);
    var prev := order[k - 1].ptr;
    var after := mem[prev := mem[prev].(next := mem[order[k].ptr].next)];
    hide RemoveAt, Follow;
    forall i | 0 <= i < |r| ensures Known(after, r[i]) && after[r[i].ptr].next == Follow(r, i) {
      UnlinkFollow(order, k, i);
      var j := Kept(i, k);
      assert Known(mem, order[j]) && (order[j].ptr == prev <==> j == k - 1);
    }
  }

  lemma RemovedDistinct(order: seq<Net>, k: nat)
    requires k < |order| && forall i, j | 0 <= i < j < |order| :: order[i].ptr != order[j].ptr
    ensures var r := RemoveAt(order, k);
      && (forall i, j | 0 <= i < j < |r| :: r[i].ptr != r[j].ptr)
      && (forall i | 0 <= i < |r| :: r[i].ptr != order[k].ptr)
  {
    var r := RemoveAt(order, k);
    assert forall i | 0 <= i < |r| :: r[i] == order[Kept(i, k)];
  }

  lemma UnlinkChain(mem: Memory, head: Option<nat>, order: seq<Net>, k: nat)
    requires Chain(mem, head, order) && 0 < k < |order|
    ensures var p := order[k].ptr; var prev := order[k - 1].ptr;
      p in mem && prev in mem && Chain(mem[prev := mem[prev].(next := mem[p].next)], head, RemoveAt(order, k))
  {
    UnlinkLinked(mem, order, k);
    RemovedDistinct(order, k);
    assert RemoveAt(order, k)[0] == order[0];
    hide Linked, RemoveAt;
  }

  /** Freeing a block that the chain does not hold */
  lemma FreeLinked(mem: Memory, s: seq<Net>, p: nat)
    requires Linked(mem, s) && forall i | 0 <= i < |s| :: s[i].ptr != p
    ensures Linked(mem - {p}, s)
  {
    forall i | 0 <= i < |s| ensures Known(mem - {p}, s[i]) && (mem - {p})[s[i].ptr].next == Follow(s, i) {
      assert Known(mem, s[i]);
    }
  }

  lemma FreeFollowed(mem: Memory, groups: Groups, p: nat)
    requires Followed(mem, groups) && !Member(groups, p)
    ensures Followed(mem - {p}, groups)
  {
    forall i, j | 0 <= i < |groups| && 0 <= j < |groups[i]|
      ensures Known(mem - {p}, groups[i][j]) && (mem - {p})[groups[i][j].ptr].pnext == Follow(groups[i], j)
    {
      assert Known(mem, groups[i][j]) && Member(groups, groups[i][j].ptr);
    }
  }

  /** Freeing a block that is in neither structure */
  lemma FreeChain(mem: Memory, head: Option<nat>, pssid: seq<nat>, order: seq<Net>, k: nat)
    requires k < |order| && forall a, b | 0 <= a < b < |order| :: order[a].ptr != order[b].ptr
    requires Chain(mem, head, RemoveAt(order, k)) && Heads(mem, pssid, Rebuild(RemoveAt(order, k)))
    ensures Chain(mem - {order[k].ptr}, head, RemoveAt(order, k))
    ensures Heads(mem - {order[k].ptr}, pssid, Rebuild(RemoveAt(order, k)))
  {
    hide Linked, Followed, Apart, HeadPtrs, Member, RemoveAt, Rebuild;
    var r := RemoveAt(order, k);
    RemovedDistinct(order, k);
    FreeLinked(mem, r, order[k].ptr);
    if Member(Rebuild(r), order[k].ptr) {
      RebuildMembers(r, order[k].ptr);
      assert false;
    }
    FreeFollowed(mem, Rebuild(r), order[k].ptr);
  }

  lemma PriorityChain(mem: Memory, head: Option<nat>, order: seq<Net>, k: nat, v: int)
    requires Chain(mem, head, order) && k < |order|
    ensures var p := order[k].ptr;
      p in mem && Chain(mem[p := mem[p].(priority := v)], head, order[k := Net(p, v)])
  {
    var p := order[k].ptr;
    assert Known(mem, order[k]);
    var r := order[k := Net(p, v)];
    var after := mem[p := mem[p].(priority := v)];
    forall i | 0 <= i < |r| ensures Known(after, r[i]) && after[r[i].ptr].next == Follow(r, i) {
      assert Known(mem, order[i]);
    }
  }

  // --- reading a configuration file ------------------------------------------

  /** The network blocks that parsed, in the order of the file. */
  function Parsed(blocks: seq<Option<Net>>): seq<Net> {
    if blocks == [] then []
    else
      var m := |blocks| - 1;
      if blocks[m].Some? then Parsed(blocks[..m]) + [blocks[m].value] else Parsed(blocks[..m])
  }

  function Addresses(s: seq<Net>): set<nat> {
    set n | n in s :: n.ptr
  }

  lemma NoAddresses()
    ensures Addresses([]) == {}
  {
  }

  lemma AddressesAppend(s: seq<Net>, t: seq<Net>)
    ensures Addresses(s + t) == Addresses(s) + Addresses(t)
    ensures forall n :: Addresses([n]) == {n.ptr}
  {
    assert forall p :: p in Addresses(s + t) <==> p in Addresses(s) + Addresses(t);
  }

  lemma {:induction false} ParsedFresh(mem: Memory, blocks: seq<Option<Net>>)
    requires forall i | 0 <= i < |blocks| && blocks[i].Some? :: blocks[i].value.ptr !in mem
    ensures Addresses(Parsed(blocks)) !! mem.Keys
  {
    if blocks == [] {
      assert Addresses([]) == {};
    } else {
      var m := |blocks| - 1;
      hide Addresses;
      assert forall i | 0 <= i < m :: blocks[..m][i] == blocks[i];
      ParsedFresh(mem, blocks[..m]);
      if blocks[m].Some? {
        AddressesAppend(Parsed(blocks[..m]), [blocks[m].value]);
        assert Addresses([blocks[m].value]) == {blocks[m].value.ptr};
      }
    }
  }

  /** A configuration file as wpa_config_read meets it: no name was given, it cannot be opened, or
      its network blocks; bad: some other line of it is invalid. */
  datatype File = NoName | Unreadable | Lines(blocks: seq<Option<Net>>, bad: bool)

  predicate Accepted(file: File) {
    file.Lines? && !file.bad && forall i | 0 <= i < |file.blocks| :: file.blocks[i].Some?
  }

  /** The blocks from position on are allocated separately, and not yet. */
  ghost predicate Fresh(mem: Memory, blocks: seq<Option<Net>>, position: nat) {
    && (forall i | position <= i < |blocks| && blocks[i].Some? :: blocks[i].value.ptr !in mem)
    && (forall i, j | 0 <= i < j < |blocks| && blocks[i].Some? && blocks[j].Some? ::
          blocks[i].value.ptr != blocks[j].value.ptr)
  }

  ghost predicate SameOldIds(m: Memory, k: Memory) {
    forall p | p in m :: p in k && k[p].id == m[p].id
  }

  ghost predicate NumberedFromZero(mem: Memory, blocks: seq<Option<Net>>, count: nat)
    requires count <= |blocks|
  {
    forall i | 0 <= i < count && blocks[i].Some? :: blocks[i].value.ptr in mem && mem[blocks[i].value.ptr].id == i
  }

  ghost predicate Tail(order: seq<Net>, tail: Option<nat>) {
    tail == if order == [] then None else Some(order[|order| - 1].ptr)
  }

  lemma ParsedNext(blocks: seq<Option<Net>>, i: nat)
    requires i < |blocks|
    ensures Parsed(blocks[..i + 1])
         == if blocks[i].Some? then Parsed(blocks[..i]) + [blocks[i].value] else Parsed(blocks[..i])
  {
    assert blocks[..i + 1][..i] == blocks[..i];
  }

  lemma HeadsKept(m: Memory, k: Memory, pssid: seq<nat>, groups: Groups)
    requires Heads(m, pssid, groups)
    requires forall p | p in m :: p in k && k[p].pnext == m[p].pnext && k[p].priority == m[p].priority
    ensures Heads(k, pssid, groups)
  {
    forall i, j | 0 <= i < |groups| && 0 <= j < |groups[i]|
      ensures Known(k, groups[i][j]) && k[groups[i][j].ptr].pnext == Follow(groups[i], j)
    {
      assert Known(m, groups[i][j]);
    }
  }

  lemma NewIsNotListed(mem: Memory, head: Option<nat>, order: seq<Net>, p: nat)
    requires Chain(mem, head, order) && p !in mem
    ensures !Member(Rebuild(order), p)
  {
    assert forall i | 0 <= i < |order| :: Known(mem, order[i]) ==> order[i].ptr != p;
    if Member(Rebuild(order), p) {
      RebuildMembers(order, p);
      assert false;
    }
  }

  /** The state while a file is read: head and tail of the networks so far, and sorted lists. */
  ghost predicate Reading(mem: Memory, pssid: seq<nat>, head: Option<nat>, tail: Option<nat>, s: seq<Net>) {
    Chain(mem, head, s) && Tail(s, tail) && Heads(mem, pssid, Rebuild(s))
  }

  ghost predicate Progress(first: Memory, mem: Memory, blocks: seq<Option<Net>>, i: nat)
    requires i <= |blocks|
  {
    && Fresh(mem, blocks, i) && SameOldIds(first, mem) && NumberedFromZero(mem, blocks, i)
    && mem.Keys == first.Keys + Addresses(Parsed(blocks[..i]))
  }

  lemma ProgressNext(first: Memory, m: Memory, k: Memory, blocks: seq<Option<Net>>, i: nat)
    requires i < |blocks| && Progress(first, m, blocks, i) && SameOldIds(m, k)
    requires k.Keys == if blocks[i].Some? then m.Keys + {blocks[i].value.ptr} else m.Keys
    requires blocks[i].Some? ==> blocks[i].value.ptr in k && k[blocks[i].value.ptr].id == i
    ensures Progress(first, k, blocks, i + 1)
  {
    FreshNext(m, k, blocks, i);
    NumberedNext(m, k, blocks, i);
    ParsedNext(blocks, i);
    if blocks[i].Some? { AddressesAppend(Parsed(blocks[..i]), [blocks[i].value]); }
    hide Fresh, NumberedFromZero, Parsed, Addresses;
  }

  lemma FreshNext(m: Memory, k: Memory, blocks: seq<Option<Net>>, i: nat)
    requires i < |blocks| && Fresh(m, blocks, i)
    requires k.Keys == if blocks[i].Some? then m.Keys + {blocks[i].value.ptr} else m.Keys
    ensures Fresh(k, blocks, i + 1)
  {
  }

  lemma NumberedNext(m: Memory, k: Memory, blocks: seq<Option<Net>>, i: nat)
    requires i < |blocks| && NumberedFromZero(m, blocks, i) && SameOldIds(m, k)
    requires blocks[i].Some? ==> blocks[i].value.ptr in k && k[blocks[i].value.ptr].id == i
    ensures NumberedFromZero(k, blocks, i + 1)
  {
  }

  lemma Arrived(first: Memory, mem: Memory, blocks: seq<Option<Net>>)
    requires Progress(first, mem, blocks, |blocks|)
    ensures SameOldIds(first, mem) && NumberedFromZero(mem, blocks, |blocks|)
    ensures mem.Keys == first.Keys + Addresses(Parsed(blocks))
  {
    assert blocks[..|blocks|] == blocks;
  }

  lemma NextIsFresh(first: Memory, mem: Memory, blocks: seq<Option<Net>>, i: nat)
    requires i < |blocks| && Progress(first, mem, blocks, i)
    ensures blocks[i].Some? ==> blocks[i].value.ptr !in mem
  {
  }

  lemma SameMemory(mem: Memory)
    ensures SameOldIds(mem, mem)
  {
  }

  lemma NotFreed(mem: Memory, order: seq<Net>, k: nat)
    requires Linked(mem, order) && k < |order|
    requires forall i, j | 0 <= i < j < |order| :: order[i].ptr != order[j].ptr
    ensures order[k].ptr in mem - Addresses(order[..k])
    ensures (mem - Addresses(order[..k]))[order[k].ptr].next == Follow(order, k)
  {
    assert Known(mem, order[k]);
    assert forall n | n in order[..k] :: n.ptr != order[k].ptr;
  }

  ghost predicate IdsDistinct(mem: Memory, s: seq<Net>) {
    forall i, j | 0 <= i < j < |s| :: Id(mem, s[i]) != Id(mem, s[j])
  }

  ghost predicate Named(mem: Memory, blocks: seq<Option<Net>>, n: nat, r: seq<Net>)
    requires n <= |blocks|
  {
    forall a | 0 <= a < |r| :: 0 <= Id(mem, r[a]) < n && blocks[Id(mem, r[a])] == Some(r[a])
  }

  ghost predicate Rising(mem: Memory, r: seq<Net>) {
    forall a, b | 0 <= a < b < |r| :: Id(mem, r[a]) < Id(mem, r[b])
  }

  ghost predicate Taken(blocks: seq<Option<Net>>, n: nat, r: seq<Net>)
    requires n <= |blocks|
  {
    forall i | 0 <= i < n && blocks[i].Some? :: blocks[i].value in r
  }

  ghost predicate Numbering(mem: Memory, blocks: seq<Option<Net>>, n: nat, r: seq<Net>)
    requires n <= |blocks|
  {
    Named(mem, blocks, n, r) && Rising(mem, r) && Taken(blocks, n, r)
  }

  lemma {:induction false} ParsedIds(mem: Memory, blocks: seq<Option<Net>>, n: nat)
    requires n <= |blocks| && NumberedFromZero(mem, blocks, n)
    ensures Numbering(mem, blocks, n, Parsed(blocks[..n]))
  {
    if n > 0 {
      hide Numbering, Parsed;
      ParsedIds(mem, blocks, n - 1);
      ParsedNext(blocks, n - 1);
      NumberingNext(mem, blocks, n - 1, Parsed(blocks[..n - 1]));
    }
  }

  lemma NamedNext(mem: Memory, blocks: seq<Option<Net>>, n: nat, r: seq<Net>)
    requires n < |blocks| && Named(mem, blocks, n, r)
    requires blocks[n].Some? ==> Id(mem, blocks[n].value) == n
    ensures Named(mem, blocks, n + 1, if blocks[n].Some? then r + [blocks[n].value] else r)
  {
    hide Id;
  }

  lemma RisingNext(mem: Memory, blocks: seq<Option<Net>>, n: nat, r: seq<Net>, x: Net)
    requires n < |blocks| && Named(mem, blocks, n, r) && Rising(mem, r) && Id(mem, x) == n
    ensures Rising(mem, r + [x])
  {
    hide Id;
  }

  lemma TakenNext(blocks: seq<Option<Net>>, n: nat, r: seq<Net>)
    requires n < |blocks| && Taken(blocks, n, r)
    ensures Taken(blocks, n + 1, if blocks[n].Some? then r + [blocks[n].value] else r)
  {
    if blocks[n].Some? {
      var s := r + [blocks[n].value];
      assert s[|r|] == blocks[n].value;
      forall x | x in r ensures x in s {}
    }
  }

  lemma NumberingNext(mem: Memory, blocks: seq<Option<Net>>, n: nat, r: seq<Net>)
    requires n < |blocks| && Numbering(mem, blocks, n, r)
    requires blocks[n].Some? ==> Id(mem, blocks[n].value) == n
    ensures Numbering(mem, blocks, n + 1, if blocks[n].Some? then r + [blocks[n].value] else r)
  {
    hide Named, Rising, Taken, Id;
    NamedNext(mem, blocks, n, r);
    if blocks[n].Some? { RisingNext(mem, blocks, n, r, blocks[n].value); }
    TakenNext(blocks, n, r);
  }

  /** Reading a file on top of a configuration keeps the ids distinct exactly when no network of
      the configuration already has the number of a network block of the file. */
  lemma ReadIdsDistinctIff(before: Memory, after: Memory, order: seq<Net>, blocks: seq<Option<Net>>)
    requires forall i | 0 <= i < |order| :: order[i].ptr in before
    requires SameOldIds(before, after) && NumberedFromZero(after, blocks, |blocks|) && IdsDistinct(before, order)
    ensures IdsDistinct(after, order + Parsed(blocks)) <==>
      forall i, k | 0 <= i < |order| && 0 <= k < |blocks| && blocks[k].Some? :: Id(before, order[i]) != k
  {
    ParsedIds(after, blocks, |blocks|);
    assert blocks[..|blocks|] == blocks;
    var r := Parsed(blocks);
    var s := order + r;
    if IdsDistinct(after, s) {
      forall i, k | 0 <= i < |order| && 0 <= k < |blocks| && blocks[k].Some? ensures Id(before, order[i]) != k {
        var a :| 0 <= a < |r| && r[a] == blocks[k].value;
        assert s[|order| + a] == r[a] && s[i] == order[i];
      }
    }
  }

  function Ptrs(s: seq<Net>): (r: seq<nat>)
    ensures |r| == |s|
  {
    seq(|s|, i requires 0 <= i < |s| => s[i].ptr)
  }

  lemma {:induction false} FlattenNext(groups: Groups, i: nat)
    requires i < |groups|
    ensures Flatten(groups[..i + 1]) == Flatten(groups[..i]) + groups[i]
  {
    if i == 0 {
      assert groups[..1] == [groups[0]] && groups[..1][1..] == [] && groups[..0] == [];
    } else {
      assert groups[..i + 1][1..] == groups[1..][..i] && groups[..i][1..] == groups[1..][..i - 1];
      FlattenNext(groups[1..], i - 1);
    }
  }

  lemma PtrsAppend(a: seq<Net>, b: seq<Net>)
    ensures Ptrs(a + b) == Ptrs(a) + Ptrs(b)
  {
  }

  class Config {
    var mem: Memory
    var ssid: Option<nat>
    var pssid: seq<nat>
    var freed: bool               // wpa_config_free, or os_free, of the structure itself

    /** The lists hold the groups, without saying which networks belong to the configuration. */
    ghost predicate Holds(groups: Groups)
      reads this
    {
      Heads(mem, pssid, groups)
    }

    ghost predicate Networks(order: seq<Net>)
      reads this
    {
      Chain(mem, ssid, order)
    }

    /** The configuration consists of the networks of order, and pssid sorts them. */
    ghost predicate Valid(order: seq<Net>)
      reads this
    {
      !freed && Networks(order) && Holds(Rebuild(order))
    }

    /** wpa_config_alloc_empty */
    constructor ()
      ensures Valid([]) && mem == map[]
    {
      mem, ssid, pssid, freed := map[], None, [], false;
    }

    /** The first loop of wpa_config_add_prio_network */
    method FindSame(priority: int, ghost groups: Groups) returns (k: nat)
      requires Holds(groups)
      ensures k == SameAt(groups, priority) && |pssid| == |groups|
    {
      k := 0;
      while k < |pssid|
        invariant k <= |pssid|
        invariant forall i | 0 <= i < k :: groups[i][0].priority != priority
      {
        assert Known(mem, groups[k][0]);
        if mem[pssid[k]].priority == priority { break; }
        k := k + 1;
      }
      SameAtIs(groups, priority, k);
    }

    /** The second loop: where a new list goes */
    method FindLower(priority: int, ghost groups: Groups) returns (k: nat)
      requires Holds(groups)
      ensures k == LowerAt(groups, priority) && |pssid| == |groups|
    {
      k := 0;
      while k < |pssid|
        invariant k <= |pssid|
        invariant forall i | 0 <= i < k :: groups[i][0].priority >= priority
      {
        assert Known(mem, groups[k][0]);
        if mem[pssid[k]].priority < priority { break; }
        k := k + 1;
      }
      LowerAtIs(groups, priority, k);
    }

    /** Following pnext to the end of a list */
    method LastOf(k: nat, ghost groups: Groups) returns (last: nat)
      requires Holds(groups) && k < |groups|
      ensures last == groups[k][|groups[k]| - 1].ptr && last in mem
    {
      last := pssid[k];
      ghost var j := 0;
      assert Known(mem, groups[k][0]);
      while mem[last].pnext.Some?
        invariant 0 <= j < |groups[k]| && last == groups[k][j].ptr && last in mem
        invariant mem[last].pnext == Follow(groups[k], j)
        decreases |groups[k]| - j
      {
        last := mem[last].pnext.value;
        j := j + 1;
        assert Known(mem, groups[k][j]);
      }
    }

    /** wpa_config_add_prio_network */
    method AddPrioNetwork(p: nat, ghost groups: Groups)
      requires Holds(groups) && p in mem && mem[p].pnext == None && !Member(groups, p)
      modifies `mem, `pssid
      ensures SameButPnext(old(mem), mem) && Holds(AddPrio(groups, Net(p, old(mem)[p].priority)))
    {
      ghost var n := Net(p, mem[p].priority);
      assert Known(mem, n);
      var prio := FindSame(mem[p].priority, groups);
      if prio < |pssid| {
        AppendHeads(mem, pssid, groups, prio, n);
        hide Heads;
        var prev := LastOf(prio, groups);
        mem := mem[prev := mem[prev].(pnext := Some(p))];
        return;
      }
      prio := FindLower(mem[p].priority, groups);
      InsertHeads(mem, pssid, groups, prio, n);
      pssid := pssid[..prio] + [p] + pssid[prio..];
    }

    /** One turn of the loop of wpa_config_update_prio_list, at the i-th network */
    method ListNext(p: nat, ghost order: seq<Net>, ghost i: nat)
      requires i < |order| && order[i].ptr == p && Networks(order) && Holds(Rebuild(order[..i]))
      modifies `mem, `pssid
      ensures Networks(order) && Holds(Rebuild(order[..i + 1])) && SameButPnext(old(mem), mem)
      ensures p in mem && mem[p].next == Follow(order, i)
    {
      ChainAt(mem, ssid, order, i);
      NotYetListed(order, i);
      HeadsFrame(mem, pssid, Rebuild(order[..i]), p, None);
      hide Heads, Chain, Rebuild, Member;
      mem := mem[p := mem[p].(pnext := None)];
      AddPrioNetwork(p, Rebuild(order[..i]));
      ChainFrame(old(mem), mem, ssid, order);
      RebuildNext(order, i);
    }

    /** wpa_config_update_prio_list */
    method UpdatePrioList(ghost order: seq<Net>)
      requires !freed && Networks(order)
      modifies `mem, `pssid
      ensures Valid(order) && SameButPnext(old(mem), mem)
    {
      pssid := [];
      var cur := ssid;
      ghost var i := 0;
      assert Holds(Rebuild(order[..0]));
      hide Heads, Rebuild;
      while cur.Some?
        invariant i <= |order| && cur == (if i < |order| then Some(order[i].ptr) else None)
        invariant Networks(order) && Holds(Rebuild(order[..i])) && SameButPnext(old(mem), mem)
        decreases |order| - i
      {
        var p := cur.value;
        ListNext(p, order, i);
        cur := mem[p].next;
        i := i + 1;
      }
      assert order[..i] == order;
    }

    /** wpa_config_get_network */
    method GetNetwork(id: int, ghost order: seq<Net>) returns (r: Option<nat>, ghost k: nat)
      requires Networks(order)
      ensures if r.None? then forall i | 0 <= i < |order| :: Id(mem, order[i]) != id
              else r.value in mem && mem[r.value].id == id
      ensures k <= |order| && r == (if k < |order| then Some(order[k].ptr) else None)
      ensures forall i | 0 <= i < k :: order[i].ptr in mem && mem[order[i].ptr].id != id
      ensures k < |order| ==> order[k].ptr in mem && mem[order[k].ptr].id == id
    {
      r, k := ssid, 0;
      while r.Some?
        invariant k <= |order| && r == (if k < |order| then Some(order[k].ptr) else None)
        invariant forall i | 0 <= i < k :: order[i].ptr in mem && mem[order[i].ptr].id != id
        decreases |order| - k
      {
        assert Known(mem, order[k]);
        if mem[r.value].id == id { return; }
        r := mem[r.value].next;
        k := k + 1;
      }
    }

    /** The loop of wpa_config_add_network: the largest id, and the last network */
    method ScanNetworks(ghost order: seq<Net>) returns (id: int, last: Option<nat>)
      requires Networks(order)
      ensures Tail(order, last)
      ensures id >= -1 && LargestId(mem, order, id)
    {
      id, last := -1, None;
      var cur := ssid;
      ghost var k := 0;
      assert LargestId(mem, order[..0], -1);
      hide Heads, Chain, LargestId, Id;
      while cur.Some?
        invariant k <= |order| && cur == (if k < |order| then Some(order[k].ptr) else None)
        invariant last == if k == 0 then None else Some(order[k - 1].ptr)
        invariant id >= -1 && LargestId(mem, order[..k], id)
        decreases |order| - k
      {
        ChainAt(mem, ssid, order, k);
        LargerId(mem, order, k, id);
        if mem[cur.value].id > id { id := mem[cur.value].id; }
        last := cur;
        cur := mem[cur.value].next;
        k := k + 1;
      }
      assert order[..k] == order;
    }

    /** wpa_config_add_network; p is the address of the new block */
    method AddNetwork(p: nat, ghost order: seq<Net>)
      requires Valid(order) && p !in mem
      modifies `mem, `ssid, `pssid
      ensures Valid(order + [Net(p, 0)])
      ensures mem.Keys == old(mem.Keys) + {p}
      ensures forall i | 0 <= i < |order| :: Id(mem, order[i]) == old(Id(mem, order[i])) < mem[p].id
      ensures mem[p].id == 0 || exists i :: 0 <= i < |order| && Id(mem, order[i]) + 1 == mem[p].id
    {
      AllKnown(mem, ssid, order);
      hide Heads, Chain, Rebuild, Tail, SameOldIds, SameButPnext, LargestId, Id;
      var id, last := ScanNetworks(order);
      ghost var before := mem;
      ssid := LinkLast(p, Ssid(id + 1, 0, None, None), ssid, last, order);
      ghost var linked := mem;
      UpdatePrioList(order + [Net(p, 0)]);
      SameKeys(linked, mem);
      SameIds(before, linked, mem, order, p);
      AddedIds(before, mem, order, p, id);
    }

    /** wpa_config_remove_network */
    method RemoveNetwork(id: int, ghost order: seq<Net>) returns (ok: bool, ghost k: nat)
      requires Valid(order)
      modifies `mem, `ssid, `pssid
      ensures k <= |order| && (ok <==> k < |order|)
      ensures forall i | 0 <= i < k :: old(Id(mem, order[i])) != id
      ensures ok ==> old(Id(mem, order[k])) == id && Valid(RemoveAt(order, k))
      ensures ok ==> mem.Keys == old(mem.Keys) - {order[k].ptr} && forall p | p in mem :: mem[p].id == old(mem)[p].id
      ensures !ok ==> Valid(order) && mem == old(mem) && pssid == old(pssid)
    {
      var cur: Option<nat>;
      cur, k := GetNetwork(id, order);
      if cur.None? { return false, k; }
      var prev := Previous(cur.value, order, k);
      if prev.Some? {
        UnlinkChain(mem, ssid, order, k);
        mem := mem[prev.value := mem[prev.value].(next := mem[cur.value].next)];
      } else {
        UnlinkFirst(mem, ssid, order);
        ssid := mem[cur.value].next;
      }
      UpdatePrioList(RemoveAt(order, k));
      FreeChain(mem, ssid, pssid, order, k);
      mem := mem - {cur.value};
      return true, k;
    }

    /** The trailing pointer of the search loop in wpa_config_remove_network */
    method Previous(p: nat, ghost order: seq<Net>, ghost k: nat) returns (prev: Option<nat>)
      requires Networks(order) && k < |order| && order[k].ptr == p
      ensures prev == if k == 0 then None else Some(order[k - 1].ptr)
    {
      prev := None;
      var cur := ssid;
      ghost var i := 0;
      while cur != Some(p)
        invariant i <= k && cur == Some(order[i].ptr)
        invariant prev == if i == 0 then None else Some(order[i - 1].ptr)
        decreases k - i
      {
        assert Known(mem, order[i]);
        assert i < k;
        prev := cur;
        cur := mem[cur.value].next;
        i := i + 1;
      }
    }

    /** SET_NETWORK with the variable priority: an unchanged value leaves the lists alone. */
    method SetPriority(p: nat, v: int, ghost order: seq<Net>, ghost k: nat)
      requires Valid(order) && k < |order| && order[k].ptr == p
      modifies `mem, `pssid
      ensures Valid(order[k := Net(p, v)])
      ensures mem.Keys == old(mem.Keys) && forall q | q in mem :: mem[q].id == old(mem)[q].id
      ensures v == order[k].priority ==> mem == old(mem) && pssid == old(pssid)
    {
      assert Known(mem, order[k]);
      if mem[p].priority == v {
        assert order[k := Net(p, v)] == order;
        return;
      }
      PriorityChain(mem, ssid, order, k, v);
      mem := mem[p := mem[p].(priority := v)];
      UpdatePrioList(order[k := Net(p, v)]);
    }

    /** The search for the last network at the start of wpa_config_read */
    method FindTail(ghost order: seq<Net>) returns (tail: Option<nat>)
      requires Networks(order)
      ensures Tail(order, tail)
    {
      tail := ssid;
      ghost var k := 0;
      if tail.Some? {
        assert Known(mem, order[0]);
        while mem[tail.value].next.Some?
          invariant k < |order| && tail == Some(order[k].ptr) && tail.value in mem
          invariant mem[tail.value].next == Follow(order, k)
          decreases |order| - k
        {
          tail := mem[tail.value].next;
          k := k + 1;
          assert Known(mem, order[k]);
        }
      }
    }

    /** A new block at the end of the chain */
    method LinkLast(p: nat, b: Ssid, head: Option<nat>, tail: Option<nat>, ghost order: seq<Net>)
        returns (newHead: Option<nat>)
      requires p !in mem && b.next == None && b.pnext == None && Chain(mem, head, order) && Tail(order, tail)
      requires Holds(Rebuild(order))
      modifies `mem
      ensures Chain(mem, newHead, order + [Net(p, b.priority)]) && Holds(Rebuild(order))
      ensures mem.Keys == old(mem.Keys) + {p} && SameOldIds(old(mem), mem)
      ensures mem[p].id == b.id && mem[p].priority == b.priority && mem[p].pnext == None
    {
      AttachChain(mem, head, order, tail, p, b);
      AttachHeads(mem, pssid, Rebuild(order), tail, p, b);
      newHead := if head.None? then Some(p) else head;
      assert tail.Some? <==> head.Some?;
      hide Chain, Heads, Rebuild;
      mem := mem[p := b];
      if tail.Some? { mem := mem[tail.value := mem[tail.value].(next := Some(p))]; }
      assert mem == Attach(old(mem), tail, p, b);
    }

    /** One network block: allocated with the given id, put at the end, added to its list. */
    method ReadNetwork(b: Net, id: int, head: Option<nat>, tail: Option<nat>, ghost order: seq<Net>)
        returns (newHead: Option<nat>, newTail: Option<nat>)
      requires b.ptr !in mem && Reading(mem, pssid, head, tail, order)
      modifies `mem, `pssid
      ensures Reading(mem, pssid, newHead, newTail, order + [b])
      ensures mem.Keys == old(mem.Keys) + {b.ptr} && SameOldIds(old(mem), mem) && mem[b.ptr].id == id
    {
      NewIsNotListed(mem, head, order, b.ptr);
      assert Chain(mem, head, order) && Tail(order, tail) && Heads(mem, pssid, Rebuild(order));
      assert (order + [b])[..|order|] == order && Rebuild(order + [b]) == AddPrio(Rebuild(order), b);
      assert Tail(order + [b], Some(b.ptr));
      hide Heads, Chain, Member, Tail, Rebuild, AddPrio;
      newTail := Some(b.ptr);
      newHead := LinkLast(b.ptr, Ssid(id, b.priority, None, None), head, tail, order);
      ghost var linked := mem;
      AddPrioNetwork(b.ptr, Rebuild(order));
      ChainFrame(linked, mem, newHead, order + [b]);
    }

    /** The loop of wpa_config_read over the network blocks: each block takes the next id, a block
        that does not parse is skipped, and the pssid lists grow while the file is read. */
    method ReadNetworks(blocks: seq<Option<Net>>, ghost order: seq<Net>)
      requires Valid(order) && Fresh(mem, blocks, 0)
      modifies `mem, `ssid, `pssid
      ensures Valid(order + Parsed(blocks))
      ensures mem.Keys == old(mem.Keys) + Addresses(Parsed(blocks))
      ensures SameOldIds(old(mem), mem) && NumberedFromZero(mem, blocks, |blocks|)
    {
      var head := ssid;
      var tail := FindTail(order);
      assert Progress(mem, mem, blocks, 0) by { assert Addresses(Parsed(blocks[..0])) == {}; }
      hide Progress;
      head := ReadBlocks(blocks, head, tail, order);
      ssid := head;
      assert blocks[..|blocks|] == blocks;
      Arrived(old(mem), mem, blocks);
    }

    method ReadBlocks(blocks: seq<Option<Net>>, head0: Option<nat>, tail0: Option<nat>, ghost order: seq<Net>)
        returns (head: Option<nat>)
      requires Reading(mem, pssid, head0, tail0, order) && Progress(mem, mem, blocks, 0)
      modifies `mem, `pssid
      ensures exists tail :: Reading(mem, pssid, head, tail, order + Parsed(blocks))
      ensures Progress(old(mem), mem, blocks, |blocks|)
    {
      head := head0;
      var tail := tail0;
      var id := 0;
      assert order + Parsed(blocks[..0]) == order;
      hide Reading, Progress, Parsed;
      while id < |blocks|
        invariant id <= |blocks|
        invariant Reading(mem, pssid, head, tail, order + Parsed(blocks[..id]))
        invariant Progress(old(mem), mem, blocks, id)
      {
        head, tail := ReadNextBlock(blocks, id, head, tail, old(mem), order);
        id := id + 1;
      }
      assert blocks[..id] == blocks;
    }

    method ReadNextBlock(blocks: seq<Option<Net>>, id: nat, head: Option<nat>, tail: Option<nat>,
                         ghost first: Memory, ghost order: seq<Net>)
        returns (newHead: Option<nat>, newTail: Option<nat>)
      requires id < |blocks| && Progress(first, mem, blocks, id)
      requires Reading(mem, pssid, head, tail, order + Parsed(blocks[..id]))
      modifies `mem, `pssid
      ensures Reading(mem, pssid, newHead, newTail, order + Parsed(blocks[..id + 1]))
      ensures Progress(first, mem, blocks, id + 1)
    {
      hide Reading, Progress, Parsed, SameOldIds;
      ghost var s := order + Parsed(blocks[..id]);
      ghost var before := mem;
      ParsedNext(blocks, id);
      NextIsFresh(first, mem, blocks, id);
      newHead, newTail := head, tail;
      if blocks[id].Some? {
        newHead, newTail := ReadNetwork(blocks[id].value, id, head, tail, s);
        assert s + [blocks[id].value] == order + Parsed(blocks[..id + 1]);
      } else {
        SameMemory(mem);
      }
      ProgressNext(first, before, mem, blocks, id);
    }

    /** The loop of wpa_config_free: each network after its next pointer was read */
    method FreeNetworks(ghost order: seq<Net>)
      requires Networks(order)
      modifies `mem
      ensures mem.Keys == old(mem.Keys) - Addresses(order)
    {
      var cur := ssid;
      ghost var k := 0;
      hide Addresses, Linked;
      assert Addresses(order[..0]) == {} by { NoAddresses(); }
      while cur.Some?
        invariant k <= |order| && cur == (if k < |order| then Some(order[k].ptr) else None)
        invariant mem == old(mem) - Addresses(order[..k])
        decreases |order| - k
      {
        NotFreed(old(mem), order, k);
        AddressesAppend(order[..k], [order[k]]);
        assert order[..k] + [order[k]] == order[..k + 1];
        var prev := cur.value;
        cur := mem[prev].next;
        mem := mem - {prev};
        k := k + 1;
      }
      assert order[..k] == order;
    }

    /** wpa_config_read on a configuration, built without WPA_IGNORE_CONFIG_ERRORS: an error, or a
        file that cannot be opened, takes the configuration away from its owner. */
    method ReadFile(file: File, ghost order: seq<Net>) returns (ok: bool)
      requires Valid(order) && (file.Lines? ==> Fresh(mem, file.blocks, 0))
      modifies this
      ensures ok <==> Accepted(file)
      ensures freed <==> file != NoName && !ok
      ensures ok ==> Valid(order + Parsed(file.blocks))
      ensures ok ==> SameOldIds(old(mem), mem) && NumberedFromZero(mem, file.blocks, |file.blocks|)
      ensures file.Lines? && !ok ==> mem.Keys == old(mem.Keys) - Addresses(order)
      ensures !file.Lines? ==> mem == old(mem) && ssid == old(ssid) && pssid == old(pssid)
    {
      match file
      case NoName => return false;
      case Unreadable =>
        freed := true;
        return false;
      case Lines(blocks, bad) =>
        ParsedFresh(mem, blocks);
        hide Parsed, Addresses;
        ReadNetworks(blocks, order);
        var errors := CountErrors(blocks, bad);
        if errors > 0 {
          FreeNetworks(order + Parsed(blocks));
          AddressesAppend(order, Parsed(blocks));
          freed := true;
          return false;
        }
        return true;
    }

    static method CountErrors(blocks: seq<Option<Net>>, bad: bool) returns (errors: nat)
      ensures errors == 0 <==> Accepted(Lines(blocks, bad))
    {
      errors := if bad then 1 else 0;
      for i := 0 to |blocks|
        invariant errors == 0 <==> !bad && forall k | 0 <= k < i :: blocks[k].Some?
      {
        if blocks[i].None? { errors := errors + 1; }
      }
    }

    /** A file with one malformed block, and every network of the configuration is gone. */
    method ReadMalformed(ghost order: seq<Net>)
      requires Valid(order)
      modifies this
      ensures freed && forall i | 0 <= i < |order| :: order[i].ptr !in mem
    {
      var blocks: seq<Option<Net>> := [None];
      assert blocks[0].None?;
      var ok := ReadFile(Lines(blocks, false), order);
      assert forall i | 0 <= i < |order| :: order[i] in order && order[i].ptr in Addresses(order);
    }

    /** Two networks with one id: a configuration that has the network 0 reads another file. */
    static method ReadOnTop(p: nat, n: Net) returns (c: Config)
      requires p != n.ptr
      ensures c.Valid([Net(p, 0), n]) && !IdsDistinct(c.mem, [Net(p, 0), n])
    {
      hide Heads, Chain, Rebuild;
      c := new Config();
      c.AddNetwork(p, []);
      assert c.mem[p].id == 0;
      assert [] + [Net(p, 0)] == [Net(p, 0)];
      assert Parsed([Some(n)]) == [n] by { assert [Some(n)][..0] == [] && [] + [n] == [n]; }
      hide Parsed;
      var ok := c.ReadFile(Lines([Some(n)], false), [Net(p, 0)]);
      assert [Net(p, 0)] + [n] == [Net(p, 0), n];
      ghost var s := [Net(p, 0), n];
      assert Id(c.mem, s[0]) == 0;
      assert [Some(n)][0] == Some(n);
      assert Id(c.mem, s[1]) == 0;
    }

    /** Selection goes through the lists like this: head by head, and along pnext. */
    method Walk(ghost order: seq<Net>) returns (r: seq<nat>)
      requires Valid(order)
      ensures exists t :: IsStableSort(order, t) && r == Ptrs(t)
    {
      ghost var groups := Rebuild(order);
      RebuildSorted(order);
      r := [];
      var prio := 0;
      while prio < |pssid|
        invariant prio <= |pssid| == |groups|
        invariant r == Ptrs(Flatten(groups[..prio]))
      {
        var group := WalkList(prio, groups);
        FlattenNext(groups, prio);
        PtrsAppend(Flatten(groups[..prio]), groups[prio]);
        r := r + group;
        prio := prio + 1;
      }
      assert groups[..prio] == groups;
    }

    method WalkList(k: nat, ghost groups: Groups) returns (r: seq<nat>)
      requires Holds(groups) && k < |groups|
      ensures r == Ptrs(groups[k])
    {
      var cur := Some(pssid[k]);
      ghost var j := 0;
      r := [];
      while cur.Some?
        invariant j <= |groups[k]| && r == Ptrs(groups[k])[..j]
        invariant cur == if j < |groups[k]| then Some(groups[k][j].ptr) else None
        decreases |groups[k]| - j
      {
        assert Known(mem, groups[k][j]);
        r := r + [cur.value];
        cur := mem[cur.value].pnext;
        j := j + 1;
      }
    }
  }
}
