/** The per-priority network lists of config.c as a stable sort of the configured networks. */
module PriorityLists {
  import opened Collections

  /** A network block: its address and its priority. */
  datatype Net = Net(ptr: nat, priority: int)

  /** config->pssid: one list per priority, in the order of the array. */
  type Groups = seq<seq<Net>>

  ghost predicate NonEmpty(groups: Groups) {
    forall i | 0 <= i < |groups| :: groups[i] != []
  }

  // --- the operations of config.c --------------------------------------------

  /** The first list for the priority, or |groups|. */
  function SameAt(groups: Groups, priority: int): (k: nat)
    requires NonEmpty(groups)
    ensures k <= |groups|
    ensures k < |groups| ==> groups[k][0].priority == priority
    ensures forall i | 0 <= i < k :: groups[i][0].priority != priority
  {
    if groups == [] || groups[0][0].priority == priority then 0
    else 1 + SameAt(groups[1..], priority)
  }

  /** The first list with a lower priority, or |groups|. */
  function LowerAt(groups: Groups, priority: int): (k: nat)
    requires NonEmpty(groups)
    ensures k <= |groups|
    ensures k < |groups| ==> groups[k][0].priority < priority
    ensures forall i | 0 <= i < k :: groups[i][0].priority >= priority
  {
    if groups == [] || groups[0][0].priority < priority then 0
    else 1 + LowerAt(groups[1..], priority)
  }

  /** wpa_config_add_prio_network */
  function AddPrio(groups: Groups, n: Net): (r: Groups)
    requires NonEmpty(groups)
    ensures NonEmpty(r)
  {
    var k := SameAt(groups, n.priority);
    if k < |groups| then groups[k := groups[k] + [n]]
    else
      var j := LowerAt(groups, n.priority);
      groups[..j] + [[n]] + groups[j..]
  }

  /** wpa_config_update_prio_list, and the lists wpa_config_read builds on the way */
  function Rebuild(order: seq<Net>): (r: Groups)
    ensures NonEmpty(r)
  {
    if order == [] then [] else AddPrio(Rebuild(order[..|order| - 1]), order[|order| - 1])
  }

  // --- what the lists are for ------------------------------------------------

  /** All networks, list by list. */
  function Flatten(groups: Groups): seq<Net> {
    if groups == [] then [] else groups[0] + Flatten(groups[1..])
  }

  function Level(s: seq<Net>, priority: int): (r: seq<Net>)
    ensures forall n | n in r :: n in s && n.priority == priority
  {
    if s == [] then []
    else if s[0].priority == priority then [s[0]] + Level(s[1..], priority)
    else Level(s[1..], priority)
  }

  ghost predicate Descending(s: seq<Net>) {
    forall i, j | 0 <= i < j < |s| :: s[i].priority >= s[j].priority
  }

  ghost predicate SameLevels(a: seq<Net>, b: seq<Net>) {
    forall v: int :: Level(a, v) == Level(b, v)
  }

  /** r is s sorted by descending priority, and networks of one priority keep their order. */
  ghost predicate IsStableSort(s: seq<Net>, r: seq<Net>) {
    Descending(r) && SameLevels(r, s)
  }

  /** One list per priority, the highest priority first. */
  ghost predicate Grouped(groups: Groups) {
    && NonEmpty(groups)
    && (forall i, j | 0 <= i < |groups| && 0 <= j < |groups[i]| :: groups[i][j].priority == groups[i][0].priority)
    && (forall i, j | 0 <= i < j < |groups| :: groups[i][0].priority > groups[j][0].priority)
  }

  ghost predicate Sorted(order: seq<Net>, groups: Groups) {
    Grouped(groups) && IsStableSort(order, Flatten(groups))
  }

  // --- a stable sort is unique -----------------------------------------------

  lemma {:induction false} LevelHigher(s: seq<Net>, v: int)
    requires Descending(s) && (s != [] ==> s[0].priority < v)
    ensures Level(s, v) == []
  {
    if s != [] {
      assert s[1..] != [] ==> s[1..][0] == s[1];
      LevelHigher(s[1..], v);
    }
  }

  lemma FirstNotLower(a: seq<Net>, b: seq<Net>)
    requires Descending(b) && SameLevels(a, b) && a != []
    ensures b != [] && b[0].priority >= a[0].priority
  {
    var v := a[0].priority;
    assert Level(a, v) == Level(b, v);
    if b == [] || b[0].priority < v {
      LevelHigher(b, v);
      assert false;
    }
  }

  lemma SameFirst(a: seq<Net>, b: seq<Net>)
    requires Descending(a) && Descending(b) && SameLevels(a, b) && a != []
    ensures b != [] && a[0] == b[0] && SameLevels(a[1..], b[1..])
  {
    FirstNotLower(a, b);
    FirstNotLower(b, a);
    var v := a[0].priority;
    var x, y := Level(a, v), Level(b, v);
    assert x == y;
    assert x[0] == a[0] && y[0] == b[0] && x[1..] == Level(a[1..], v) && y[1..] == Level(b[1..], v);
    forall u: int ensures Level(a[1..], u) == Level(b[1..], u) {
      if u != v { assert Level(a, u) == Level(b, u); }
    }
  }

  lemma {:induction false} SameLevelsSame(a: seq<Net>, b: seq<Net>)
    requires Descending(a) && Descending(b) && SameLevels(a, b)
    ensures a == b
    decreases |a|
  {
    if a == [] {
      if b != [] { FirstNotLower(b, a); }
    } else {
      SameFirst(a, b);
      SameLevelsSame(a[1..], b[1..]);
    }
  }

  lemma StableSortUnique(s: seq<Net>, a: seq<Net>, b: seq<Net>)
    requires IsStableSort(s, a) && IsStableSort(s, b)
    ensures a == b
  {
    forall v: int ensures Level(a, v) == Level(b, v) { assert Level(a, v) == Level(s, v); }
    SameLevelsSame(a, b);
  }

  lemma {:induction false} LevelMultiset(s: seq<Net>, n: Net)
    ensures multiset(Level(s, n.priority))[n] == multiset(s)[n]
  {
    if s != [] {
      assert s == [s[0]] + s[1..];
      LevelMultiset(s[1..], n);
    }
  }

  /** A stable sort holds every network exactly as often as the list it sorts. */
  lemma StableSortPermutes(s: seq<Net>, r: seq<Net>)
    requires IsStableSort(s, r)
    ensures multiset(s) == multiset(r)
  {
    forall n: Net ensures multiset(s)[n] == multiset(r)[n] {
      LevelMultiset(s, n);
      LevelMultiset(r, n);
    }
  }

  // --- lists and levels ------------------------------------------------------

  lemma {:induction false} LevelAppend(a: seq<Net>, b: seq<Net>, v: int)
    ensures Level(a + b, v) == Level(a, v) + Level(b, v)
  {
    if a == [] {
      assert a + b == b;
    } else {
      assert (a + b)[1..] == a[1..] + b;
      LevelAppend(a[1..], b, v);
    }
  }

  lemma {:induction false} LevelUniform(s: seq<Net>, p: int, v: int)
    requires forall i | 0 <= i < |s| :: s[i].priority == p
    ensures Level(s, v) == if v == p then s else []
  {
    if s != [] { LevelUniform(s[1..], p, v); }
  }

  /** The list for a priority; empty when there is none. */
  function ListFor(groups: Groups, v: int): seq<Net>
    requires NonEmpty(groups)
  {
    if groups == [] then []
    else if groups[0][0].priority == v then groups[0]
    else ListFor(groups[1..], v)
  }

  lemma GroupedTail(groups: Groups)
    requires Grouped(groups) && groups != []
    ensures Grouped(groups[1..])
    ensures forall i | 0 <= i < |groups[1..]| :: groups[1..][i][0].priority < groups[0][0].priority
  {
    var t: Groups := groups[1..];
    forall i, j | 0 <= i < j < |t| ensures t[i][0].priority > t[j][0].priority {
      assert t[i] == groups[i + 1] && t[j] == groups[j + 1];
    }
  }

  lemma {:induction false} ListForHigher(groups: Groups, v: int)
    requires Grouped(groups)
    requires forall i | 0 <= i < |groups| :: groups[i][0].priority < v
    ensures ListFor(groups, v) == []
  {
    if groups != [] {
      GroupedTail(groups);
      ListForHigher(groups[1..], v);
    }
  }

  lemma {:induction false} LevelFlatten(groups: Groups, v: int)
    requires Grouped(groups)
    ensures Level(Flatten(groups), v) == ListFor(groups, v)
  {
    if groups != [] {
      var p := groups[0][0].priority;
      GroupedTail(groups);
      LevelFlatten(groups[1..], v);
      LevelAppend(groups[0], Flatten(groups[1..]), v);
      LevelUniform(groups[0], p, v);
      if v == p { ListForHigher(groups[1..], v); }
    }
  }

  lemma {:induction false} FlattenBelow(groups: Groups, v: int)
    requires NonEmpty(groups)
    requires forall i, j | 0 <= i < |groups| && 0 <= j < |groups[i]| :: groups[i][j].priority < v
    ensures forall k | 0 <= k < |Flatten(groups)| :: Flatten(groups)[k].priority < v
  {
    if groups != [] {
      FlattenBelow(groups[1..], v);
    }
  }

  lemma {:induction false} FlattenDescending(groups: Groups)
    requires Grouped(groups)
    ensures Descending(Flatten(groups))
  {
    if groups != [] {
      GroupedTail(groups);
      FlattenDescending(groups[1..]);
      FlattenBelow(groups[1..], groups[0][0].priority);
    }
  }

  ghost predicate Holds(groups: Groups, order: seq<Net>)
    requires NonEmpty(groups)
  {
    forall v: int :: ListFor(groups, v) == Level(order, v)
  }

  lemma SortedHolds(order: seq<Net>, groups: Groups)
    requires Sorted(order, groups)
    ensures Holds(groups, order)
  {
    forall v: int ensures ListFor(groups, v) == Level(order, v) {
      LevelFlatten(groups, v);
      assert Level(Flatten(groups), v) == Level(order, v);
    }
  }

  lemma HoldsSorted(order: seq<Net>, groups: Groups)
    requires Grouped(groups) && Holds(groups, order)
    ensures Sorted(order, groups)
  {
    var f := Flatten(groups);
    FlattenDescending(groups);
    forall v: int ensures Level(f, v) == Level(order, v) {
      LevelFlatten(groups, v);
      assert ListFor(groups, v) == Level(order, v);
    }
    assert SameLevels(f, order);
  }

  /** The lists, and not only the networks they hold in turn, are determined by the networks. */
  lemma {:induction false} GroupsUnique(a: Groups, b: Groups)
    requires Grouped(a) && Grouped(b)
    requires forall v: int :: ListFor(a, v) == ListFor(b, v)
    ensures a == b
    decreases |a|
  {
    assert b == [] || ListFor(a, b[0][0].priority) == ListFor(b, b[0][0].priority) == b[0];
    if a == [] {
    } else {
      var v := a[0][0].priority;
      assert ListFor(a, v) == ListFor(b, v);
      assert b != [];
      var w := b[0][0].priority;
      assert ListFor(a, w) == ListFor(b, w);
      if w < v { ListForHigher(b, v); }
      if w > v { ListForHigher(a, w); }
      GroupedTail(a);
      GroupedTail(b);
      forall u: int ensures ListFor(a[1..], u) == ListFor(b[1..], u) {
        assert ListFor(a, u) == ListFor(b, u);
        if u == v { ListForHigher(a[1..], u); ListForHigher(b[1..], u); }
      }
      GroupsUnique(a[1..], b[1..]);
    }
  }

  // --- the operations keep the lists sorted ----------------------------------

  /** wpa_config_add_prio_network, seen recursively */
  function Insert(groups: Groups, n: Net): Groups
    requires NonEmpty(groups)
  {
    if groups == [] then [[n]]
    else if groups[0][0].priority == n.priority then [groups[0] + [n]] + groups[1..]
    else if groups[0][0].priority < n.priority then [[n]] + groups
    else [groups[0]] + Insert(groups[1..], n)
  }

  lemma AddPrioTail(groups: Groups, n: Net)
    requires NonEmpty(groups) && groups != [] && groups[0][0].priority > n.priority
    ensures NonEmpty(groups[1..]) && AddPrio(groups, n) == [groups[0]] + AddPrio(groups[1..], n)
  {
    var t: Groups := groups[1..];
    var k, j := SameAt(t, n.priority), LowerAt(t, n.priority);
    assert SameAt(groups, n.priority) == 1 + k && LowerAt(groups, n.priority) == 1 + j;
    hide SameAt, LowerAt, NonEmpty;
    assert groups == [groups[0]] + t;
    if k < |t| {
      ReplaceBehind(groups[0], t, k, t[k] + [n]);
    } else {
      InsertBehind(groups[0], t, j, [[n]]);
    }
  }

  lemma ReplaceBehind<T>(first: T, t: seq<T>, k: nat, x: T)
    requires k < |t|
    ensures ([first] + t)[k + 1 := x] == [first] + t[k := x]
  {
  }

  lemma InsertBehind<T>(first: T, t: seq<T>, j: nat, x: seq<T>)
    requires j <= |t|
    ensures ([first] + t)[..j + 1] + x + ([first] + t)[j + 1..] == [first] + (t[..j] + x + t[j..])
  {
  }

  lemma {:induction false} AddPrioIsInsert(groups: Groups, n: Net)
    requires Grouped(groups)
    ensures AddPrio(groups, n) == Insert(groups, n)
  {
    if groups != [] && groups[0][0].priority > n.priority {
      AddPrioTail(groups, n);
      GroupedTail(groups);
      AddPrioIsInsert(groups[1..], n);
    } else if groups != [] && groups[0][0].priority == n.priority {
      assert SameAt(groups, n.priority) == 0;
    } else {
      assert SameAt(groups, n.priority) == |groups| && LowerAt(groups, n.priority) == 0;
    }
  }

  lemma ConsGrouped(g: seq<Net>, rest: Groups)
    requires g != [] && (forall i | 0 <= i < |g| :: g[i].priority == g[0].priority) && Grouped(rest)
    requires rest != [] ==> rest[0][0].priority < g[0].priority
    ensures Grouped([g] + rest)
  {
  }

  /** The priority of the first list when the network is in */
  function Top(groups: Groups, n: Net): int
    requires NonEmpty(groups)
  {
    if groups == [] || groups[0][0].priority < n.priority then n.priority else groups[0][0].priority
  }

  lemma {:induction false} InsertGrouped(groups: Groups, n: Net)
    requires Grouped(groups)
    ensures Grouped(Insert(groups, n))
    ensures Insert(groups, n) != [] && Insert(groups, n)[0] != [] && Insert(groups, n)[0][0].priority == Top(groups, n)
  {
    if groups == [] {
    } else {
      GroupedTail(groups);
      var g := groups[0];
      if g[0].priority > n.priority {
        InsertGrouped(groups[1..], n);
        ConsGrouped(g, Insert(groups[1..], n));
      } else if g[0].priority < n.priority {
        ConsGrouped([n], groups);
      } else {
        ConsGrouped(g + [n], groups[1..]);
      }
    }
  }

  lemma {:induction false} InsertListFor(groups: Groups, n: Net, v: int)
    requires Grouped(groups)
    ensures NonEmpty(Insert(groups, n))
    ensures ListFor(Insert(groups, n), v) == if v == n.priority then ListFor(groups, v) + [n] else ListFor(groups, v)
  {
    if groups != [] {
      GroupedTail(groups);
      var p := groups[0][0].priority;
      if p > n.priority {
        InsertListFor(groups[1..], n, v);
      } else if p < n.priority && v == n.priority {
        ListForHigher(groups, v);
      }
    }
  }

  /** wpa_config_add_prio_network keeps the lists a stable sort, whatever built them. */
  lemma AddPrioSorted(order: seq<Net>, groups: Groups, n: Net)
    requires Sorted(order, groups)
    ensures Sorted(order + [n], AddPrio(groups, n))
  {
    AddPrioIsInsert(groups, n);
    InsertGrouped(groups, n);
    SortedHolds(order, groups);
    var h := Insert(groups, n);
    forall v: int ensures ListFor(h, v) == Level(order + [n], v) {
      InsertListFor(groups, n, v);
      LevelAppend(order, [n], v);
      assert ListFor(groups, v) == Level(order, v);
    }
    HoldsSorted(order + [n], h);
  }

  /** wpa_config_update_prio_list sorts the networks. */
  lemma {:induction false} RebuildSorted(order: seq<Net>)
    ensures Sorted(order, Rebuild(order))
  {
    if order != [] {
      var m := |order| - 1;
      RebuildSorted(order[..m]);
      AddPrioSorted(order[..m], Rebuild(order[..m]), order[m]);
      assert order[..m] + [order[m]] == order;
    }
  }

  /** Sorted lists are the rebuilt ones: inserting networks one by one, in any state that is
      sorted already, is rebuilding. */
  lemma SortedIsRebuild(order: seq<Net>, groups: Groups)
    requires Sorted(order, groups)
    ensures groups == Rebuild(order)
  {
    RebuildSorted(order);
    SortedHolds(order, groups);
    SortedHolds(order, Rebuild(order));
    forall v: int ensures ListFor(groups, v) == ListFor(Rebuild(order), v) {
      assert ListFor(groups, v) == Level(order, v) == ListFor(Rebuild(order), v);
    }
    GroupsUnique(groups, Rebuild(order));
  }

  // --- removal ---------------------------------------------------------------

  /** The lists without one network; a list that becomes empty goes away. */
  function Without(groups: Groups, n: Net): Groups
    requires NonEmpty(groups)
  {
    if groups == [] then []
    else if groups[0][0].priority == n.priority then
      var g := DropFirst(groups[0], n);
      (if g == [] then [] else [g]) + groups[1..]
    else [groups[0]] + Without(groups[1..], n)
  }

  lemma DropFirstUniform(s: seq<Net>, n: Net, p: int)
    requires forall i | 0 <= i < |s| :: s[i].priority == p
    ensures forall i | 0 <= i < |DropFirst(s, n)| :: DropFirst(s, n)[i].priority == p
  {
  }

  lemma {:induction false} WithoutGrouped(groups: Groups, n: Net)
    requires Grouped(groups)
    ensures Grouped(Without(groups, n))
    ensures forall i | 0 <= i < |Without(groups, n)| :: Without(groups, n)[i][0].priority <= groups[0][0].priority
  {
    if groups != [] {
      GroupedTail(groups);
      if groups[0][0].priority == n.priority {
        DropFirstUniform(groups[0], n, n.priority);
      } else {
        WithoutGrouped(groups[1..], n);
      }
    }
  }

  /** The list that loses the network comes first. */
  lemma WithoutFirst(groups: Groups, n: Net, v: int)
    requires Grouped(groups) && groups != [] && groups[0][0].priority == n.priority
    ensures NonEmpty(Without(groups, n))
    ensures ListFor(Without(groups, n), v)
         == if v == n.priority then DropFirst(ListFor(groups, v), n) else ListFor(groups, v)
  {
    GroupedTail(groups);
    var g := DropFirst(groups[0], n);
    DropFirstUniform(groups[0], n, n.priority);
    if v == n.priority { ListForHigher(groups[1..], v); }
    hide DropFirst;
    assert [] + groups[1..] == groups[1..];
    assert ([g] + groups[1..])[1..] == groups[1..];
  }

  lemma {:induction false} WithoutListFor(groups: Groups, n: Net, v: int)
    requires Grouped(groups)
    ensures NonEmpty(Without(groups, n))
    ensures ListFor(Without(groups, n), v)
         == if v == n.priority then DropFirst(ListFor(groups, v), n) else ListFor(groups, v)
  {
    if groups != [] {
      if groups[0][0].priority == n.priority {
        WithoutFirst(groups, n, v);
      } else {
        WithoutGrouped(groups, n);
        GroupedTail(groups);
        WithoutListFor(groups[1..], n, v);
        hide DropFirst, Grouped;
      }
    }
  }

  lemma {:induction false} LevelDropFirst(s: seq<Net>, n: Net, v: int)
    ensures Level(DropFirst(s, n), v) == if v == n.priority then DropFirst(Level(s, v), n) else Level(s, v)
  {
    if s == [] {
    } else if s[0] == n {
      assert DropFirst(s, n) == s[1..];
      if v == n.priority { assert DropFirst(Level(s, v), n) == Level(s, v)[1..]; }
    } else {
      var t := DropFirst(s[1..], n);
      var r := Level(s[1..], v);
      DropFirstTail(s, n);
      if s[0].priority == v {
        DropFirstTail([s[0]] + r, n);
        assert ([s[0]] + r)[1..] == r;
      }
      LevelDropFirst(s[1..], n, v);
      hide DropFirst;
      assert ([s[0]] + t)[1..] == t;
    }
  }

  /** Rebuilding after a removal takes that network out of its list and changes nothing else. */
  lemma RebuildAfterRemoval(order: seq<Net>, n: Net)
    ensures Rebuild(DropFirst(order, n)) == Without(Rebuild(order), n)
  {
    var groups := Rebuild(order);
    RebuildSorted(order);
    SortedHolds(order, groups);
    WithoutGrouped(groups, n);
    var h := Without(groups, n);
    forall v: int ensures ListFor(h, v) == Level(DropFirst(order, n), v) {
      WithoutListFor(groups, n, v);
      LevelDropFirst(order, n, v);
      assert ListFor(groups, v) == Level(order, v);
    }
    HoldsSorted(DropFirst(order, n), h);
    SortedIsRebuild(DropFirst(order, n), h);
  }
}
