/** Vocabulary shared by the models: octets, optional values, and the sequence
    operations that stand for the intrusive lists of src/utils/list.h. */
module Collections {

  type Byte = b: int | 0 <= b < 256

  datatype Option<+T> = None | Some(value: T)

  /** The position of the first occurrence of x, or |s| when there is none. */
  function IndexOf<T(==)>(s: seq<T>, x: T): (k: nat)
    ensures k <= |s|
    ensures k < |s| ==> s[k] == x
    ensures k == |s| <==> x !in s
    ensures forall j | 0 <= j < k :: s[j] != x
  {
    if s == [] then 0
    else if s[0] == x then 0
    else 1 + IndexOf(s[1..], x)
  }

  /** The position of the last x, or |s| when there is none (as strrchr finds it). */
  function LastIndexOf<T(==)>(s: seq<T>, x: T): (k: nat)
    ensures k <= |s|
    ensures k < |s| ==> s[k] == x && forall i | k < i < |s| :: s[i] != x
    ensures k == |s| <==> x !in s
  {
    if s == [] then 0
    else
      var m := |s| - 1;
      if s[m] == x then m
      else
        assert s == s[..m] + [s[m]];
        var k := LastIndexOf(s[..m], x);
        if k < m then k else |s|
  }

  function RemoveAt<T>(s: seq<T>, k: nat): (r: seq<T>)
    requires k < |s|
    ensures |r| == |s| - 1
  {
    s[..k] + s[k + 1..]
  }

  /** What dl_list_del leaves behind: s without the first occurrence of x. */
  function DropFirst<T(==)>(s: seq<T>, x: T): (r: seq<T>)
    ensures x in s ==> |r| == |s| - 1
    ensures x !in s ==> r == s
  {
    var k := IndexOf(s, x);
    if k < |s| then RemoveAt(s, k) else s
  }

  lemma SliceOfSlice<T>(s: seq<T>, a: nat, b: nat, c: nat, d: nat)
    requires a <= b <= |s| && c <= d <= b - a
    ensures s[a..b][c..d] == s[a + c..a + d]
  {
    forall k | 0 <= k < d - c ensures s[a..b][c..d][k] == s[a + c..a + d][k] {
      assert s[a..b][c..d][k] == s[a..b][c + k];
    }
  }

  ghost predicate Distinct<T>(s: seq<T>) {
    forall i, j | 0 <= i < j < |s| :: s[i] != s[j]
  }

  ghost predicate Ascending(s: seq<nat>) {
    forall i, j | 0 <= i < j < |s| :: s[i] < s[j]
  }

  function Elements<T>(s: seq<T>): set<T> {
    set x | x in s
  }

  lemma IndexOfUnique<T>(s: seq<T>, k: nat)
    requires Distinct(s) && k < |s|
    ensures IndexOf(s, s[k]) == k
  {
  }

  lemma RemoveAtMembers<T>(s: seq<T>, k: nat)
    requires Distinct(s) && k < |s|
    ensures Distinct(RemoveAt(s, k))
    ensures forall x :: x in RemoveAt(s, k) <==> x in s && x != s[k]
  {
    var r := RemoveAt(s, k);
    forall x | x in s && x != s[k] ensures x in r {
      var i :| 0 <= i < |s| && s[i] == x;
      assert r[if i < k then i else i - 1] == x;
    }
  }

  lemma DropFirstAt<T>(s: seq<T>, k: nat)
    requires Distinct(s) && k < |s|
    ensures DropFirst(s, s[k]) == RemoveAt(s, k)
  {
    IndexOfUnique(s, k);
  }

  lemma DropFirstMembers<T>(s: seq<T>, x: T)
    requires Distinct(s)
    ensures Distinct(DropFirst(s, x))
    ensures forall y :: y in DropFirst(s, x) <==> y in s && y != x
  {
    if x in s { RemoveAtMembers(s, IndexOf(s, x)); }
  }

  // --- keeping the members of a set ------------------------------------------

  /** The members of s that lie in keep, in their order. */
  function Keep<T(==)>(s: seq<T>, keep: set<T>): (r: seq<T>)
    ensures |r| <= |s|
    ensures forall x | x in r :: x in s && x in keep
    ensures forall x | x in s && x in keep :: x in r
  {
    if s == [] then []
    else (if s[0] in keep then [s[0]] else []) + Keep(s[1..], keep)
  }

  lemma {:induction false} KeepAppend<T>(a: seq<T>, b: seq<T>, keep: set<T>)
    ensures Keep(a + b, keep) == Keep(a, keep) + Keep(b, keep)
  {
    if a == [] {
      assert a + b == b;
    } else {
      assert (a + b)[1..] == a[1..] + b;
      KeepAppend(a[1..], b, keep);
    }
  }

  lemma {:induction false} KeepAll<T>(s: seq<T>, keep: set<T>)
    requires forall x | x in s :: x in keep
    ensures Keep(s, keep) == s
  {
    if s != [] { KeepAll(s[1..], keep); }
  }

  lemma {:induction false} KeepKeep<T>(s: seq<T>, a: set<T>, b: set<T>)
    ensures Keep(Keep(s, a), b) == Keep(s, a * b)
  {
    if s != [] {
      KeepKeep(s[1..], a, b);
      KeepAppend(if s[0] in a then [s[0]] else [], Keep(s[1..], a), b);
    }
  }

  /** Keep depends only on which members of s are kept. */
  lemma {:induction false} KeepAgree<T>(s: seq<T>, a: set<T>, b: set<T>)
    requires forall x | x in s :: x in a <==> x in b
    ensures Keep(s, a) == Keep(s, b)
  {
    if s != [] { KeepAgree(s[1..], a, b); }
  }

  lemma {:induction false} KeepMultiset<T>(s: seq<T>, keep: set<T>, x: T)
    ensures multiset(Keep(s, keep))[x] == if x in keep then multiset(s)[x] else 0
  {
    if s != [] {
      assert s == [s[0]] + s[1..];
      KeepMultiset(s[1..], keep, x);
    }
  }

  lemma {:induction false} KeepDistinct<T>(s: seq<T>, keep: set<T>)
    requires Distinct(s)
    ensures Distinct(Keep(s, keep))
  {
    if s != [] {
      assert forall i | 0 <= i < |s[1..]| :: s[1..][i] == s[i + 1];
      KeepDistinct(s[1..], keep);
    }
  }

  lemma {:induction false} KeepAscending(s: seq<nat>, keep: set<nat>)
    requires Ascending(s)
    ensures Ascending(Keep(s, keep))
  {
    if s != [] {
      var rest := Keep(s[1..], keep);
      KeepAscending(s[1..], keep);
      forall i | 0 <= i < |rest| ensures s[0] < rest[i] {
        assert rest[i] in s[1..];
      }
    }
  }

  /** Removing one member of a duplicate-free sequence is keeping the others. */
  lemma {:induction false} KeepIsDropFirst<T>(s: seq<T>, keep: set<T>, x: T)
    requires Distinct(s)
    requires forall y | y in s :: y in keep <==> y != x
    ensures Keep(s, keep) == DropFirst(s, x)
  {
    if s == [] {
    } else if s[0] == x {
      assert DropFirst(s, x) == s[1..];
      assert forall j | 0 <= j < |s[1..]| :: s[1..][j] == s[j + 1] && s[j + 1] != s[0];
      KeepAll(s[1..], keep);
    } else {
      KeepIsDropFirst(s[1..], keep, x);
      DropFirstTail(s, x);
    }
  }

  lemma DropFirstTail<T>(s: seq<T>, x: T)
    requires s != [] && s[0] != x
    ensures DropFirst(s, x) == [s[0]] + DropFirst(s[1..], x)
  {
    var t := s[1..];
    var k := IndexOf(t, x);
    assert IndexOf(s, x) == 1 + k;
    if k < |t| {
      assert s[..k + 1] == [s[0]] + t[..k];
      assert s[k + 2..] == t[k + 1..];
    } else {
      assert s == [s[0]] + t;
    }
  }

  // --- subsequences ----------------------------------------------------------

  /** a can be obtained from b by leaving elements out. */
  ghost predicate Subsequence<T>(a: seq<T>, b: seq<T>) {
    if a == [] then true
    else if b == [] then false
    else if a[|a| - 1] == b[|b| - 1] && Subsequence(a[..|a| - 1], b[..|b| - 1]) then true
    else Subsequence(a, b[..|b| - 1])
  }

  lemma {:induction false} SubsequenceRefl<T>(s: seq<T>)
    ensures Subsequence(s, s)
  {
    if s != [] { SubsequenceRefl(s[..|s| - 1]); }
  }

  lemma {:induction false} SubsequenceTrans<T>(a: seq<T>, b: seq<T>, c: seq<T>)
    requires Subsequence(a, b) && Subsequence(b, c)
    ensures Subsequence(a, c)
    decreases |c|
  {
    if a != [] {
      var a', b', c' := a[..|a| - 1], b[..|b| - 1], c[..|c| - 1];
      if b[|b| - 1] == c[|c| - 1] && Subsequence(b', c') {
        if a[|a| - 1] == b[|b| - 1] && Subsequence(a', b') {
          SubsequenceTrans(a', b', c');
        } else {
          SubsequenceTrans(a, b', c');
        }
      } else {
        SubsequenceTrans(a, b, c');
      }
    }
  }

  lemma {:induction false} SubsequenceConcat<T>(a: seq<T>, b: seq<T>, c: seq<T>, d: seq<T>)
    requires Subsequence(a, c) && Subsequence(b, d)
    ensures Subsequence(a + b, c + d)
    decreases |d|
  {
    if d == [] {
      assert a + b == a && c + d == c;
    } else {
      var d' := d[..|d| - 1];
      assert (c + d)[..|c + d| - 1] == c + d';
      if b == [] {
        SubsequenceConcat(a, b, c, d');
      } else if b[|b| - 1] == d[|d| - 1] && Subsequence(b[..|b| - 1], d') {
        assert (a + b)[..|a + b| - 1] == a + b[..|b| - 1];
        SubsequenceConcat(a, b[..|b| - 1], c, d');
      } else {
        SubsequenceConcat(a, b, c, d');
      }
    }
  }
}
