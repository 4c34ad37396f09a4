/** smp_sunday_search of wpa_cli_oper/compat.c. Strings are their characters before the
    terminating NUL. */
module SundaySearch {
  import opened Collections

  type Char = c: int | 0 < c < 256 witness 1
  type Str = seq<Char>

  /** s[i], where i may be the position of the terminator */
  function At(s: Str, i: nat): int
    requires i <= |s|
  {
    if i < |s| then s[i] else 0
  }

  predicate Matches(s1: Str, s2: Str, i: int) {
    0 <= i && i + |s2| <= |s1| && s1[i..i + |s2|] == s2
  }

  /** The last position of end in s2, or -1 */
  function LastOf(s2: Str, end: int): (k: int)
    ensures -1 <= k < |s2|
    ensures k >= 0 ==> s2[k] == end
    ensures forall i | k < i < |s2| :: s2[i] != end
  {
    if s2 == [] then -1
    else if s2[|s2| - 1] == end then |s2| - 1
    else
      assert s2 == s2[..|s2| - 1] + [s2[|s2| - 1]];
      LastOf(s2[..|s2| - 1], end)
  }

  /** How far the window moves. As written, a last occurrence at position 0 counts as none;
      with asWritten false it is the test k >= 0. */
  function Shift(s2: Str, end: int, asWritten: bool): (d: nat)
    ensures d > 0
  {
    var k := LastOf(s2, end);
    if k > 0 || (k == 0 && !asWritten) then |s2| - k else |s2| + 1
  }

  function SearchFrom(s1: Str, s2: Str, ind: nat, asWritten: bool): int
    decreases |s1| - ind
  {
    if ind + |s2| > |s1| then -1
    else if Matches(s1, s2, ind) then ind
    else SearchFrom(s1, s2, ind + Shift(s2, At(s1, ind + |s2|), asWritten), asWritten)
  }

  function Search(s1: Str, s2: Str): int {
    SearchFrom(s1, s2, 0, true)
  }

  /** The leftmost match at or behind ind, or -1 */
  function Naive(s1: Str, s2: Str, ind: nat): (r: int)
    ensures r == -1 <==> forall i | i >= ind :: !Matches(s1, s2, i)
    ensures r != -1 ==> r >= ind && Matches(s1, s2, r) && forall i | ind <= i < r :: !Matches(s1, s2, i)
    decreases |s1| - ind
  {
    if ind + |s2| > |s1| then -1
    else if Matches(s1, s2, ind) then ind
    else Naive(s1, s2, ind + 1)
  }

  /** The first character of the pattern occurs in it again, or there is none. */
  predicate FirstRecurs(s2: Str) {
    s2 == [] || s2[0] in s2[1..]
  }

  // --- correctness -----------------------------------------------------------

  /** Whatever the pattern: an index that is returned is a match. */
  lemma {:induction false} SearchFromSound(s1: Str, s2: Str, ind: nat, asWritten: bool)
    ensures var r := SearchFrom(s1, s2, ind, asWritten); r == -1 || (r >= ind && Matches(s1, s2, r))
    decreases |s1| - ind
  {
    hide Matches, Shift, At;
    if ind + |s2| <= |s1| && !Matches(s1, s2, ind) {
      SearchFromSound(s1, s2, ind + Shift(s2, At(s1, ind + |s2|), asWritten), asWritten);
    }
  }

  lemma SearchSound(s1: Str, s2: Str)
    ensures Search(s1, s2) == -1 || Matches(s1, s2, Search(s1, s2))
  {
    SearchFromSound(s1, s2, 0, true);
  }

  lemma Differs(s1: Str, s2: Str, i: nat, offset: nat)
    requires offset < |s2| && i + offset <= |s1| && At(s1, i + offset) != s2[offset]
    ensures !Matches(s1, s2, i)
  {
    if i + |s2| <= |s1| { assert s1[i..i + |s2|][offset] == s1[i + offset]; }
  }

  /** The shift passes over no match, unless it treats position 0 as no occurrence. */
  lemma NothingSkipped(s1: Str, s2: Str, ind: nat, asWritten: bool, i: nat)
    requires ind + |s2| <= |s1| && (asWritten ==> FirstRecurs(s2))
    requires ind < i < ind + Shift(s2, At(s1, ind + |s2|), asWritten)
    ensures !Matches(s1, s2, i)
  {
    var end := At(s1, ind + |s2|);
    assert forall j | 0 <= j < |s2| - 1 :: s2[1..][j] == s2[j + 1];
    var offset := ind + |s2| - i;
    assert 0 <= offset < |s2| && s2[offset] != end;
    Differs(s1, s2, i, offset);
  }

  lemma NaiveSkip(s1: Str, s2: Str, ind: nat, next: nat)
    requires ind <= next && forall i | ind <= i < next :: !Matches(s1, s2, i)
    ensures Naive(s1, s2, ind) == Naive(s1, s2, next)
  {
    var a, b := Naive(s1, s2, ind), Naive(s1, s2, next);
    if a == -1 {
      assert forall i | i >= next :: !Matches(s1, s2, i);
    } else {
      assert a >= next;
      assert b != -1;
    }
  }

  lemma {:induction false} SearchFromNaive(s1: Str, s2: Str, ind: nat, asWritten: bool)
    requires asWritten ==> FirstRecurs(s2)
    ensures SearchFrom(s1, s2, ind, asWritten) == Naive(s1, s2, ind)
    decreases |s1| - ind
  {
    hide Matches, LastOf, FirstRecurs;
    if ind + |s2| <= |s1| && !Matches(s1, s2, ind) {
      var next := ind + Shift(s2, At(s1, ind + |s2|), asWritten);
      forall i | ind <= i < next ensures !Matches(s1, s2, i) {
        if i > ind { NothingSkipped(s1, s2, ind, asWritten, i); }
      }
      NaiveSkip(s1, s2, ind, next);
      SearchFromNaive(s1, s2, next, asWritten);
    }
  }

  /** Reading the test as k >= 0, the search finds the leftmost match of every pattern. */
  lemma IntendedIsNaive(s1: Str, s2: Str)
    ensures SearchFrom(s1, s2, 0, false) == Naive(s1, s2, 0)
  {
    SearchFromNaive(s1, s2, 0, false);
  }

  // --- exactly which patterns are found --------------------------------------

  /** A text that the search as written does not find the pattern in: the pattern behind as many
      other characters. */
  function Trap(s2: Str): Str
    requires s2 != []
  {
    var other: Char := if s2[0] == 1 then 2 else 1;
    seq(|s2|, i => other) + s2
  }

  lemma TrapMissed(s2: Str)
    requires !FirstRecurs(s2)
    ensures Search(Trap(s2), s2) == -1 && Naive(Trap(s2), s2, 0) != -1
  {
    var s1 := Trap(s2);
    var m := |s2|;
    assert s1[m..m + m] == s2;
    assert Matches(s1, s2, m);
    Differs(s1, s2, 0, 0);
    assert At(s1, m) == s2[0];
    assert forall i | 0 < i < m :: s2[i] == s2[1..][i - 1];
    assert LastOf(s2, s2[0]) == 0;
    assert Shift(s2, At(s1, m), true) == m + 1;
    assert SearchFrom(s1, s2, m + 1, true) == -1;
  }

  /** The search as written agrees with the leftmost match on all texts exactly for the patterns
      that are empty or whose first character recurs. */
  lemma SearchIsNaiveIff(s2: Str)
    ensures (forall s1: Str :: Search(s1, s2) == Naive(s1, s2, 0)) <==> FirstRecurs(s2)
  {
    if FirstRecurs(s2) {
      forall s1: Str ensures Search(s1, s2) == Naive(s1, s2, 0) { SearchFromNaive(s1, s2, 0, true); }
    } else {
      TrapMissed(s2);
      assert Search(Trap(s2), s2) != Naive(Trap(s2), s2, 0);
    }
  }

  // --- the loops -------------------------------------------------------------

  /** The first inner loop: how many characters agree at ind */
  method Compare(s1: Str, s2: Str, ind: nat) returns (j: nat)
    requires ind + |s2| <= |s1|
    ensures j <= |s2| && (j == |s2| <==> Matches(s1, s2, ind))
  {
    var i := ind;
    j := 0;
    while j < |s2| && s1[i] == s2[j]
      invariant j <= |s2| && i == ind + j && forall o | 0 <= o < j :: s1[ind + o] == s2[o]
    {
      i, j := i + 1, j + 1;
    }
    if j < |s2| {
      Differs(s1, s2, ind, j);
    } else {
      assert s1[ind..ind + |s2|] == s2;
    }
  }

  /** The second inner loop, from the end of the pattern */
  method FindEnd(s2: Str, end: int) returns (k: int)
    ensures k == LastOf(s2, end)
  {
    k := |s2| - 1;
    while k >= 0 && s2[k] != end
      invariant -1 <= k < |s2| && forall i | k < i < |s2| :: s2[i] != end
    {
      k := k - 1;
    }
  }

  method SundaySearch(s1: Str, s2: Str) returns (r: int)
    ensures r == Search(s1, s2)
  {
    hide Matches, LastOf;
    var nlen1, nlen2 := |s1|, |s2|;
    var ind: nat := 0;
    while ind + nlen2 <= nlen1
      invariant SearchFrom(s1, s2, ind, true) == Search(s1, s2)
      decreases nlen1 - ind
    {
      var j := Compare(s1, s2, ind);
      if j == nlen2 { return ind; }
      var k := FindEnd(s2, At(s1, ind + nlen2));
      ind := if k > 0 then ind + nlen2 - k else ind + nlen2 + 1;
    }
    return -1;
  }
}
