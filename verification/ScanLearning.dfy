/** Choice of frequencies in bgscan_learn.c: what is known of an ESS, and one more to probe. */
module ScanLearning {
  import opened Collections

  datatype Channel = Channel(freq: int, disabled: bool)

  // --- lists of frequencies --------------------------------------------------

  /** What a zero-terminated array shows: the values before the first zero. */
  function Visible(s: seq<int>): (r: seq<int>)
    ensures |r| <= |s| && r == s[..|r|] && (|r| < |s| ==> s[|r|] == 0)
    ensures forall i | 0 <= i < |r| :: r[i] != 0
  {
    if s == [] || s[0] == 0 then [] else [s[0]] + Visible(s[1..])
  }

  /** One turn of the loops of bgscan_learn_get_freqs and bgscan_learn_get_supp_freqs */
  function AddFreq(s: seq<int>, freq: int): seq<int> {
    if freq in Visible(s) then s else s + [freq]
  }

  function AddFreqs(s: seq<int>, freqs: seq<int>): seq<int> {
    if freqs == [] then s
    else AddFreq(AddFreqs(s, freqs[..|freqs| - 1]), freqs[|freqs| - 1])
  }

  /** bgscan_learn_get_freqs, for the frequencies of the learned BSSes in order */
  function LearnedFreqs(bss: seq<int>): seq<int> {
    AddFreqs([], bss)
  }

  /** The enabled channels, mode by mode */
  function Enabled(channels: seq<Channel>): (r: seq<int>)
    ensures forall f | f in r :: exists i :: 0 <= i < |channels| && channels[i].freq == f && !channels[i].disabled
  {
    if channels == [] then []
    else
      var m := |channels| - 1;
      Enabled(channels[..m]) + if channels[m].disabled then [] else [channels[m].freq]
  }

  function AllEnabled(modes: seq<seq<Channel>>): seq<int> {
    if modes == [] then [] else AllEnabled(modes[..|modes| - 1]) + Enabled(modes[|modes| - 1])
  }

  /** bgscan_learn_get_supp_freqs */
  function SupportedFreqs(modes: seq<seq<Channel>>): seq<int> {
    AddFreqs([], AllEnabled(modes))
  }

  lemma {:induction false} VisibleAll(s: seq<int>)
    requires 0 !in s
    ensures Visible(s) == s
  {
    if s != [] { VisibleAll(s[1..]); }
  }

  /** r lists the frequencies, each exactly once. */
  ghost predicate Lists(r: seq<int>, freqs: seq<int>) {
    Distinct(r) && 0 !in r && forall f :: f in r <==> f in freqs
  }

  lemma AddFreqLists(r: seq<int>, freqs: seq<int>, freq: int)
    requires Lists(r, freqs) && freq != 0
    ensures Lists(AddFreq(r, freq), freqs + [freq])
  {
    VisibleAll(r);
    hide Visible;
    var a := AddFreq(r, freq);
    assert forall f :: f in a <==> f in r || f == freq;
    assert forall f :: f in freqs + [freq] <==> f in freqs || f == freq;
  }

  /** Without zeros, each frequency is listed exactly once. */
  lemma {:induction false} AddFreqsDistinct(freqs: seq<int>)
    requires 0 !in freqs
    ensures Lists(AddFreqs([], freqs), freqs)
  {
    if freqs != [] {
      var m := |freqs| - 1;
      AddFreqsDistinct(freqs[..m]);
      hide Lists;
      AddFreqLists(AddFreqs([], freqs[..m]), freqs[..m], freqs[m]);
      assert freqs == freqs[..m] + [freqs[m]];
    }
  }

  // --- the probe -------------------------------------------------------------

  /** The supported frequencies in the order in which the search visits them from position p */
  function Rotate<T>(s: seq<T>, p: nat): (r: seq<T>)
    requires p <= |s|
    ensures |r| == |s|
  {
    s[p..] + s[..p]
  }

  /** Those of them that are not learned yet: the candidates, the next one first */
  function Unlearned(s: seq<int>, learned: seq<int>): (r: seq<int>)
    ensures forall f :: f in r <==> f in s && f !in learned
  {
    if s == [] then []
    else if s[0] in learned then Unlearned(s[1..], learned)
    else [s[0]] + Unlearned(s[1..], learned)
  }

  /** How far the search of bgscan_learn_get_probe_freq goes, in the order of visits */
  function FirstUnlearned(s: seq<int>, learned: seq<int>): (k: nat)
    ensures k <= |s| && (k < |s| ==> s[k] !in learned)
    ensures forall i | 0 <= i < k :: s[i] in learned
  {
    if s == [] || s[0] !in learned then 0 else 1 + FirstUnlearned(s[1..], learned)
  }

  /** The position in the array of the k-th visit */
  function VisitAt(p: nat, k: nat, n: nat): (idx: nat)
    requires p < n && k < n
    ensures idx < n
  {
    if p + k < n then p + k else p + k - n
  }

  function NextIdx(idx: nat, n: nat): (r: nat)
    requires idx < n
    ensures r < n
  {
    if idx + 1 == n then 0 else idx + 1
  }

  /** bgscan_learn_get_probe_freq: the frequencies to scan and the next probe_idx */
  function Probe(supported: seq<int>, p: nat, freqs: seq<int>): (r: (seq<int>, nat))
    requires p < |supported|
    ensures r.1 < |supported|
  {
    var visits := Rotate(supported, p);
    var k := FirstUnlearned(visits, Visible(freqs));
    if k == |supported| then (freqs, p)
    else (freqs + [visits[k]], NextIdx(VisitAt(p, k, |supported|), |supported|))
  }

  lemma {:induction false} UnlearnedAppend(a: seq<int>, b: seq<int>, learned: seq<int>)
    ensures Unlearned(a + b, learned) == Unlearned(a, learned) + Unlearned(b, learned)
  {
    if a == [] {
      assert a + b == b;
    } else {
      assert (a + b)[1..] == a[1..] + b;
      UnlearnedAppend(a[1..], b, learned);
    }
  }

  lemma {:induction false} AllLearned(s: seq<int>, learned: seq<int>)
    requires forall i | 0 <= i < |s| :: s[i] in learned
    ensures Unlearned(s, learned) == []
  {
    if s != [] { AllLearned(s[1..], learned); }
  }

  lemma RotateFurther<T>(s: seq<T>, p: nat, k: nat)
    requires p < |s| && k < |s|
    ensures Rotate(s, NextIdx(VisitAt(p, k, |s|), |s|)) == Rotate(s, p)[k + 1..] + Rotate(s, p)[..k + 1]
  {
    var n := |s|;
    var r := Rotate(s, p);
    if p + k + 1 < n {
      var q := p + k + 1;
      assert r[k + 1..] == s[q..] + s[..p] && r[..k + 1] == s[p..q];
      assert s[q..] + s[..p] + s[p..q] == s[q..] + s[..q];
    } else {
      var q := p + k + 1 - n;
      assert NextIdx(VisitAt(p, k, n), n) == q;
      assert r[k + 1..] == s[q..p] && r[..k + 1] == s[p..] + s[..q];
      assert s[q..p] + (s[p..] + s[..q]) == s[q..] + s[..q];
    }
  }

  /** The first candidate, and the line behind it */
  lemma {:induction false} LineSplit(visits: seq<int>, learned: seq<int>)
    requires FirstUnlearned(visits, learned) < |visits|
    ensures var k := FirstUnlearned(visits, learned);
      && Unlearned(visits, learned) == [visits[k]] + Unlearned(visits[k + 1..], learned)
      && Unlearned(visits[..k + 1], learned) == [visits[k]]
  {
    if visits[0] !in learned {
      assert visits[..1] == [visits[0]] && [visits[0]][1..] == [];
    } else {
      var k := FirstUnlearned(visits[1..], learned);
      LineSplit(visits[1..], learned);
      assert visits[1..][k + 1..] == visits[k + 2..] && visits[..k + 2][1..] == visits[1..][..k + 1];
    }
  }

  /** The candidates in the order in which they come up, from position p on */
  function Line(supported: seq<int>, p: nat, freqs: seq<int>): seq<int>
    requires p < |supported|
  {
    Unlearned(Rotate(supported, p), Visible(freqs))
  }

  /** A call probes the next candidate and sends it to the end of the line; without candidates
      it leaves everything as it is. */
  lemma ProbeRotates(supported: seq<int>, p: nat, freqs: seq<int>)
    requires p < |supported|
    ensures var line := Line(supported, p, freqs);
      var r := Probe(supported, p, freqs);
      if line == [] then r == (freqs, p)
      else r.0 == freqs + [line[0]] && Line(supported, r.1, freqs) == line[1..] + [line[0]]
  {
    var learned := Visible(freqs);
    var visits := Rotate(supported, p);
    var k := FirstUnlearned(visits, learned);
    if k == |supported| {
      AllLearned(visits, learned);
    } else {
      RotateFurther(supported, p, k);
      LineSplit(visits, learned);
      UnlearnedAppend(visits[k + 1..], visits[..k + 1], learned);
      hide Unlearned, FirstUnlearned, Rotate, Visible;
      var rest := Unlearned(visits[k + 1..], learned);
      assert ([visits[k]] + rest)[1..] == rest;
    }
  }

  /** Which frequency each of n successive calls probes, the learned BSSes being the same */
  function Probes(supported: seq<int>, p: nat, freqs: seq<int>, n: nat): (r: seq<int>)
    requires p < |supported|
    decreases n
  {
    if n == 0 then []
    else
      var r := Probe(supported, p, freqs);
      if |r.0| == |freqs| then []
      else [r.0[|freqs|]] + Probes(supported, r.1, freqs, n - 1)
  }

  /** r probes the line in order, and then again and again what it probed |line| calls before. */
  ghost predicate InCycles(r: seq<int>, line: seq<int>) {
    && (forall i | 0 <= i < |r| && i < |line| :: r[i] == line[i])
    && (forall i | |line| <= i < |r| :: r[i] == r[i - |line|])
  }

  lemma CycleStep(r: seq<int>, line: seq<int>)
    requires line != [] && InCycles(r, line[1..] + [line[0]])
    ensures InCycles([line[0]] + r, line)
  {
    var all := [line[0]] + r;
    var next := line[1..] + [line[0]];
    forall i | 0 <= i < |all| && i < |line| ensures all[i] == line[i] {
      if i > 0 { assert r[i - 1] == next[i - 1]; }
    }
    forall i | |line| <= i < |all| ensures all[i] == all[i - |line|] {
      if i == |line| {
        assert r[i - 1] == next[i - 1];
      } else {
        assert r[i - 1] == r[i - 1 - |line|];
      }
    }
  }

  lemma ProbesNext(supported: seq<int>, p: nat, freqs: seq<int>, n: nat, x: int, q: nat)
    requires p < |supported| && n > 0 && q < |supported| && Probe(supported, p, freqs) == (freqs + [x], q)
    ensures Probes(supported, p, freqs, n) == [x] + Probes(supported, q, freqs, n - 1)
  {
    hide Probe;
  }

  lemma NoProbes(supported: seq<int>, p: nat, freqs: seq<int>, n: nat)
    requires p < |supported| && Probe(supported, p, freqs).0 == freqs
    ensures Probes(supported, p, freqs, n) == []
  {
    hide Probe;
  }

  /** Successive calls probe the unlearned supported frequencies in turn: all of them once before
      any of them again, and so on in cycles. */
  lemma {:induction false} ProbesInTurn(supported: seq<int>, p: nat, freqs: seq<int>, n: nat)
    requires p < |supported|
    ensures var line := Line(supported, p, freqs);
      var r := Probes(supported, p, freqs, n);
      if line == [] then r == [] else |r| == n && InCycles(r, line)
    decreases n
  {
    ProbeRotates(supported, p, freqs);
    hide Line, Probe, Probes, InCycles;
    var line := Line(supported, p, freqs);
    if line == [] {
      NoProbes(supported, p, freqs, n);
    } else if n == 0 {
      NoneProbed(supported, p, freqs, line);
    } else {
      var q := Probe(supported, p, freqs).1;
      ProbesNext(supported, p, freqs, n, line[0], q);
      ProbesInTurn(supported, q, freqs, n - 1);
      CycleStep(Probes(supported, q, freqs, n - 1), line);
    }
  }

  lemma NoneProbed(supported: seq<int>, p: nat, freqs: seq<int>, line: seq<int>)
    requires p < |supported|
    ensures Probes(supported, p, freqs, 0) == [] && InCycles([], line)
  {
  }

  // --- the arrays and loops --------------------------------------------------

  /** A zero-terminated array of exactly the length it needs; null when it is empty */
  ghost predicate Shows(a: array?<int>, s: seq<int>)
    reads a
  {
    if a == null then s == [] else a.Length == |s| + 1 && a[..|s|] == s && a[|s|] == 0
  }

  lemma {:induction false} VisibleAt(s: seq<int>, k: nat)
    requires k <= |s| && (forall i | 0 <= i < k :: s[i] != 0) && (k < |s| ==> s[k] == 0)
    ensures Visible(s) == s[..k]
  {
    if k > 0 {
      VisibleAt(s[1..], k - 1);
      assert s[..k] == [s[0]] + s[1..][..k - 1];
    }
  }

  /** in_array */
  method InArray(a: array?<int>, val: int, ghost s: seq<int>) returns (r: bool)
    requires Shows(a, s)
    ensures r == (val in Visible(s))
  {
    if a == null { return false; }
    var i := 0;
    while a[i] != 0
      invariant i <= |s| && forall k | 0 <= k < i :: a[k] != 0 && a[k] != val && a[k] == s[k]
      decreases |s| - i
    {
      assert a[..|s|][i] == a[i];
      if a[i] == val {
        r := true;
        InVisible(s, i);
        return;
      }
      i := i + 1;
    }
    assert i < |s| ==> a[..|s|][i] == a[i];
    VisibleAt(s, i);
    return false;
  }

  lemma {:induction false} InVisible(s: seq<int>, i: nat)
    requires i < |s| && forall k | 0 <= k <= i :: s[k] != 0
    ensures s[i] in Visible(s)
  {
    if i > 0 { InVisible(s[1..], i - 1); }
  }

  /** os_realloc_array to one cell more, with a new value and a new terminator */
  method Grow(a: array?<int>, count: nat, val: int, ghost s: seq<int>) returns (n: array<int>)
    requires Shows(a, s) && count == |s|
    ensures fresh(n) && Shows(n, s + [val])
  {
    n := new int[count + 2](_ => 0);
    var i := 0;
    while i < count
      invariant i <= count && n[..i] == s[..i] && fresh(n) && n.Length == count + 2
    {
      assert a[..|s|][i] == s[i];
      ghost var before := n[..i];
      n[i] := a[i];
      assert n[..i] == before && s[..i + 1] == s[..i] + [s[i]];
      i := i + 1;
    }
    ghost var before := n[..count];
    n[count] := val;
    assert n[..count] == before == s;
    n[count + 1] := 0;
    assert n[..count + 1] == s + [val];
  }

  /** The body that both loops share: a frequency is added unless it is there already. */
  method AddOne(freqs0: array?<int>, count0: nat, freq: int, ghost s: seq<int>)
      returns (freqs: array?<int>, count: nat)
    requires Shows(freqs0, s) && count0 == |s|
    ensures Shows(freqs, AddFreq(s, freq)) && count == |AddFreq(s, freq)|
  {
    hide Visible;
    freqs, count := freqs0, count0;
    var known := InArray(freqs, freq, s);
    if !known {
      freqs := Grow(freqs, count, freq, s);
      count := count + 1;
    }
  }

  /** bgscan_learn_get_freqs */
  method GetFreqs(bss: seq<int>) returns (freqs: array?<int>, count: nat)
    ensures Shows(freqs, LearnedFreqs(bss)) && count == |LearnedFreqs(bss)|
  {
    freqs, count := null, 0;
    var i := 0;
    while i < |bss|
      invariant i <= |bss| && Shows(freqs, AddFreqs([], bss[..i])) && count == |AddFreqs([], bss[..i])|
    {
      assert bss[..i + 1][..i] == bss[..i];
      freqs, count := AddOne(freqs, count, bss[i], AddFreqs([], bss[..i]));
      i := i + 1;
    }
    assert bss[..i] == bss;
  }

  lemma {:induction false} AddFreqsAppend(s: seq<int>, a: seq<int>, b: seq<int>)
    ensures AddFreqs(s, a + b) == AddFreqs(AddFreqs(s, a), b)
  {
    if b == [] {
      assert a + b == a;
    } else {
      var m := |b| - 1;
      assert (a + b)[..|a + b| - 1] == a + b[..m];
      AddFreqsAppend(s, a, b[..m]);
    }
  }

  lemma EnabledNext(channels: seq<Channel>, j: nat, s: seq<int>)
    requires j < |channels|
    ensures var e := AddFreqs(s, Enabled(channels[..j]));
      AddFreqs(s, Enabled(channels[..j + 1])) == if channels[j].disabled then e else AddFreq(e, channels[j].freq)
  {
    assert channels[..j + 1][..j] == channels[..j];
    var e := Enabled(channels[..j]);
    if channels[j].disabled {
      assert e + [] == e;
    } else {
      assert (e + [channels[j].freq])[..|e|] == e;
    }
  }

  /** The inner loop of bgscan_learn_get_supp_freqs, for one mode */
  method AddMode(freqs0: array?<int>, count0: nat, channels: seq<Channel>, ghost s: seq<int>)
      returns (freqs: array?<int>, count: nat)
    requires Shows(freqs0, s) && count0 == |s|
    ensures Shows(freqs, AddFreqs(s, Enabled(channels))) && count == |AddFreqs(s, Enabled(channels))|
  {
    freqs, count := freqs0, count0;
    var j := 0;
    assert AddFreqs(s, Enabled(channels[..0])) == s;
    hide AddFreqs, Enabled, AddFreq, Shows;
    ghost var e := s;
    while j < |channels|
      invariant j <= |channels| && e == AddFreqs(s, Enabled(channels[..j]))
      invariant Shows(freqs, e) && count == |e|
    {
      EnabledNext(channels, j, s);
      if !channels[j].disabled {
        freqs, count := AddOne(freqs, count, channels[j].freq, e);
      }
      j := j + 1;
      e := AddFreqs(s, Enabled(channels[..j]));
    }
    assert channels[..j] == channels;
  }

  /** bgscan_learn_get_supp_freqs */
  method GetSuppFreqs(modes: seq<seq<Channel>>) returns (freqs: array?<int>)
    ensures Shows(freqs, SupportedFreqs(modes))
  {
    freqs := null;
    var count := 0;
    var i := 0;
    while i < |modes|
      invariant i <= |modes|
      invariant Shows(freqs, AddFreqs([], AllEnabled(modes[..i]))) && count == |AddFreqs([], AllEnabled(modes[..i]))|
    {
      assert modes[..i + 1][..i] == modes[..i];
      AddFreqsAppend([], AllEnabled(modes[..i]), Enabled(modes[i]));
      freqs, count := AddMode(freqs, count, modes[i], AddFreqs([], AllEnabled(modes[..i])));
      i := i + 1;
    }
    assert modes[..i] == modes;
  }

  ghost predicate HasEnabled(channels: seq<Channel>, f: int) {
    exists j :: 0 <= j < |channels| && !channels[j].disabled && channels[j].freq == f
  }

  ghost predicate SomeEnabled(modes: seq<seq<Channel>>, f: int) {
    exists i :: 0 <= i < |modes| && HasEnabled(modes[i], f)
  }

  lemma {:induction false} EnabledMembers(channels: seq<Channel>, f: int)
    ensures f in Enabled(channels) <==> HasEnabled(channels, f)
  {
    if channels != [] {
      var m := |channels| - 1;
      var t := channels[..m];
      EnabledMembers(t, f);
      if HasEnabled(t, f) {
        var j :| 0 <= j < m && !t[j].disabled && t[j].freq == f;
        assert channels[j].freq == f;
      }
      if HasEnabled(channels, f) {
        var j :| 0 <= j < |channels| && !channels[j].disabled && channels[j].freq == f;
        if j < m { assert t[j] == channels[j]; }
      }
    }
  }

  lemma {:induction false} AllEnabledMembers(modes: seq<seq<Channel>>, f: int)
    ensures f in AllEnabled(modes) <==> SomeEnabled(modes, f)
  {
    hide Enabled, HasEnabled;
    if modes != [] {
      var m := |modes| - 1;
      var t := modes[..m];
      AllEnabledMembers(t, f);
      EnabledMembers(modes[m], f);
      if SomeEnabled(t, f) {
        var i :| 0 <= i < m && HasEnabled(t[i], f);
        assert HasEnabled(modes[i], f);
      }
      if SomeEnabled(modes, f) {
        var i :| 0 <= i < |modes| && HasEnabled(modes[i], f);
        if i < m { assert t[i] == modes[i]; }
      }
    }
  }

  /** The supported frequencies are those of the enabled channels, each once. */
  lemma SupportedDistinct(modes: seq<seq<Channel>>)
    requires !SomeEnabled(modes, 0)
    ensures Distinct(SupportedFreqs(modes)) && 0 !in SupportedFreqs(modes)
    ensures forall f :: f in SupportedFreqs(modes) <==> SomeEnabled(modes, f)
  {
    AllEnabledMembers(modes, 0);
    AddFreqsDistinct(AllEnabled(modes));
    forall f ensures f in SupportedFreqs(modes) <==> SomeEnabled(modes, f) { AllEnabledMembers(modes, f); }
  }

  class LearnData {
    var suppFreqs: array?<int>
    var probeIdx: nat

    /** supp_freqs shows the supported frequencies, none of them zero; probe_idx is one of its
        cells before the terminator. */
    ghost predicate Valid(supported: seq<int>)
      reads this, suppFreqs
    {
      Shows(suppFreqs, supported) && 0 !in supported && (suppFreqs != null ==> probeIdx < |supported|)
    }

    /** One step of the search, as probe_idx and the local idx make it */
    method Advance(idx: nat, ghost supported: seq<int>) returns (r: nat)
      requires Valid(supported) && suppFreqs != null && idx < |supported|
      ensures r == NextIdx(idx, |supported|)
    {
      r := idx + 1;
      assert r < |supported| ==> suppFreqs[..|supported|][r] == supported[r];
      if suppFreqs[r] == 0 { r := 0; }
    }

    /** bgscan_learn_get_probe_freq */
    method GetProbeFreq(freqs: array?<int>, count: nat, ghost s: seq<int>, ghost supported: seq<int>)
        returns (n: array?<int>)
      requires Valid(supported) && Shows(freqs, s) && count == |s|
      modifies `probeIdx
      ensures Valid(supported)
      ensures suppFreqs == null ==> n == freqs && probeIdx == old(probeIdx)
      ensures suppFreqs != null ==>
        Shows(n, Probe(supported, old(probeIdx), s).0) && probeIdx == Probe(supported, old(probeIdx), s).1
    {
      if suppFreqs == null { return freqs; }
      var idx := probeIdx;
      ghost var k := 0;
      ghost var visits := Rotate(supported, probeIdx);
      while true
        invariant probeIdx == old(probeIdx) < |supported| && k < |supported| && idx == VisitAt(probeIdx, k, |supported|)
        invariant forall i | 0 <= i < k :: visits[i] in Visible(s)
        decreases |supported| - k
      {
        assert suppFreqs[..|supported|][idx] == supported[idx] == visits[k];
        var known := InArray(freqs, suppFreqs[idx], s);
        if !known {
          FirstAt(visits, Visible(s), k);
          probeIdx := Advance(idx, supported);
          n := Grow(freqs, count, suppFreqs[idx], s);
          return;
        }
        idx := Advance(idx, supported);
        k := k + 1;
        if idx == probeIdx { break; }
      }
      FirstAt(visits, Visible(s), k);
      return freqs;
    }
  }

  lemma {:induction false} FirstAt(visits: seq<int>, learned: seq<int>, k: nat)
    requires k <= |visits| && (k < |visits| ==> visits[k] !in learned)
    requires forall i | 0 <= i < k :: visits[i] in learned
    ensures FirstUnlearned(visits, learned) == k
  {
  }
}
