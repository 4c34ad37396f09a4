/** The operations of bss.c on the fields of struct wpa_supplicant, loop by loop.
    Pointers to entries are represented by the ids of the entries. */
module BssTable {
  import opened Collections
  import opened BssModel
  import BssRuns
  import VendorIe

  /** os_memmove of the cells behind cell i down onto it */
  method MoveDown(a: array<nat>, i: nat, used: nat)
    requires i < used <= a.Length
    modifies a
    ensures a[..used - 1] == RemoveAt(old(a[..used]), i)
  {
    forall j | i <= j < used - 1 {
      a[j] := a[j + 1];
    }
  }

  lemma DropFirstIs<T>(s: seq<T>, x: T, i: nat)
    requires i < |s| && s[i] == x && forall j | 0 <= j < i :: s[j] != x
    ensures DropFirst(s, x) == RemoveAt(s, i)
  {
    assert IndexOf(s, x) == i;
  }

  class Supplicant {
    var list: seq<Entry>
    var ids: seq<nat>
    var num: int
    var nextId: nat
    var updateIdx: nat
    var lastScanRes: array?<nat>
    var used: nat
    var size: nat
    var current: Option<Current>
    var connect: Option<nat>
    var bssid: Addr
    var pending: Addr
    var conf: Conf

    /** last_scan_res is null or an allocation of size cells, used of them filled. */
    predicate Valid()
      reads this`lastScanRes, this`used, this`size
    {
      if lastScanRes == null then used == size == 0 else used <= size == lastScanRes.Length
    }

    function Last(): seq<nat>
      requires Valid()
      reads this`lastScanRes, this`used, this`size, lastScanRes
    {
      if lastScanRes == null then [] else lastScanRes[..used]
    }

    function View(): Table
      requires Valid()
      reads this, lastScanRes
    {
      Table(list, ids, num, nextId, updateIdx, Last(), current, connect, bssid, pending, conf)
    }

    constructor (conf: Conf)
      ensures Valid() && View() == BssRuns.Init(conf)
    {
      list, ids, num, nextId, updateIdx := [], [], 0, 0, 0;
      lastScanRes, used, size := null, 0, 0;
      current, connect, bssid, pending := None, None, ZERO_ADDR, ZERO_ADDR;
      this.conf := conf;
    }

    // --- removal -------------------------------------------------------------

    /** The part of wpa_bss_remove that works on last_scan_res. */
    method DropScanResult(id: nat)
      requires Valid()
      modifies this`used, lastScanRes
      ensures Valid() && Last() == DropFirst(old(Last()), id)
    {
      if lastScanRes == null {
        return;
      }
      ghost var was := Last();
      for i := 0 to used
        invariant lastScanRes[..used] == was && used == old(used)
        invariant forall j | 0 <= j < i :: was[j] != id
      {
        if lastScanRes[i] == id {
          DropFirstIs(was, id, i);
          MoveDown(lastScanRes, i, used);
          used := used - 1;
          return;
        }
      }
    }

    /** wpa_bss_remove */
    method RemoveBss(k: nat)
      requires Valid() && k < |list|
      modifies this`list, this`ids, this`num, this`used, this`connect, lastScanRes
      ensures Valid() && View() == Remove(old(View()), k) && |list| == |old(list)| - 1
    {
      hide DropFirst, RemoveAt, IndexOf;
      var id := list[k].id;
      DropScanResult(id);
      if connect == Some(id) {
        connect := None;
      }
      list := RemoveAt(list, k);
      ids := DropFirst(ids, id);
      num := num - 1;
    }

    /** wpa_supplicant_filter_bssid_match */
    method FilterMatch(bssid: Addr) returns (b: bool)
      ensures b == Accepts(conf, bssid)
    {
      if conf.filter.None? {
        return true;
      }
      for i := 0 to |conf.filter.value|
        invariant bssid !in conf.filter.value[..i]
      {
        if conf.filter.value[i] == bssid {
          return true;
        }
      }
      return false;
    }

    /** wpa_bss_get: the position of the entry, or |list| for a null pointer */
    method GetBss(bssid: Addr, ssid: seq<Byte>) returns (k: nat)
      requires Valid()
      ensures k == Get(View(), bssid, ssid)
    {
      var ok := FilterMatch(bssid);
      if !ok {
        return |list|;
      }
      k := 0;
      while k < |list|
        invariant k <= |list| && Find(list, bssid, ssid, 0) == Find(list, bssid, ssid, k)
      {
        if list[k].bssid == bssid && list[k].ssid == ssid {
          return;
        }
        k := k + 1;
      }
    }

    /** wpa_bss_known */
    method IsKnown(e: Entry) returns (b: bool)
      ensures b == Known(conf, e)
    {
      for i := 0 to |conf.networks|
        invariant forall j | 0 <= j < i :: conf.networks[j].ssid == [] || conf.networks[j].ssid != e.ssid
      {
        if conf.networks[i].ssid == [] {
          continue;
        }
        if conf.networks[i].ssid == e.ssid {
          return true;
        }
      }
      return false;
    }

    /** wpa_bss_is_wps_candidate */
    method IsWpsCandidate(e: Entry) returns (b: bool)
      ensures b == WpsCandidate(conf, e)
    {
      assert e.ies[0..|e.ies|] == e.ies;
      var ie := VendorIe.GetVendorIeMulti(e.ies, 0, |e.ies|, VendorIe.WPS_TYPE);
      if ie == null {
        return false;
      }
      var pbc := false;
      if ie.data in conf.pbc {
        pbc := true;
      } else if ie.data !in conf.authorized {
        return false;
      }
      for i := 0 to |conf.networks|
        invariant WpsAnswer(conf.networks, e.ssid, pbc) == WpsAnswer(conf.networks[i..], e.ssid, pbc)
      {
        var n := conf.networks[i];
        if !n.wps || (n.ssid != [] && n.ssid != e.ssid) {
          continue;
        }
        return if pbc then n.pbcEnrollee else n.pinEnrollee;
      }
      return false;
    }

    /** wpa_bss_in_use */
    method IsInUse(e: Entry) returns (b: bool)
      requires Valid()
      ensures b == InUse(View(), e)
    {
      if current.Some? && e.id == current.value.id {
        return true;
      }
      if current.Some? && e.ssid != current.value.ssid {
        return false;
      }
      return e.bssid != ZERO_ADDR && (e.bssid == bssid || e.bssid == pending);
    }

    /** The end of a connection to an access point that went away: current_bss is cleared by
        wpa_supplicant_mark_disassoc, and then its entry is removed. */
    method LoseConnection()
      requires Valid()
      modifies this`current, this`list, this`ids, this`num, this`used, this`connect, lastScanRes
      ensures Valid()
      ensures var t := old(View());
              View() == if t.current.Some? then Drop(t.(current := None), t.current.value.id) else t
    {
      hide DropFirst, RemoveAt, IndexOf, Remove;
      var curr := current;
      current := None;
      if curr.Some? {
        var k := IndexOf(Ids(list), curr.value.id);
        if k < |list| { RemoveBss(k); }
      }
    }

    /** wpa_bss_update_level for current_bss */
    method UpdateLevel(level: int)
      requires Valid()
      modifies this`list
      ensures Valid() && View() == SetLevel(old(View()), level)
    {
      if current.Some? && level < 0 {
        var k := IndexOf(Ids(list), current.value.id);
        if k < |list| {
          list := list[k := list[k].(radio := list[k].radio.(level := level))];
        }
      }
    }

    // --- eviction ------------------------------------------------------------

    /** wpa_bss_remove_oldest_unknown */
    method RemoveOldestUnknown() returns (ok: bool)
      requires Valid()
      modifies this`list, this`ids, this`num, this`used, this`connect, lastScanRes
      ensures Valid()
      ensures var t := old(View());
              var k := FirstUnknown(t, 0);
              ok == (k < |t.list|) && View() == if ok then Remove(t, k) else t
    {
      ghost var t := View();
      for i := 0 to |list|
        invariant Valid() && View() == t
        invariant FirstUnknown(t, 0) == FirstUnknown(t, i)
      {
        var known := IsKnown(list[i]);
        var candidate := IsWpsCandidate(list[i]);
        if !known && !candidate {
          RemoveBss(i);
          return true;
        }
      }
      return false;
    }

    /** wpa_bss_remove_oldest */
    method RemoveOldest() returns (ok: bool)
      requires Valid()
      modifies this`list, this`ids, this`num, this`used, this`connect, lastScanRes
      ensures Valid()
      ensures var t := old(View());
              ok == (Victim(t) < |t.list|) && View() == if ok then Remove(t, Victim(t)) else t
    {
      ok := RemoveOldestUnknown();
      if ok {
        return;
      }
      ghost var t := View();
      for i := 0 to |list|
        invariant Valid() && View() == t
        invariant FirstNotInUse(t, 0) == FirstNotInUse(t, i)
      {
        var inUse := IsInUse(list[i]);
        if !inUse {
          RemoveBss(i);
          return true;
        }
      }
      return false;
    }

    // --- scan results --------------------------------------------------------

    /** wpa_bss_add */
    method AddBss(ssid: seq<Byte>, res: ScanRes, fetch: Time)
      requires Valid()
      modifies this`list, this`ids, this`num, this`nextId, this`used, this`connect, this`conf, lastScanRes
      ensures Valid() && View() == Add(old(View()), ssid, res, fetch)
    {
      hide Victim, Remove, FirstUnknown, FirstNotInUse;
      var e := Entry(nextId, 0, updateIdx, res.bssid, ssid, res.freq, res.radio,
                     UpdateTime(fetch, res.age), res.ies, res.beaconIes);
      if num + 1 > conf.maxCount {
        var ok := RemoveOldest();
        if !ok {
          conf := conf.(maxCount := num + 1);
        }
      }
      nextId := e.id + 1;
      list := list + [e];
      ids := ids + [e.id];
      num := num + 1;
    }

    /** wpa_bss_get_vendor_ie, or its twin for scan results, finds a P2P element. */
    method ContainsP2p(ies: seq<Byte>) returns (b: bool)
      ensures b == HasP2p(ies)
    {
      assert ies[0..|ies|] == ies;
      var r := VendorIe.GetVendorIe(ies, 0, |ies|, VendorIe.P2P_TYPE);
      return r.Some?;
    }

    /** wpa_bss_update of the k-th entry */
    method UpdateBss(k: nat, res: ScanRes, fetch: Time)
      requires Valid() && k < |list|
      modifies this`list
      ensures Valid() && View() == Update(old(View()), k, res, fetch)
    {
      var e := list[k].(misses := 0, lastIdx := updateIdx, bssid := res.bssid, freq := res.freq, radio := res.radio,
                        lastUpdate := UpdateTime(fetch, res.age));
      list := RemoveAt(list, k);
      var hadP2p := ContainsP2p(e.ies);
      var hasP2p := ContainsP2p(res.ies);
      if !(hadP2p && !hasP2p) {
        e := e.(ies := res.ies, beaconIes := res.beaconIes);
      }
      list := list + [e];
    }

    /** wpa_bss_update_start */
    method UpdateStart()
      requires Valid()
      modifies this`updateIdx, this`used
      ensures Valid() && View() == Start(old(View()))
    {
      updateIdx := updateIdx + 1;
      used := 0;
    }

    /** Room for one more cell: 32 cells to begin with, then twice as many. */
    method GrowScanResults()
      requires Valid()
      modifies this`lastScanRes, this`size
      ensures Valid() && lastScanRes != null && used < size && Last() == old(Last())
      ensures lastScanRes == old(lastScanRes) || fresh(lastScanRes)
    {
      if used >= size {
        var siz := if size == 0 then 32 else size * 2;
        var was := lastScanRes;
        var n := new nat[siz];
        if was != null {
          forall i | 0 <= i < used {
            n[i] := was[i];
          }
        }
        lastScanRes, size := n, siz;
      }
    }

    method Note(id: nat)
      requires Valid()
      modifies this`lastScanRes, this`size, this`used, lastScanRes
      ensures Valid() && Last() == old(Last()) + [id]
      ensures lastScanRes == old(lastScanRes) || fresh(lastScanRes)
    {
      GrowScanResults();
      lastScanRes[used] := id;
      used := used + 1;
    }

    /** The SSID a result is filed under, if wpa_bss_update_scan_res goes on with it. */
    method SsidOf(res: ScanRes, fetch: Time) returns (r: Option<seq<Byte>>)
      ensures r == ResultSsid(conf, res, fetch)
    {
      if conf.ignoreOld {
        if Before(UpdateTime(fetch, res.age), conf.scanTrigger) {
          return None;
        }
      }
      var n := |res.ies|;
      assert res.ies[0..n] == res.ies;
      var ssid := VendorIe.GetIe(res.ies, 0, n, EID_SSID);
      if ssid.None? {
        return None;
      }
      var name := VendorIe.ElementAt(res.ies, ssid.value, n).body;
      if |name| > SSID_MAX_LEN {
        return None;
      }
      var p2p := ContainsP2p(res.ies);
      if !p2p && conf.p2pGroup {
        return None;
      }
      if p2p && name == P2P_WILDCARD_SSID {
        return None;
      }
      var mesh := VendorIe.GetIe(res.ies, 0, n, EID_MESH_ID);
      if mesh.Some? {
        var meshId := VendorIe.ElementAt(res.ies, mesh.value, n).body;
        if |meshId| <= SSID_MAX_LEN {
          return Some(meshId);
        }
      }
      return Some(name);
    }

    /** Whether the id is in the scan results already. */
    method Noted(id: nat) returns (b: bool)
      requires Valid()
      ensures b == (id in Last())
    {
      if lastScanRes == null {
        return false;
      }
      for i := 0 to used
        invariant id !in lastScanRes[..i]
      {
        if lastScanRes[i] == id {
          return true;
        }
      }
      return false;
    }

    /** wpa_bss_update_scan_res */
    method UpdateScanRes(res: ScanRes, fetch: Time)
      requires Valid()
      modifies this, lastScanRes
      ensures Valid() && View() == ScanResult(old(View()), res, fetch)
    {
      var ssid := SsidOf(res, fetch);
      if ssid.None? {
        return;
      }
      var k := GetBss(res.bssid, ssid.value);
      if k == |list| {
        var id := nextId;
        AddBss(ssid.value, res, fetch);
        Note(id);
      } else {
        var id := list[k].id;
        UpdateBss(k, res, fetch);
        var noted := Noted(id);
        if noted {
          return;
        }
        Note(id);
      }
    }

    // --- expiry and flushing -------------------------------------------------

    /** wpa_bss_included_in_scan */
    method IncludedInScan(e: Entry, info: Option<ScanInfo>) returns (b: bool)
      ensures b == Covered(info, e)
    {
      if info.None? {
        return true;
      }
      var found := info.value.freqs == [];
      for i := 0 to |info.value.freqs|
        invariant found <==> info.value.freqs == [] || e.freq in info.value.freqs[..i]
      {
        if e.freq == info.value.freqs[i] {
          found := true;
        }
      }
      if !found {
        return false;
      }
      found := info.value.ssids == [];
      for i := 0 to |info.value.ssids|
        invariant found <==> info.value.ssids == [] || [] in info.value.ssids[..i] || e.ssid in info.value.ssids[..i]
      {
        if info.value.ssids[i] == [] || info.value.ssids[i] == e.ssid {
          found := true;
        }
      }
      return found;
    }

    /** One turn of the loop of wpa_bss_update_end. */
    method ExpireEntry(info: Option<ScanInfo>, k: nat) returns (gone: bool)
      requires Valid() && k < |list|
      modifies this`list, this`ids, this`num, this`used, this`connect, lastScanRes
      ensures Valid() && View() == BssRuns.EndTurn(old(View()), info, k)
      ensures gone == Expired(old(View()), info, old(list)[k])
      ensures |list| == |old(list)| - if gone then 1 else 0
    {
      hide DropFirst, RemoveAt, IndexOf, Remove;
      var e := list[k];
      var inUse := IsInUse(e);
      var included := IncludedInScan(e, info);
      if inUse || !included {
        assert list[k := e] == list;
        return false;
      }
      if e.lastIdx < updateIdx {
        e := e.(misses := e.misses + 1);
      }
      list := list[k := e];
      if e.misses >= conf.expiration {
        RemoveBss(k);
        return true;
      }
      return false;
    }

    /** wpa_bss_update_end */
    method UpdateEnd(info: Option<ScanInfo>, newScan: bool)
      requires Valid()
      modifies this`list, this`ids, this`num, this`used, this`connect, lastScanRes
      ensures Valid() && View() == End(old(View()), info, newScan)
    {
      if (info.Some? && info.value.aborted) || !newScan {
        return;
      }
      var k := 0;
      while k < |list|
        invariant Valid() && k <= |list|
        invariant EndFrom(old(View()), info, 0) == EndFrom(View(), info, k)
        decreases |list| - k
      {
        BssRuns.EndFromTurn(View(), info, k);
        var gone := ExpireEntry(info, k);
        if !gone {
          k := k + 1;
        }
      }
    }

    /** wpa_bss_flush */
    method FlushBss()
      requires Valid()
      modifies this`list, this`ids, this`num, this`used, this`connect, lastScanRes
      ensures Valid() && View() == Flush(old(View()))
    {
      hide DropFirst, RemoveAt, IndexOf, Remove;
      var k := 0;
      while k < |list|
        invariant Valid() && k <= |list|
        invariant FlushFrom(old(View()), 0) == FlushFrom(View(), k)
        decreases |list| - k
      {
        var inUse := IsInUse(list[k]);
        if inUse {
          k := k + 1;
        } else {
          RemoveBss(k);
        }
      }
    }

    /** wpa_bss_flush_by_age */
    method FlushBssByAge(now: Time, age: int)
      requires Valid()
      modifies this`list, this`ids, this`num, this`used, this`connect, lastScanRes
      ensures Valid() && View() == FlushByAge(old(View()), now, age)
    {
      hide DropFirst, RemoveAt, IndexOf, Remove;
      var limit := Time(now.sec - age, now.usec);
      var k := 0;
      while k < |list|
        invariant Valid() && k <= |list|
        invariant AgeFrom(old(View()), limit, 0) == AgeFrom(View(), limit, k)
        decreases |list| - k
      {
        var inUse := IsInUse(list[k]);
        if inUse {
          k := k + 1;
        } else if Before(list[k].lastUpdate, limit) {
          RemoveBss(k);
        } else {
          return;
        }
      }
    }
  }
}
