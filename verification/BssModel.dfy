/** What the operations of bss.c do to the BSS table, on values. An entry is
    known by its id: ids are handed out once and never change. */
module BssModel {
  import opened Collections
  import VendorIe

  type Addr = s: seq<Byte> | |s| == 6 witness [0, 0, 0, 0, 0, 0]

  const ZERO_ADDR: Addr := [0, 0, 0, 0, 0, 0]
  const SSID_MAX_LEN := 32
  const EID_SSID: Byte := 0
  const EID_MESH_ID: Byte := 114
  const P2P_WILDCARD_SSID: seq<Byte> := [68, 73, 82, 69, 67, 84, 45]  // DIRECT-

  datatype Time = Time(sec: int, usec: int)

  predicate Before(a: Time, b: Time) {
    a.sec < b.sec || (a.sec == b.sec && a.usec < b.usec)
  }

  /** calculate_update_time: when a result that is ageMs old was current. */
  function UpdateTime(fetch: Time, ageMs: nat): Time {
    var sec := fetch.sec - ageMs / 1000;
    var usec := (ageMs % 1000) * 1000;
    if fetch.usec < usec then Time(sec - 1, fetch.usec + 1000000 - usec)
    else Time(sec, fetch.usec - usec)
  }

  /** The fields wpa_bss_copy_res copies without looking at them. */
  datatype Radio = Radio(flags: int, beaconInt: int, caps: int, qual: int, noise: int,
                         level: int, tsf: int, throughput: int, snr: int)

  datatype ScanRes = ScanRes(bssid: Addr, freq: int, radio: Radio, age: nat,
                             ies: seq<Byte>, beaconIes: seq<Byte>)

  datatype Entry = Entry(id: nat, misses: nat, lastIdx: nat, bssid: Addr, ssid: seq<Byte>,
                         freq: int, radio: Radio, lastUpdate: Time,
                         ies: seq<Byte>, beaconIes: seq<Byte>)

  /** A configured network; the SSID is empty when it is not set. */
  datatype Network = Network(ssid: seq<Byte>, wps: bool, pbcEnrollee: bool, pinEnrollee: bool)

  /** The parts of the configuration that the table reads. pbc and authorized are the
      WPS payloads that name a push-button registrar, or this station's address. */
  datatype Conf = Conf(maxCount: int, expiration: nat, networks: seq<Network>,
                       filter: Option<seq<Addr>>, ignoreOld: bool, scanTrigger: Time, p2pGroup: bool,
                       pbc: set<seq<Byte>>, authorized: set<seq<Byte>>)

  /** current_bss, and the SSID found through it. */
  datatype Current = Current(id: nat, ssid: seq<Byte>)

  datatype Table = Table(
    list: seq<Entry>,             // wpa_s->bss, least recently updated first
    ids: seq<nat>,                // wpa_s->bss_id
    num: int,                     // num_bss
    nextId: nat,                  // bss_next_id
    updateIdx: nat,               // bss_update_idx
    last: seq<nat>,               // last_scan_res[0..last_scan_res_used)
    current: Option<Current>,     // current_bss
    connect: Option<nat>,         // the entry of a pending connect work
    bssid: Addr,
    pending: Addr,                // pending_bssid
    conf: Conf)

  function Ids(list: seq<Entry>): (r: seq<nat>)
    ensures |r| == |list|
    ensures forall i | 0 <= i < |list| :: r[i] == list[i].id
  {
    seq(|list|, i requires 0 <= i < |list| => list[i].id)
  }

  // --- tests on one entry ----------------------------------------------------

  predicate Accepts(conf: Conf, bssid: Addr) {
    conf.filter.None? || bssid in conf.filter.value
  }

  predicate Known(conf: Conf, e: Entry) {
    exists i :: 0 <= i < |conf.networks| && conf.networks[i].ssid != [] && conf.networks[i].ssid == e.ssid
  }

  /** The answer of the first network that uses WPS and does not ask for another SSID. */
  function WpsAnswer(networks: seq<Network>, ssid: seq<Byte>, pbc: bool): bool {
    if networks == [] then false
    else
      var n := networks[0];
      if n.wps && (n.ssid == [] || n.ssid == ssid) then (if pbc then n.pbcEnrollee else n.pinEnrollee)
      else WpsAnswer(networks[1..], ssid, pbc)
  }

  /** wpa_bss_is_wps_candidate */
  predicate WpsCandidate(conf: Conf, e: Entry) {
    var payload := VendorIe.VendorPayload(VendorIe.Decode(e.ies), VendorIe.WPS_TYPE);
    payload != [] && (payload in conf.pbc || payload in conf.authorized)
    && WpsAnswer(conf.networks, e.ssid, payload in conf.pbc)
  }

  /** Neither a configured network nor a WPS candidate. */
  predicate Unknown(conf: Conf, e: Entry) {
    !Known(conf, e) && !WpsCandidate(conf, e)
  }

  predicate InUse(t: Table, e: Entry) {
    if t.current.Some? && e.id == t.current.value.id then true
    else if t.current.Some? && e.ssid != t.current.value.ssid then false
    else e.bssid != ZERO_ADDR && (e.bssid == t.bssid || e.bssid == t.pending)
  }

  // --- removal ---------------------------------------------------------------

  function ClearConnect(t: Table, id: nat): Option<nat> {
    if t.connect == Some(id) then None else t.connect
  }

  /** wpa_bss_remove of the k-th entry of the update list. */
  function Remove(t: Table, k: nat): Table
    requires k < |t.list|
  {
    var id := t.list[k].id;
    t.(list := RemoveAt(t.list, k), ids := DropFirst(t.ids, id), last := DropFirst(t.last, id),
       num := t.num - 1, connect := ClearConnect(t, id))
  }

  /** First position from k on that wpa_bss_remove_oldest_unknown would take. */
  function FirstUnknown(t: Table, k: nat): (r: nat)
    requires k <= |t.list|
    ensures k <= r <= |t.list|
    ensures forall i | k <= i < r :: !Unknown(t.conf, t.list[i])
    ensures r < |t.list| ==> Unknown(t.conf, t.list[r])
    decreases |t.list| - k
  {
    if k == |t.list| then k
    else if Unknown(t.conf, t.list[k]) then k
    else FirstUnknown(t, k + 1)
  }

  function FirstNotInUse(t: Table, k: nat): (r: nat)
    requires k <= |t.list|
    ensures k <= r <= |t.list|
    ensures forall i | k <= i < r :: InUse(t, t.list[i])
    ensures r < |t.list| ==> !InUse(t, t.list[r])
    decreases |t.list| - k
  {
    if k == |t.list| then k
    else if !InUse(t, t.list[k]) then k
    else FirstNotInUse(t, k + 1)
  }

  /** The position wpa_bss_remove_oldest evicts, or |list| when it fails. */
  function Victim(t: Table): (r: nat)
    ensures r <= |t.list|
  {
    var k := FirstUnknown(t, 0);
    if k < |t.list| then k else FirstNotInUse(t, 0)
  }

  // --- adding and updating ---------------------------------------------------

  function NewEntry(t: Table, ssid: seq<Byte>, res: ScanRes, fetch: Time): Entry {
    Entry(t.nextId, 0, t.updateIdx, res.bssid, ssid, res.freq, res.radio,
          UpdateTime(fetch, res.age), res.ies, res.beaconIes)
  }

  /** Room for one more entry: an eviction, or a higher limit when none is possible. */
  function MakeRoom(t: Table): Table {
    if t.num + 1 <= t.conf.maxCount then t
    else if Victim(t) < |t.list| then Remove(t, Victim(t))
    else t.(conf := t.conf.(maxCount := t.num + 1))
  }

  function Add(t: Table, ssid: seq<Byte>, res: ScanRes, fetch: Time): Table {
    var e := NewEntry(t, ssid, res, fetch);
    var u := MakeRoom(t);
    u.(nextId := t.nextId + 1, list := u.list + [e], ids := u.ids + [e.id], num := u.num + 1)
  }

  predicate HasP2p(ies: seq<Byte>) {
    VendorIe.FirstVendor(VendorIe.Decode(ies), VendorIe.P2P_TYPE).Some?
  }

  /** The refreshed record. The element octets stay when a P2P element would be lost. */
  function Refresh(e: Entry, idx: nat, res: ScanRes, fetch: Time): Entry {
    var r := e.(misses := 0, lastIdx := idx, bssid := res.bssid, freq := res.freq, radio := res.radio,
                lastUpdate := UpdateTime(fetch, res.age));
    if HasP2p(e.ies) && !HasP2p(res.ies) then r
    else r.(ies := res.ies, beaconIes := res.beaconIes)
  }

  function Update(t: Table, k: nat, res: ScanRes, fetch: Time): Table
    requires k < |t.list|
  {
    t.(list := RemoveAt(t.list, k) + [Refresh(t.list[k], t.updateIdx, res, fetch)])
  }

  /** wpa_bss_get without its filter test: the position of (bssid, ssid) or |list|. */
  function Find(list: seq<Entry>, bssid: Addr, ssid: seq<Byte>, k: nat): (r: nat)
    requires k <= |list|
    ensures k <= r <= |list|
    ensures forall i | k <= i < r :: list[i].bssid != bssid || list[i].ssid != ssid
    ensures r < |list| ==> list[r].bssid == bssid && list[r].ssid == ssid
    decreases |list| - k
  {
    if k == |list| then k
    else if list[k].bssid == bssid && list[k].ssid == ssid then k
    else Find(list, bssid, ssid, k + 1)
  }

  function Get(t: Table, bssid: Addr, ssid: seq<Byte>): (r: nat)
    ensures r <= |t.list|
  {
    if Accepts(t.conf, bssid) then Find(t.list, bssid, ssid, 0) else |t.list|
  }

  // --- one round of scan results ---------------------------------------------

  function Start(t: Table): Table {
    t.(updateIdx := t.updateIdx + 1, last := [])
  }

  /** The SSID a result is filed under, or None when the result is skipped. */
  function ResultSsid(conf: Conf, res: ScanRes, fetch: Time): Option<seq<Byte>> {
    var es := VendorIe.Decode(res.ies);
    var ssid := VendorIe.FirstId(es, EID_SSID);
    var mesh := VendorIe.FirstId(es, EID_MESH_ID);
    var p2p := HasP2p(res.ies);
    if conf.ignoreOld && Before(UpdateTime(fetch, res.age), conf.scanTrigger) then None
    else if ssid.None? then None
    else if |ssid.value.body| > SSID_MAX_LEN then None
    else if !p2p && conf.p2pGroup then None
    else if p2p && ssid.value.body == P2P_WILDCARD_SSID then None
    else if mesh.Some? && |mesh.value.body| <= SSID_MAX_LEN then Some(mesh.value.body)
    else Some(ssid.value.body)
  }

  /** File a result under ssid: refresh the entry if there is one, else add it. */
  function Sight(t: Table, ssid: seq<Byte>, res: ScanRes, fetch: Time): Table {
    var k := Get(t, res.bssid, ssid);
    if k == |t.list| then
      var u := Add(t, ssid, res, fetch);
      u.(last := u.last + [t.nextId])
    else
      var id := t.list[k].id;
      var u := Update(t, k, res, fetch);
      if id in u.last then u else u.(last := u.last + [id])
  }

  /** The id of the entry that Sight touches. */
  function SightedId(t: Table, ssid: seq<Byte>, res: ScanRes): nat {
    var k := Get(t, res.bssid, ssid);
    if k == |t.list| then t.nextId else t.list[k].id
  }

  function ScanResult(t: Table, res: ScanRes, fetch: Time): Table {
    match ResultSsid(t.conf, res, fetch)
    case None => t
    case Some(ssid) => Sight(t, ssid, res, fetch)
  }

  /** struct scan_info: which channels and SSIDs a scan covered. */
  datatype ScanInfo = ScanInfo(aborted: bool, freqs: seq<int>, ssids: seq<seq<Byte>>)

  predicate Covered(info: Option<ScanInfo>, e: Entry) {
    info.None? ||
    ((info.value.freqs == [] || e.freq in info.value.freqs) &&
     (info.value.ssids == [] || [] in info.value.ssids || e.ssid in info.value.ssids))
  }

  predicate Complete(info: Option<ScanInfo>, newScan: bool) {
    newScan && (info.None? || !info.value.aborted)
  }

  predicate Exempt(t: Table, info: Option<ScanInfo>, e: Entry) {
    InUse(t, e) || !Covered(info, e)
  }

  /** scan_miss_count after the end of a complete round. */
  function Missed(t: Table, info: Option<ScanInfo>, e: Entry): Entry {
    if !Exempt(t, info, e) && e.lastIdx < t.updateIdx then e.(misses := e.misses + 1) else e
  }

  predicate Expired(t: Table, info: Option<ScanInfo>, e: Entry) {
    !Exempt(t, info, e) && Missed(t, info, e).misses >= t.conf.expiration
  }

  /** The rest of the expiry loop, from position k on. */
  function EndFrom(t: Table, info: Option<ScanInfo>, k: nat): Table
    requires k <= |t.list|
    decreases |t.list| - k
  {
    if k == |t.list| then t
    else
      var u := t.(list := t.list[k := Missed(t, info, t.list[k])]);
      if Expired(t, info, t.list[k]) then EndFrom(Remove(u, k), info, k)
      else EndFrom(u, info, k + 1)
  }

  function End(t: Table, info: Option<ScanInfo>, newScan: bool): Table {
    if Complete(info, newScan) then EndFrom(t, info, 0) else t
  }

  // --- flushing --------------------------------------------------------------

  function FlushFrom(t: Table, k: nat): Table
    requires k <= |t.list|
    decreases |t.list| - k
  {
    if k == |t.list| then t
    else if InUse(t, t.list[k]) then FlushFrom(t, k + 1)
    else FlushFrom(Remove(t, k), k)
  }

  function Flush(t: Table): Table {
    FlushFrom(t, 0)
  }

  /** wpa_bss_flush_by_age stops at the first entry, not in use, that is young enough. */
  function AgeFrom(t: Table, limit: Time, k: nat): Table
    requires k <= |t.list|
    decreases |t.list| - k
  {
    if k == |t.list| then t
    else if InUse(t, t.list[k]) then AgeFrom(t, limit, k + 1)
    else if Before(t.list[k].lastUpdate, limit) then AgeFrom(Remove(t, k), limit, k)
    else t
  }

  function FlushByAge(t: Table, now: Time, age: int): Table {
    AgeFrom(t, Time(now.sec - age, now.usec), 0)
  }

  // --- removal on its own, and the signal level ------------------------------

  /** wpa_bss_remove of the entry with that id, as after a lost connection */
  function Drop(t: Table, id: nat): Table {
    var k := IndexOf(Ids(t.list), id);
    if k < |t.list| then Remove(t, k) else t
  }

  /** wpa_bss_update_level of the entry of current_bss */
  function SetLevel(t: Table, level: int): Table {
    if level >= 0 || t.current.None? then t
    else
      var k := IndexOf(Ids(t.list), t.current.value.id);
      if k < |t.list|
      then t.(list := t.list[k := Levelled(t.list[k], level)])
      else t
  }

  function Levelled(e: Entry, level: int): Entry {
    e.(radio := e.radio.(level := level))
  }
}
