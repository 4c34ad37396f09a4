/** The conditions under which the BSS table keeps, counts and drops an entry, spelled out. */
module BssConditions {
  import opened Collections
  import opened BssModel
  import opened BssInvariants
  import opened BssRuns
  import BssProperties

  // --- entries in use, and scanned -------------------------------------------

  /** An entry serves the connection when it is the current one, or has its name, or there is no
      current one, and bears the BSSID of the association or of the one that is tried. */
  predicate Serves(t: Table, e: Entry) {
    var tried := e.bssid in [t.bssid, t.pending] && e.bssid != [0, 0, 0, 0, 0, 0];
    match t.current
    case None => tried
    case Some(c) => e.id == c.id || (e.ssid == c.ssid && tried)
  }

  lemma InUseServes(t: Table, e: Entry)
    ensures InUse(t, e) <==> Serves(t, e)
  {
  }

  /** The scan looked at the channel of the entry, and asked for its name or for any. */
  ghost predicate Scanned(info: ScanInfo, e: Entry) {
    && (|info.freqs| > 0 ==> exists i :: 0 <= i < |info.freqs| && info.freqs[i] == e.freq)
    && (|info.ssids| > 0 ==> exists i :: 0 <= i < |info.ssids| && (info.ssids[i] == e.ssid || |info.ssids[i]| == 0))
  }

  lemma CoveredScanned(info: Option<ScanInfo>, e: Entry)
    ensures Covered(info, e) <==> info.None? || Scanned(info.value, e)
  {
  }

  /** The end of a new scan that was not aborted leaves an entry alone that it did not look for or
      that serves the connection. Of another it counts a miss if this round has not sighted it, and
      removes it when the misses reach bss_expiration_scan_count. The end of anything else changes
      nothing. */
  lemma RoundCountsIff(t: Table, info: Option<ScanInfo>, newScan: bool, e: Entry)
    requires Inv(t) && e in t.list
    ensures var u := Step(t, EndRound(info, newScan));
      if !newScan || (info.Some? && info.value.aborted) then u == t
      else if Serves(t, e) || (info.Some? && !Scanned(info.value, e)) then e in u.list
      else
        var m := if e.lastIdx < t.updateIdx then e.misses + 1 else e.misses;
        if m < t.conf.expiration then e.(misses := m) in u.list else e.id !in u.ids
  {
    if Complete(info, newScan) {
      InUseServes(t, e);
      CoveredScanned(info, e);
      BssProperties.EndOfOne(t, info, e);
      hide Inv, InUse, Covered, Scanned;
    }
  }

  /** A flush leaves an entry if and only if it serves the connection. */
  lemma FlushLeavesServing(t: Table, e: Entry)
    ensures e in Step(t, FlushAll).list <==> e in t.list && Serves(t, e)
  {
    FlushIffUnused(t, e);
    InUseServes(t, e);
    hide Flush, InUse;
  }

  /** A flush by age looks at the entries in update order: it passes over those that serve the
      connection and ends at the first other one that is no older than age seconds. An older one in
      front of that goes; all others stay. */
  ghost predicate Spared(t: Table, now: Time, age: int, k: nat)
    requires k < |t.list|
  {
    || Serves(t, t.list[k])
    || exists i :: 0 <= i <= k && !Serves(t, t.list[i]) && !Before(t.list[i].lastUpdate, Time(now.sec - age, now.usec))
  }

  lemma {:induction false} YoungerIff(c: Table, limit: Time, list: seq<Entry>, k: nat)
    requires k < |list| && forall i, j | 0 <= i < j < |list| :: list[i] != list[j]
    ensures list[k] in Younger(c, limit, list) <==>
      InUse(c, list[k]) || exists i :: 0 <= i <= k && !InUse(c, list[i]) && !Before(list[i].lastUpdate, limit)
  {
    hide InUse, Before;
    var rest := list[1..];
    YoungerSome(c, limit, rest);
    if !InUse(c, list[0]) && !Before(list[0].lastUpdate, limit) {
      assert Younger(c, limit, list) == list;
    } else if k > 0 {
      assert rest[k - 1] == list[k];
      assert forall i | 0 <= i < |rest| :: rest[i] == list[i + 1];
      YoungerIff(c, limit, rest, k - 1);
    } else {
      assert list[0] !in rest;
    }
  }

  lemma {:induction false} YoungerSome(c: Table, limit: Time, list: seq<Entry>)
    ensures forall e | e in Younger(c, limit, list) :: e in list
  {
    if list != [] { YoungerSome(c, limit, list[1..]); }
  }

  lemma FlushOldLeavesSpared(t: Table, now: Time, age: int, k: nat)
    requires Inv(t) && k < |t.list|
    ensures t.list[k] in Step(t, FlushOld(now, age)).list <==> Spared(t, now, age, k)
  {
    LinkedIds(t);
    forall i, j | 0 <= i < j < |t.list| ensures t.list[i] != t.list[j] {
      assert Ids(t.list)[i] != Ids(t.list)[j];
    }
    FlushByAgeKeepsYounger(t, now, age);
    YoungerIff(t, Time(now.sec - age, now.usec), t.list, k);
    forall i | 0 <= i < |t.list| ensures InUse(t, t.list[i]) <==> Serves(t, t.list[i]) { InUseServes(t, t.list[i]); }
    hide Inv, InUse, Serves, Before, Younger;
  }

  // --- the network that answers for a WPS payload ----------------------------

  /** The network speaks WPS and is for any name or this one. */
  predicate Answers(n: Network, ssid: seq<Byte>) {
    n.wps && (|n.ssid| > 0 ==> n.ssid == ssid)
  }

  lemma {:induction false} FirstAnswers(networks: seq<Network>, ssid: seq<Byte>, pbc: bool)
    ensures WpsAnswer(networks, ssid, pbc) <==>
      exists i :: 0 <= i < |networks| && Answers(networks[i], ssid)
        && (forall j | 0 <= j < i :: !Answers(networks[j], ssid))
        && ((pbc && networks[i].pbcEnrollee) || (!pbc && networks[i].pinEnrollee))
  {
    if networks != [] {
      var rest := networks[1..];
      FirstAnswers(rest, ssid, pbc);
      assert forall i | 0 <= i < |rest| :: rest[i] == networks[i + 1];
      if Answers(networks[0], ssid) {
        assert WpsAnswer(networks, ssid, pbc) == if pbc then networks[0].pbcEnrollee else networks[0].pinEnrollee;
      } else if WpsAnswer(networks, ssid, pbc) {
        var i :| 0 <= i < |rest| && Answers(rest[i], ssid) && (forall j | 0 <= j < i :: !Answers(rest[j], ssid))
          && ((pbc && rest[i].pbcEnrollee) || (!pbc && rest[i].pinEnrollee));
        assert Answers(networks[i + 1], ssid);
        assert forall j | 0 <= j < i + 1 :: j > 0 ==> networks[j] == rest[j - 1];
      }
    }
  }

  /** An entry is a WPS candidate if and only if its WPS payload names a push-button registrar or
      this station, and the first network that answers takes part in that. */
  lemma CandidateIff(conf: Conf, e: Entry)
    ensures var payload := VendorIe.VendorPayload(VendorIe.Decode(e.ies), VendorIe.WPS_TYPE);
      WpsCandidate(conf, e) <==>
        && |payload| > 0 && (payload in conf.pbc || payload in conf.authorized)
        && exists i :: 0 <= i < |conf.networks| && Answers(conf.networks[i], e.ssid)
             && (forall j | 0 <= j < i :: !Answers(conf.networks[j], e.ssid))
             && (if payload in conf.pbc then conf.networks[i].pbcEnrollee else conf.networks[i].pinEnrollee)
  {
    var payload := VendorIe.VendorPayload(VendorIe.Decode(e.ies), VendorIe.WPS_TYPE);
    FirstAnswers(conf.networks, e.ssid, payload in conf.pbc);
    hide WpsAnswer, Answers;
  }

  /** An entry is unknown if and only if no configured network has its name, which is not the empty
      one, and it is no WPS candidate. */
  lemma UnknownIff(conf: Conf, e: Entry)
    ensures Unknown(conf, e) <==>
      !WpsCandidate(conf, e) && (e.ssid == [] || forall n | n in conf.networks :: n.ssid != e.ssid)
  {
    hide WpsCandidate;
    if n :| n in conf.networks && n.ssid == e.ssid {
      var i :| 0 <= i < |conf.networks| && conf.networks[i] == n;
      assert e.ssid != [] ==> Known(conf, e);
    }
  }

  // --- the signal level ------------------------------------------------------

  /** A level that is negative becomes that of the current entry, if it is still there; nothing else of
      it and no other entry changes, and another level changes nothing. */
  lemma LevelIs(t: Table, level: int, k: nat)
    requires Inv(t) && k < |t.list|
    ensures var u := Step(t, Signal(level));
      && |u.list| == |t.list| && u == t.(list := u.list)
      && if level < 0 && t.current.Some? && t.current.value.id == t.list[k].id
         then u.list[k].radio.level == level
              && u.list[k].(radio := u.list[k].radio.(level := t.list[k].radio.level)) == t.list[k]
         else u.list[k] == t.list[k]
  {
    LinkedIds(t);
    assert Ids(t.list)[k] == t.list[k].id;
    hide Inv;
  }

  // --- the pending connect work ----------------------------------------------

  /** The connect work is given up with its entry, and only with it. */
  ghost predicate ConnectFollows(t: Table, u: Table) {
    u.connect == if t.connect.Some? && t.connect.value !in u.ids then None else t.connect
  }

  lemma ConnectTrans(t: Table, u: Table, v: Table)
    requires ConnectFollows(t, u) && ConnectFollows(u, v) && Shrinks(u, v)
    ensures ConnectFollows(t, v)
  {
    forall x | x in v.ids ensures x in u.ids {
      assert x in Elements(v.ids);
    }
  }

  lemma ConnectRemove(t: Table, k: nat)
    requires Inv(t) && k < |t.list|
    ensures ConnectFollows(t, Remove(t, k)) && Shrinks(t, Remove(t, k))
  {
    RemoveShrinks(t, k);
    var u, id := Remove(t, k), t.list[k].id;
    if t.connect.Some? {
      assert t.connect.value in u.ids <==> t.connect.value in Elements(u.ids);
      assert t.connect.value in Elements(t.ids);
    }
  }

  lemma ConnectSame(t: Table, u: Table)
    requires Inv(t) && u.ids == t.ids && u.connect == t.connect
    ensures ConnectFollows(t, u)
  {
  }

  lemma ConnectTurn(t: Table, info: Option<ScanInfo>, k: nat)
    requires Inv(t) && k < |t.list|
    ensures ConnectFollows(t, EndTurn(t, info, k))
  {
    var e := Missed(t, info, t.list[k]);
    var u := t.(list := t.list[k := e]);
    SetShrunk(t, k, e);
    ConnectSame(t, u);
    if Expired(t, info, t.list[k]) {
      ConnectRemove(u, k);
      ConnectTrans(t, u, Remove(u, k));
    }
    hide Inv, ConnectFollows, Shrinks;
  }

  lemma {:induction false} ConnectEnd(t: Table, info: Option<ScanInfo>, k: nat)
    requires Inv(t) && k <= |t.list|
    ensures ConnectFollows(t, EndFrom(t, info, k))
    decreases |t.list| - k
  {
    if k == |t.list| {
      ConnectSame(t, t);
    } else {
      var u := EndTurn(t, info, k);
      var next := if Expired(t, info, t.list[k]) then k else k + 1;
      ConnectTurn(t, info, k);
      EndTurnShrunk(t, info, k);
      EndFromShrunk(u, info, next);
      EndFromTurn(t, info, k);
      EndTurnList(t, info, k);
      ConnectEnd(u, info, next);
      hide EndTurn, EndFrom, Expired, Inv, ConnectFollows, Shrinks;
      ConnectTrans(t, u, EndFrom(u, info, next));
    }
  }

  lemma {:induction false} ConnectFlush(t: Table, k: nat)
    requires Inv(t) && k <= |t.list|
    ensures ConnectFollows(t, FlushFrom(t, k))
    decreases |t.list| - k
  {
    if k == |t.list| {
      ConnectSame(t, t);
    } else if InUse(t, t.list[k]) {
      ConnectFlush(t, k + 1);
    } else {
      var u := Remove(t, k);
      ConnectRemove(t, k);
      RemoveShrunk(t, k);
      FlushFromShrunk(u, k);
      ConnectFlush(u, k);
      ConnectTrans(t, u, FlushFrom(u, k));
    }
  }

  lemma {:induction false} ConnectAge(t: Table, limit: Time, k: nat)
    requires Inv(t) && k <= |t.list|
    ensures ConnectFollows(t, AgeFrom(t, limit, k))
    decreases |t.list| - k
  {
    if k == |t.list| || (!InUse(t, t.list[k]) && !Before(t.list[k].lastUpdate, limit)) {
      ConnectSame(t, t);
    } else if InUse(t, t.list[k]) {
      ConnectAge(t, limit, k + 1);
    } else {
      var u := Remove(t, k);
      ConnectRemove(t, k);
      RemoveShrunk(t, k);
      AgeFromShrunk(u, limit, k);
      ConnectAge(u, limit, k);
      ConnectTrans(t, u, AgeFrom(u, limit, k));
    }
  }

  lemma ConnectSight(t: Table, ssid: seq<Byte>, res: ScanRes, fetch: Time)
    requires Inv(t)
    ensures ConnectFollows(t, Sight(t, ssid, res, fetch))
  {
    if Get(t, res.bssid, ssid) == |t.list| {
      SightNewInv(t, ssid, res, fetch);
      var m, u := MakeRoom(t), Sight(t, ssid, res, fetch);
      if t.num + 1 > t.conf.maxCount && Victim(t) < |t.list| { ConnectRemove(t, Victim(t)); }
      assert ConnectFollows(t, m) && u.connect == m.connect && u.ids == m.ids + [t.nextId];
      if t.connect.Some? { assert t.connect.value in t.ids && t.connect.value < t.nextId; }
      hide Inv, MakeRoom, Sight;
    } else {
      ConnectSame(t, Sight(t, ssid, res, fetch));
    }
  }

  /** Whatever happens, a pending connect work stays if and only if its entry does. */
  lemma ConnectStaysIff(t: Table, ev: Event)
    requires Inv(t) && !ev.SetConnect?
    ensures ConnectFollows(t, Step(t, ev))
  {
    hide ConnectFollows, Inv;
    match ev
    case EndRound(info, newScan) => ConnectEnd(t, info, 0); ConnectSame(t, t);
    case FlushAll => ConnectFlush(t, 0);
    case FlushOld(now, age) => ConnectAge(t, Time(now.sec - age, now.usec), 0);
    case Lose(id) =>
      var k := IndexOf(Ids(t.list), id);
      if k < |t.list| { ConnectRemove(t, k); } else { ConnectSame(t, t); }
    case Result(res, fetch) =>
      var ssid := ResultSsid(t.conf, res, fetch);
      if ssid.Some? { ConnectSight(t, ssid.value, res, fetch); } else { ConnectSame(t, t); }
    case _ => ConnectSame(t, Step(t, ev));
  }
}
