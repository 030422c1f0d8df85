/** How a station finds its access point across several calls, and what an unterminated ESSID does to the table. */
module Association {
  import opened Elements
  import opened FrameParser
  import opened NodeInfo
  import opened Membership
  import opened Options
  import opened Wlan
  import G = EssidGraph
  import T = Table

  /** n has the one node of MAC address b as its AP and is on that node's list only. */
  ghost predicate AttachedTo<N, E>(t: T.Table<N, E>, n: N, b: Mac) {
    && n in t.aps.owner && t.aps.owner[n] in t.info && t.info[t.aps.owner[n]].id.src == b
    && (forall a :: a in t.info && t.info[a].id.src == b ==> a == t.aps.owner[n])
    && (forall a :: a in t.aps.members && n in t.aps.members[a] ==> a == t.aps.owner[n])
    && t.aps.owner[n] in t.aps.members && n in t.aps.members[t.aps.owner[n]]
  }

  lemma FoundIsAttached<N, E>(t: T.Table<N, E>, n: N, b: Mac)
    requires T.TableOk(t) && n in t.aps.owner && t.aps.owner[n] in t.info && t.info[t.aps.owner[n]].id.src == b
    ensures AttachedTo(t, n, b)
  {
  }

  /** A frame from an address leaves a node of that address, with the frame's BSSID and mode bits. */
  lemma SenderKnown<N, E>(t: T.Table<N, E>, p: Packet, now: u32, spare: N)
    requires T.TableOk(t) && T.Sends(p) && T.Vacant(t, p.addr.ta, spare)
    ensures var d, n := T.NodeUpdate(t, p, now, spare), T.Heard(t, p.addr.ta, spare);
      && T.TableOk(d) && n in d.info && d.info[n].id.src == p.addr.ta
      && (p.addr.bssid != NO_MAC ==> d.info[n].id.bssid == p.addr.bssid)
      && (Is(p.hdr.mode, WLAN_MODE_STA) ==> Is(d.info[n].id.mode, WLAN_MODE_STA))
  {
    T.NodeUpdateKeeps(t, p, now, spare);
    T.RecordRecords(t, p.addr.ta, true, p, now, spare);
    var n := T.Heard(t, p.addr.ta, spare);
    var i := if n in t.info then t.info[n] else Fresh(true);
    SenderFields(i, p, now, T.ApChannel(t.aps, t.info, n));
  }

  /** Nobody goes, and all keep their addresses. */
  lemma OthersKnown<N, E>(t: T.Table<N, E>, p: Packet, now: u32, spare: N)
    requires T.TableOk(t) && T.Sends(p) && T.Vacant(t, p.addr.ta, spare)
    ensures var d := T.NodeUpdate(t, p, now, spare);
      forall m :: m in t.info ==> m in d.info && d.info[m].id.src == t.info[m].id.src
  {
    T.RecordRecords(t, p.addr.ta, true, p, now, spare);
    var n := T.Heard(t, p.addr.ta, spare);
    T.AfterSrc(if n in t.info then t.info[n] else Fresh(true), Frame(true, p, now, T.ApChannel(t.aps, t.info, n)));
  }

  lemma SenderFields(i: Info, p: Packet, now: u32, ap: Option<u32>)
    ensures var d := After(i, Frame(true, p, now, ap)).id;
      && d.src == p.addr.ta && (p.addr.bssid != NO_MAC ==> d.bssid == p.addr.bssid)
      && (Is(p.hdr.mode, WLAN_MODE_STA) ==> Is(d.mode, WLAN_MODE_STA))
  {
    OrKeeps(i.id.mode, p.hdr.mode, WLAN_MODE_STA);
  }

  lemma OrKeeps(a: Bits, b: Bits, flag: Bits)
    ensures Is(a + b, flag) <==> Is(a, flag) || Is(b, flag)
  {
    assert (a + b) * flag == a * flag + b * flag;
  }

  /**
   * From any table in order: once B has been heard as a sender, a station frame from S with BSSID B and a look for its AP
   * leave S attached to B.
   */
  lemma StationFindsItsAp<N, E>(t: T.Table<N, E>, beacon: Packet, now1: u32, spare1: N, p: Packet, now2: u32, spare2: N)
    requires T.TableOk(t) && T.Vacant(t, beacon.addr.ta, spare1) && T.Sends(beacon)
    requires T.Vacant(T.NodeUpdate(t, beacon, now1, spare1), p.addr.ta, spare2) && T.Sends(p)
    requires Is(p.hdr.mode, WLAN_MODE_STA) && p.addr.bssid == beacon.addr.ta && p.addr.bssid[0] != 0xff
    ensures var t1 := T.NodeUpdate(t, beacon, now1, spare1);
      var t2 := T.NodeUpdate(t1, p, now2, spare2);
      var n := T.Heard(t1, p.addr.ta, spare2);
      && T.TableOk(t2) && n in t2.info && t2.info[n].id.src == p.addr.ta
      && AttachedTo(T.FindAp(t2, n), n, beacon.addr.ta)
  {
    var t1 := T.NodeUpdate(t, beacon, now1, spare1);
    SenderKnown(t, beacon, now1, spare1);
    SenderKnown(t1, p, now2, spare2);
    OthersKnown(t1, p, now2, spare2);
    var t2 := T.NodeUpdate(t1, p, now2, spare2);
    var n := T.Heard(t1, p.addr.ta, spare2);
    Finds(t2, n, T.Heard(t, beacon.addr.ta, spare1));
  }

  lemma Finds<N, E>(t: T.Table<N, E>, n: N, a: N)
    requires T.TableOk(t) && n in t.info && a in t.info && t.info[a].id.src == t.info[n].id.bssid
    requires Is(t.info[n].id.mode, WLAN_MODE_STA) && t.info[n].id.bssid[0] != 0xff
    ensures AttachedTo(T.FindAp(t, n), n, t.info[n].id.bssid)
  {
    T.FindApFinds(t, n);
    T.FindApKeeps(t, n);
    FoundIsAttached(T.FindAp(t, n), n, t.info[n].id.bssid);
  }

  /** From then on, a frame of an attached station that is no beacon sets its channel to the AP's, and it stays attached. */
  lemma StationTakesApChannel<N, E>(t: T.Table<N, E>, n: N, b: Mac, p: Packet, now: u32, spare: N)
    requires T.TableOk(t) && n in t.info && AttachedTo(t, n, b)
    requires T.Sends(p) && p.addr.ta == t.info[n].id.src && !BeaconLike(p.hdr.wlanType)
    requires Is(t.info[n].id.mode, WLAN_MODE_STA) || Is(p.hdr.mode, WLAN_MODE_STA)
    ensures var d := T.NodeUpdate(t, p, now, spare);
      && n in d.info && d.info[n].id.channel == t.info[t.aps.owner[n]].id.channel
      && AttachedTo(d, n, b)
  {
    T.NodeUpdateKeeps(t, p, now, spare);
    T.RecordRecords(t, p.addr.ta, true, p, now, spare);
    var d := T.NodeUpdate(t, p, now, spare);
    assert T.Heard(t, p.addr.ta, spare) == n;
    TakesChannel(t.info[n], p, now, T.ApChannel(t.aps, t.info, n));
    assert d.info[t.aps.owner[n]].id.src == b by {
      T.AfterSrc(t.info[n], Frame(true, p, now, T.ApChannel(t.aps, t.info, n)));
    }
    FoundIsAttached(d, n, b);
  }

  lemma TakesChannel(i: Info, p: Packet, now: u32, ap: Option<u32>)
    requires ap.Some? && !BeaconLike(p.hdr.wlanType) && (Is(i.id.mode, WLAN_MODE_STA) || Is(p.hdr.mode, WLAN_MODE_STA))
    ensures After(i, Frame(true, p, now, ap)).id.channel == ap.value
  {
    OrKeeps(i.id.mode, p.hdr.mode, WLAN_MODE_STA);
  }

  // ----- the receiver's side -----

  /** What a frame says about the node it was sent to. */
  predicate TellsReceiver(p: Packet) {
    p.hdr.mode == WLAN_MODE_AP || p.hdr.mode == WLAN_MODE_STA || p.hdr.mode == WLAN_MODE_IBSS
  }

  /**
   * A frame leaves a node of the address it was sent to.  The receiver of an AP's frame is a station and nothing else, that of
   * a station's frame an AP and nothing else, that of an ad-hoc frame in an ad-hoc network; other frames say nothing.
   */
  lemma ReceiverKnown<N, E>(t: T.Table<N, E>, p: Packet, now: u32, spare: N)
    requires T.TableOk(t) && T.Receives(p) && T.Vacant(t, p.addr.ra, spare)
    ensures var d, n := T.ReceiverUpdate(t, p, now, spare), T.Heard(t, p.addr.ra, spare);
      && T.TableOk(d) && n in d.info && d.info[n].id.src == p.addr.ra
      && (p.addr.bssid != NO_MAC ==> d.info[n].id.bssid == p.addr.bssid)
      && (p.hdr.mode == WLAN_MODE_AP ==> d.info[n].id.mode == WLAN_MODE_STA)
      && (p.hdr.mode == WLAN_MODE_STA ==> d.info[n].id.mode == WLAN_MODE_AP && !Is(d.info[n].id.mode, WLAN_MODE_STA))
      && (p.hdr.mode == WLAN_MODE_IBSS ==> d.info[n].id.mode == WLAN_MODE_IBSS)
      && (!TellsReceiver(p) ==> d.info[n].id.mode == if n in t.info then t.info[n].id.mode else {})
  {
    T.ReceiverUpdateKeeps(t, p, now, spare);
    T.RecordRecords(t, p.addr.ra, false, p, now, spare);
    var n := T.Heard(t, p.addr.ra, spare);
    ReceiverFields(if n in t.info then t.info[n] else Fresh(false), p, now, T.ApChannel(t.aps, t.info, n));
  }

  lemma ReceiverFields(i: Info, p: Packet, now: u32, ap: Option<u32>)
    ensures var d := After(i, Frame(false, p, now, ap)).id;
      && d.src == p.addr.ra && (p.addr.bssid != NO_MAC ==> d.bssid == p.addr.bssid)
      && (p.hdr.mode == WLAN_MODE_AP ==> d.mode == WLAN_MODE_STA)
      && (p.hdr.mode == WLAN_MODE_STA ==> d.mode == WLAN_MODE_AP && !Is(d.mode, WLAN_MODE_STA))
      && (p.hdr.mode == WLAN_MODE_IBSS ==> d.mode == WLAN_MODE_IBSS)
      && (!TellsReceiver(p) ==> d.mode == i.id.mode)
  {
  }

  /** Nobody goes, and all keep their addresses. */
  lemma OthersHeard<N, E>(t: T.Table<N, E>, p: Packet, now: u32, spare: N)
    requires T.TableOk(t) && T.Receives(p) && T.Vacant(t, p.addr.ra, spare)
    ensures var d := T.ReceiverUpdate(t, p, now, spare);
      forall m :: m in t.info ==> m in d.info && d.info[m].id.src == t.info[m].id.src
  {
    T.RecordRecords(t, p.addr.ra, false, p, now, spare);
    var n := T.Heard(t, p.addr.ra, spare);
    T.AfterSrc(if n in t.info then t.info[n] else Fresh(false), Frame(false, p, now, T.ApChannel(t.aps, t.info, n)));
  }

  /** From any table in order that holds B: a frame of AP B to S and a look for S's AP leave S attached to B. */
  lemma ReceiverFindsItsAp<N, E>(t: T.Table<N, E>, a: N, p: Packet, now: u32, spare: N)
    requires T.TableOk(t) && a in t.info && t.info[a].id.src == p.addr.bssid && p.addr.bssid[0] != 0xff
    requires p.hdr.mode == WLAN_MODE_AP && T.Receives(p) && T.Vacant(t, p.addr.ra, spare)
    ensures var d, n := T.ReceiverUpdate(t, p, now, spare), T.Heard(t, p.addr.ra, spare);
      && T.TableOk(d) && n in d.info && d.info[n].id.src == p.addr.ra
      && AttachedTo(T.FindAp(d, n), n, p.addr.bssid)
  {
    ReceiverKnown(t, p, now, spare);
    OthersHeard(t, p, now, spare);
    var d, n := T.ReceiverUpdate(t, p, now, spare), T.Heard(t, p.addr.ra, spare);
    OneBit(WLAN_MODE_STA);
    Finds(d, n, a);
  }

  lemma OneBit(flag: Bits)
    requires flag != {}
    ensures Is(flag, flag)
  {
    assert flag * flag == flag;
  }

  // ----- the four ways of a data frame -----

  /** A data frame that the parser accepts: what is stored of it, by its distribution system bits. */
  lemma DataByDs(b: seq<u8>, len: nat, p: Packet)
    requires Readable(b, len) && len >= 10 && TypeOf(Le16(b, 0)) == TYPE_DATA && ParseHeader(b, len, p).ret >= 0
    ensures var fc, q := Le16(b, 0), ParseHeader(b, len, p).p;
      && |b| >= 24 && q.hdr.mode == DataMode(fc) && q.addr == SetAddrs(p.addr, DataAddrs(b, BssidAt(b, fc)))
      && q.meta == p.meta && !BeaconLike(q.hdr.wlanType)
  {
    DataIsNoBeacon(Le16(b, 0));
  }

  lemma DataIsNoBeacon(fc: u16)
    requires TypeOf(fc) == TYPE_DATA
    ensures !BeaconLike(TypeAndSubtype(fc))
  {
  }

  /** A data frame to the distribution system is a station's, and its receiver is the BSSID. */
  lemma ToDsIsStationFrame(b: seq<u8>, len: nat, p: Packet)
    requires Readable(b, len) && len >= 10
    requires TypeOf(Le16(b, 0)) == TYPE_DATA && ToDs(Le16(b, 0)) && !FromDs(Le16(b, 0))
    requires ParseHeader(b, len, p).ret >= 0
    ensures var q := ParseHeader(b, len, p).p;
      && q.hdr.mode == WLAN_MODE_STA && q.addr.bssid == q.addr.ra == MacAt(b, 4) && q.addr.ta == MacAt(b, 10)
      && !BeaconLike(q.hdr.wlanType)
  {
    DataByDs(b, len, p);
  }

  /** A data frame from the distribution system is an AP's, and its sender is the BSSID. */
  lemma FromDsIsApFrame(b: seq<u8>, len: nat, p: Packet)
    requires Readable(b, len) && len >= 10
    requires TypeOf(Le16(b, 0)) == TYPE_DATA && FromDs(Le16(b, 0)) && !ToDs(Le16(b, 0))
    requires ParseHeader(b, len, p).ret >= 0
    ensures var q := ParseHeader(b, len, p).p;
      && q.hdr.mode == WLAN_MODE_AP && q.addr.bssid == q.addr.ta == MacAt(b, 10) && q.addr.ra == MacAt(b, 4)
      && !BeaconLike(q.hdr.wlanType) && q.meta == p.meta
  {
    DataByDs(b, len, p);
  }

  /** Without the distribution system, a data frame travels in an ad-hoc network, and the third address is the BSSID. */
  lemma NoDsIsAdHocFrame(b: seq<u8>, len: nat, p: Packet)
    requires Readable(b, len) && len >= 10
    requires TypeOf(Le16(b, 0)) == TYPE_DATA && !FromDs(Le16(b, 0)) && !ToDs(Le16(b, 0))
    requires ParseHeader(b, len, p).ret >= 0
    ensures var q := ParseHeader(b, len, p).p;
      && q.hdr.mode == WLAN_MODE_IBSS && q.addr == Addresses(MacAt(b, 10), MacAt(b, 4), MacAt(b, 16))
      && !BeaconLike(q.hdr.wlanType)
  {
    DataByDs(b, len, p);
  }

  /** Between two of its parts it has four addresses; the BSSID is the third one of a QoS frame that aggregates MSDUs. */
  lemma BothDsIsFourAddressFrame(b: seq<u8>, len: nat, p: Packet)
    requires Readable(b, len) && len >= 10
    requires TypeOf(Le16(b, 0)) == TYPE_DATA && FromDs(Le16(b, 0)) && ToDs(Le16(b, 0))
    requires ParseHeader(b, len, p).ret >= 0
    ensures var q := ParseHeader(b, len, p).p;
      && q.hdr.mode == WLAN_MODE_4ADDR && q.addr.ta == MacAt(b, 10) && q.addr.ra == MacAt(b, 4)
      && q.addr.bssid == (if IsQos(Le16(b, 0)) && b[30] >= 128 then MacAt(b, 16) else p.addr.bssid)
      && !BeaconLike(q.hdr.wlanType)
  {
    DataByDs(b, len, p);
    if IsQos(Le16(b, 0)) {
      AggregateBit(b[30], b[31]);
    }
  }

  lemma AggregateBit(lo: u8, hi: u8)
    ensures Pair(lo, hi) / 0x80 % 2 == 1 <==> lo >= 128
  {
  }

  /**
   * From any table in order, the bytes of one data frame from the distribution system: recorded at its sender B and, with
   * whatever retry count that left in the packet, at its receiver S, they leave S attached to B once S looks for its AP.
   */
  lemma DownlinkAttaches<N, E>(t: T.Table<N, E>, b: seq<u8>, len: nat, p0: Packet, retries: u32,
                               now1: u32, spare1: N, now2: u32, spare2: N)
    requires T.TableOk(t) && Readable(b, len) && len >= 10
    requires TypeOf(Le16(b, 0)) == TYPE_DATA && FromDs(Le16(b, 0)) && !ToDs(Le16(b, 0))
    requires ParseHeader(b, len, p0).ret >= 0 && !BadFcs(p0)
    requires |b| >= 16 && MacAt(b, 10) != NO_MAC && b[10] != 0xff && MacAt(b, 4) != NO_MAC && MacAt(b, 4) != BROADCAST
    requires T.Vacant(t, MacAt(b, 10), spare1)
    requires T.Vacant(T.NodeUpdate(t, ParseHeader(b, len, p0).p, now1, spare1), MacAt(b, 4), spare2)
    ensures var p := ParseHeader(b, len, p0).p;
      var t1 := T.NodeUpdate(t, p, now1, spare1);
      var t2, n := T.ReceiverUpdate(t1, p.(retries := retries), now2, spare2), T.Heard(t1, MacAt(b, 4), spare2);
      && T.TableOk(t2) && n in t2.info && t2.info[n].id.src == MacAt(b, 4)
      && AttachedTo(T.FindAp(t2, n), n, MacAt(b, 10))
  {
    FromDsIsApFrame(b, len, p0);
    var p := ParseHeader(b, len, p0).p;
    SenderKnown(t, p, now1, spare1);
    ReceiverFindsItsAp(T.NodeUpdate(t, p, now1, spare1), T.Heard(t, p.addr.ta, spare1), p.(retries := retries), now2, spare2);
  }

  // ----- names, from the frame to the table -----

  lemma {:induction false} WholeBuffer(b: seq<u8>)
    requires 0 !in b
    ensures CStr(b) == b
  {
    if b != [] {
      WholeBuffer(b[1..]);
    }
  }

  /**
   * Whatever frame was parsed into a packet whose ESSID buffer was terminated, as a cleared one is: an ESSID update with that
   * packet keeps the table in order.
   */
  lemma ParsedNameKeepsTable<N, E>(b: seq<u8>, len: nat, p0: Packet, t: T.Table<N, E>, n: Option<N>, spare: E)
    requires Readable(b, len) && Terminated(p0.ie)
    requires T.TableOk(t) && (n.Some? ==> n.value in t.info)
    requires n.Some? && T.Names(ParseHeader(b, len, p0).p) ==>
      G.Vacant(t.ess, CStr(ParseHeader(b, len, p0).p.ie.essid), spare)
    ensures var p := ParseHeader(b, len, p0).p; 0 in p.ie.essid && T.TableOk(T.EssidsUpdate(t, p, n, spare))
  {
    ParserKeepsTerminated(b, len, p0);
    var p := ParseHeader(b, len, p0).p;
    if 0 !in p.ie.essid {
      WholeBuffer(p.ie.essid);
      assert false;
    }
    T.EssidsUpdateKeeps(t, p, n, spare);
  }

  lemma ClearedIsTerminated()
    ensures Terminated(ZERO_PACKET.ie)
  {
    G.NoEssidAt(WLAN_MAX_SSID_LEN - 1);
  }

  // ----- an unterminated name -----

  function Repeat(b: u8, n: nat): (s: seq<u8>)
    ensures |s| == n && forall i :: 0 <= i < n ==> s[i] == b
  {
    if n == 0 then [] else Repeat(b, n - 1) + [b]
  }

  /** The table's groups: nodes 1 and 2 under a name of 33 bytes. */
  function TwoNodes(): G.Essids<nat, nat> {
    G.Essids([0], Rings(map[1 := 0, 2 := 0], map[0 := [1, 2]]), map[0 := G.Tag(Repeat(0x61, 33), 2, false)])
  }

  lemma TwoNodesOk(who: map<nat, Info>)
    requires who.Keys == {1, 2, 3}
    ensures G.EssidsOk(TwoNodes()) && G.NamesFit(TwoNodes()) && G.Known(TwoNodes(), who)
  {
    var s := TwoNodes().of.members[0];
    assert s == [1, 2] && s[0] == 1 && s[1] == 2;
    assert G.TagOk(TwoNodes().tags[0], s);
  }

  /**
   * Names are not unique for all buffers: a beacon of node 3 whose buffer is full of the same byte, without a NUL, opens
   * a second ESSID of the same stored name.
   */
  lemma UnterminatedNameIsDoubled(who: map<nat, Info>)
    requires who.Keys == {1, 2, 3}
    ensures var name := CStr(Repeat(0x61, 34));
      && G.EssidsOk(TwoNodes()) && G.NamesFit(TwoNodes()) && G.Known(TwoNodes(), who)
      && !G.EssidsOk(G.Update(TwoNodes(), name, 3, 1, who))
  {
    TwoNodesOk(who);
    WholeBuffer(Repeat(0x61, 34));
    NotStorable(Repeat(0x61, 34));
    G.UpdateKeeps(TwoNodes(), Repeat(0x61, 34), 3, 1, who);
  }

  lemma NotStorable(name: seq<u8>)
    requires name == Repeat(0x61, 34)
    ensures !G.StorableName(TwoNodes(), name, 3)
  {
    var g := TwoNodes();
    assert G.Stored(name) == Repeat(0x61, 33);
    assert 0 in g.tags && g.tags[0].name == G.Stored(name) && g.tags[0].name != name;
    assert g.of.members[0] == [1, 2] != [3];
  }
}
