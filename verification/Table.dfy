/**
 * The node table of core/node.c and core/essid.c as one value, and what its operations keep.
 * N and E stand for the addresses of nodes and ESSIDs.
 */
module Table {
  import opened Membership
  import opened NodeInfo
  import opened Options
  import opened Seqs
  import opened Wlan
  import A = ApGraph
  import G = EssidGraph

  /** The node list in order, the record of every live node, the AP links and the ESSID groups. */
  datatype Table<N(==), E(==)> = Table(order: seq<N>, info: map<N, Info>, aps: A.Aps<N>, ess: G.Essids<N, E>)

  function Empty<N, E>(): Table<N, E> {
    Table([], map[], Rings(map[], map[]), G.Essids([], Rings(map[], map[]), map[]))
  }

  // ----- the invariant -----

  /** Every live node is on the list once, under a MAC address that is its own and is not all zero. */
  ghost predicate ListOk<N>(order: seq<N>, info: map<N, Info>) {
    && Distinct(order)
    && (forall n :: n in order ==> n in info) && (forall n :: n in info ==> n in order)
    && (forall n :: n in info ==> info[n].id.src != NO_MAC)
    && (forall m, n :: m in info && n in info && info[m].id.src == info[n].id.src ==> m == n)
  }

  /** AP links and ESSID groups agree in both directions and mention live nodes only. */
  ghost predicate LinksOk<N, E>(t: Table<N, E>) {
    && A.ApsOk(t.aps) && t.aps.members.Keys == t.info.Keys
    && G.EssidsOk(t.ess) && G.NamesFit(t.ess) && G.Known(t.ess, t.info)
  }

  ghost predicate TableOk<N, E>(t: Table<N, E>) {
    ListOk(t.order, t.info) && LinksOk(t)
  }

  lemma EmptyOk<N, E>()
    ensures TableOk(Empty<N, E>())
  {
  }

  // ----- node updates -----

  /** The first node on the list with this MAC address. */
  function FindMac<N(==)>(order: seq<N>, info: map<N, Info>, mac: Mac): (r: Option<N>)
    requires forall n :: n in order ==> n in info
    ensures r.Some? ==> r.value in order && info[r.value].id.src == mac
    ensures r.None? ==> forall k :: 0 <= k < |order| ==> info[order[k]].id.src != mac
  {
    if order == [] then None
    else if info[order[0]].id.src == mac then Some(order[0])
    else FindMac(order[1..], info, mac)
  }

  /** The channel of n's AP, if it has one. */
  function ApChannel<N(==)>(aps: A.Aps<N>, info: map<N, Info>, n: N): Option<u32> {
    if n in aps.owner && aps.owner[n] in info then Some(info[aps.owner[n]].id.channel) else None
  }

  /** The node a frame is recorded at: the one with that MAC, or the new one. */
  function Heard<N, E>(t: Table<N, E>, mac: Mac, spare: N): N
    requires forall n :: n in t.order ==> n in t.info
  {
    var found := FindMac(t.order, t.info, mac);
    if found.Some? then found.value else spare
  }

  /** The address is free, if it is needed. */
  ghost predicate Vacant<N, E>(t: Table<N, E>, mac: Mac, spare: N) {
    spare in t.info ==> exists n :: n in t.info && t.info[n].id.src == mac
  }

  lemma NotFoundIsNew<N, E>(t: Table<N, E>, mac: Mac)
    requires ListOk(t.order, t.info) && FindMac(t.order, t.info, mac).None?
    ensures forall n :: n in t.info ==> t.info[n].id.src != mac
  {
    forall n | n in t.info
      ensures t.info[n].id.src != mac
    {
      assert n in t.order;
    }
  }

  /** The common part of both node updates; `spare` is the address of the new node if the MAC is new. */
  function Record<N, E>(t: Table<N, E>, mac: Mac, sent: bool, p: Packet, now: u32, spare: N): Table<N, E>
    requires forall n :: n in t.order ==> n in t.info
  {
    var found := FindMac(t.order, t.info, mac);
    if found.Some? then
      var n := found.value;
      t.(info := t.info[n := After(t.info[n], Frame(sent, p, now, ApChannel(t.aps, t.info, n)))])
    else
      Table(t.order + [spare], t.info[spare := After(Fresh(sent), Frame(sent, p, now, None))], Born(t.aps, spare), t.ess)
  }

  predicate Sends(p: Packet) {
    !BadFcs(p) && p.addr.ta != NO_MAC
  }

  predicate Receives(p: Packet) {
    !BadFcs(p) && p.addr.ra != NO_MAC && p.addr.ra != BROADCAST
  }

  /** uwifi_node_update */
  function NodeUpdate<N, E>(t: Table<N, E>, p: Packet, now: u32, spare: N): Table<N, E>
    requires forall n :: n in t.order ==> n in t.info
  {
    if Sends(p) then Record(t, p.addr.ta, true, p, now, spare) else t
  }

  /** uwifi_node_update_receiver */
  function ReceiverUpdate<N, E>(t: Table<N, E>, p: Packet, now: u32, spare: N): Table<N, E>
    requires forall n :: n in t.order ==> n in t.info
  {
    if Receives(p) then Record(t, p.addr.ra, false, p, now, spare) else t
  }

  /** A frame is recorded under the address it was sent from or to. */
  lemma AfterSrc(i: Info, f: Frame)
    ensures After(i, f).id.src == if f.sent then f.p.addr.ta else f.p.addr.ra
  {
  }

  lemma RecordKeeps<N, E>(t: Table<N, E>, sent: bool, p: Packet, now: u32, spare: N)
    requires TableOk(t) && Vacant(t, if sent then p.addr.ta else p.addr.ra, spare)
    requires (if sent then p.addr.ta else p.addr.ra) != NO_MAC
    ensures TableOk(Record(t, if sent then p.addr.ta else p.addr.ra, sent, p, now, spare))
  {
    var mac := if sent then p.addr.ta else p.addr.ra;
    var found := FindMac(t.order, t.info, mac);
    if found.Some? {
      var n := found.value;
      AfterSrc(t.info[n], Frame(sent, p, now, ApChannel(t.aps, t.info, n)));
      RecordsKnown(t, n, After(t.info[n], Frame(sent, p, now, ApChannel(t.aps, t.info, n))));
    } else {
      NotFoundIsNew(t, mac);
      RecordsNew(t, spare, After(Fresh(sent), Frame(sent, p, now, None)), mac);
    }
  }

  lemma RecordsKnown<N, E>(t: Table<N, E>, n: N, i: Info)
    requires TableOk(t) && n in t.info && i.id.src == t.info[n].id.src
    ensures TableOk(t.(info := t.info[n := i]))
  {
    assert t.info[n := i].Keys == t.info.Keys;
  }

  lemma RecordsNew<N, E>(t: Table<N, E>, n: N, i: Info, mac: Mac)
    requires TableOk(t) && n !in t.info && i.id.src == mac != NO_MAC
    requires forall k :: 0 <= k < |t.order| ==> t.info[t.order[k]].id.src != mac
    ensures TableOk(Table(t.order + [n], t.info[n := i], Born(t.aps, n), t.ess))
  {
    ListGrows(t.order, t.info, n, i, mac);
    BornKeeps(t.aps, n);
  }

  lemma ListGrows<N>(order: seq<N>, info: map<N, Info>, n: N, i: Info, mac: Mac)
    requires ListOk(order, info) && n !in info && i.id.src == mac != NO_MAC
    requires forall k :: 0 <= k < |order| ==> info[order[k]].id.src != mac
    ensures ListOk(order + [n], info[n := i])
  {
    assert (order + [n])[|order|] == n;
  }

  lemma NodeUpdateKeeps<N, E>(t: Table<N, E>, p: Packet, now: u32, spare: N)
    requires TableOk(t) && (Sends(p) ==> Vacant(t, p.addr.ta, spare))
    ensures TableOk(NodeUpdate(t, p, now, spare))
  {
    if Sends(p) {
      RecordKeeps(t, true, p, now, spare);
    }
  }

  lemma ReceiverUpdateKeeps<N, E>(t: Table<N, E>, p: Packet, now: u32, spare: N)
    requires TableOk(t) && (Receives(p) ==> Vacant(t, p.addr.ra, spare))
    ensures TableOk(ReceiverUpdate(t, p, now, spare))
  {
    if Receives(p) {
      RecordKeeps(t, false, p, now, spare);
    }
  }

  /** What a node update does: exactly the node of that MAC changes; it is there afterwards, and a new one is the last. */
  lemma RecordRecords<N, E>(t: Table<N, E>, mac: Mac, sent: bool, p: Packet, now: u32, spare: N)
    requires TableOk(t) && Vacant(t, mac, spare)
    ensures var d, n := Record(t, mac, sent, p, now, spare), Heard(t, mac, spare);
      && d.info.Keys == t.info.Keys + {n}
      && (n in t.info <==> exists m :: m in t.info && t.info[m].id.src == mac)
      && d.info[n] == After(if n in t.info then t.info[n] else Fresh(sent), Frame(sent, p, now, ApChannel(t.aps, t.info, n)))
      && (forall m :: m in t.info && m != n ==> d.info[m] == t.info[m])
      && d.aps.owner == t.aps.owner && d.ess == t.ess
      && (if n in t.info then d.order == t.order && d.aps == t.aps else d.order == t.order + [n] && d.aps == Born(t.aps, n))
  {
    var found := FindMac(t.order, t.info, mac);
    if found.None? {
      NotFoundIsNew(t, mac);
      assert spare !in t.aps.owner;
    }
  }

  /**
   * A node update passes over exactly the frames with a bad FCS or without a transmitter, a receiver update those with a bad
   * FCS and those to nobody or to everybody; every other frame is recorded.
   */
  lemma GatesDecide<N, E>(t: Table<N, E>, p: Packet, now: u32, spare: N)
    requires TableOk(t)
    ensures Vacant(t, p.addr.ta, spare) ==> (NodeUpdate(t, p, now, spare) == t <==> BadFcs(p) || p.addr.ta == NO_MAC)
    ensures Vacant(t, p.addr.ra, spare) ==>
      (ReceiverUpdate(t, p, now, spare) == t <==> BadFcs(p) || p.addr.ra == NO_MAC || p.addr.ra == BROADCAST)
  {
    if Vacant(t, p.addr.ta, spare) && Sends(p) {
      RecordShows(t, p.addr.ta, true, p, now, spare);
    }
    if Vacant(t, p.addr.ra, spare) && Receives(p) {
      RecordShows(t, p.addr.ra, false, p, now, spare);
    }
  }

  /** A packet counter moves on. */
  lemma RecordShows<N, E>(t: Table<N, E>, mac: Mac, sent: bool, p: Packet, now: u32, spare: N)
    requires TableOk(t) && Vacant(t, mac, spare)
    ensures Record(t, mac, sent, p, now, spare) != t
  {
    RecordRecords(t, mac, sent, p, now, spare);
    var n := Heard(t, mac, spare);
    if n in t.info {
      CounterMoves(t.info[n], Frame(sent, p, now, ApChannel(t.aps, t.info, n)));
    }
  }

  lemma CounterMoves(i: Info, f: Frame)
    ensures After(i, f).seen != i.seen
  {
    assert f.sent ==> After(i, f).seen.pktCount == U32(i.seen.pktCount + 1) != i.seen.pktCount;
    assert !f.sent ==> After(i, f).seen.rxPktCount == U32(i.seen.rxPktCount + 1) != i.seen.rxPktCount;
  }

  // ----- uwifi_nodes_find_ap -----

  /** A station with a valid BSSID that is not its AP's address. */
  predicate Seeks<N(==)>(aps: A.Aps<N>, info: map<N, Info>, n: N)
    requires n in info && (n in aps.owner ==> aps.owner[n] in info)
  {
    var i := info[n].id;
    && Is(i.mode, WLAN_MODE_STA) && i.bssid[0] != 0xff && i.bssid != NO_MAC
    && (n in aps.owner ==> i.bssid != info[aps.owner[n]].id.src)
  }

  /** uwifi_nodes_find_ap */
  function FindAp<N, E>(t: Table<N, E>, n: N): Table<N, E>
    requires TableOk(t) && n in t.info
  {
    if !Seeks(t.aps, t.info, n) then t
    else
      var alone := if n in t.aps.owner then Leave(t.aps, n) else t.aps;
      var ap := FindMac(t.order, t.info, t.info[n].id.bssid);
      if ap.Some? then t.(aps := Join(alone, n, ap.value)) else t.(aps := alone)
  }

  lemma FindApKeeps<N, E>(t: Table<N, E>, n: N)
    requires TableOk(t) && n in t.info
    ensures TableOk(FindAp(t, n))
  {
    if Seeks(t.aps, t.info, n) {
      Reassigns(t.aps, n, FindMac(t.order, t.info, t.info[n].id.bssid));
    }
  }

  lemma Reassigns<N>(g: A.Aps<N>, n: N, ap: Option<N>)
    requires A.ApsOk(g) && n in g.members && (ap.Some? ==> ap.value in g.members)
    ensures var alone := if n in g.owner then Leave(g, n) else g;
      && A.ApsOk(alone) && alone.members.Keys == g.members.Keys
      && (ap.Some? ==> A.ApsOk(Join(alone, n, ap.value)) && Join(alone, n, ap.value).members.Keys == g.members.Keys)
  {
    var alone := if n in g.owner then Leave(g, n) else g;
    LeaveLeaves(g, n);
    LeftKeeps(g, alone, n);
    if ap.Some? {
      JoinKeeps(alone, n, ap.value);
    }
  }

  /** A station with a valid BSSID ends up with the node of that address as its AP, if there is one, and with none otherwise. */
  lemma FindApFinds<N, E>(t: Table<N, E>, n: N)
    requires TableOk(t) && n in t.info
    requires Is(t.info[n].id.mode, WLAN_MODE_STA) && t.info[n].id.bssid[0] != 0xff && t.info[n].id.bssid != NO_MAC
    ensures var d := FindAp(t, n);
      && (n in d.aps.owner <==> exists a :: a in t.info && t.info[a].id.src == t.info[n].id.bssid)
      && (n in d.aps.owner ==> d.aps.owner[n] in t.info && t.info[d.aps.owner[n]].id.src == t.info[n].id.bssid)
      && (forall m :: m in t.info && m != n ==> (m in d.aps.owner <==> m in t.aps.owner))
      && (forall m :: m in t.aps.owner && m != n ==> d.aps.owner[m] == t.aps.owner[m])
  {
    FindApOwner(t, n);
    if FindMac(t.order, t.info, t.info[n].id.bssid).None? {
      NotFoundIsNew(t, t.info[n].id.bssid);
    }
  }

  /** What the search does to the pointers: n points to the node that is found, which it may have done before. */
  lemma FindApOwner<N, E>(t: Table<N, E>, n: N)
    requires TableOk(t) && n in t.info
    requires Is(t.info[n].id.mode, WLAN_MODE_STA) && t.info[n].id.bssid[0] != 0xff && t.info[n].id.bssid != NO_MAC
    ensures var ap := FindMac(t.order, t.info, t.info[n].id.bssid);
      FindAp(t, n).aps.owner == if ap.Some? then t.aps.owner[n := ap.value] else t.aps.owner - {n}
  {
    if Seeks(t.aps, t.info, n) {
      A.StationsLive(t.aps);
      Reowns(t.aps, n, FindMac(t.order, t.info, t.info[n].id.bssid));
    } else {
      FindsOwner(t, t.aps.owner[n]);
      assert t.aps.owner[n := t.aps.owner[n]] == t.aps.owner;
    }
  }

  lemma FindsOwner<N, E>(t: Table<N, E>, a: N)
    requires ListOk(t.order, t.info) && a in t.info
    ensures FindMac(t.order, t.info, t.info[a].id.src) == Some(a)
  {
    var k :| 0 <= k < |t.order| && t.order[k] == a;
  }

  lemma Reowns<N>(g: A.Aps<N>, n: N, ap: Option<N>)
    requires n in g.owner ==> g.owner[n] in g.members
    ensures var alone := if n in g.owner then Leave(g, n) else g;
      && alone.owner == g.owner - {n} && alone.members.Keys == g.members.Keys
      && (ap.Some? && ap.value in g.members ==> Join(alone, n, ap.value).owner == g.owner[n := ap.value])
  {
    assert n !in g.owner ==> g.owner - {n} == g.owner;
  }

  /** There is nothing to look for: no station, no valid BSSID, or the AP is known already. */
  predicate Content<N, E>(t: Table<N, E>, n: N)
    requires TableOk(t) && n in t.info
  {
    var i := t.info[n].id;
    || !Is(i.mode, WLAN_MODE_STA) || i.bssid[0] == 0xff || i.bssid == NO_MAC
    || (n in t.aps.owner && t.info[t.aps.owner[n]].id.src == i.bssid)
  }

  /**
   * The search leaves the table alone for a node that is no station, has no valid BSSID or has found its AP; otherwise only if
   * the node has no AP and no node has the address of its BSSID.
   */
  lemma FindApIdle<N, E>(t: Table<N, E>, n: N)
    requires TableOk(t) && n in t.info
    ensures FindAp(t, n) == t <==>
      Content(t, n) || (n !in t.aps.owner && forall a :: a in t.info ==> t.info[a].id.src != t.info[n].id.bssid)
  {
    if !Content(t, n) {
      FindApFinds(t, n);
    }
  }

  /** A node that does look leaves its ring and becomes the last on that of the AP it finds; all others keep their order. */
  lemma FindApRings<N, E>(t: Table<N, E>, n: N, o: N)
    requires TableOk(t) && n in t.info && !Content(t, n) && o in t.info
    ensures o in FindAp(t, n).aps.members
    ensures FindAp(t, n).aps.members[o] ==
      Remove(t.aps.members[o], n) + if t.info[o].id.src == t.info[n].id.bssid then [n] else []
  {
    var ap := FindMac(t.order, t.info, t.info[n].id.bssid);
    FoundBy(t, t.info[n].id.bssid, o);
    Rerings(t.aps, n, ap, o);
  }

  lemma FoundBy<N, E>(t: Table<N, E>, mac: Mac, o: N)
    requires ListOk(t.order, t.info) && o in t.info
    ensures FindMac(t.order, t.info, mac) == Some(o) <==> t.info[o].id.src == mac
  {
    if t.info[o].id.src == mac {
      FindsOwner(t, o);
    }
  }

  lemma Rerings<N>(g: A.Aps<N>, n: N, ap: Option<N>, o: N)
    requires A.ApsOk(g) && o in g.members && (ap.Some? ==> ap.value in g.members)
    ensures var alone := if n in g.owner then Leave(g, n) else g;
      && o in alone.members && alone.members[o] == Remove(g.members[o], n)
      && (ap.Some? ==>
            && ap.value in alone.members
            && Join(alone, n, ap.value).members[o] == Remove(g.members[o], n) + if ap == Some(o) then [n] else [])
  {
    LeaveLeaves(g, n);
    if n !in g.owner {
      RemoveAbsent(g.members[o], n);
    }
  }

  // ----- ESSIDs -----

  /** Frames from which an ESSID is taken. */
  predicate Names(p: Packet) {
    !BadFcs(p) && p.ie.essid[0] != 0 && BeaconLike(p.hdr.wlanType)
  }

  /** uwifi_essids_update; n is NULL when the node update ignored the frame. */
  function EssidsUpdate<N, E>(t: Table<N, E>, p: Packet, n: Option<N>, spare: E): Table<N, E>
    requires TableOk(t) && (n.Some? ==> n.value in t.info)
    requires n.Some? && Names(p) ==> G.Vacant(t.ess, CStr(p.ie.essid), spare)
  {
    if n.None? || !Names(p) then t
    else t.(ess := G.Update(t.ess, CStr(p.ie.essid), n.value, spare, t.info))
  }

  /** uwifi_essids_remove_node */
  function EssidsRemoveNode<N, E>(t: Table<N, E>, n: N): Table<N, E>
    requires TableOk(t) && n in t.info
  {
    RemovableIn(t.ess, n, t.info);
    t.(ess := G.RemoveNode(t.ess, n, t.info))
  }

  lemma RemovableIn<N, E>(g: G.Essids<N, E>, n: N, who: map<N, Info>)
    requires G.Linked(g) && G.Known(g, who)
    ensures G.Removable(g, n, who)
  {
    if n in g.of.owner {
      G.MembersKnown(g, who, g.of.owner[n]);
    }
  }

  /**
   * An ESSID update keeps the table in order exactly if the name is storable, which every name that is terminated
   * inside its buffer is.
   */
  lemma EssidsUpdateKeeps<N, E>(t: Table<N, E>, p: Packet, n: Option<N>, spare: E)
    requires TableOk(t) && (n.Some? ==> n.value in t.info)
    requires n.Some? && Names(p) ==> G.Vacant(t.ess, CStr(p.ie.essid), spare)
    ensures TableOk(EssidsUpdate(t, p, n, spare)) <==>
      n.None? || !Names(p) || G.StorableName(t.ess, CStr(p.ie.essid), n.value)
    ensures 0 in p.ie.essid ==> TableOk(EssidsUpdate(t, p, n, spare))
  {
    if n.Some? && Names(p) {
      var name := CStr(p.ie.essid);
      G.UpdateKeeps(t.ess, name, n.value, spare, t.info);
      G.UpdateStays(t.ess, name, n.value, spare, t.info);
      if 0 in p.ie.essid {
        assert name != p.ie.essid;
        G.TerminatedIsStorable(t.ess, name, n.value);
      }
    }
  }

  /**
   * An ESSID update passes over frames without a node, with a bad FCS, without a name, and those that are neither a Beacon nor
   * a Probe Response; after any other frame the node is in the group of the name.
   */
  lemma NamesDecide<N, E>(t: Table<N, E>, p: Packet, n: Option<N>, spare: E)
    requires TableOk(t) && (n.Some? ==> n.value in t.info)
    requires n.Some? && Names(p) ==> G.Vacant(t.ess, CStr(p.ie.essid), spare)
    ensures var d := EssidsUpdate(t, p, n, spare);
      if n.None? || BadFcs(p) || CStr(p.ie.essid) == [] || p.hdr.wlanType !in {BEACON, PROBE_RESP} then d == t
      else
        && n.value in d.ess.of.owner && d.ess.of.owner[n.value] in d.ess.tags
        && d.ess.tags[d.ess.of.owner[n.value]].name in {CStr(p.ie.essid), G.Stored(CStr(p.ie.essid))}
  {
    if n.Some? && Names(p) {
      G.UpdateMoves(t.ess, CStr(p.ie.essid), n.value, spare, t.info);
    }
  }

  lemma EssidsRemoveNodeKeeps<N, E>(t: Table<N, E>, n: N)
    requires TableOk(t) && n in t.info
    ensures TableOk(EssidsRemoveNode(t, n)) && n !in EssidsRemoveNode(t, n).ess.of.owner
  {
    EssidsDrop(t.ess, n, t.info);
  }

  // ----- uwifi_nodes_timeout -----

  /** The unsigned 32-bit product timeout_sec * 1000000 */
  function Limit(sec: u32): u32 {
    U32(sec * 1000000)
  }

  predicate Stale(i: Info, now: u32, limit: u32) {
    U32(now - i.seen.lastSeen) > limit
  }

  /** Unlinks and frees node n; `who` are the records the split status is computed from. */
  function Drop<N, E>(t: Table<N, E>, n: N, who: map<N, Info>): Table<N, E>
    requires LinksOk(t) && n in t.info && t.info.Keys <= who.Keys
  {
    RemovableIn(t.ess, n, who);
    Table(Remove(t.order, n), t.info - {n}, A.Evict(t.aps, n), G.RemoveNode(t.ess, n, who))
  }

  lemma ListDrops<N>(order: seq<N>, info: map<N, Info>, n: N)
    requires ListOk(order, info)
    ensures ListOk(Remove(order, n), info - {n})
  {
    RemoveDistinct(order, n);
    forall m | m in Remove(order, n)
      ensures m in info - {n}
    {
      RemoveMember(order, n, m);
    }
    forall m | m in info - {n}
      ensures m in Remove(order, n)
    {
      RemoveMember(order, n, m);
    }
  }

  lemma EssidsDrop<N, E>(g: G.Essids<N, E>, n: N, who: map<N, Info>)
    requires G.EssidsOk(g) && G.NamesFit(g) && G.Known(g, who)
    ensures G.Removable(g, n, who)
    ensures var d := G.RemoveNode(g, n, who); G.EssidsOk(d) && G.NamesFit(d) && d.of.owner.Keys == g.of.owner.Keys - {n}
  {
    G.FullIsCounted(g);
    G.RemoveNodeRemoves(g, n, who);
    var d := G.RemoveNode(g, n, who);
    G.WithoutKeeps(g, d, n, who);
    G.WithoutNames(g, d, n, who);
  }

  lemma DropKeeps<N, E>(t: Table<N, E>, n: N, who: map<N, Info>)
    requires TableOk(t) && n in t.info && t.info.Keys <= who.Keys
    ensures TableOk(Drop(t, n, who))
  {
    ListDrops(t.order, t.info, n);
    A.EvictRemoves(t.aps, n);
    EssidsDrop(t.ess, n, who);
    assert (t.info - {n}).Keys == t.info.Keys - {n};
  }

  /** The loop of uwifi_nodes_timeout over the nodes ns. */
  function Sweep<N, E>(t: Table<N, E>, ns: seq<N>, now: u32, limit: u32, who: map<N, Info>): Table<N, E>
    requires TableOk(t) && Distinct(ns) && (forall n :: n in ns ==> n in t.info) && t.info.Keys <= who.Keys
    decreases |ns|
  {
    if ns == [] then t
    else if Stale(t.info[ns[0]], now, limit) then
      DropKeeps(t, ns[0], who);
      Sweep(Drop(t, ns[0], who), ns[1..], now, limit, who)
    else Sweep(t, ns[1..], now, limit, who)
  }

  datatype Swept<N(==), E(==)> = Swept(t: Table<N, E>, last: u32)

  /** uwifi_nodes_timeout: the new table and the new *last_nodetimeout. */
  function Timeout<N, E>(t: Table<N, E>, now: u32, sec: u32, last: u32): Swept<N, E>
    requires TableOk(t)
  {
    if U32(now - last) < Limit(sec) then Swept(t, last)
    else Swept(Sweep(t, t.order, now, Limit(sec), t.info), now)
  }

  /** d is t without the nodes in `gone`. */
  ghost predicate Without<N, E>(t: Table<N, E>, d: Table<N, E>, gone: set<N>, who: map<N, Info>) {
    && d.order == Keep(t.order, gone) && d.info == t.info - gone
    && A.Trimmed(t.aps, d.aps, gone) && G.Trimmed(t.ess, d.ess, gone, who)
  }

  /** The nodes whose wrapped age is above the limit. */
  ghost function Expired<N>(info: map<N, Info>, ns: seq<N>, now: u32, limit: u32): set<N>
    requires forall n :: n in ns ==> n in info
  {
    set n | n in ns && Stale(info[n], now, limit)
  }

  lemma DropWithout<N, E>(t0: Table<N, E>, t: Table<N, E>, gone: set<N>, n: N, who: map<N, Info>)
    requires TableOk(t0) && TableOk(t) && Without(t0, t, gone, who) && n in t.info && t.info.Keys <= who.Keys
    ensures TableOk(Drop(t, n, who)) && Without(t0, Drop(t, n, who), gone + {n}, who)
  {
    DropKeeps(t, n, who);
    PartsWithout(t0.order, t0.info, gone, n);
    A.EvictTrims(t0.aps, t.aps, gone, n);
    G.RemoveTrims(t0.ess, t.ess, gone, n, who);
  }

  lemma PartsWithout<N>(order: seq<N>, info: map<N, Info>, gone: set<N>, n: N)
    requires Distinct(order)
    ensures Remove(Keep(order, gone), n) == Keep(order, gone + {n}) && info - gone - {n} == info - (gone + {n})
  {
    RemoveKeep(order, gone, n);
  }

  /** Sweeping ns from t, which is t0 without the nodes in `gone`. */
  ghost predicate Sweeping<N, E>(t0: Table<N, E>, t: Table<N, E>, gone: set<N>, ns: seq<N>, who: map<N, Info>) {
    && TableOk(t0) && TableOk(t) && Without(t0, t, gone, who) && t.info.Keys <= who.Keys
    && Distinct(ns) && (forall n :: n in ns ==> n in t.info)
  }

  lemma SweepStep<N, E>(t0: Table<N, E>, t: Table<N, E>, gone: set<N>, ns: seq<N>, now: u32, limit: u32, who: map<N, Info>)
    requires ns != [] && Sweeping(t0, t, gone, ns, who) && Stale(t.info[ns[0]], now, limit)
    ensures Sweeping(t0, Drop(t, ns[0], who), gone + {ns[0]}, ns[1..], who)
    ensures gone + Expired(t.info, ns, now, limit) == gone + {ns[0]} + Expired(Drop(t, ns[0], who).info, ns[1..], now, limit)
  {
    DropWithout(t0, t, gone, ns[0], who);
    DropExpired(t.info, ns, now, limit);
  }

  lemma DropExpired<N>(info: map<N, Info>, ns: seq<N>, now: u32, limit: u32)
    requires ns != [] && Distinct(ns) && (forall n :: n in ns ==> n in info) && Stale(info[ns[0]], now, limit)
    ensures forall n :: n in ns[1..] ==> n in info - {ns[0]}
    ensures Expired(info, ns, now, limit) == {ns[0]} + Expired(info - {ns[0]}, ns[1..], now, limit)
  {
  }

  lemma SkipStep<N, E>(t0: Table<N, E>, t: Table<N, E>, gone: set<N>, ns: seq<N>, now: u32, limit: u32, who: map<N, Info>)
    requires ns != [] && Sweeping(t0, t, gone, ns, who) && !Stale(t.info[ns[0]], now, limit)
    ensures Sweeping(t0, t, gone, ns[1..], who)
    ensures Expired(t.info, ns, now, limit) == Expired(t.info, ns[1..], now, limit)
  {
  }

  lemma {:induction false} SweepDrops<N, E>(t0: Table<N, E>, t: Table<N, E>, gone: set<N>, ns: seq<N>,
                                            now: u32, limit: u32, who: map<N, Info>)
    requires Sweeping(t0, t, gone, ns, who)
    ensures var d := Sweep(t, ns, now, limit, who);
      TableOk(d) && Without(t0, d, gone + Expired(t.info, ns, now, limit), who)
    decreases |ns|
  {
    if ns == [] {
      assert gone + Expired(t.info, ns, now, limit) == gone;
    } else if Stale(t.info[ns[0]], now, limit) {
      SweepStep(t0, t, gone, ns, now, limit, who);
      SweepDrops(t0, Drop(t, ns[0], who), gone + {ns[0]}, ns[1..], now, limit, who);
    } else {
      SkipStep(t0, t, gone, ns, now, limit, who);
      SweepDrops(t0, t, gone, ns[1..], now, limit, who);
    }
  }

  lemma WithoutNone<N, E>(t: Table<N, E>)
    requires TableOk(t)
    ensures Without(t, t, {}, t.info)
  {
    KeepAll(t.order, {});
    A.TrimmedNone(t.aps);
    G.TrimmedNone(t.ess, t.info);
    assert t.info - {} == t.info;
  }

  /**
   * A sweep that passes its gate leaves exactly the nodes whose wrapped age is at most the limit, in their order,
   * with every ring, group and pointer reduced accordingly.
   */
  lemma TimeoutEvicts<N, E>(t: Table<N, E>, now: u32, sec: u32, last: u32)
    requires TableOk(t)
    ensures var r := Timeout(t, now, sec, last);
      && TableOk(r.t)
      && if U32(now - last) < Limit(sec) then r == Swept(t, last)
         else r.last == now && Without(t, r.t, Expired(t.info, t.order, now, Limit(sec)), t.info)
  {
    WithoutNone(t);
    SweepDrops(t, t, {}, t.order, now, Limit(sec), t.info);
    assert {} + Expired(t.info, t.order, now, Limit(sec)) == Expired(t.info, t.order, now, Limit(sec));
  }

  /** Who survives a timeout call. */
  lemma TimeoutSurvivors<N, E>(t: Table<N, E>, now: u32, sec: u32, last: u32)
    requires TableOk(t)
    ensures var r := Timeout(t, now, sec, last);
      && r.last == (if U32(now - last) < Limit(sec) then last else now)
      && r.t.info == t.info - (if U32(now - last) < Limit(sec) then {} else set n | n in t.info && Stale(t.info[n], now, Limit(sec)))
  {
    TimeoutEvicts(t, now, sec, last);
    if U32(now - last) < Limit(sec) {
      assert t.info - {} == t.info;
    } else {
      assert Expired(t.info, t.order, now, Limit(sec)) == set n | n in t.info && Stale(t.info[n], now, Limit(sec));
    }
  }

  /** Nobody that is left has a pointer to a node or group that is gone, or such a node on a ring. */
  lemma NobodyMentionsGone<N, E>(t: Table<N, E>, d: Table<N, E>, gone: set<N>, who: map<N, Info>)
    requires TableOk(t) && TableOk(d) && Without(t, d, gone, who)
    ensures forall n :: n in gone ==> n !in d.order && n !in d.info
    ensures forall n :: n in d.aps.owner ==> n !in gone && d.aps.owner[n] !in gone
    ensures forall a, n :: a in d.info && n in d.aps.members[a] ==> n !in gone
    ensures forall n :: n in d.ess.of.owner ==> n !in gone && d.ess.of.owner[n] in d.ess.tags
    ensures forall e, n :: e in d.ess.tags && n in d.ess.of.members[e] ==> n !in gone
    ensures forall e :: e in t.ess.tags ==> (e in d.ess.tags <==> exists n :: n in t.ess.of.members[e] && n !in gone)
  {
    KeepMembers(t.order, gone);
    forall a, n | a in d.info && n in d.aps.members[a]
      ensures n !in gone
    {
      KeepMembers(t.aps.members[a], gone);
    }
    forall e, n | e in d.ess.tags && n in d.ess.of.members[e]
      ensures n !in gone
    {
      KeepMembers(t.ess.of.members[e], gone);
    }
    forall e | e in t.ess.tags
      ensures e in d.ess.tags <==> exists n :: n in t.ess.of.members[e] && n !in gone
    {
      SomeoneKept(t.ess.of.members[e], gone);
    }
  }

  lemma SomeoneKept<T>(s: seq<T>, gone: set<T>)
    ensures Keep(s, gone) != [] <==> exists x :: x in s && x !in gone
  {
    KeepMembers(s, gone);
    if Keep(s, gone) != [] {
      assert Keep(s, gone)[0] in Keep(s, gone);
    }
  }
}
