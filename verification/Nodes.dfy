/** struct uwifi_node and struct essid_info, and how copy_nodeinfo and copy_rx_nodeinfo fill in a node. */
module Nodes {
  import opened CcList
  import Ewma
  import opened NodeInfo
  import opened Options
  import opened Wlan

  class Essid {
    const list: Link
    const nodes: Link
    var essid: EssidBuf
    var numNodes: int
    var split: bool

    /** A cleared ESSID, on no ring yet. */
    constructor ()
      ensures essid == NO_ESSID && numNodes == 0 && !split
      ensures fresh(list) && fresh(nodes) && list.ring == null && nodes.ring == null
      ensures Own()
    {
      list := new Link(4);
      nodes := new Link(5);
      essid, numNodes, split := NO_ESSID, 0, false;
      new;
      list.obj, nodes.obj := this, this;
    }

    /** The plain fields are as before. */
    twostate predicate Same()
      reads this
    {
      essid == old(essid) && numNodes == old(numNodes) && split == old(split)
    }

    /** The links inside this ESSID lead back to it; different offsets keep them apart. */
    ghost predicate Own()
      reads list`obj, nodes`obj
    {
      list.obj == this && nodes.obj == this && list.offset == 4 && nodes.offset == 5
    }
  }

  /** struct uwifi_node; plain fields that are read and written together are grouped in records. */
  class Node {
    const list: Link
    const essidNodes: Link
    const apNodes: Link
    const apList: Link
    var apNode: Node?
    var essid: Essid?

    var id: Ident
    var seen: Seen
    var phyRateLast: u32
    var phySigLast: int
    var phySigMax: int
    const phySigAvg: Ewma.Ewma
    var phySigSum: Ewma.u64
    var phySigCount: int
    var retries: Retries
    var beacon: BeaconInfo
    var misc: Misc

    /** A cleared node, on no ring yet, with its signal average set up. */
    constructor ()
      ensures fresh(list) && fresh(essidNodes) && fresh(apNodes) && fresh(apList) && fresh(phySigAvg)
      ensures list.ring == null && essidNodes.ring == null && apNodes.ring == null && apList.ring == null
      ensures apNode == null && essid == null
      ensures Own() && Record() == ZERO_INFO
    {
      list := new Link(0);
      essidNodes := new Link(1);
      apNodes := new Link(2);
      apList := new Link(3);
      apNode, essid := null, null;
      id, seen := Ident(NO_MAC, NO_MAC, {}, 0), Seen(0, {}, 0, 0, false);
      phyRateLast, phySigLast, phySigMax, phySigSum, phySigCount := 0, 0, 0, 0, 0;
      retries, beacon := Retries(0, 0, 0), BeaconInfo(0, 0, false, false);
      misc := Misc(false, 0, 0, 0, 0, false, false, 0, 0, 0);
      phySigAvg := new Ewma.Ewma(1024, 8);
      new;
      list.obj, essidNodes.obj, apNodes.obj, apList.obj := this, this, this, this;
      phySigAvg.owner := this;
      Powers();
    }

    /** The links and the average inside this node lead back to it; different offsets keep the links apart. */
    ghost predicate Own()
      reads list`obj, essidNodes`obj, apNodes`obj, apList`obj, phySigAvg`owner, phySigAvg`factor, phySigAvg`weight
    {
      && list.obj == essidNodes.obj == apNodes.obj == apList.obj == this && phySigAvg.owner == this
      && list.offset == 0 && essidNodes.offset == 1 && apNodes.offset == 2 && apList.offset == 3
      && phySigAvg.factor == SIG_FACTOR && phySigAvg.weight == SIG_WEIGHT
    }

    ghost function SignalOf(): Signal
      reads `phyRateLast, `phySigLast, `phySigMax, phySigAvg`internal, `phySigSum, `phySigCount
    {
      Signal(phyRateLast, phySigLast, phySigMax, phySigAvg.internal, phySigSum, phySigCount)
    }

    /** The plain fields as one value. */
    ghost function Record(): Info
      reads `id, `seen, `retries, `beacon, `misc
      reads `phyRateLast, `phySigLast, `phySigMax, phySigAvg`internal, `phySigSum, `phySigCount
    {
      Info(id, seen, SignalOf(), retries, beacon, misc)
    }

    /** The plain fields, and what the average belongs to, are as before. */
    twostate predicate SameRecord()
      reads this, phySigAvg
    {
      && Record() == old(Record())
      && phySigAvg.owner == old(phySigAvg.owner)
      && phySigAvg.factor == old(phySigAvg.factor) && phySigAvg.weight == old(phySigAvg.weight)
    }

    /** The pointers, too. */
    twostate predicate Same()
      reads this, phySigAvg
    {
      SameRecord() && apNode == old(apNode) && essid == old(essid)
    }

    ghost function ApChannel(): Option<u32>
      reads `apNode, if apNode == null then {} else {apNode}
    {
      if apNode == null then None else Some(apNode.id.channel)
    }

    // ----- copy_nodeinfo -----

    /** Address, BSSID and mode. */
    method CopyAddress(p: Packet)
      modifies `id
      ensures id == Ident(p.addr.ta, if p.addr.bssid != NO_MAC then p.addr.bssid else old(id.bssid),
                          old(id.mode) + p.hdr.mode, old(id.channel))
    {
      id := id.(src := p.addr.ta);
      if p.addr.bssid != NO_MAC {
        id := id.(bssid := p.addr.bssid);
      }
      if p.hdr.mode != {} {
        id := id.(mode := id.mode + p.hdr.mode);
      }
    }

    /** The channel depends on the new mode and on the AP. */
    method CopyChannel(p: Packet)
      modifies `id
      ensures id == old(id).(channel := ChannelAfter(old(id.mode), old(id.channel), p, BeaconLike(p.hdr.wlanType), old(ApChannel())))
    {
      if p.hdr.wlanType == BEACON || p.hdr.wlanType == PROBE_RESP {
        id := id.(channel := p.ie.channel);
      } else if id.mode * WLAN_MODE_STA != {} && apNode != null {
        id := id.(channel := apNode.id.channel);
      } else if id.channel == 0 && p.ie.channel != 0 {
        id := id.(channel := p.ie.channel);
      }
    }

    /** An AP that is the node itself keeps its channel while the other fields change. */
    method CopyIdent(p: Packet)
      modifies `id
      ensures id == TxIdent(old(id), p, old(ApChannel()))
    {
      CopyAddress(p);
      CopyChannel(p);
    }

    method CopySeen(p: Packet, now: u32)
      modifies `seen
      ensures seen == TxSeen(old(seen), p, now)
    {
      seen := seen.(rxOnly := false);
      seen := seen.(lastSeen := now);
      seen := seen.(pktCount := U32(seen.pktCount + 1));
      seen := seen.(pktTypes := seen.pktTypes + p.meta.pktTypes);
    }

    method CopySignal(p: Packet)
      requires phySigAvg.factor == SIG_FACTOR && phySigAvg.weight == SIG_WEIGHT
      modifies `phyRateLast, `phySigLast, `phySigMax, `phySigSum, `phySigCount, phySigAvg`internal
      ensures SignalOf() == TxSignal(old(SignalOf()), p)
    {
      phyRateLast := p.meta.rate;
      phySigLast := p.meta.signal;
      phySigAvg.Add(Sample(p.meta.signal));
      phySigSum := Ewma.Word(phySigSum + -p.meta.signal);
      phySigCount := phySigCount + 1;
      if p.meta.signal > phySigMax || phySigMax == 0 {
        phySigMax := p.meta.signal;
      }
    }

    method CopyRetries(p: Packet)
      modifies `retries
      ensures retries == TxRetries(old(retries), p)
    {
      if p.hdr.seqno != 0 {
        if p.hdr.retry && p.hdr.seqno == retries.seqno {
          retries := retries.(all := U32(retries.all + 1));
          retries := retries.(last := U32(retries.last + 1));
        } else {
          retries := retries.(last := 0);
        }
        retries := retries.(seqno := p.hdr.seqno);
      }
    }

    method CopyBeacon(p: Packet)
      modifies `beacon
      ensures beacon == TxBeacon(old(beacon), p)
    {
      if p.hdr.wlanType == BEACON || p.hdr.wlanType == PROBE_RESP {
        beacon := BeaconInfo(p.tsf, p.bintval, p.ie.wpa, p.ie.rsn);
      }
    }

    /** IP, OLSR and batman news. */
    method CopyPayload(p: Packet)
      modifies `misc
      ensures misc == old(misc).(batGw := p.meta.batGw || old(misc.batGw), ipSrc := Newer(p.meta.ipSrc, old(misc.ipSrc)),
                                 olsrNeigh := Newer(p.meta.olsrNeigh, old(misc.olsrNeigh)),
                                 olsrTc := Newer(p.meta.olsrTc, old(misc.olsrTc)))
    {
      if p.meta.ipSrc != 0 {
        misc := misc.(ipSrc := p.meta.ipSrc);
      }
      if p.meta.olsrTc != 0 {
        misc := misc.(olsrTc := p.meta.olsrTc);
      }
      if p.meta.olsrNeigh != 0 {
        misc := misc.(olsrNeigh := p.meta.olsrNeigh);
      }
      if p.meta.batGw {
        misc := misc.(batGw := true);
      }
    }

    /** Capabilities from the elements. */
    method CopyHt(p: Packet)
      modifies `misc
      ensures misc == old(misc).(ht40plus := p.ie.ht40plus || old(misc.ht40plus),
                                 chanWidth := Max(p.ie.chanWidth, old(misc.chanWidth)),
                                 txStreams := Newer(p.ie.txStreams, old(misc.txStreams)),
                                 rxStreams := Newer(p.ie.rxStreams, old(misc.rxStreams)))
    {
      if p.ie.ht40plus {
        misc := misc.(ht40plus := true);
      }
      if p.ie.txStreams != 0 {
        misc := misc.(txStreams := p.ie.txStreams);
      }
      if p.ie.rxStreams != 0 {
        misc := misc.(rxStreams := p.ie.rxStreams);
      }
      if p.ie.chanWidth > misc.chanWidth {
        misc := misc.(chanWidth := p.ie.chanWidth);
      }
    }

    method CopyWep(p: Packet)
      modifies `misc
      ensures misc == old(misc).(wep := if TellsWep(p.hdr.wlanType) then p.hdr.wep else old(misc.wep))
    {
      var t := p.hdr.wlanType;
      if t == DATA || t == QDATA || t == AUTH || t == BEACON || t == PROBE_RESP
         || t == DATA_CF_ACK || t == DATA_CF_POLL || t == DATA_CF_ACKPOLL
         || t == QDATA_CF_ACK || t == QDATA_CF_POLL || t == QDATA_CF_ACKPOLL {
        misc := misc.(wep := p.hdr.wep);
      }
    }

    /** The standard: the best of three guesses, unless an earlier frame had a better one. */
    method CopyStd(p: Packet)
      modifies `misc
      ensures misc == old(misc).(std := Max(old(misc.std), GuessStd(p)))
    {
      var chstd := StdFromChan(p.ie.chanWidth, p.ie.channel);
      var rstd := StdFromRate(p.meta.rateIdx, p.ie.channel);
      var ptstd := StdFromType(p.hdr.wlanType);
      var mstd := Max(chstd, rstd);
      mstd := Max(mstd, ptstd);
      misc := misc.(std := Max(misc.std, mstd));
    }

    method CopyMisc(p: Packet)
      modifies `misc
      ensures misc == TxMisc(old(misc), p)
    {
      CopyPayload(p);
      CopyHt(p);
      CopyWep(p);
      CopyStd(p);
    }

    /** copy_nodeinfo, group by group; `now` is plat_time_usec(). */
    method CopyNodeinfo(p: PacketRef, now: u32)
      requires Own()
      modifies `id, `seen, `retries, `beacon, `misc, p
      modifies `phyRateLast, `phySigLast, `phySigMax, phySigAvg`internal, `phySigSum, `phySigCount
      ensures Record() == Tx(old(Record()), old(p.v), now, old(ApChannel()))
      ensures p.v == old(p.v).(retries := Record().retries.last)
    {
      CopyIdent(p.v);
      CopySeen(p.v, now);
      CopyMisc(p.v);
      CopyBeacon(p.v);
      CopySignal(p.v);
      CopyRetries(p.v);
      p.v := p.v.(retries := retries.last);
    }

    // ----- copy_rx_nodeinfo -----

    method CopyRxIdent(p: Packet)
      modifies `id
      ensures id == RxIdent(old(id), p, old(ApChannel()))
    {
      id := id.(src := p.addr.ra);
      if p.addr.bssid != NO_MAC {
        id := id.(bssid := p.addr.bssid);
      }
      if p.hdr.mode == WLAN_MODE_AP {
        id := id.(mode := WLAN_MODE_STA);
      } else if p.hdr.mode == WLAN_MODE_STA {
        id := id.(mode := WLAN_MODE_AP);
      } else if p.hdr.mode == WLAN_MODE_IBSS {
        id := id.(mode := WLAN_MODE_IBSS);
      }
      if id.mode * WLAN_MODE_STA != {} && apNode != null {
        id := id.(channel := apNode.id.channel);
      } else if id.channel == 0 && p.ie.channel != 0 {
        id := id.(channel := p.ie.channel);
      }
    }

    method CopyRxSeen(p: Packet, now: u32)
      modifies `seen
      ensures seen == RxSeen(old(seen), p, now)
    {
      seen := seen.(lastSeen := now);
      seen := seen.(rxPktCount := U32(seen.rxPktCount + 1));
      seen := seen.(pktTypes := seen.pktTypes + p.meta.pktTypes);
    }

    /** copy_rx_nodeinfo */
    method CopyRxNodeinfo(p: Packet, now: u32)
      modifies `id, `seen, `misc
      ensures Record() == Rx(old(Record()), p, now, old(ApChannel()))
    {
      CopyRxIdent(p);
      CopyRxSeen(p, now);
      CopyWep(p);
    }
  }

  /** A field that keeps its value when the frame has nothing to say. */
  function Newer(news: nat, known: nat): nat {
    if news != 0 then news else known
  }

  lemma Powers()
    ensures Ewma.Pow2(SIG_FACTOR) == 1024 && Ewma.Pow2(SIG_WEIGHT) == 8
  {
    assert Ewma.Pow2(5) == 32;
  }
}
