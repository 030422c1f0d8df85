/** The node updates of core/node.c on the heap. */
module HeapNodes {
  import opened CcList
  import opened HeapView
  import opened Membership
  import opened NodeInfo
  import opened Nodes
  import opened Options
  import opened Wlan
  import Ewma
  import T = Table

  // ----- node updates -----

  ghost function PartsOf(n: Node): set<object> {
    {n, n.list, n.essidNodes, n.apNodes, n.apList, n.phySigAvg}
  }

  /** A cleared node with its average and its list of stations set up, marked if it was first heard of as a receiver. */
  method NewNode(sent: bool) returns (n: Node)
    ensures fresh(PartsOf(n))
    ensures n.Own() && n.list.ring == null && n.essidNodes.ring == null && n.apList.ring == null && StationRing(n.apNodes, [])
    ensures n.apNode == null && n.essid == null && n.Record() == Fresh(sent)
  {
    n := new Node();
    HeadInit(n.apNodes);
    if !sent {
      n.seen := n.seen.(rxOnly := true);
    }
  }

  lemma ListReady(v: View)
    requires Check(v).Intact?
    ensures Within(v.nodes, v.all) && ListRing(v.nodes, v.t.order) && v.nodes.prev in v.all && v.nodes.next in v.all
    ensures v.nodes.offset == 6
    ensures forall i :: 0 <= i < |v.t.order| ==> v.t.order[i].list.next in v.all && v.t.order[i].list.prev in v.all
  {
    RingIn(v.nodes, v.all);
    assert forall i :: 0 <= i < |v.t.order| ==> v.nodes.elems[i] == v.t.order[i].list;
  }

  method LinkNode(n: Node, nodes: Link, ghost ns: seq<Node>, ghost i: Info, ghost o: Scene)
    requires Within(nodes, o.v.all) && ListRing(nodes, ns) && nodes == o.v.nodes == o.h && nodes.offset == 6
    requires n.list in o.v.all && n.apNodes in o.v.all && o.l == n.list
    requires NodeAt(n, null, null, null, i) && StationRing(n.apNodes, [])
    modifies nodes`prev, nodes`elems, nodes.prev`next, n.list`next, n.list`prev, n.list`ring
    ensures Within(nodes, o.v.all) && ListRing(nodes, ns + [n]) && NodeAt(n, nodes, null, null, i)
    ensures Within(n.apNodes, o.v.all) && StationRing(n.apNodes, [])
    ensures Effect(o, n, null).LinksOnly?
  {
    AddTail(nodes, n.list);
  }

  /** The table with a new node at the end of the list. */
  ghost function Added(t: Model, n: Node, i: Info): Model {
    T.Table(t.order + [n], t.info[n := i], Born(t.aps, n), t.ess)
  }

  lemma AddedOthers(v: View, w: View, n: Node, i: Info)
    requires w == v.(t := Added(v.t, n, i)) && n !in v.t.info && n !in v.t.aps.owner && n !in v.t.ess.of.owner
    requires forall m :: m in v.t.info ==> NodeIsAt(v.t, v.nodes, m) && NodeIn(m, v.all)
    requires NodeAt(n, v.nodes, null, null, i) && NodeIn(n, v.all)
    ensures NodesAt(w)
  {
    assert n == w.t.order[|v.t.order|];
    forall m | m in w.t.info
      ensures NodeIsAt(w.t, w.nodes, m) && NodeIn(m, w.all)
    {
      if m != n {
        assert NodeIsAt(v.t, v.nodes, m);
      }
    }
  }

  lemma AddedRings(v: View, w: View, n: Node, i: Info)
    requires w == v.(t := Added(v.t, n, i)) && n !in v.t.aps.members && NodeIn(n, v.all)
    requires Within(n.apNodes, v.all) && StationRing(n.apNodes, [])
    requires StationsAt(v) && EssidsAt(v) && GroupsAt(v) && Within(v.essids, v.all) && EssidRing(v.essids, v.t.ess.ring)
    requires Within(w.nodes, w.all) && ListRing(w.nodes, w.t.order)
    requires v.nodes.offset == 6 && v.essids.offset == 7 && v.nodes in v.all && v.essids in v.all
    ensures EssidsAt(w) && StationsAt(w) && GroupsAt(w) && ListsAt(w)
  {
  }

  twostate lemma NodeAdded(o: Scene, new n: Node, new i: Info, new w: View)
    requires old(Check(o.v)).Intact? && Effect(o, n, null).LinksOnly? && o.h == o.v.nodes && o.l.obj == n
    requires w == o.v.(t := Added(o.v.t, n, i)) && NodeIn(n, o.v.all)
    requires n !in o.v.t.info && n !in o.v.t.aps.owner && n !in o.v.t.ess.of.owner && n !in o.v.t.aps.members
    requires Within(w.nodes, w.all) && ListRing(w.nodes, w.t.order) && NodeAt(n, w.nodes, null, null, i)
    requires Within(n.apNodes, w.all) && StationRing(n.apNodes, [])
    ensures Check(w).Intact?
  {
    OthersStay(o, n, null, null, null);
    assert StationsAt(o.v);
    AddedOthers(o.v, w, n, i);
    AddedRings(o.v, w, n, i);
  }

  /** A new node becomes the last one on the list. */
  method EnlistNode(n: Node, nodes: Link, ghost i: Info, ghost v: View) returns (ghost w: View)
    requires Check(v).Intact? && nodes == v.nodes && n !in v.t.info && n !in v.t.aps.members
    requires n !in v.t.aps.owner && n !in v.t.ess.of.owner && forall m :: m in v.t.order ==> m in v.t.info
    requires NodeAt(n, null, null, null, i) && StationRing(n.apNodes, [])
    modifies v.all, n.list
    ensures Check(w).Intact? && w == View(Added(v.t, n, i), v.nodes, v.essids, v.all + PartsOf(n))
  {
    ghost var v1 := v.(all := v.all + PartsOf(n));
    ghost var o := Scene(v1, nodes, n.list);
    MayGrow(v, v1.all);
    ListReady(v);
    w := v1.(t := Added(v.t, n, i));
    LinkNode(n, nodes, v.t.order, i, o);
    NodeAdded(o, n, i, w);
  }

  /** Nobody has heard of a new node. */
  ghost predicate Closed(t: Model) {
    && (forall n :: n in t.order ==> n in t.info) && t.aps.members.Keys == t.info.Keys
    && t.aps.owner.Keys <= t.info.Keys && t.ess.of.owner.Keys <= t.info.Keys
    && (forall n :: n in t.aps.owner ==> t.aps.owner[n] in t.info)
  }

  lemma TableIsClosed(t: Model)
    requires T.TableOk(t)
    ensures Closed(t)
  {
  }

  /** n is in the table exactly if the address is. */
  ghost predicate NewIfUnknown(t: Model, mac: Mac, n: Node)
    requires forall m :: m in t.order ==> m in t.info
  {
    n in t.info <==> T.FindMac(t.order, t.info, mac).Some?
  }

  /** A new node at the end of the list. */
  method AddNode(nodes: Link, sent: bool, ghost v: View) returns (n: Node, ghost w: View)
    requires Check(v).Intact? && Closed(v.t) && nodes == v.nodes
    modifies v.all
    ensures Check(w).Intact? && fresh(n) && n !in v.t.info && v.all <= w.all && fresh(w.all - v.all)
    ensures w == View(Added(v.t, n, Fresh(sent)), v.nodes, v.essids, w.all)
  {
    n := NewNode(sent);
    w := EnlistNode(n, nodes, Fresh(sent), v);
  }

  /** The node of a MAC address: found, or new at the end of the list. */
  method FindOrAdd(nodes: Link, mac: Mac, sent: bool, ghost v: View) returns (n: Node, ghost w: View)
    requires Check(v).Intact? && Closed(v.t) && nodes == v.nodes
    modifies v.all
    ensures Check(w).Intact? && fresh(w.all - v.all) && v.all <= w.all
    ensures var r := T.FindMac(v.t.order, v.t.info, mac);
      if r.Some? then n == r.value && w == v
      else fresh(n) && n !in v.t.info && w == View(Added(v.t, n, Fresh(sent)), v.nodes, v.essids, w.all)
  {
    var found := FindNode(nodes, mac, v);
    if found == null {
      n, w := AddNode(nodes, sent, v);
    } else {
      n, w := found, v;
    }
  }

  /** Whether the record of n is now i, and nothing else of the table changed. */
  twostate function Written(v: View, new n: Node, new i: Info): Extent
    reads v.all
  {
    if && NodeIn(n, v.all) && n.Own() && n.Record() == i && n.apNode == old(n.apNode) && n.essid == old(n.essid)
       && (forall g: Link :: g in v.all ==> unchanged(g))
       && (forall m: Node :: m in v.all && m != n ==> unchanged(m))
       && (forall f: Essid :: f in v.all ==> unchanged(f))
       && (forall a: Ewma.Ewma :: a in v.all && a != n.phySigAvg ==> unchanged(a)) then LinksOnly else More
  }

  twostate lemma NodeWritten(v: View, new n: Node, new i: Info, new w: View)
    requires old(NodesAt(v)) && n in v.t.info && Written(v, n, i).LinksOnly? && w == v.(t := v.t.(info := v.t.info[n := i]))
    ensures NodeIsAt(w.t, w.nodes, n)
  {
    assert old(NodeIsAt(v.t, v.nodes, n));
  }

  twostate lemma OtherWritten(v: View, new n: Node, new i: Info, new w: View, new m: Node)
    requires old(NodesAt(v)) && n in v.t.info && Written(v, n, i).LinksOnly? && w == v.(t := v.t.(info := v.t.info[n := i]))
    requires m in v.t.info && m != n
    ensures NodeIsAt(w.t, w.nodes, m) && NodeIn(m, w.all)
  {
    assert old(NodeIsAt(v.t, v.nodes, m)) && NodeIn(m, v.all);
    assert m.phySigAvg.owner == m;
  }

  twostate lemma RecordWritten(v: View, new n: Node, new i: Info, new w: View)
    requires old(Check(v)).Intact? && n in v.t.info && Written(v, n, i).LinksOnly?
    requires w == v.(t := v.t.(info := v.t.info[n := i]))
    ensures Check(w).Intact?
  {
    forall m | m in w.t.info
      ensures NodeIsAt(w.t, w.nodes, m) && NodeIn(m, w.all)
    {
      if m == n {
        NodeWritten(v, n, i, w);
      } else {
        OtherWritten(v, n, i, w, m);
      }
    }
    assert NodesAt(w);
    RingsWritten(v, n, i, w);
  }

  twostate lemma RingsWritten(v: View, new n: Node, new i: Info, new w: View)
    requires old(Check(v)).Intact? && n in v.t.info && Written(v, n, i).LinksOnly?
    requires w == v.(t := v.t.(info := v.t.info[n := i]))
    ensures StationsAt(w) && GroupsAt(w) && ListsAt(w) && EssidsAt(w)
  {
    forall a | a in v.t.aps.members
      ensures Within(a.apNodes, v.all) && StationRing(a.apNodes, v.t.aps.members[a])
    {
      assert NodeIn(a, v.all);
    }
    forall e | e in v.t.ess.of.members
      ensures Within(e.nodes, v.all) && GroupRing(e.nodes, v.t.ess.of.members[e])
    {
      assert EssidIn(e, v.all);
    }
  }

  /** copy_nodeinfo on a node of the table */
  method WriteSent(n: Node, p: PacketRef, now: u32, ghost v: View)
    requires NodeIn(n, v.all) && n.Own()
    modifies n`id, n`seen, n`retries, n`beacon, n`misc, p
    modifies n`phyRateLast, n`phySigLast, n`phySigMax, n.phySigAvg`internal, n`phySigSum, n`phySigCount
    ensures Written(v, n, After(old(n.Record()), Frame(true, old(p.v), now, old(n.ApChannel())))).LinksOnly?
    ensures p.v == old(p.v).(retries := n.Record().retries.last)
  {
    n.CopyNodeinfo(p, now);
  }

  /** copy_rx_nodeinfo on a node of the table */
  method WriteReceived(n: Node, p: Packet, now: u32, ghost v: View)
    requires NodeIn(n, v.all) && n.Own()
    modifies n`id, n`seen, n`misc
    ensures Written(v, n, After(old(n.Record()), Frame(false, p, now, old(n.ApChannel())))).LinksOnly?
  {
    n.CopyRxNodeinfo(p, now);
  }

  lemma NodeParts(v: View, n: Node)
    requires Check(v).Intact? && n in v.t.info
    ensures n.Own() && NodeIn(n, v.all)
  {
    assert NodeIsAt(v.t, v.nodes, n);
  }

  /** The table with one more frame recorded at n. */
  ghost function Recorded(t: Model, n: Node, f: Frame): Model
    requires n in t.info
  {
    t.(info := t.info[n := After(t.info[n], f)])
  }

  method RecordSent(n: Node, p: PacketRef, now: u32, ghost v: View) returns (ghost w: View)
    requires Check(v).Intact? && Closed(v.t) && n in v.t.info && p !in v.all
    modifies v.all, p
    ensures Check(w).Intact? && w == v.(t := Recorded(v.t, n, Frame(true, old(p.v), now, T.ApChannel(v.t.aps, v.t.info, n))))
    ensures p.v == old(p.v).(retries := w.t.info[n].retries.last)
  {
    NodeParts(v, n);
    RecordFacts(v, n);
    ghost var i := After(v.t.info[n], Frame(true, p.v, now, T.ApChannel(v.t.aps, v.t.info, n)));
    w := v.(t := v.t.(info := v.t.info[n := i]));
    WriteSent(n, p, now, v);
    RecordWritten(v, n, i, w);
  }

  method RecordReceived(n: Node, p: Packet, now: u32, ghost v: View) returns (ghost w: View)
    requires Check(v).Intact? && Closed(v.t) && n in v.t.info
    modifies v.all
    ensures Check(w).Intact? && w == v.(t := Recorded(v.t, n, Frame(false, p, now, T.ApChannel(v.t.aps, v.t.info, n))))
  {
    NodeParts(v, n);
    RecordFacts(v, n);
    ghost var i := After(v.t.info[n], Frame(false, p, now, T.ApChannel(v.t.aps, v.t.info, n)));
    w := v.(t := v.t.(info := v.t.info[n := i]));
    WriteReceived(n, p, now, v);
    RecordWritten(v, n, i, w);
  }

  /** Recording at the found or added node is what T.Record does. */
  lemma AddedRecorded(t: Model, mac: Mac, sent: bool, p: Packet, now: u32, n: Node)
    requires Closed(t) && (T.FindMac(t.order, t.info, mac).None? ==> n !in t.info)
    requires T.FindMac(t.order, t.info, mac).Some? ==> n == T.FindMac(t.order, t.info, mac).value
    ensures var t1 := if T.FindMac(t.order, t.info, mac).Some? then t else Added(t, n, Fresh(sent));
      && Closed(t1) && n in t1.info
      && Recorded(t1, n, Frame(sent, p, now, T.ApChannel(t1.aps, t1.info, n))) == T.Record(t, mac, sent, p, now, n)
  {
    if T.FindMac(t.order, t.info, mac).None? {
      var i := After(Fresh(sent), Frame(sent, p, now, None));
      assert t.info[n := Fresh(sent)][n := i] == t.info[n := i];
    }
  }

  /** uwifi_node_update; `now` is plat_time_usec() */
  method NodeUpdate(p: PacketRef, nodes: Link, now: u32, ghost v: View) returns (n: Node?, ghost w: View)
    requires Check(v).Intact? && T.TableOk(v.t) && nodes == v.nodes && p !in v.all
    modifies v.all, p
    ensures Check(w).Intact? && fresh(w.all - v.all) && v.all <= w.all
    ensures !T.Sends(old(p.v)) ==> n == null && w == v && p.v == old(p.v)
    ensures T.Sends(old(p.v)) ==>
      && n != null && n == T.Heard(v.t, old(p.v).addr.ta, n) && NewIfUnknown(v.t, old(p.v).addr.ta, n) && n in w.t.info
      && (T.FindMac(v.t.order, v.t.info, old(p.v).addr.ta).None? ==> fresh(n))
      && w == View(T.NodeUpdate(v.t, old(p.v), now, n), v.nodes, v.essids, w.all)
      && p.v == old(p.v).(retries := w.t.info[n].retries.last)
  {
    w := v;
    if p.v.meta.flags * PHY_FLAG_BADFCS != {} {
      return null, v;
    }
    if p.v.addr.ta == NO_MAC {
      return null, v;
    }
    TableIsClosed(v.t);
    n, w := HearFrom(p, nodes, now, v);
  }

  method HearFrom(p: PacketRef, nodes: Link, now: u32, ghost v: View) returns (n: Node, ghost w: View)
    requires Check(v).Intact? && Closed(v.t) && nodes == v.nodes && p !in v.all
    modifies v.all, p
    ensures Check(w).Intact? && fresh(w.all - v.all) && v.all <= w.all
    ensures n == T.Heard(v.t, old(p.v).addr.ta, n) && NewIfUnknown(v.t, old(p.v).addr.ta, n) && n in w.t.info
    ensures T.FindMac(v.t.order, v.t.info, old(p.v).addr.ta).None? ==> fresh(n)
    ensures w == View(T.Record(v.t, old(p.v).addr.ta, true, old(p.v), now, n), v.nodes, v.essids, w.all)
    ensures p.v == old(p.v).(retries := w.t.info[n].retries.last)
  {
    ghost var q := p.v;
    n, w := FindOrAdd(nodes, p.v.addr.ta, true, v);
    AddedRecorded(v.t, q.addr.ta, true, q, now, n);
    w := RecordSent(n, p, now, w);
  }

  /** uwifi_node_update_receiver */
  method NodeUpdateReceiver(p: PacketRef, nodes: Link, now: u32, ghost v: View) returns (n: Node?, ghost w: View)
    requires Check(v).Intact? && T.TableOk(v.t) && nodes == v.nodes && p !in v.all
    modifies v.all
    ensures Check(w).Intact? && fresh(w.all - v.all) && v.all <= w.all
    ensures !T.Receives(p.v) ==> n == null && w == v
    ensures T.Receives(p.v) ==>
      && n != null && n == T.Heard(v.t, p.v.addr.ra, n) && NewIfUnknown(v.t, p.v.addr.ra, n) && n in w.t.info
      && (T.FindMac(v.t.order, v.t.info, p.v.addr.ra).None? ==> fresh(n))
      && w == View(T.ReceiverUpdate(v.t, p.v, now, n), v.nodes, v.essids, w.all)
  {
    w := v;
    if p.v.meta.flags * PHY_FLAG_BADFCS != {} {
      return null, v;
    }
    if p.v.addr.ra == NO_MAC || p.v.addr.ra == BROADCAST {
      return null, v;
    }
    TableIsClosed(v.t);
    ghost var q := p.v;
    n, w := HearOf(p.v, nodes, now, v);
    assert p.v == q;
  }

  method HearOf(p: Packet, nodes: Link, now: u32, ghost v: View) returns (n: Node, ghost w: View)
    requires Check(v).Intact? && Closed(v.t) && nodes == v.nodes
    modifies v.all
    ensures Check(w).Intact? && fresh(w.all - v.all) && v.all <= w.all
    ensures n == T.Heard(v.t, p.addr.ra, n) && NewIfUnknown(v.t, p.addr.ra, n) && n in w.t.info
    ensures T.FindMac(v.t.order, v.t.info, p.addr.ra).None? ==> fresh(n)
    ensures w == View(T.Record(v.t, p.addr.ra, false, p, now, n), v.nodes, v.essids, w.all)
  {
    n, w := FindOrAdd(nodes, p.addr.ra, false, v);
    AddedRecorded(v.t, p.addr.ra, false, p, now, n);
    w := RecordReceived(n, p, now, w);
  }
}
