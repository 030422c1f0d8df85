/** uwifi_nodes_find_ap on the heap. */
module HeapAps {
  import opened CcList
  import opened HeapView
  import opened Membership
  import opened Nodes
  import opened Options
  import opened Seqs
  import opened Wlan
  import A = ApGraph
  import T = Table

  // ----- AP links -----

  /** A change of AP links at one node. */
  lemma ApShape(v: View, w: View, n: Node)
    requires w == v.(t := v.t.(aps := w.t.aps)) && n in v.t.info
    requires EssidsAt(v) && StationsAt(w) && GroupsAt(v) && ListsAt(v)
    requires forall m :: m in v.t.info ==> NodeIn(m, v.all)
    requires forall m :: m in v.t.info && m != n ==> NodeIsAt(v.t, v.nodes, m) && ApOf(w.t, m) == ApOf(v.t, m)
    requires NodeIsAt(w.t, w.nodes, n)
    ensures Check(w).Intact?
  {
  }

  /** Node n is as before but for its AP. */
  twostate lemma ApChanged(o: Scene, new n: Node, new ap: Node?)
    requires n in o.v.t.info && old(NodesAt(o.v)) && Moved(o.Move()) && o.l == n.apList
    requires n.SameRecord() && n.essid == old(n.essid) && n.apNode == ap
    requires n.apList.ring == if ap == null then null else ap.apNodes
    ensures NodeAt(n, if n in o.v.t.order then o.v.nodes else null, ap, EssidOf(o.v.t, n), o.v.t.info[n])
  {
    assert old(NodeIsAt(o.v.t, o.v.nodes, n));
  }

  method LinkStation(n: Node, ap: Node, ghost ms: seq<Node>, ghost o: Scene)
    requires Within(ap.apNodes, o.v.all) && StationRing(ap.apNodes, ms) && n.apList in o.v.all && n.apList.ring == null
    requires o.h == ap.apNodes && o.l == n.apList
    modifies ap.apNodes`prev, ap.apNodes`elems, ap.apNodes.prev`next, n.apList`next, n.apList`prev, n.apList`ring, n`apNode
    ensures Within(ap.apNodes, o.v.all) && StationRing(ap.apNodes, ms + [n]) && n.apNode == ap && n.apList.ring == ap.apNodes
    ensures n.SameRecord() && n.essid == old(n.essid) && Effect(o, n, null).LinksOnly?
  {
    PutStation(n, ap, ms, o);
    n.apNode := ap;
  }

  method PutStation(n: Node, ap: Node, ghost ms: seq<Node>, ghost o: Scene)
    requires Within(ap.apNodes, o.v.all) && StationRing(ap.apNodes, ms) && n.apList in o.v.all && n.apList.ring == null
    requires o.h == ap.apNodes && o.l == n.apList
    modifies ap.apNodes`prev, ap.apNodes`elems, ap.apNodes.prev`next, n.apList`next, n.apList`prev, n.apList`ring
    ensures Within(ap.apNodes, o.v.all) && StationRing(ap.apNodes, ms + [n]) && n.apList.ring == ap.apNodes
    ensures Moved(o.Move()) && Untouched(o.v.all, null, null)
  {
    AddTail(ap.apNodes, n.apList);
  }

  lemma StationsShape(v: View, w: View, a0: Node)
    requires a0 in v.t.info && a0 in v.t.aps.members && a0 in w.t.aps.members && NodeIn(a0, v.all) && w.all == v.all
    requires Within(a0.apNodes, v.all) && StationRing(a0.apNodes, w.t.aps.members[a0])
    requires w.t.aps.members == v.t.aps.members[a0 := w.t.aps.members[a0]]
    requires forall a :: a in v.t.aps.members && a != a0 ==>
      a in v.t.info && NodeIn(a, v.all) && Within(a.apNodes, v.all) && StationRing(a.apNodes, v.t.aps.members[a])
    requires w.t.info == v.t.info
    ensures StationsAt(w)
  {
  }

  lemma ApsDiffer(t: Model, d: Model, n: Node, ap: Node?)
    requires d.aps.owner == if ap == null then t.aps.owner - {n} else t.aps.owner[n := ap]
    ensures ApOf(d, n) == ap && forall m :: m in t.info && m != n ==> ApOf(d, m) == ApOf(t, m)
  {
  }

  /** The heap holds the table with n's AP changed, after a step on the ring of a0. */
  twostate lemma ApMoved(o: Scene, new n: Node, new ap: Node?, new a0: Node, new w: View)
    requires old(Check(o.v)).Intact? && Effect(o, n, null).LinksOnly? && n in o.v.t.info && o.l == n.apList
    requires o.h.offset == 2 && old(o.h.obj) == a0 && w == o.v.(t := o.v.t.(aps := w.t.aps))
    requires n.SameRecord() && n.essid == old(n.essid) && n.apNode == ap
    requires n.apList.ring == if ap == null then null else ap.apNodes
    requires a0 in o.v.t.aps.members && a0 in w.t.aps.members
    requires Within(a0.apNodes, o.v.all) && StationRing(a0.apNodes, w.t.aps.members[a0])
    requires w.t.aps.members == o.v.t.aps.members[a0 := w.t.aps.members[a0]]
    requires w.t.aps.owner == if ap == null then o.v.t.aps.owner - {n} else o.v.t.aps.owner[n := ap]
    ensures Check(w).Intact?
  {
    assert old(NodeIsAt(o.v.t, o.v.nodes, n));
    OthersStay(o, n, a0, null, null);
    ApChanged(o, n, ap);
    ApsDiffer(o.v.t, w.t, n, ap);
    StationsShape(o.v, w, a0);
    ApShape(o.v, w, n);
  }

  lemma AttachReady(v: View, n: Node, ap: Node)
    requires Check(v).Intact? && n in v.t.info && n !in v.t.aps.owner
    requires ap in v.t.aps.members
    ensures Within(ap.apNodes, v.all) && StationRing(ap.apNodes, v.t.aps.members[ap]) && n.apList.ring == null
    ensures NodeIn(n, v.all) && NodeIn(ap, v.all) && n.Own() && ap.Own() && ap.apNodes.prev in v.all
  {
    NodeFacts(v, n);
    NodeFacts(v, ap);
    RingIn(ap.apNodes, v.all);
  }

  /** n becomes the last station of ap. */
  method AttachAp(n: Node, ap: Node, ghost v: View) returns (ghost w: View)
    requires Check(v).Intact? && n in v.t.info && n !in v.t.aps.owner
    requires ap in v.t.aps.members
    modifies v.all
    ensures Check(w).Intact? && w == v.(t := v.t.(aps := Join(v.t.aps, n, ap)))
  {
    ghost var o := Scene(v, ap.apNodes, n.apList);
    AttachReady(v, n, ap);
    w := v.(t := v.t.(aps := Join(v.t.aps, n, ap)));
    LinkStation(n, ap, v.t.aps.members[ap], o);
    ApMoved(o, n, ap, ap, w);
  }

  method TakeStation(n: Node, ap: Node, ghost ms: seq<Node>, ghost k: nat, ghost o: Scene)
    requires Within(ap.apNodes, o.v.all) && StationRing(ap.apNodes, ms)
    requires k < |ms| && ms[k] == n && o.h == ap.apNodes && o.l == n.apList
    modifies n.apList.next`prev, n.apList.prev`next, ap.apNodes`elems, n.apList`ring
    ensures Within(ap.apNodes, o.v.all) && StationRing(ap.apNodes, Cut(ms, k)) && n.apList.ring == null
    ensures Moved(o.Move()) && Untouched(o.v.all, null, null)
  {
    DelFrom(ap.apNodes, n.apList, k);
  }

  method UnlinkStation(n: Node, ap: Node, ghost ms: seq<Node>, ghost k: nat, ghost o: Scene)
    requires Within(ap.apNodes, o.v.all) && StationRing(ap.apNodes, ms)
    requires k < |ms| && ms[k] == n && o.h == ap.apNodes && o.l == n.apList
    modifies n.apList.next`prev, n.apList.prev`next, ap.apNodes`elems, n.apList`ring, n`apNode
    ensures Within(ap.apNodes, o.v.all) && StationRing(ap.apNodes, Cut(ms, k)) && n.apNode == null && n.apList.ring == null
    ensures n.SameRecord() && n.essid == old(n.essid) && Effect(o, n, null).LinksOnly?
  {
    TakeStation(n, ap, ms, k, o);
    n.apNode := null;
  }

  lemma DetachReady(v: View, n: Node)
    requires Check(v).Intact? && n in v.t.info && n in v.t.aps.owner && v.t.aps.owner[n] in v.t.aps.members
    requires n in v.t.aps.members[v.t.aps.owner[n]]
    ensures var a := v.t.aps.owner[n]; var ms := v.t.aps.members[a];
      && n.apNode == a && Within(a.apNodes, v.all) && StationRing(a.apNodes, ms)
      && NodeIn(n, v.all) && NodeIn(a, v.all) && n.Own() && a.Own()
      && n.apList.next in v.all && n.apList.prev in v.all && Cut(ms, IndexOf(ms, n)) == Remove(ms, n)
  {
    var a := v.t.aps.owner[n];
    NodeFacts(v, n);
    NodeFacts(v, a);
    RingIn(a.apNodes, v.all);
    RemoveIsCut(v.t.aps.members[a], n);
    assert a.apNodes.elems[IndexOf(v.t.aps.members[a], n)] == n.apList;
  }

  /** n is nobody's station any more. */
  method DetachAp(n: Node, ghost v: View) returns (ghost w: View)
    requires Check(v).Intact? && n in v.t.info && n in v.t.aps.owner && v.t.aps.owner[n] in v.t.aps.members
    requires n in v.t.aps.members[v.t.aps.owner[n]]
    modifies v.all
    ensures Check(w).Intact? && w == v.(t := v.t.(aps := Leave(v.t.aps, n)))
  {
    ghost var a := v.t.aps.owner[n];
    ghost var ms := v.t.aps.members[a];
    ghost var o := Scene(v, a.apNodes, n.apList);
    DetachReady(v, n);
    w := v.(t := v.t.(aps := Leave(v.t.aps, n)));
    UnlinkStation(n, n.apNode, ms, IndexOf(ms, n), o);
    ApMoved(o, n, null, a, w);
  }

  /** If n has an AP, that is live and has n as a station. */
  ghost predicate Detachable(t: Model, n: Node) {
    && n in t.info
    && (n in t.aps.owner ==>
          t.aps.owner[n] in t.info && t.aps.owner[n] in t.aps.members && n in t.aps.members[t.aps.owner[n]])
  }

  ghost function Alone(t: Model, n: Node): A.Aps<Node>
    requires Detachable(t, n)
  {
    if n in t.aps.owner then Leave(t.aps, n) else t.aps
  }

  lemma FindApReady(t: Model, n: Node)
    requires T.TableOk(t) && n in t.info
    ensures Detachable(t, n) && n in t.aps.members && Joinable(t, n)
    ensures T.FindAp(t, n) == if T.Seeks(t.aps, t.info, n) then t.(aps := Reassigned(t, n)) else t
  {
    T.Reassigns(t.aps, n, None);
    A.StationsLive(t.aps);
    A.StationsLive(if n in t.aps.owner then Leave(t.aps, n) else t.aps);
  }

  /** Once it left its AP, n can join any live node. */
  ghost predicate Joinable(t: Model, n: Node) {
    && Detachable(t, n) && n !in Alone(t, n).owner
    && forall k :: 0 <= k < |t.order| ==> t.order[k] in t.info && t.order[k] in Alone(t, n).members
  }

  /** The AP links once a node without an AP found the node of this address, if there is one. */
  ghost function JoinedTo(t: Model, n: Node, mac: Mac): A.Aps<Node>
    requires forall k :: 0 <= k < |t.order| ==> t.order[k] in t.info && t.order[k] in t.aps.members
  {
    var ap := T.FindMac(t.order, t.info, mac);
    if ap.Some? then Join(t.aps, n, ap.value) else t.aps
  }

  ghost function Reassigned(t: Model, n: Node): A.Aps<Node>
    requires Joinable(t, n)
  {
    JoinedTo(t.(aps := Alone(t, n)), n, t.info[n].id.bssid)
  }

  /** The search for the AP, and joining it. */
  method AssociateWith(n: Node, nodes: Link, mac: Mac, ghost v: View) returns (ghost w: View)
    requires Check(v).Intact? && n in v.t.info && n !in v.t.aps.owner && nodes == v.nodes
    requires forall k :: 0 <= k < |v.t.order| ==> v.t.order[k] in v.t.info && v.t.order[k] in v.t.aps.members
    modifies v.all
    ensures Check(w).Intact? && w == v.(t := v.t.(aps := JoinedTo(v.t, n, mac)))
  {
    w := v;
    var ap := FindNode(nodes, mac, w);
    if ap != null {
      w := AttachAp(n, ap, w);
    }
  }

  /** The body of uwifi_nodes_find_ap for a station that has to change its AP. */
  method Reassociate(n: Node, nodes: Link, ghost v: View) returns (ghost w: View)
    requires Check(v).Intact? && Joinable(v.t, n) && nodes == v.nodes
    requires n.apNode == ApOf(v.t, n) && n.id.bssid == v.t.info[n].id.bssid
    modifies v.all
    ensures Check(w).Intact? && w == v.(t := v.t.(aps := Reassigned(v.t, n)))
  {
    w := v;
    var bssid := n.id.bssid;
    if n.apNode != null {
      w := DetachAp(n, w);
    }
    w := AssociateWith(n, nodes, bssid, w);
  }

  /** uwifi_nodes_find_ap */
  method FindAp(n: Node, nodes: Link, ghost v: View) returns (ghost w: View)
    requires Check(v).Intact? && T.TableOk(v.t) && n in v.t.info && nodes == v.nodes
    modifies v.all
    ensures Check(w).Intact? && w == v.(t := T.FindAp(v.t, n))
  {
    w := v;
    FindApReady(v.t, n);
    RecordFacts(v, n);
    if n.id.mode * WLAN_MODE_STA != {} && n.id.bssid[0] != 0xff && n.id.bssid != NO_MAC
       && (n.apNode == null || n.id.bssid != n.apNode.id.src) {
      w := Reassociate(n, nodes, w);
    }
  }
}
