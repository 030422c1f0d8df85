/**
 * The node table on the heap: which rings and pointers stand for which table, and what a step on one ring leaves alone.
 * Methods of the modules above this one take the heads of the two lists as the source does, and a ghost View of the table
 * that is on the heap before them. Freed objects are those that are no longer in the table.
 */
module HeapView {
  import opened CcList
  import opened NodeInfo
  import opened Nodes
  import opened Wlan
  import Ewma
  import G = EssidGraph
  import T = Table

  type Model = T.Table<Node, Essid>

  // ----- what the heap looks like -----

  /** A node's links sit on the ring of its list, of its AP and of its ESSID, if any. */
  ghost predicate NodeAt(n: Node, ring: Link?, ap: Node?, e: Essid?, i: Info)
    reads n, n.list, n.essidNodes, n.apNodes, n.apList, n.phySigAvg
  {
    && n.Own() && n.Record() == i && n.apNode == ap && n.essid == e
    && n.list.ring == ring
    && n.apList.ring == (if ap == null then null else ap.apNodes)
    && n.essidNodes.ring == (if e == null then null else e.nodes)
  }

  ghost predicate EssidAt(e: Essid, ring: Link?, t: G.Tag)
    reads e, e.list, e.nodes
  {
    e.Own() && e.list.ring == ring && CStr(e.essid) == t.name && e.numNodes == t.numNodes && e.split == t.split
  }

  /** The ring h runs through the list links of ns. */
  ghost predicate ListRing(h: Link, ns: seq<Node>)
    reads h, h.elems
  {
    Ring(h) && |h.elems| == |ns| && forall i :: 0 <= i < |ns| ==> h.elems[i] == ns[i].list
  }

  /** The ring h runs through the AP links of ns. */
  ghost predicate StationRing(h: Link, ns: seq<Node>)
    reads h, h.elems
  {
    Ring(h) && |h.elems| == |ns| && forall i :: 0 <= i < |ns| ==> h.elems[i] == ns[i].apList
  }

  /** The ring h runs through the ESSID links of ns. */
  ghost predicate GroupRing(h: Link, ns: seq<Node>)
    reads h, h.elems
  {
    Ring(h) && |h.elems| == |ns| && forall i :: 0 <= i < |ns| ==> h.elems[i] == ns[i].essidNodes
  }

  ghost predicate EssidRing(h: Link, es: seq<Essid>)
    reads h, h.elems
  {
    Ring(h) && |h.elems| == |es| && forall i :: 0 <= i < |es| ==> h.elems[i] == es[i].list
  }

  ghost function ApOf(t: Model, n: Node): Node? {
    if n in t.aps.owner then t.aps.owner[n] else null
  }

  ghost function EssidOf(t: Model, n: Node): Essid? {
    if n in t.ess.of.owner then t.ess.of.owner[n] else null
  }

  /** The table that is on the heap, the heads of its two lists, and all objects that belong to it. */
  datatype View = View(t: Model, nodes: Link, essids: Link, all: set<object>)

  /** Node n is where the table says. */
  ghost predicate NodeIsAt(t: Model, head: Link, n: Node)
    requires n in t.info
    reads n, n.list, n.essidNodes, n.apNodes, n.apList, n.phySigAvg
  {
    NodeAt(n, if n in t.order then head else null, ApOf(t, n), EssidOf(t, n), t.info[n])
  }

  ghost predicate NodesAt(v: View)
    reads v.all
  {
    forall n :: n in v.t.info ==> NodeIn(n, v.all) && NodeIsAt(v.t, v.nodes, n)
  }

  ghost predicate EssidsAt(v: View)
    reads v.all
  {
    forall e :: e in v.t.ess.tags ==> EssidIn(e, v.all) && EssidAt(e, v.essids, v.t.ess.tags[e])
  }

  ghost predicate StationsAt(v: View)
    reads v.all
  {
    forall a :: a in v.t.aps.members ==>
      a in v.t.info && NodeIn(a, v.all) && Within(a.apNodes, v.all) && StationRing(a.apNodes, v.t.aps.members[a])
  }

  ghost predicate GroupsAt(v: View)
    reads v.all
  {
    forall e :: e in v.t.ess.of.members ==>
      e in v.t.ess.tags && EssidIn(e, v.all) && Within(e.nodes, v.all) && GroupRing(e.nodes, v.t.ess.of.members[e])
  }

  /** The heads of the two lists: no other link has their offsets. */
  ghost predicate ListsAt(v: View)
    reads v.all
  {
    && v.nodes.offset == 6 && v.essids.offset == 7 && v.nodes in v.all && v.essids in v.all
    && Within(v.nodes, v.all) && Within(v.essids, v.all) && ListRing(v.nodes, v.t.order) && EssidRing(v.essids, v.t.ess.ring)
  }

  /** The answer to a question about many objects at once; as a value of its own it is passed along as one fact. */
  datatype Integrity = Intact | Damaged

  /** Whether the heap holds this table. */
  ghost function Check(v: View): Integrity
    reads v.all
  {
    if NodesAt(v) && EssidsAt(v) && StationsAt(v) && GroupsAt(v) && ListsAt(v) then Intact else Damaged
  }

  ghost predicate NodeIn(n: Node, all: set<object>) {
    n in all && n.list in all && n.essidNodes in all && n.apNodes in all && n.apList in all && n.phySigAvg in all
  }

  ghost predicate EssidIn(e: Essid, all: set<object>) {
    e in all && e.list in all && e.nodes in all
  }

  // ----- what one step on one ring leaves alone -----

  datatype Scene = Scene(v: View, h: Link, l: Link) {
    ghost function Move(): Move {
      CcList.Move(h, l, v.all)
    }
  }

  /** Nodes other than n, the one the moved link is part of, are as before. */
  twostate lemma NodesStay(o: Scene, new n: Node?)
    requires Moved(o.Move()) && old(NodesAt(o.v)) && forall m :: m in o.v.t.info && m != n ==> m.Same() && o.l.obj != m
    ensures forall m :: m in o.v.t.info && m != n ==> NodeIsAt(o.v.t, o.v.nodes, m)
  {
  }

  twostate lemma EssidsStay(o: Scene, new e0: Essid?)
    requires Moved(o.Move()) && old(EssidsAt(o.v))
    requires forall e :: e in o.v.t.ess.tags && e != e0 ==> o.l.obj != e && e.Same()
    ensures forall e :: e in o.v.t.ess.tags && e != e0 ==> EssidAt(e, o.v.essids, o.v.t.ess.tags[e])
  {
  }

  twostate lemma StationsStay(o: Scene, new a0: Node?)
    requires Moved(o.Move()) && old(StationsAt(o.v))
    requires forall a :: a in o.v.t.aps.members && a != a0 ==> a.apNodes in o.v.all && a.apNodes != o.h
    ensures forall a :: a in o.v.t.aps.members && a != a0 ==>
      Within(a.apNodes, o.v.all) && StationRing(a.apNodes, o.v.t.aps.members[a])
  {
  }

  twostate lemma GroupsStay(o: Scene, new e0: Essid?)
    requires Moved(o.Move()) && old(GroupsAt(o.v))
    requires forall e :: e in o.v.t.ess.of.members && e != e0 ==> e.nodes in o.v.all && e.nodes != o.h
    ensures forall e :: e in o.v.t.ess.of.members && e != e0 ==>
      Within(e.nodes, o.v.all) && GroupRing(e.nodes, o.v.t.ess.of.members[e])
  {
  }

  twostate lemma ListStays(o: Scene)
    requires Moved(o.Move()) && o.v.nodes != o.h && old(Within(o.v.nodes, o.v.all)) && old(ListRing(o.v.nodes, o.v.t.order))
    ensures Within(o.v.nodes, o.v.all) && ListRing(o.v.nodes, o.v.t.order)
  {
  }

  twostate lemma EssidListStays(o: Scene)
    requires Moved(o.Move()) && o.v.essids != o.h
    requires old(Within(o.v.essids, o.v.all)) && old(EssidRing(o.v.essids, o.v.t.ess.ring))
    ensures Within(o.v.essids, o.v.all) && EssidRing(o.v.essids, o.v.t.ess.ring)
  {
  }

  /** How much a step changed. */
  datatype Extent = LinksOnly | More

  /** Whether nothing but the links of the table changed, except perhaps at n and e. */
  twostate function Effect(o: Scene, new n: Node?, new e: Essid?): Extent
    reads o.v.all
  {
    if Moved(o.Move()) && Untouched(o.v.all, n, e) then LinksOnly else More
  }

  /** No node but n, no ESSID but e and no average was written to. */
  twostate predicate Untouched(all: set<object>, new n: Node?, new e: Essid?)
    reads all
  {
    && (forall m: Node :: m in all && m != n ==> unchanged(m))
    && (forall f: Essid :: f in all && f != e ==> unchanged(f))
    && (forall a: Ewma.Ewma :: a in all ==> unchanged(a))
  }

  twostate lemma PlainFieldsStay(o: Scene, new n: Node?, new e: Essid?)
    requires Effect(o, n, e).LinksOnly? && old(Check(o.v)).Intact?
    ensures forall m :: m in o.v.t.info && m != n ==> m.Same()
    ensures forall f :: f in o.v.t.ess.tags && f != e ==> f.Same()
  {
    forall m | m in o.v.t.info && m != n
      ensures m.Same()
    {
      assert NodeIn(m, o.v.all);
    }
  }

  /**
   * All of the above: n and e1 are what the moved link is part of and what else was written to, a0 or e0 is the owner of
   * the ring that changed.
   */
  ghost predicate Stayed(o: Scene, n: Node?, a0: Node?, e0: Essid?, e1: Essid?)
    reads o.v.all
  {
    && (forall m :: m in o.v.t.info && m != n ==> NodeIn(m, o.v.all) && NodeIsAt(o.v.t, o.v.nodes, m))
    && (forall e :: e in o.v.t.ess.tags && e != e1 ==> EssidIn(e, o.v.all) && EssidAt(e, o.v.essids, o.v.t.ess.tags[e]))
    && (forall a :: a in o.v.t.aps.members && a != a0 ==>
          NodeIn(a, o.v.all) && Within(a.apNodes, o.v.all) && StationRing(a.apNodes, o.v.t.aps.members[a]))
    && (forall e :: e in o.v.t.ess.of.members && e != e0 ==>
          EssidIn(e, o.v.all) && Within(e.nodes, o.v.all) && GroupRing(e.nodes, o.v.t.ess.of.members[e]))
    && (o.h != o.v.nodes ==>
          o.v.nodes in o.v.all && Within(o.v.nodes, o.v.all) && ListRing(o.v.nodes, o.v.t.order))
    && (o.h != o.v.essids ==>
          o.v.essids in o.v.all && Within(o.v.essids, o.v.all) && EssidRing(o.v.essids, o.v.t.ess.ring))
  }

  twostate lemma OthersStay(o: Scene, new n: Node?, new a0: Node?, new e0: Essid?, new e1: Essid?)
    requires Effect(o, n, e1).LinksOnly? && old(Check(o.v)).Intact? && (o.l.obj == n || o.l.obj == e1)
    requires (o.h.offset == 2 ==> old(o.h.obj) == a0) && (o.h.offset == 5 ==> old(o.h.obj) == e0)
    ensures Stayed(o, n, a0, e0, e1)
  {
    PlainFieldsStay(o, n, e1);
    NodesStay(o, n);
    EssidsStay(o, e1);
    RingsStay(o, a0, e0);
    if o.h != o.v.nodes {
      ListStays(o);
    }
    if o.h != o.v.essids {
      EssidListStays(o);
    }
  }

  twostate lemma RingsStay(o: Scene, new a0: Node?, new e0: Essid?)
    requires Moved(o.Move()) && old(NodesAt(o.v)) && old(EssidsAt(o.v)) && old(StationsAt(o.v)) && old(GroupsAt(o.v))
    requires (o.h.offset == 2 ==> old(o.h.obj) == a0) && (o.h.offset == 5 ==> old(o.h.obj) == e0)
    ensures forall a :: a in o.v.t.aps.members && a != a0 ==>
      Within(a.apNodes, o.v.all) && StationRing(a.apNodes, o.v.t.aps.members[a])
    ensures forall e :: e in o.v.t.ess.of.members && e != e0 ==>
      Within(e.nodes, o.v.all) && GroupRing(e.nodes, o.v.t.ess.of.members[e])
  {
    forall a | a in o.v.t.aps.members && a != a0
      ensures a.apNodes in o.v.all && a.apNodes != o.h
    {
      assert old(NodeIsAt(o.v.t, o.v.nodes, a));
    }
    forall e | e in o.v.t.ess.of.members && e != e0
      ensures e.nodes in o.v.all && e.nodes != o.h
    {
      assert old(EssidAt(e, o.v.essids, o.v.t.ess.tags[e]));
    }
    StationsStay(o, a0);
    GroupsStay(o, e0);
  }

  /** A ring whose links may all be written, so that its links' neighbours may. */
  lemma RingIn(h: Link, all: set<object>)
    requires Ring(h) && Within(h, all)
    ensures h.next in all && h.prev in all
    ensures forall i :: 0 <= i < |h.elems| ==> h.elems[i].next in all && h.elems[i].prev in all
  {
    Neighbours(h);
  }

  // ----- finding -----

  /** The search of the node updates and of find_ap. */
  method FindNode(nodes: Link, mac: Mac, ghost v: View) returns (n: Node?)
    requires Check(v).Intact? && (forall m :: m in v.t.order ==> m in v.t.info) && nodes == v.nodes
    ensures var r := T.FindMac(v.t.order, v.t.info, mac); if r.Some? then n == r.value else n == null
  {
    ghost var t := v.t;
    var pos := nodes.next;
    Neighbours(nodes);
    ghost var k := 0;
    while pos != nodes
      invariant k <= |t.order| && pos == if k < |t.order| then t.order[k].list else nodes
      invariant T.FindMac(t.order, t.info, mac) == T.FindMac(t.order[k..], t.info, mac)
      decreases |t.order| - k
    {
      assert NodeIsAt(t, nodes, t.order[k]);
      n := pos.obj as Node;
      if n.id.src == mac {
        return;
      }
      assert nodes.elems[k] == pos;
      pos := pos.next;
      assert t.order[k..][1..] == t.order[k + 1..];
      k := k + 1;
    }
    n := null;
  }

  lemma NodeFacts(v: View, n: Node)
    requires NodesAt(v) && n in v.t.info
    ensures n.Own() && n.apNode == ApOf(v.t, n) && n.apList.ring == (if n.apNode == null then null else n.apNode.apNodes)
  {
    assert NodeIsAt(v.t, v.nodes, n);
  }

  lemma RecordFacts(v: View, n: Node)
    requires Check(v).Intact? && n in v.t.info && n in v.t.aps.members
    requires n in v.t.aps.owner ==> v.t.aps.owner[n] in v.t.info
    ensures n.Record() == v.t.info[n] && n.apNode == ApOf(v.t, n) && n.ApChannel() == T.ApChannel(v.t.aps, v.t.info, n)
    ensures n.apNode != null ==> n.apNode.Record() == v.t.info[n.apNode]
  {
    assert NodeIsAt(v.t, v.nodes, n);
    if n.apNode != null {
      assert NodeIsAt(v.t, v.nodes, n.apNode);
    }
  }

  lemma EssidFacts(v: View, e: Essid)
    requires EssidsAt(v) && e in v.t.ess.tags
    ensures EssidAt(e, v.essids, v.t.ess.tags[e]) && EssidIn(e, v.all)
  {
  }

  /** Nodes stay where they are when their list, their owners and their records do. */
  lemma NodesSame(v: View, w: View)
    requires NodesAt(v) && w.t.info == v.t.info && w.t.order == v.t.order && w.nodes == v.nodes && v.all <= w.all
    requires w.t.aps.owner == v.t.aps.owner && w.t.ess.of.owner == v.t.ess.of.owner
    ensures NodesAt(w)
  {
    forall n | n in w.t.info
      ensures NodeIsAt(w.t, w.nodes, n) && NodeIn(n, w.all)
    {
      assert NodeIsAt(v.t, v.nodes, n);
    }
  }

  lemma EssidPointer(v: View, n: Node)
    requires Check(v).Intact? && n in v.t.info
    ensures n.essid == EssidOf(v.t, n)
  {
    assert NodeIsAt(v.t, v.nodes, n);
  }

  /** More objects may belong to the table. */
  lemma MayGrow(v: View, all: set<object>)
    requires Check(v).Intact? && v.all <= all
    ensures Check(v.(all := all)).Intact?
  {
    NodesSame(v, v.(all := all));
    assert EssidsAt(v.(all := all));
  }

  lemma ApPointer(v: View, n: Node)
    requires Check(v).Intact? && n in v.t.info
    ensures n.apNode == ApOf(v.t, n)
  {
    assert NodeIsAt(v.t, v.nodes, n);
  }
}
