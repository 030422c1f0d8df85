/** What a table in order means for the pointers and rings on the heap, and the empty lists every run starts from. */
module HeapInvariant {
  import opened CcList
  import opened HeapView
  import opened Nodes
  import opened Seqs
  import opened Wlan
  import G = EssidGraph
  import T = Table

  /** CC_LIST_HEAD for both lists */
  method EmptyLists() returns (nodes: Link, essids: Link, ghost v: View)
    ensures Check(v).Intact? && fresh(v.all) && v == View(T.Empty(), nodes, essids, {nodes, essids})
  {
    nodes := new Link(6);
    essids := new Link(7);
    HeadInit(nodes);
    HeadInit(essids);
    v := View(T.Empty(), nodes, essids, {nodes, essids});
  }

  /** A live node points to an AP exactly if it is on that AP's ring of stations, and then the AP is live. */
  lemma ApPointersAgree(v: View, n: Node, a: Node)
    requires Check(v).Intact? && T.TableOk(v.t) && n in v.t.info && a in v.t.info
    ensures n.apNode == a <==> n.apList in a.apNodes.elems
    ensures n.apNode != null ==> n.apNode in v.t.info
  {
    StationLinks(v, a);
    ApPointer(v, n);
    if n.apList in a.apNodes.elems {
      var k :| 0 <= k < |a.apNodes.elems| && a.apNodes.elems[k] == n.apList;
      var m := v.t.aps.members[a][k];
      assert m in v.t.aps.members[a] && m.apList == n.apList;
      OwnLinks(v, m);
      OwnLinks(v, n);
    }
    if n.apNode == a {
      var k := IndexOf(v.t.aps.members[a], n);
      assert a.apNodes.elems[k] == n.apList;
    }
  }

  lemma StationLinks(v: View, a: Node)
    requires Check(v).Intact? && T.TableOk(v.t) && a in v.t.info
    ensures a in v.t.aps.members && StationRing(a.apNodes, v.t.aps.members[a])
    ensures forall m :: m in v.t.aps.members[a] ==> m in v.t.info && m in v.t.aps.owner && v.t.aps.owner[m] == a
  {
    StationsOwned(v.t, a);
    RingOfStations(v, a);
  }

  lemma StationsOwned(t: Model, a: Node)
    requires T.TableOk(t) && a in t.info
    ensures a in t.aps.members
    ensures forall m :: m in t.aps.members[a] ==> m in t.info && m in t.aps.owner && t.aps.owner[m] == a
  {
  }

  lemma RingOfStations(v: View, a: Node)
    requires Check(v).Intact? && a in v.t.aps.members
    ensures StationRing(a.apNodes, v.t.aps.members[a])
  {
  }

  lemma OwnLinks(v: View, n: Node)
    requires Check(v).Intact? && n in v.t.info
    ensures n.Own() && n.Record() == v.t.info[n]
  {
    assert NodeIsAt(v.t, v.nodes, n);
  }

  /** A live node points to an ESSID exactly if it is on that ESSID's ring of nodes, and then the ESSID is live. */
  lemma EssidPointersAgree(v: View, n: Node, e: Essid)
    requires Check(v).Intact? && T.TableOk(v.t) && n in v.t.info && e in v.t.ess.tags
    ensures n.essid == e <==> n.essidNodes in e.nodes.elems
    ensures n.essid != null ==> n.essid in v.t.ess.tags
  {
    MemberLinks(v, e);
    EssidPointer(v, n);
    if n.essidNodes in e.nodes.elems {
      var k :| 0 <= k < |e.nodes.elems| && e.nodes.elems[k] == n.essidNodes;
      var m := v.t.ess.of.members[e][k];
      assert m in v.t.ess.of.members[e] && m.essidNodes == n.essidNodes;
      OwnLinks(v, m);
      OwnLinks(v, n);
    }
    if n.essid == e {
      var k := IndexOf(v.t.ess.of.members[e], n);
      assert e.nodes.elems[k] == n.essidNodes;
    }
  }

  lemma MemberLinks(v: View, e: Essid)
    requires Check(v).Intact? && T.TableOk(v.t) && e in v.t.ess.tags
    ensures e in v.t.ess.of.members && GroupRing(e.nodes, v.t.ess.of.members[e])
    ensures forall m :: m in v.t.ess.of.members[e] ==> m in v.t.info && m in v.t.ess.of.owner && v.t.ess.of.owner[m] == e
  {
    MembersOwned(v.t, e);
    RingOfMembers(v, e);
  }

  lemma MembersOwned(t: Model, e: Essid)
    requires T.TableOk(t) && e in t.ess.tags
    ensures e in t.ess.of.members
    ensures forall m :: m in t.ess.of.members[e] ==> m in t.info && m in t.ess.of.owner && t.ess.of.owner[m] == e
  {
    G.MembersKnown(t.ess, t.info, e);
  }

  lemma RingOfMembers(v: View, e: Essid)
    requires Check(v).Intact? && e in v.t.ess.of.members
    ensures GroupRing(e.nodes, v.t.ess.of.members[e])
  {
  }

  /** Every live ESSID counts its members, of which it has at least one, and has a name. */
  lemma EssidsCount(v: View, e: Essid)
    requires Check(v).Intact? && T.TableOk(v.t) && e in v.t.ess.tags
    ensures e.numNodes == |e.nodes.elems| >= 1 && CStr(e.essid) != []
  {
    MemberLinks(v, e);
    EssidFacts(v, e);
    assert G.TagOk(v.t.ess.tags[e], v.t.ess.of.members[e]);
  }

  /** No two live nodes have the same MAC address, none has the zero address, and no two live ESSIDs the same name. */
  lemma NamesIdentify(v: View)
    requires Check(v).Intact? && T.TableOk(v.t)
    ensures forall m, n :: m in v.t.info && n in v.t.info && m.id.src == n.id.src ==> m == n
    ensures forall n :: n in v.t.info ==> n.id.src != NO_MAC
    ensures forall e, f :: e in v.t.ess.tags && f in v.t.ess.tags && CStr(e.essid) == CStr(f.essid) ==> e == f
  {
    forall n | n in v.t.info
      ensures n.id.src == v.t.info[n].id.src
    {
      OwnLinks(v, n);
    }
    forall e | e in v.t.ess.tags
      ensures CStr(e.essid) == v.t.ess.tags[e].name
    {
      EssidFacts(v, e);
    }
  }
}
