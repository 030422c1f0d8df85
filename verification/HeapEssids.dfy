/** core/essid.c on the heap. */
module HeapEssids {
  import opened CcList
  import opened HeapView
  import opened NodeInfo
  import opened Nodes
  import opened Options
  import opened Seqs
  import opened Wlan
  import G = EssidGraph
  import T = Table

  // ----- ESSID groups -----

  /** A change of the group links of one node and of the fields of one group. */
  lemma GroupShape(v: View, w: View, n: Node)
    requires w == v.(t := v.t.(ess := w.t.ess)) && n in v.t.info
    requires EssidsAt(w) && StationsAt(v) && GroupsAt(w) && ListsAt(v) && w.t.ess.ring == v.t.ess.ring
    requires forall m :: m in v.t.info ==> NodeIn(m, v.all)
    requires forall m :: m in v.t.info && m != n ==> NodeIsAt(v.t, v.nodes, m) && EssidOf(w.t, m) == EssidOf(v.t, m)
    requires NodeIsAt(w.t, w.nodes, n)
    ensures Check(w).Intact?
  {
  }

  lemma GroupsShape(v: View, w: View, e0: Essid)
    requires e0 in v.t.ess.tags && e0 in v.t.ess.of.members && e0 in w.t.ess.tags && e0 in w.t.ess.of.members
    requires Within(e0.nodes, v.all) && GroupRing(e0.nodes, w.t.ess.of.members[e0])
    requires EssidAt(e0, v.essids, w.t.ess.tags[e0]) && EssidIn(e0, v.all)
    requires w.t.ess.of.members == v.t.ess.of.members[e0 := w.t.ess.of.members[e0]]
    requires w.t.ess.tags == v.t.ess.tags[e0 := w.t.ess.tags[e0]] && w.essids == v.essids && w.all == v.all
    requires forall e :: e in v.t.ess.of.members && e != e0 ==>
      e in v.t.ess.tags && EssidIn(e, v.all) && Within(e.nodes, v.all) && GroupRing(e.nodes, v.t.ess.of.members[e])
    requires forall e :: e in v.t.ess.tags && e != e0 ==> EssidAt(e, v.essids, v.t.ess.tags[e]) && EssidIn(e, v.all)
    ensures GroupsAt(w) && EssidsAt(w)
  {
  }

  /** Node n is as before but for its ESSID. */
  twostate lemma EssidChanged(o: Scene, new n: Node, new e: Essid?)
    requires n in o.v.t.info && old(NodesAt(o.v)) && Moved(o.Move()) && o.l == n.essidNodes
    requires n.SameRecord() && n.apNode == old(n.apNode) && n.essid == e
    requires n.essidNodes.ring == if e == null then null else e.nodes
    ensures NodeAt(n, if n in o.v.t.order then o.v.nodes else null, ApOf(o.v.t, n), e, o.v.t.info[n])
  {
    assert old(NodeIsAt(o.v.t, o.v.nodes, n));
  }

  lemma EssidsDiffer(t: Model, d: Model, n: Node, e: Essid?)
    requires d.ess.of.owner == if e == null then t.ess.of.owner - {n} else t.ess.of.owner[n := e]
    ensures EssidOf(d, n) == e && forall m :: m in t.info && m != n ==> EssidOf(d, m) == EssidOf(t, m)
  {
  }

  /** Whether the group e is as the tag t says, with members ms whose links are among `all`. */
  ghost function GroupState(e: Essid, head: Link, ms: seq<Node>, t: G.Tag, all: set<object>): Integrity
    reads e, e.list, e.nodes, e.nodes.elems
  {
    if Within(e.nodes, all) && GroupRing(e.nodes, ms) && EssidAt(e, head, t) then Intact else Damaged
  }

  /** Whether table d differs from t in n's group, which is now e, and in the fields of e0. */
  ghost function GroupDelta(t: Model, d: Model, n: Node, e: Essid?, e0: Essid): Extent {
    if && d == t.(ess := d.ess) && d.ess.ring == t.ess.ring
       && e0 in t.ess.tags && e0 in t.ess.of.members && e0 in d.ess.tags && e0 in d.ess.of.members
       && d.ess.of.members == t.ess.of.members[e0 := d.ess.of.members[e0]]
       && d.ess.tags == t.ess.tags[e0 := d.ess.tags[e0]]
       && d.ess.of.owner == (if e == null then t.ess.of.owner - {n} else t.ess.of.owner[n := e]) then LinksOnly else More
  }

  /** The heap holds the table with n's group changed, after a step on the ring of e0. */
  twostate lemma GroupMoved(o: Scene, new n: Node, new e: Essid?, new e0: Essid, new w: View)
    requires old(Check(o.v)).Intact? && Effect(o, n, e0).LinksOnly? && n in o.v.t.info && o.l == n.essidNodes
    requires o.h.offset == 5 && old(o.h.obj) == e0 && w == o.v.(t := w.t) && GroupDelta(o.v.t, w.t, n, e, e0).LinksOnly?
    requires n.SameRecord() && n.apNode == old(n.apNode) && n.essid == e
    requires n.essidNodes.ring == if e == null then null else e.nodes
    requires GroupState(e0, o.v.essids, w.t.ess.of.members[e0], w.t.ess.tags[e0], o.v.all).Intact?
    ensures Check(w).Intact?
  {
    assert old(NodeIsAt(o.v.t, o.v.nodes, n));
    OthersStay(o, n, null, e0, e0);
    EssidChanged(o, n, e);
    EssidsDiffer(o.v.t, w.t, n, e);
    GroupsShape(o.v, w, e0);
    GroupShape(o.v, w, n);
  }

  /** n goes to the end of e's ring, is counted, and points to e. */
  method LinkMember(n: Node, e: Essid, ghost ms: seq<Node>, ghost more: seq<Node>, ghost t: G.Tag, ghost t': G.Tag,
                    ghost o: Scene)
    requires GroupState(e, o.v.essids, ms, t, o.v.all).Intact? && n.essidNodes.ring == null && n.Own()
    requires n.essidNodes in o.v.all
    requires o.h == e.nodes && o.l == n.essidNodes && more == ms + [n] && t' == t.(numNodes := t.numNodes + 1)
    modifies e.nodes`prev, e.nodes`elems, e.nodes.prev`next, n.essidNodes`next, n.essidNodes`prev, n.essidNodes`ring
    modifies n`essid, e`numNodes
    ensures GroupState(e, o.v.essids, more, t', o.v.all).Intact?
    ensures n.essid == e && n.essidNodes.ring == e.nodes
    ensures n.SameRecord() && n.apNode == old(n.apNode) && Effect(o, n, e).LinksOnly?
  {
    PutOn(n, e, ms, more, o);
    CountUp(n, e, more, t, t', o);
  }

  method PutOn(n: Node, e: Essid, ghost ms: seq<Node>, ghost more: seq<Node>, ghost o: Scene)
    requires Within(e.nodes, o.v.all) && GroupRing(e.nodes, ms) && n.essidNodes.ring == null && n.essidNodes in o.v.all
    requires o.h == e.nodes && o.l == n.essidNodes && more == ms + [n]
    modifies e.nodes`prev, e.nodes`elems, e.nodes.prev`next, n.essidNodes`next, n.essidNodes`prev, n.essidNodes`ring
    ensures Within(e.nodes, o.v.all) && GroupRing(e.nodes, more) && n.essidNodes.ring == e.nodes
    ensures Moved(o.Move()) && Untouched(o.v.all, null, null)
  {
    AddTail(e.nodes, n.essidNodes);
  }

  /** A node that joined the ring is counted and points to its ESSID. */
  method CountUp(n: Node, e: Essid, ghost ms: seq<Node>, ghost t: G.Tag, ghost t': G.Tag, ghost o: Scene)
    requires Within(e.nodes, o.v.all) && GroupRing(e.nodes, ms) && EssidAt(e, o.v.essids, t)
    requires t' == t.(numNodes := t.numNodes + 1)
    modifies e`numNodes, n`essid
    ensures GroupState(e, o.v.essids, ms, t', o.v.all).Intact? && n.essid == e
    ensures Untouched(o.v.all, n, e) && forall g: Link :: g in o.v.all ==> unchanged(g)
  {
    e.numNodes := e.numNodes + 1;
    n.essid := e;
  }

  method TakeOff(n: Node, e: Essid, ghost ms: seq<Node>, ghost k: nat, ghost rest: seq<Node>, ghost o: Scene)
    requires Within(e.nodes, o.v.all) && GroupRing(e.nodes, ms) && o.h == e.nodes && o.l == n.essidNodes
    requires k < |ms| && ms[k] == n && rest == Cut(ms, k)
    modifies n.essidNodes.next`prev, n.essidNodes.prev`next, e.nodes`elems, n.essidNodes`ring
    ensures Within(e.nodes, o.v.all) && GroupRing(e.nodes, rest) && n.essidNodes.ring == null
    ensures Moved(o.Move()) && Untouched(o.v.all, null, null)
  {
    DelFrom(e.nodes, n.essidNodes, k);
  }

  /** A node that left the ring points nowhere and is no longer counted. */
  method CountDown(n: Node, e: Essid, ghost ms: seq<Node>, ghost t: G.Tag, ghost t': G.Tag, ghost o: Scene)
    requires Within(e.nodes, o.v.all) && GroupRing(e.nodes, ms) && EssidAt(e, o.v.essids, t)
    requires t' == t.(numNodes := t.numNodes - 1)
    modifies e`numNodes, n`essid
    ensures GroupState(e, o.v.essids, ms, t', o.v.all).Intact? && n.essid == null
    ensures Untouched(o.v.all, n, e) && forall g: Link :: g in o.v.all ==> unchanged(g)
  {
    n.essid := null;
    e.numNodes := e.numNodes - 1;
  }

  /** n goes off its ESSID's ring, points nowhere, and is no longer counted. */
  method UnlinkMember(n: Node, e: Essid, ghost ms: seq<Node>, ghost k: nat, ghost rest: seq<Node>,
                      ghost t: G.Tag, ghost t': G.Tag, ghost o: Scene)
    requires GroupState(e, o.v.essids, ms, t, o.v.all).Intact? && n.Own()
    requires k < |ms| && ms[k] == n && rest == Cut(ms, k) && t' == t.(numNodes := t.numNodes - 1)
    requires o.h == e.nodes && o.l == n.essidNodes
    modifies n.essidNodes.next`prev, n.essidNodes.prev`next, e.nodes`elems, n.essidNodes`ring, n`essid, e`numNodes
    ensures GroupState(e, o.v.essids, rest, t', o.v.all).Intact?
    ensures n.essid == null && n.essidNodes.ring == null
    ensures n.SameRecord() && n.apNode == old(n.apNode) && Effect(o, n, e).LinksOnly?
  {
    TakeOff(n, e, ms, k, rest, o);
    CountDown(n, e, rest, t, t', o);
  }

  lemma EnterReady(v: View, n: Node, e: Essid)
    requires Check(v).Intact? && n in v.t.info && n !in v.t.ess.of.owner && e in v.t.ess.tags
    requires e in v.t.ess.of.members && forall m :: m in v.t.ess.of.members[e] ==> m in v.t.info
    ensures GroupState(e, v.essids, v.t.ess.of.members[e], v.t.ess.tags[e], v.all).Intact? && n.Own() && n.essidNodes.ring == null
    ensures NodeIn(n, v.all) && EssidIn(e, v.all) && e.nodes.prev in v.all && e.Own()
    ensures GroupDelta(v.t, v.t.(ess := G.Enter(v.t.ess, n, e)), n, e, e).LinksOnly?
  {
    assert NodeIsAt(v.t, v.nodes, n);
    EssidFacts(v, e);
    RingIn(e.nodes, v.all);
  }

  /** Node n, which is in no group, joins the group of e as its last member. */
  method EnterGroup(n: Node, e: Essid, ghost v: View) returns (ghost w: View)
    requires Check(v).Intact? && n in v.t.info && n !in v.t.ess.of.owner && e in v.t.ess.tags
    requires e in v.t.ess.of.members && forall m :: m in v.t.ess.of.members[e] ==> m in v.t.info
    modifies v.all
    ensures Check(w).Intact? && w == v.(t := v.t.(ess := G.Enter(v.t.ess, n, e)))
  {
    ghost var o := Scene(v, e.nodes, n.essidNodes);
    EnterReady(v, n, e);
    ghost var x := G.Enter(v.t.ess, n, e);
    w := v.(t := v.t.(ess := x));
    LinkMember(n, e, v.t.ess.of.members[e], x.of.members[e], v.t.ess.tags[e], x.tags[e], o);
    GroupMoved(o, n, e, e, w);
  }

  /** n is in a group that is there, with live members. */
  ghost predicate Grouped(t: Model, n: Node) {
    && n in t.info && n in t.ess.of.owner && t.ess.of.owner[n] in t.ess.of.members && t.ess.of.owner[n] in t.ess.tags
    && n in t.ess.of.members[t.ess.of.owner[n]] && forall m :: m in t.ess.of.members[t.ess.of.owner[n]] ==> m in t.info
  }

  lemma ExitReady(v: View, n: Node)
    requires Check(v).Intact? && Grouped(v.t, n)
    ensures var e := v.t.ess.of.owner[n]; var ms := v.t.ess.of.members[e];
      && n.essid == e && GroupState(e, v.essids, ms, v.t.ess.tags[e], v.all).Intact? && n.Own() && e.Own()
      && NodeIn(n, v.all) && EssidIn(e, v.all)
      && GroupDelta(v.t, v.t.(ess := G.Exit(v.t.ess, n)), n, null, e).LinksOnly?
      && n.essidNodes.next in v.all && n.essidNodes.prev in v.all
      && G.Exit(v.t.ess, n).of.members[e] == Cut(ms, IndexOf(ms, n))
  {
    var e := v.t.ess.of.owner[n];
    assert NodeIsAt(v.t, v.nodes, n);
    EssidFacts(v, e);
    RingIn(e.nodes, v.all);
    RemoveIsCut(v.t.ess.of.members[e], n);
  }

  /** Node n leaves its group. */
  method ExitGroup(n: Node, ghost v: View) returns (ghost w: View)
    requires Check(v).Intact? && Grouped(v.t, n)
    modifies v.all
    ensures Check(w).Intact? && w == v.(t := v.t.(ess := G.Exit(v.t.ess, n)))
  {
    ghost var e := v.t.ess.of.owner[n];
    ghost var ms := v.t.ess.of.members[e];
    ghost var o := Scene(v, e.nodes, n.essidNodes);
    ExitReady(v, n);
    ghost var x := G.Exit(v.t.ess, n);
    w := v.(t := v.t.(ess := x));
    UnlinkMember(n, n.essid, ms, IndexOf(ms, n), x.of.members[e], v.t.ess.tags[e], x.tags[e], o);
    GroupMoved(o, n, null, e, w);
  }

  // ----- split -----

  /** The members' records, where the scan finds them. */
  ghost predicate Members(h: Link, ms: seq<Node>, who: map<Node, Info>)
    reads h, h.elems, ms, set m | m in ms :: m.essidNodes, set m | m in ms :: m.phySigAvg
  {
    && GroupRing(h, ms)
    && forall i :: 0 <= i < |ms| ==> ms[i] in who && ms[i].essidNodes.obj == ms[i] && ms[i].Record() == who[ms[i]]
  }

  /** update_essid_split_status */
  method ScanSplit(e: Essid, ghost ms: seq<Node>, ghost who: map<Node, Info>)
    requires Members(e.nodes, ms, who)
    modifies e`split
    ensures (forall m :: m in ms ==> m in who) && e.split == G.SplitOf(e.numNodes, ms, who)
  {
    e.split := false;
    if e.numNodes <= 1 {
      return;
    }
    var lastBssid: Option<Mac> := None;
    var pos := e.nodes.next;
    Neighbours(e.nodes);
    ghost var k := 0;
    assert ms[0..] == ms;
    while pos != e.nodes
      invariant k <= |ms| && pos == if k < |ms| then ms[k].essidNodes else e.nodes
      invariant forall m :: m in ms ==> m in who
      invariant G.Scan(ms, who, None) == (e.split || G.Scan(ms[k..], who, lastBssid))
      decreases |ms| - k
    {
      var n := pos.obj as Node;
      assert e.nodes.elems[k] == pos && n == ms[k] && ms[k..][0] == n && ms[k..][1..] == ms[k + 1..];
      pos := pos.next;
      k := k + 1;
      if n.id.mode * WLAN_MODE_AP != {} || n.id.mode * WLAN_MODE_PROBE != {} {
        continue;
      }
      if lastBssid.Some? && lastBssid.value != n.id.bssid {
        e.split := true;
      }
      lastBssid := Some(n.id.bssid);
    }
  }

  /** The heap holds the table with the fields of group e0 changed, and nothing else. */
  twostate lemma GroupWritten(o: Scene, new e0: Essid, new w: View)
    requires old(Check(o.v)).Intact? && Effect(o, null, e0).LinksOnly? && o.h == o.l == e0.nodes
    requires e0 in o.v.t.ess.tags && e0 in o.v.t.ess.of.members && e0 in w.t.ess.tags && w == o.v.(t := w.t)
    requires w.t == o.v.t.(ess := o.v.t.ess.(tags := o.v.t.ess.tags[e0 := w.t.ess.tags[e0]]))
    requires GroupState(e0, o.v.essids, o.v.t.ess.of.members[e0], w.t.ess.tags[e0], o.v.all).Intact?
    ensures Check(w).Intact?
  {
    assert old(EssidAt(e0, o.v.essids, o.v.t.ess.tags[e0]));
    OthersStay(o, null, null, e0, e0);
    WrittenShape(o.v, w, e0);
  }

  lemma WrittenShape(v: View, w: View, e0: Essid)
    requires e0 in v.t.ess.tags && e0 in v.t.ess.of.members && e0 in w.t.ess.tags && w == v.(t := w.t)
    requires w.t == v.t.(ess := v.t.ess.(tags := v.t.ess.tags[e0 := w.t.ess.tags[e0]]))
    requires GroupState(e0, v.essids, v.t.ess.of.members[e0], w.t.ess.tags[e0], v.all).Intact? && EssidIn(e0, v.all)
    requires NodesAt(v) && StationsAt(v) && ListsAt(v)
    requires forall e :: e in v.t.ess.of.members && e != e0 ==>
      e in v.t.ess.tags && EssidIn(e, v.all) && Within(e.nodes, v.all) && GroupRing(e.nodes, v.t.ess.of.members[e])
    requires forall e :: e in v.t.ess.tags && e != e0 ==> EssidAt(e, v.essids, v.t.ess.tags[e]) && EssidIn(e, v.all)
    ensures Check(w).Intact?
  {
    GroupsShape(v, w, e0);
    NodesSame(v, w);
  }

  /** The members of a group, with the records the scan reads. */
  lemma ScanReady(v: View, e: Essid, who: map<Node, Info>)
    requires Check(v).Intact? && e in v.t.ess.tags && e in v.t.ess.of.members
    requires forall m :: m in v.t.ess.of.members[e] ==> m in v.t.info && m in who && who[m] == v.t.info[m]
    ensures Within(e.nodes, v.all) && Members(e.nodes, v.t.ess.of.members[e], who) && EssidIn(e, v.all) && e.Own()
    ensures EssidAt(e, v.essids, v.t.ess.tags[e])
  {
    var ms := v.t.ess.of.members[e];
    EssidFacts(v, e);
    forall i | 0 <= i < |ms|
      ensures ms[i] in who && ms[i].essidNodes.obj == ms[i] && ms[i].Record() == who[ms[i]]
    {
      assert ms[i] in ms;
      assert NodeIsAt(v.t, v.nodes, ms[i]);
    }
  }

  /** update_essid_split_status, on the table */
  method UpdateSplit(e: Essid, ghost v: View, ghost who: map<Node, Info>) returns (ghost w: View)
    requires Check(v).Intact? && e in v.t.ess.tags && e in v.t.ess.of.members
    requires forall m :: m in v.t.ess.of.members[e] ==> m in v.t.info && m in who && who[m] == v.t.info[m]
    modifies v.all
    ensures Check(w).Intact? && w == v.(t := v.t.(ess := G.Resplit(v.t.ess, e, who)))
  {
    ghost var o := Scene(v, e.nodes, e.nodes);
    ScanReady(v, e, who);
    w := v.(t := v.t.(ess := G.Resplit(v.t.ess, e, who)));
    WriteSplit(e, v.t.ess.of.members[e], who, v.t.ess.tags[e], o);
    GroupWritten(o, e, w);
  }

  method WriteSplit(e: Essid, ghost ms: seq<Node>, ghost who: map<Node, Info>, ghost t: G.Tag, ghost o: Scene)
    requires Within(e.nodes, o.v.all) && Members(e.nodes, ms, who) && EssidAt(e, o.v.essids, t) && o.h == o.l == e.nodes
    modifies e`split
    ensures forall m :: m in ms ==> m in who
    ensures GroupState(e, o.v.essids, ms, t.(split := G.SplitOf(t.numNodes, ms, who)), o.v.all).Intact?
    ensures Effect(o, null, e).LinksOnly?
  {
    ScanSplit(e, ms, who);
  }

  // ----- the list of ESSIDs -----

  /** The search of uwifi_essids_update: strncmp is 0 for equal C strings. */
  method FindEssid(essids: Link, name: EssidBuf, ghost v: View) returns (e: Essid?)
    requires Check(v).Intact? && essids == v.essids && forall f :: f in v.t.ess.ring ==> f in v.t.ess.tags
    ensures var r := G.Find(v.t.ess.ring, v.t.ess.tags, CStr(name)); if r.Some? then e == r.value else e == null
  {
    ghost var g := v.t.ess;
    var pos := essids.next;
    Neighbours(essids);
    ghost var k := 0;
    while pos != essids
      invariant k <= |g.ring| && pos == if k < |g.ring| then g.ring[k].list else essids
      invariant G.Find(g.ring, g.tags, CStr(name)) == G.Find(g.ring[k..], g.tags, CStr(name))
      decreases |g.ring| - k
    {
      EssidFacts(v, g.ring[k]);
      e := pos.obj as Essid;
      if CStr(e.essid) == CStr(name) {
        return;
      }
      assert essids.elems[k] == pos;
      pos := pos.next;
      assert g.ring[k..][1..] == g.ring[k + 1..];
      k := k + 1;
    }
    e := null;
  }

  /** The heap holds the table without ESSID e, or with it, after a step on the list of ESSIDs. */
  twostate lemma EssidListed(o: Scene, new e: Essid, new w: View)
    requires old(Check(o.v)).Intact? && Effect(o, null, e).LinksOnly? && o.h == o.v.essids && o.l.obj == e
    requires w == o.v.(t := o.v.t.(ess := w.t.ess)) && w.t.ess.of.owner == o.v.t.ess.of.owner
    requires Within(w.essids, w.all) && EssidRing(w.essids, w.t.ess.ring)
    requires forall f :: f in w.t.ess.tags ==>
      if f == e then EssidAt(f, w.essids, w.t.ess.tags[f]) && EssidIn(f, w.all)
      else f in o.v.t.ess.tags && w.t.ess.tags[f] == o.v.t.ess.tags[f]
    requires forall f :: f in w.t.ess.of.members ==>
      && f in w.t.ess.tags
      && if f in o.v.t.ess.of.members then w.t.ess.of.members[f] == o.v.t.ess.of.members[f]
         else EssidIn(f, w.all) && Within(f.nodes, w.all) && GroupRing(f.nodes, w.t.ess.of.members[f])
    ensures Check(w).Intact?
  {
    OthersStay(o, null, null, null, e);
    assert NodesAt(o.v);
    NodesSame(o.v, w);
  }

  lemma CloseReady(v: View, e: Essid)
    requires Check(v).Intact? && e in v.t.ess.ring && e in v.t.ess.tags && forall f :: f in v.t.ess.ring ==> f in v.t.ess.tags
    ensures var k := IndexOf(v.t.ess.ring, e);
      && EssidIn(e, v.all) && e.Own() && Within(v.essids, v.all) && EssidRing(v.essids, v.t.ess.ring) && v.essids.offset == 7
      && e.list.next in v.all && e.list.prev in v.all && Cut(v.t.ess.ring, k) == Remove(v.t.ess.ring, e)
  {
    EssidFacts(v, e);
    RingIn(v.essids, v.all);
    RemoveIsCut(v.t.ess.ring, e);
    assert v.essids.elems[IndexOf(v.t.ess.ring, e)] == e.list;
  }

  /** An ESSID without members leaves the list and is freed. */
  method CloseEssid(e: Essid, ghost v: View) returns (ghost w: View)
    requires Check(v).Intact? && e in v.t.ess.ring && e in v.t.ess.tags && v.t.ess.of.members.Keys == v.t.ess.tags.Keys
    requires forall f :: f in v.t.ess.ring ==> f in v.t.ess.tags
    modifies v.all
    ensures Check(w).Intact? && w == v.(t := v.t.(ess := G.Close(v.t.ess, e)))
  {
    ghost var o := Scene(v, v.essids, e.list);
    ghost var k := IndexOf(v.t.ess.ring, e);
    CloseReady(v, e);
    w := v.(t := v.t.(ess := G.Close(v.t.ess, e)));
    UnlinkEssid(e, v.t.ess.ring, k, w.t.ess.ring, o);
    EssidListed(o, e, w);
  }

  method UnlinkEssid(e: Essid, ghost es: seq<Essid>, ghost k: nat, ghost rest: seq<Essid>, ghost o: Scene)
    requires Within(o.v.essids, o.v.all) && EssidRing(o.v.essids, es) && o.h == o.v.essids && o.l == e.list
    requires k < |es| && es[k] == e && rest == Cut(es, k)
    modifies e.list.next`prev, e.list.prev`next, o.v.essids`elems, e.list`ring
    ensures Within(o.v.essids, o.v.all) && EssidRing(o.v.essids, rest) && Effect(o, null, e).LinksOnly?
  {
    Del(e.list, o.v.essids, k);
  }

  // ----- uwifi_essids_remove_node -----

  /** What leaving a group needs and leaves behind. */
  lemma RemoveReady(t: Model, n: Node, who: map<Node, Info>)
    requires G.Linked(t.ess) && G.Known(t.ess, t.info) && n in t.info && n in t.ess.of.owner && t.info.Keys <= who.Keys
    ensures Grouped(t, n)
    ensures var e, h := t.ess.of.owner[n], G.Exit(t.ess, n);
      && e in h.ring && e in h.tags && e in h.of.members && h.of.members.Keys == h.tags.Keys
      && (forall f :: f in h.ring ==> f in h.tags)
      && (forall m :: m in h.of.members[e] ==> m in t.info && m in who)
  {
    G.MembersKnown(t.ess, t.info, t.ess.of.owner[n]);
    RemoveSubset(t.ess.of.members[t.ess.of.owner[n]], n);
  }

  /** uwifi_essids_remove_node */
  method RemoveNode(n: Node, ghost v: View, ghost who: map<Node, Info>) returns (ghost w: View)
    requires Check(v).Intact? && n in v.t.info && G.Linked(v.t.ess) && G.Known(v.t.ess, v.t.info)
    requires v.t.info.Keys <= who.Keys && forall m :: m in v.t.info ==> who[m] == v.t.info[m]
    modifies v.all
    ensures G.Removable(v.t.ess, n, who)
    ensures Check(w).Intact? && w == v.(t := v.t.(ess := G.RemoveNode(v.t.ess, n, who)))
  {
    w := v;
    T.RemovableIn(v.t.ess, n, who);
    EssidPointer(v, n);
    var e := n.essid;
    if e == null {
      return;
    }
    RemoveReady(v.t, n, who);
    w := ExitGroup(n, w);
    EssidFacts(w, e);
    if e.numNodes == 0 {
      w := CloseEssid(e, w);
    } else {
      w := UpdateSplit(e, w, who);
    }
  }

  // ----- uwifi_essids_update -----

  method StoreName(e: Essid, name: EssidBuf)
    modifies e`essid
    ensures CStr(e.essid) == G.Stored(CStr(name))
  {
    e.essid := Strncpy(name);
    e.essid := e.essid[WLAN_MAX_SSID_LEN - 1 := 0];
    G.StoredInBuf(name);
  }

  /** A cleared ESSID with the stored form of the name and an empty ring of members. */
  method NewEssid(name: EssidBuf) returns (e: Essid)
    ensures fresh(e) && fresh(e.list) && fresh(e.nodes) && e.Own() && e.list.ring == null && GroupRing(e.nodes, [])
    ensures CStr(e.essid) == G.Stored(CStr(name)) && e.numNodes == 0 && !e.split
  {
    e := new Essid();
    StoreName(e, name);
    HeadInit(e.nodes);
  }

  method LinkEssid(e: Essid, essids: Link, ghost es: seq<Essid>, ghost t: G.Tag, ghost o: Scene)
    requires Within(essids, o.v.all) && EssidRing(essids, es) && essids == o.v.essids == o.h && essids.offset == 7
    requires EssidIn(e, o.v.all) && o.l == e.list && e.Own() && e.list.ring == null && GroupRing(e.nodes, [])
    requires CStr(e.essid) == t.name && e.numNodes == t.numNodes && e.split == t.split
    modifies essids`prev, essids`elems, essids.prev`next, e.list`next, e.list`prev, e.list`ring
    ensures Within(essids, o.v.all) && EssidRing(essids, es + [e])
    ensures EssidAt(e, essids, t) && Within(e.nodes, o.v.all) && GroupRing(e.nodes, [])
    ensures Effect(o, null, e).LinksOnly?
  {
    AddTail(essids, e.list);
  }

  lemma EnlistReady(v: View)
    requires Check(v).Intact?
    ensures Within(v.essids, v.all) && EssidRing(v.essids, v.t.ess.ring) && v.essids.prev in v.all && v.essids.offset == 7
  {
    RingIn(v.essids, v.all);
  }

  /** A new ESSID becomes the last one on the list. */
  method EnlistEssid(e: Essid, essids: Link, ghost name: seq<u8>, ghost v: View) returns (ghost w: View)
    requires Check(v).Intact? && essids == v.essids && e !in v.t.ess.tags && e !in v.t.ess.of.members
    requires forall f :: f in v.t.ess.ring ==> f in v.t.ess.tags
    requires e.Own() && e.list.ring == null && GroupRing(e.nodes, []) && CStr(e.essid) == name && e.numNodes == 0 && !e.split
    modifies v.all, e.list
    ensures Check(w).Intact?
    ensures w == View(v.t.(ess := G.Open(v.t.ess, e, name)), v.nodes, v.essids, v.all + {e, e.list, e.nodes})
  {
    ghost var v1 := v.(all := v.all + {e, e.list, e.nodes});
    ghost var o := Scene(v1, essids, e.list);
    MayGrow(v, v1.all);
    EnlistReady(v);
    w := v1.(t := v.t.(ess := G.Open(v.t.ess, e, name)));
    LinkEssid(e, essids, v.t.ess.ring, G.Tag(name, 0, false), o);
    EssidListed(o, e, w);
  }

  /** A new ESSID at the end of the list. */
  method OpenEssid(essids: Link, name: EssidBuf, ghost v: View) returns (e: Essid, ghost w: View)
    requires Check(v).Intact? && essids == v.essids && v.t.ess.of.members.Keys == v.t.ess.tags.Keys
    requires forall f :: f in v.t.ess.ring ==> f in v.t.ess.tags
    modifies v.all
    ensures Check(w).Intact? && fresh(e) && fresh(w.all - v.all)
    ensures w == View(v.t.(ess := G.Open(v.t.ess, e, G.Stored(CStr(name)))), v.nodes, v.essids, v.all + {e, e.list, e.nodes})
  {
    e := NewEssid(name);
    w := EnlistEssid(e, essids, G.Stored(CStr(name)), v);
  }

  lemma MoveReady(g: G.Essids<Node, Essid>, n: Node, e: Essid, who: map<Node, Info>)
    requires G.Linked(g) && G.Known(g, who) && n in who && e in g.tags
    ensures G.Removable(g, n, who) && e in g.of.members && (forall m :: m in g.of.members[e] ==> m in who)
    ensures !(n in g.of.owner && g.of.owner[n] == e) ==>
      var h := G.RemoveNode(g, n, who);
      n !in h.of.owner && e in h.tags && e in h.of.members && h.of.members[e] == g.of.members[e]
  {
    T.RemovableIn(g, n, who);
    G.MembersKnown(g, who, e);
  }

  /** The groups once n is in group e. */
  ghost function MovedTo(g: G.Essids<Node, Essid>, n: Node, e: Essid, who: map<Node, Info>): G.Essids<Node, Essid>
    requires G.Linked(g) && G.Known(g, who) && n in who && e in g.tags
  {
    MoveReady(g, n, e, who);
    if n in g.of.owner && g.of.owner[n] == e then G.Resplit(g, e, who)
    else G.Resplit(G.Enter(G.RemoveNode(g, n, who), n, e), e, who)
  }

  /** The groups with n in e. */
  ghost function Entered(g: G.Essids<Node, Essid>, n: Node, e: Essid): G.Essids<Node, Essid>
    requires e in g.tags && e in g.of.members
  {
    if n in g.of.owner then g else G.Enter(g, n, e)
  }

  lemma EnteredMembers(g: G.Essids<Node, Essid>, n: Node, e: Essid, who: map<Node, Info>)
    requires e in g.tags && e in g.of.members && n in who && forall m :: m in g.of.members[e] ==> m in who
    ensures var d := Entered(g, n, e);
      e in d.tags && e in d.of.members && forall m :: m in d.of.members[e] ==> m in who
  {
  }

  /** The end of uwifi_essids_update: n is in e or in no group. */
  method JoinEssid(n: Node, e: Essid, ghost v: View) returns (ghost w: View)
    requires Check(v).Intact? && n in v.t.info && e in v.t.ess.tags && e in v.t.ess.of.members
    requires forall m :: m in v.t.ess.of.members[e] ==> m in v.t.info
    requires EssidOf(v.t, n) == null || EssidOf(v.t, n) == e
    modifies v.all
    ensures Check(w).Intact?
    ensures forall m :: m in Entered(v.t.ess, n, e).of.members[e] ==> m in v.t.info
    ensures w == v.(t := v.t.(ess := G.Resplit(Entered(v.t.ess, n, e), e, v.t.info)))
  {
    w := v;
    EnteredMembers(v.t.ess, n, e, v.t.info);
    EssidPointer(w, n);
    if n.essid == null {
      w := EnterGroup(n, e, w);
    }
    w := UpdateSplit(e, w, v.t.info);
  }

  /** The second half of uwifi_essids_update. */
  method MoveToEssid(n: Node, e: Essid, ghost v: View) returns (ghost w: View)
    requires Check(v).Intact? && G.Linked(v.t.ess) && G.Known(v.t.ess, v.t.info) && n in v.t.info && e in v.t.ess.tags
    modifies v.all
    ensures Check(w).Intact? && w == v.(t := v.t.(ess := MovedTo(v.t.ess, n, e, v.t.info))) && n.essid == e
  {
    w := v;
    MoveReady(v.t.ess, n, e, v.t.info);
    EssidPointer(w, n);
    if n.essid != null && n.essid != e {
      w := RemoveNode(n, w, v.t.info);
    }
    w := JoinEssid(n, e, w);
    EssidPointer(w, n);
  }

  lemma OpenReady(g: G.Essids<Node, Essid>, name: seq<u8>, n: Node, e: Essid, who: map<Node, Info>)
    requires G.Linked(g) && G.Known(g, who) && n in who && G.Vacant(g, name, e)
    ensures var g1 := G.Opened(g, name, e);
      && G.Linked(g1) && G.Known(g1, who) && G.Target(g, name, e) in g1.tags
      && G.Update(g, name, n, e, who) == MovedTo(g1, n, G.Target(g, name, e), who)
  {
    G.OpenedKeeps(g, name, n, e, who);
  }

  /** The first half of uwifi_essids_update: the ESSID of this name, which is opened if no other has the name. */
  method FindOrOpen(essids: Link, name: EssidBuf, ghost v: View) returns (e: Essid, ghost w: View)
    requires Check(v).Intact? && essids == v.essids && v.t.ess.of.members.Keys == v.t.ess.tags.Keys
    requires forall f :: f in v.t.ess.ring ==> f in v.t.ess.tags
    modifies v.all
    ensures Check(w).Intact? && fresh(w.all - v.all) && v.all <= w.all
    ensures G.Vacant(v.t.ess, CStr(name), e) && e == G.Target(v.t.ess, CStr(name), e)
    ensures if G.Find(v.t.ess.ring, v.t.ess.tags, CStr(name)).Some? then e in v.t.ess.tags else e !in v.t.ess.tags && fresh(e)
    ensures w == View(v.t.(ess := G.Opened(v.t.ess, CStr(name), e)), v.nodes, v.essids, w.all)
  {
    var found := FindEssid(essids, name, v);
    if found == null {
      e, w := OpenEssid(essids, name, v);
    } else {
      e, w := found, v;
    }
  }

  method UpdateEssid(essids: Link, name: EssidBuf, n: Node, ghost v: View) returns (ghost w: View)
    requires Check(v).Intact? && G.Linked(v.t.ess) && G.Known(v.t.ess, v.t.info) && essids == v.essids && n in v.t.info
    modifies v.all
    ensures Check(w).Intact? && fresh(w.all - v.all) && v.all <= w.all
    ensures n.essid != null && G.Vacant(v.t.ess, CStr(name), n.essid)
    ensures if G.Find(v.t.ess.ring, v.t.ess.tags, CStr(name)).Some? then n.essid in v.t.ess.tags
      else n.essid !in v.t.ess.tags && fresh(n.essid)
    ensures w == View(v.t.(ess := G.Update(v.t.ess, CStr(name), n, n.essid, v.t.info)), v.nodes, v.essids, w.all)
  {
    var e;
    e, w := FindOrOpen(essids, name, v);
    OpenReady(v.t.ess, CStr(name), n, e, v.t.info);
    w := MoveToEssid(n, e, w);
  }

  /** uwifi_essids_update; n is NULL when the node update ignored the frame. */
  method EssidsUpdate(essids: Link, p: PacketRef, n: Node?, ghost v: View) returns (ghost w: View)
    requires Check(v).Intact? && T.TableOk(v.t) && essids == v.essids && (n != null ==> n in v.t.info) && p !in v.all
    modifies v.all
    ensures Check(w).Intact? && fresh(w.all - v.all) && v.all <= w.all
    ensures n == null || !T.Names(p.v) ==> w == v
    ensures n != null && T.Names(p.v) ==>
      && n.essid != null && G.Vacant(v.t.ess, CStr(p.v.ie.essid), n.essid)
      && (if G.Find(v.t.ess.ring, v.t.ess.tags, CStr(p.v.ie.essid)).Some? then n.essid in v.t.ess.tags
          else n.essid !in v.t.ess.tags && fresh(n.essid))
      && w == View(T.EssidsUpdate(v.t, p.v, Some(n), n.essid), v.nodes, v.essids, w.all)
  {
    w := v;
    if n == null || p.v.meta.flags * PHY_FLAG_BADFCS != {} || p.v.ie.essid[0] == 0 {
      return;
    }
    if p.v.hdr.wlanType != BEACON && p.v.hdr.wlanType != PROBE_RESP {
      return;
    }
    assert T.Names(p.v);
    ghost var q := p.v;
    w := UpdateEssid(essids, p.v.ie.essid, n, v);
    assert p.v == q;
  }
}
