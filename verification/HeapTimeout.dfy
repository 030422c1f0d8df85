/** uwifi_nodes_timeout on the heap. */
module HeapTimeout {
  import opened CcList
  import opened HeapAps
  import opened HeapEssids
  import opened HeapNodes
  import opened HeapView
  import opened Membership
  import opened NodeInfo
  import opened Nodes
  import opened Seqs
  import opened Wlan
  import A = ApGraph
  import G = EssidGraph
  import T = Table

  // ----- uwifi_nodes_timeout -----

  method UnlinkNode(n: Node, nodes: Link, ghost ns: seq<Node>, ghost k: nat, ghost rest: seq<Node>,
                    ghost ap: Node?, ghost e: Essid?, ghost i: Info, ghost o: Scene)
    requires Within(nodes, o.v.all) && ListRing(nodes, ns) && o.h == nodes && o.l == n.list && nodes.offset == 6
    requires k < |ns| && ns[k] == n && rest == Cut(ns, k)
    requires NodeAt(n, nodes, ap, e, i)
    modifies n.list.next`prev, n.list.prev`next, nodes`elems, n.list`ring
    ensures Within(nodes, o.v.all) && ListRing(nodes, rest) && NodeAt(n, null, ap, e, i) && Effect(o, n, null).LinksOnly?
  {
    DelFrom(nodes, n.list, k);
  }

  /** The heap holds the table with n off the list. */
  twostate lemma NodeUnlisted(o: Scene, new n: Node, new w: View)
    requires old(Check(o.v)).Intact? && Effect(o, n, null).LinksOnly? && o.h == o.v.nodes && o.l.obj == n && n in o.v.t.info
    requires w == o.v.(t := o.v.t.(order := Remove(o.v.t.order, n))) && Distinct(o.v.t.order)
    requires Within(w.nodes, w.all) && ListRing(w.nodes, w.t.order)
    requires NodeAt(n, null, ApOf(o.v.t, n), EssidOf(o.v.t, n), o.v.t.info[n])
    ensures Check(w).Intact?
  {
    OthersStay(o, n, null, null, null);
    UnlistedOthers(o.v, w, n);
    UnlistedShape(o, w, n);
  }

  lemma UnlistedShape(o: Scene, w: View, n: Node)
    requires Stayed(o, n, null, null, null) && n in o.v.t.info && o.h == o.v.nodes && o.v.essids != o.h
    requires w == o.v.(t := o.v.t.(order := w.t.order)) && w.nodes.offset == 6 && w.essids.offset == 7
    requires NodesAt(w) && Within(w.nodes, w.all) && ListRing(w.nodes, w.t.order)
    requires forall a :: a in w.t.aps.members ==> a in w.t.info
    requires forall e :: e in w.t.ess.of.members ==> e in w.t.ess.tags
    ensures Check(w).Intact?
  {
  }

  lemma UnlistedOthers(v: View, w: View, n: Node)
    requires w == v.(t := v.t.(order := Remove(v.t.order, n))) && Distinct(v.t.order) && n in v.t.info
    requires forall m :: m in v.t.info ==> NodeIn(m, v.all)
    requires forall m :: m in v.t.info && m != n ==> NodeIsAt(v.t, v.nodes, m)
    requires NodeAt(n, null, ApOf(v.t, n), EssidOf(v.t, n), v.t.info[n])
    ensures NodesAt(w)
  {
    forall m | m in w.t.info
      ensures NodeIsAt(w.t, w.nodes, m) && NodeIn(m, w.all)
    {
      RemoveMember(v.t.order, n, m);
      if m != n {
        assert NodeIsAt(v.t, v.nodes, m);
      }
    }
  }

  lemma UnlistReady(v: View, n: Node)
    requires Check(v).Intact? && n in v.t.order && forall m :: m in v.t.order ==> m in v.t.info
    ensures n in v.t.info && NodeAt(n, v.nodes, ApOf(v.t, n), EssidOf(v.t, n), v.t.info[n]) && NodeIn(n, v.all)
    ensures Within(v.nodes, v.all) && ListRing(v.nodes, v.t.order) && v.nodes.offset == 6
    ensures n.list.next in v.all && n.list.prev in v.all && Remove(v.t.order, n) == Cut(v.t.order, IndexOf(v.t.order, n))
  {
    assert NodeIsAt(v.t, v.nodes, n);
    ListReady(v);
    RemoveIsCut(v.t.order, n);
  }

  /** Node n leaves the list. */
  method UnlistNode(n: Node, nodes: Link, ghost v: View) returns (ghost w: View)
    requires Check(v).Intact? && nodes == v.nodes && n in v.t.order && Distinct(v.t.order)
    requires forall m :: m in v.t.order ==> m in v.t.info
    modifies v.all
    ensures Check(w).Intact? && w == v.(t := v.t.(order := Remove(v.t.order, n)))
  {
    ghost var o := Scene(v, nodes, n.list);
    ghost var k := IndexOf(v.t.order, n);
    UnlistReady(v, n);
    w := v.(t := v.t.(order := Remove(v.t.order, n)));
    UnlinkNode(n, nodes, v.t.order, k, w.t.order, ApOf(v.t, n), EssidOf(v.t, n), v.t.info[n], o);
    NodeUnlisted(o, n, w);
  }

  /** The AP links are in order and lead to live nodes. */
  ghost predicate Associated(t: Model) {
    && RingsOk(t.aps) && t.aps.members.Keys <= t.info.Keys
    && (forall a, m :: a in t.aps.members && m in t.aps.members[a] ==> m in t.info)
  }

  lemma LeaveAssociated(t: Model, n: Node)
    requires Associated(t) && n in t.aps.owner
    ensures Associated(t.(aps := Leave(t.aps, n)))
  {
    LeaveKeeps(t.aps, n);
    forall a, m | a in Leave(t.aps, n).members && m in Leave(t.aps, n).members[a]
      ensures m in t.info
    {
      RemoveSubset(t.aps.members[t.aps.owner[n]], n);
    }
  }

  /** What taking the first station off n's ring needs and leaves. */
  lemma DetachStep(t: Model, n: Node)
    requires Associated(t) && n in t.aps.members && t.aps.members[n] != []
    ensures var m := t.aps.members[n][0];
      && m in t.aps.owner && t.aps.owner[m] == n && m in t.info && m in t.aps.members[n]
      && (forall x :: x in t.aps.members[n] ==> x in t.info)
      && Leave(t.aps, m).members[n] == t.aps.members[n][1..]
      && Associated(t.(aps := Leave(t.aps, m))) && Detach(t.aps, n) == Detach(Leave(t.aps, m), n)
  {
    LeaveAssociated(t, t.aps.members[n][0]);
  }

  lemma StationAt(v: View, n: Node, k: nat)
    requires Check(v).Intact? && n in v.t.aps.members && k < |v.t.aps.members[n]| && v.t.aps.members[n][k] in v.t.info
    ensures var ms := v.t.aps.members[n];
      && ms[k].apList.obj == ms[k]
      && ms[k].apList.next == if k + 1 < |ms| then ms[k + 1].apList else n.apNodes
  {
    assert NodeIsAt(v.t, v.nodes, v.t.aps.members[n][k]);
    Neighbours(n.apNodes);
    assert n.apNodes.elems[k] == v.t.aps.members[n][k].apList;
  }

  /** Whether the loop that clears the AP list of n, and is to end in `goal`, has come to link pos. */
  ghost function Clearing(goal: A.Aps<Node>, v: View, n: Node, pos: Link): Integrity
    reads v.all
  {
    if && Check(v).Intact? && Associated(v.t) && n in v.t.aps.members && Detach(v.t.aps, n) == goal
       && pos == (if v.t.aps.members[n] == [] then n.apNodes else v.t.aps.members[n][0].apList) then Intact else Damaged
  }

  lemma ClearingAt(goal: A.Aps<Node>, v: View, n: Node, pos: Link)
    requires Clearing(goal, v, n, pos).Intact? && pos != n.apNodes
    ensures Check(v).Intact? && Associated(v.t) && n in v.t.aps.members
    ensures var ms := v.t.aps.members[n];
      ms != [] && pos.obj == ms[0] && pos.next == if |ms| > 1 then ms[1].apList else n.apNodes
  {
    StationAt(v, n, 0);
  }

  /** One round of the loop. */
  method DetachFirst(n: Node, pos: Link, ghost goal: A.Aps<Node>, ghost v: View) returns (m2: Link, ghost w: View)
    requires Clearing(goal, v, n, pos).Intact? && pos != n.apNodes
    modifies v.all
    ensures Clearing(goal, w, n, m2).Intact? && w == v.(t := v.t.(aps := w.t.aps))
    ensures n in v.t.aps.members && n in w.t.aps.members && |w.t.aps.members[n]| < |v.t.aps.members[n]|
  {
    ClearingAt(goal, v, n, pos);
    DetachStep(v.t, n);
    var n2 := pos.obj as Node;
    m2 := pos.next;
    w := DetachAp(n2, v);
    ClearingGoesOn(goal, v.t.aps.members[n], w, n, m2);
  }

  lemma ClearingGoesOn(goal: A.Aps<Node>, ms: seq<Node>, w: View, n: Node, pos: Link)
    requires Check(w).Intact? && Associated(w.t) && n in w.t.aps.members && Detach(w.t.aps, n) == goal
    requires ms != [] && w.t.aps.members[n] == ms[1..] && pos == if |ms| > 1 then ms[1].apList else n.apNodes
    ensures Clearing(goal, w, n, pos).Intact?
  {
  }

  /** The loop that takes all stations off the ring of the node that goes. */
  method DetachStations(n: Node, ghost v: View) returns (ghost w: View)
    requires Check(v).Intact? && Associated(v.t) && n in v.t.aps.members
    modifies v.all
    ensures Check(w).Intact? && w == v.(t := v.t.(aps := Detach(v.t.aps, n)))
  {
    w := v;
    FirstStation(w, n);
    ghost var goal, left := Detach(v.t.aps, n), |v.t.aps.members[n]|;
    var pos := n.apNodes.next;
    while pos != n.apNodes
      invariant Clearing(goal, w, n, pos).Intact? && w == v.(t := v.t.(aps := w.t.aps))
      invariant n in w.t.aps.members && left == |w.t.aps.members[n]|
      decreases left
    {
      pos, w := DetachFirst(n, pos, goal, w);
      left := |w.t.aps.members[n]|;
    }
    ClearingEnd(goal, w, n);
  }

  lemma ClearingEnd(goal: A.Aps<Node>, v: View, n: Node)
    requires Clearing(goal, v, n, n.apNodes).Intact?
    ensures Check(v).Intact? && v.t.aps == goal
  {
    FirstStation(v, n);
  }

  lemma FirstStation(v: View, n: Node)
    requires Check(v).Intact? && n in v.t.aps.members
    ensures n.apNodes.next == if v.t.aps.members[n] == [] then n.apNodes else v.t.aps.members[n][0].apList
    ensures forall k :: 0 <= k < |v.t.aps.members[n]| ==> v.t.aps.members[n][k].apList != n.apNodes
  {
    Neighbours(n.apNodes);
  }

  /** The table once the freed node n, which is on no ring and nobody's AP, is forgotten. */
  ghost function Forgotten(t: Model, n: Node): Model {
    t.(info := t.info - {n}, aps := Dead(t.aps, n))
  }

  /** Freeing a node takes it out of the table; its memory is not looked at any more. */
  lemma Forget(v: View, n: Node)
    requires Check(v).Intact?
    ensures Check(v.(t := Forgotten(v.t, n))).Intact?
  {
    var w := v.(t := Forgotten(v.t, n));
    forall m | m in w.t.info
      ensures NodeIsAt(w.t, w.nodes, m) && NodeIn(m, w.all)
    {
      assert NodeIsAt(v.t, v.nodes, m);
    }
    assert NodesAt(w);
    assert StationsAt(w);
    assert GroupsAt(w) && EssidsAt(w) && ListsAt(w);
  }

  /** Before n is freed: what each step of that needs. */
  ghost predicate Freeable(t: Model, n: Node, who: map<Node, Info>) {
    && n in t.order && Distinct(t.order) && (forall m :: m in t.order ==> m in t.info)
    && Associated(t) && n in t.aps.members && t.aps.owner.Keys <= t.info.Keys
    && G.Linked(t.ess) && G.Known(t.ess, t.info)
    && t.info.Keys <= who.Keys && forall m :: m in t.info ==> who[m] == t.info[m]
  }

  /** The AP links once n left its AP. */
  ghost function OffAp(g: A.Aps<Node>, n: Node): A.Aps<Node>
    requires RingsOk(g)
  {
    if n in g.owner then Leave(g, n) else g
  }

  lemma OffApAssociated(t: Model, n: Node)
    requires Associated(t) && n in t.aps.members
    ensures Associated(t.(aps := OffAp(t.aps, n))) && n in OffAp(t.aps, n).members
    ensures n in t.aps.owner ==>
      && t.aps.owner[n] in t.aps.members && n in t.aps.members[t.aps.owner[n]]
      && forall m :: m in t.aps.members[t.aps.owner[n]] ==> m in t.info
  {
    if n in t.aps.owner {
      LeaveAssociated(t, n);
    }
  }

  /** The node goes off the list, its AP's ring and its ESSID's. */
  method UnlinkAll(n: Node, nodes: Link, ghost v: View, ghost who: map<Node, Info>) returns (ghost w: View)
    requires Check(v).Intact? && Freeable(v.t, n, who) && nodes == v.nodes
    modifies v.all
    ensures G.Removable(v.t.ess, n, who)
    ensures Check(w).Intact?
    ensures w == v.(t := T.Table(Remove(v.t.order, n), v.t.info, OffAp(v.t.aps, n), G.RemoveNode(v.t.ess, n, who)))
  {
    w := UnlistNode(n, nodes, v);
    OffApAssociated(v.t, n);
    ApPointer(w, n);
    if n.apNode != null {
      w := DetachAp(n, w);
    }
    T.RemovableIn(v.t.ess, n, who);
    w := RemoveNode(n, w, who);
  }

  /** One node of the sweep: unlinked everywhere, its stations detached, and freed. */
  method FreeNode(n: Node, nodes: Link, ghost v: View, ghost who: map<Node, Info>) returns (ghost w: View)
    requires Check(v).Intact? && Freeable(v.t, n, who) && nodes == v.nodes
    modifies v.all
    ensures Check(w).Intact? && w == v.(t := Freed(v.t, n, who))
  {
    w := UnlinkAll(n, nodes, v, who);
    OffApAssociated(v.t, n);
    w := DetachStations(n, w);
    Forget(w, n);
    w := w.(t := Forgotten(w.t, n));
  }

  /** What is left of a sweep that ends in `goal`: the table is t now, `pre` were kept, and ns are still to be looked at. */
  datatype Leg = Leg(goal: Model, who: map<Node, Info>, now: u32, limit: u32)

  ghost function Track(g: Leg, t: Model, pre: seq<Node>, ns: seq<Node>): Integrity {
    if && T.TableOk(t) && t.order == pre + ns && t.info.Keys <= g.who.Keys
       && (forall m :: m in t.info ==> t.info[m] == g.who[m])
       && Distinct(ns) && (forall n :: n in ns ==> n in t.info)
       && g.goal == T.Sweep(t, ns, g.now, g.limit, g.who) then Intact else Damaged
  }

  lemma TrackStart(t: Model, now: u32, limit: u32)
    requires T.TableOk(t)
    ensures Track(Leg(T.Sweep(t, t.order, now, limit, t.info), t.info, now, limit), t, [], t.order).Intact?
  {
    assert [] + t.order == t.order;
  }

  lemma TrackAt(g: Leg, t: Model, pre: seq<Node>, ns: seq<Node>)
    requires Track(g, t, pre, ns).Intact?
    ensures t.order == pre + ns && (forall m :: m in t.order ==> m in t.info)
  {
  }

  lemma TrackKeep(g: Leg, t: Model, pre: seq<Node>, ns: seq<Node>)
    requires Track(g, t, pre, ns).Intact? && ns != [] && ns[0] in t.info && !T.Stale(t.info[ns[0]], g.now, g.limit)
    ensures Track(g, t, pre + [ns[0]], ns[1..]).Intact?
  {
    assert pre + ns == pre + [ns[0]] + ns[1..];
  }

  lemma {:induction false} RemoveMiddle<T>(pre: seq<T>, x: T, rest: seq<T>)
    requires x !in pre
    ensures Remove(pre + [x] + rest, x) == pre + rest
  {
    if pre == [] {
      assert [] + [x] + rest == [x] + rest && ([x] + rest)[1..] == rest && [] + rest == rest;
    } else {
      var s := pre + [x] + rest;
      assert s[1..] == pre[1..] + [x] + rest && s[0] == pre[0];
      RemoveMiddle(pre[1..], x, rest);
      assert [pre[0]] + (pre[1..] + rest) == pre + rest;
    }
  }

  lemma TrackFreeable(g: Leg, t: Model, pre: seq<Node>, ns: seq<Node>)
    requires Track(g, t, pre, ns).Intact? && ns != []
    ensures Freeable(t, ns[0], g.who)
  {
    A.StationsLive(t.aps);
    assert ns[0] == t.order[|pre|];
  }

  lemma NotBefore(pre: seq<Node>, ns: seq<Node>)
    requires Distinct(pre + ns) && ns != []
    ensures ns[0] !in pre && Remove(pre + ns, ns[0]) == pre + ns[1..]
  {
    assert ns[0] == (pre + ns)[|pre|];
    forall k | 0 <= k < |pre|
      ensures pre[k] != ns[0]
    {
      assert pre[k] == (pre + ns)[k];
    }
    assert pre + ns == pre + [ns[0]] + ns[1..];
    RemoveMiddle(pre, ns[0], ns[1..]);
  }

  /** The table without node n: what the source's steps, one after the other, make of it. */
  ghost function Freed(t: Model, n: Node, who: map<Node, Info>): Model
    requires Freeable(t, n, who)
  {
    OffApAssociated(t, n);
    T.RemovableIn(t.ess, n, who);
    T.Table(Remove(t.order, n), t.info - {n}, Dead(Detach(OffAp(t.aps, n), n), n), G.RemoveNode(t.ess, n, who))
  }

  lemma FreedIsDropped(t: Model, n: Node, who: map<Node, Info>)
    requires T.TableOk(t) && Freeable(t, n, who)
    ensures Freed(t, n, who) == T.Drop(t, n, who)
  {
  }

  lemma TrackDrop(g: Leg, t: Model, pre: seq<Node>, ns: seq<Node>)
    requires Track(g, t, pre, ns).Intact? && ns != [] && ns[0] in t.info && T.Stale(t.info[ns[0]], g.now, g.limit)
    ensures Freeable(t, ns[0], g.who) && Track(g, Freed(t, ns[0], g.who), pre, ns[1..]).Intact?
  {
    TrackFreeable(g, t, pre, ns);
    FreedIsDropped(t, ns[0], g.who);
    T.DropKeeps(t, ns[0], g.who);
    NotBefore(pre, ns);
    DroppedTrack(g, t, T.Drop(t, ns[0], g.who), pre, ns);
  }

  lemma DroppedTrack(g: Leg, t: Model, d: Model, pre: seq<Node>, ns: seq<Node>)
    requires Track(g, t, pre, ns).Intact? && ns != [] && ns[0] in t.info && T.Stale(t.info[ns[0]], g.now, g.limit)
    requires T.LinksOk(t) && d == T.Drop(t, ns[0], g.who) && T.TableOk(d) && d.order == pre + ns[1..]
    ensures Track(g, d, pre, ns[1..]).Intact?
  {
  }

  lemma TrackEnd(g: Leg, t: Model, pre: seq<Node>)
    requires Track(g, t, pre, []).Intact?
    ensures t == g.goal
  {
  }

  /** Where the list goes on after the nodes in pre. */
  lemma ListAt(v: View, pre: seq<Node>, ns: seq<Node>)
    requires Check(v).Intact? && v.t.order == pre + ns && (forall m :: m in v.t.order ==> m in v.t.info)
    ensures ns != [] ==>
      && ns[0] in v.t.info && ns[0].list.obj == ns[0] && ns[0].Record() == v.t.info[ns[0]] && ns[0].list != v.nodes
      && ns[0].list.next == if |ns| > 1 then ns[1].list else v.nodes
    ensures pre == [] ==> v.nodes.next == if ns == [] then v.nodes else ns[0].list
  {
    Neighbours(v.nodes);
    if ns != [] {
      assert v.t.order[|pre|] == ns[0];
      assert NodeIsAt(v.t, v.nodes, ns[0]);
      assert v.nodes.elems[|pre|] == ns[0].list;
      if |ns| > 1 {
        assert v.t.order[|pre| + 1] == ns[1];
      }
    }
  }

  lemma TrackListAt(g: Leg, v: View, pre: seq<Node>, ns: seq<Node>)
    requires Check(v).Intact? && Track(g, v.t, pre, ns).Intact?
    ensures ns != [] ==>
      && ns[0].list.obj == ns[0] && ns[0].list != v.nodes && ns[0].list.next == if |ns| > 1 then ns[1].list else v.nodes
    ensures ns != [] ==> ns[0] in v.t.info && ns[0].Record() == v.t.info[ns[0]]
    ensures pre == [] ==> v.nodes.next == if ns == [] then v.nodes else ns[0].list
  {
    TrackAt(g, v.t, pre, ns);
    ListAt(v, pre, ns);
  }

  /** The age test reads the record. */
  lemma AgeTest(n: Node, i: Info, now: u32, limit: u32)
    requires n.Record() == i
    ensures T.Stale(i, now, limit) <==> U32(now - n.seen.lastSeen) > limit
  {
  }

  method FreeStale(n: Node, nodes: Link, ghost g: Leg, ghost pre: seq<Node>, ghost ns: seq<Node>, ghost v: View)
    returns (ghost w: View)
    requires Check(v).Intact? && Track(g, v.t, pre, ns).Intact? && ns != [] && n == ns[0] && nodes == v.nodes
    requires n in v.t.info && T.Stale(v.t.info[n], g.now, g.limit)
    modifies v.all
    ensures Check(w).Intact? && w == v.(t := w.t) && Track(g, w.t, pre, ns[1..]).Intact?
  {
    TrackDrop(g, v.t, pre, ns);
    w := FreeNode(n, nodes, v, g.who);
  }

  /** Whether the loop has come to link pos. */
  ghost function Progress(g: Leg, pre: seq<Node>, ns: seq<Node>, v: View, pos: Link): Integrity
    reads v.all
  {
    if Check(v).Intact? && Track(g, v.t, pre, ns).Intact? && pos == (if ns == [] then v.nodes else ns[0].list) then Intact
    else Damaged
  }

  lemma ProgressEnd(g: Leg, pre: seq<Node>, ns: seq<Node>, v: View)
    requires Progress(g, pre, ns, v, v.nodes).Intact?
    ensures Check(v).Intact? && v.t == g.goal
  {
    TrackListAt(g, v, pre, ns);
    TrackEnd(g, v.t, pre);
  }

  lemma ProgressStart(g: Leg, v: View)
    requires Check(v).Intact? && Track(g, v.t, [], v.t.order).Intact?
    ensures Progress(g, [], v.t.order, v, v.nodes.next).Intact?
  {
    TrackListAt(g, v, [], v.t.order);
  }

  /** One round of the loop: the node is freed or kept. */
  method SweepOne(pos: Link, nodes: Link, now: u32, limit: u32,
                  ghost g: Leg, ghost pre: seq<Node>, ghost ns: seq<Node>, ghost v: View)
    returns (m: Link, ghost w: View, ghost kept: seq<Node>)
    requires Progress(g, pre, ns, v, pos).Intact? && pos != nodes && nodes == v.nodes && g.now == now && g.limit == limit
    modifies v.all
    ensures ns != [] && w == v.(t := w.t) && Progress(g, kept, ns[1..], w, m).Intact?
  {
    TrackListAt(g, v, pre, ns);
    var n := pos.obj as Node;
    m := pos.next;
    AgeTest(n, v.t.info[n], now, limit);
    if U32(now - n.seen.lastSeen) > limit {
      kept := pre;
      w := FreeStale(n, nodes, g, pre, ns, v);
    } else {
      TrackKeep(g, v.t, pre, ns);
      w, kept := v, pre + [n];
    }
  }

  /** The loop of uwifi_nodes_timeout. */
  method SweepNodes(nodes: Link, now: u32, limit: u32, ghost g: Leg, ghost v: View) returns (ghost w: View)
    requires Check(v).Intact? && nodes == v.nodes && Track(g, v.t, [], v.t.order).Intact? && g.now == now && g.limit == limit
    modifies v.all
    ensures Check(w).Intact? && w == v.(t := g.goal)
  {
    w := v;
    ghost var pre: seq<Node>, ns := [], v.t.order;
    ProgressStart(g, v);
    var pos := nodes.next;
    while pos != nodes
      invariant Progress(g, pre, ns, w, pos).Intact? && w == v.(t := w.t)
      decreases |ns|
    {
      pos, w, pre := SweepOne(pos, nodes, now, limit, g, pre, ns, w);
      ns := ns[1..];
    }
    ProgressEnd(g, pre, ns, w);
  }

  /** uwifi_nodes_timeout; returns the new *last_nodetimeout. */
  method Timeout(nodes: Link, sec: u32, last: u32, now: u32, ghost v: View) returns (newLast: u32, ghost w: View)
    requires Check(v).Intact? && T.TableOk(v.t) && nodes == v.nodes
    modifies v.all
    ensures Check(w).Intact? && T.Swept(w.t, newLast) == T.Timeout(v.t, now, sec, last) && w == v.(t := w.t)
  {
    if U32(now - last) < U32(sec * 1000000) {
      return last, v;
    }
    var limit := U32(sec * 1000000);
    TrackStart(v.t, now, limit);
    w := SweepNodes(nodes, now, limit, Leg(T.Sweep(v.t, v.t.order, now, limit, v.t.info), v.t.info, now, limit), v);
    newLast := now;
  }
}
