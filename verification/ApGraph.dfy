/**
 * Which node is whose access point: the ap_node pointers and the ap_nodes rings of core/node.c as values.
 * N stands for node addresses.
 */
module ApGraph {
  import opened Membership
  import opened Seqs

  type Aps<N(==)> = Rings<N, N>

  /** n's AP is a if and only if n is among a's stations; only live nodes, those with a ring, take part. */
  ghost predicate ApsOk<N>(g: Aps<N>) {
    RingsOk(g) && g.owner.Keys <= g.members.Keys
  }

  lemma StationsLive<N>(g: Aps<N>)
    requires ApsOk(g)
    ensures forall n :: n in g.owner ==> n in g.members && g.owner[n] in g.members && n in g.members[g.owner[n]]
    ensures forall a, n :: a in g.members && n in g.members[a] ==> n in g.members
  {
  }

  /** What uwifi_nodes_timeout does to a node's AP links: off its own AP, its stations off it, and freed. */
  function Evict<N>(g: Aps<N>, n: N): Aps<N>
    requires ApsOk(g) && n in g.members
  {
    if n in g.owner then LeaveKeeps(g, n); Dead(Detach(Leave(g, n), n), n) else Dead(Detach(g, n), n)
  }

  /** d is g without n: n is on no ring and nobody's AP any more. */
  ghost predicate Without<N>(g: Aps<N>, d: Aps<N>, n: N) {
    && d.members.Keys == g.members.Keys - {n}
    && (forall a :: a in d.members ==> d.members[a] == Remove(g.members[a], n))
    && d.owner.Keys == (set m | m in g.owner && m != n && g.owner[m] != n)
    && (forall m :: m in d.owner ==> d.owner[m] == g.owner[m])
  }

  /** Evicting a node takes it out of every ring and of every pointer, even if it was its own AP. */
  lemma EvictRemoves<N>(g: Aps<N>, n: N)
    requires ApsOk(g) && n in g.members
    ensures Without(g, Evict(g, n), n) && ApsOk(Evict(g, n))
  {
    LeaveLeaves(g, n);
    var h := if n in g.owner then Leave(g, n) else g;
    LeftKeeps(g, h, n);
    DetachedIsWithout(g, h, n);
    WithoutKeeps(g, Evict(g, n), n);
  }

  lemma DetachedIsWithout<N>(g: Aps<N>, h: Aps<N>, n: N)
    requires RingsOk(h) && Left(g, h, n) && n in h.members
    ensures Without(g, Dead(Detach(h, n), n), n)
  {
    DetachEmpties(h, n);
  }

  lemma WithoutKeeps<N>(g: Aps<N>, d: Aps<N>, n: N)
    requires ApsOk(g) && Without(g, d, n)
    ensures ApsOk(d)
  {
    forall a | a in d.members
      ensures Distinct(d.members[a])
    {
      RemoveDistinct(g.members[a], n);
    }
    forall a, m | a in d.members && m in d.members[a]
      ensures m in d.owner && d.owner[m] == a
    {
      RemoveMember(g.members[a], n, m);
    }
    forall m | m in d.owner
      ensures m in d.members && m in d.members[d.owner[m]]
    {
      RemoveMember(g.members[g.owner[m]], n, m);
    }
  }

  /** g is g0 without the nodes in `gone`: every ring keeps its other stations in order, and nobody keeps a gone AP. */
  ghost predicate Trimmed<N>(g0: Aps<N>, g: Aps<N>, gone: set<N>) {
    && g.members.Keys == g0.members.Keys - gone
    && (forall a :: a in g.members ==> g.members[a] == Keep(g0.members[a], gone))
    && g.owner.Keys == (set n | n in g0.owner && n !in gone && g0.owner[n] !in gone)
    && (forall n :: n in g.owner ==> g.owner[n] == g0.owner[n])
  }

  lemma TrimmedNone<N>(g: Aps<N>)
    ensures Trimmed(g, g, {})
  {
    forall a | a in g.members
      ensures Keep(g.members[a], {}) == g.members[a]
    {
      KeepAll(g.members[a], {});
    }
  }

  /** One more eviction enlarges the set of removed nodes. */
  lemma EvictTrims<N>(g0: Aps<N>, g: Aps<N>, gone: set<N>, n: N)
    requires ApsOk(g0) && ApsOk(g) && Trimmed(g0, g, gone) && n in g.members
    ensures Trimmed(g0, Evict(g, n), gone + {n})
  {
    EvictRemoves(g, n);
    forall a | a in g.members && a != n
      ensures Remove(g.members[a], n) == Keep(g0.members[a], gone + {n})
    {
      RemoveKeep(g0.members[a], gone, n);
    }
  }
}
