/**
 * Members on the rings of owners, with a pointer back from each member: the shape shared by the stations of an
 * access point (ap_node / ap_nodes) and the nodes of an ESSID (essid / nodes).
 */
module Membership {
  import opened Seqs

  /** owner[m] is the owner m points to, if any; members[o] is the ring of every live owner o. */
  datatype Rings<M(==), O(==)> = Rings(owner: map<M, O>, members: map<O, seq<M>>)

  /** m points to o if and only if m is on o's ring, where it is once. */
  ghost predicate RingsOk<M, O>(g: Rings<M, O>) {
    && (forall m :: m in g.owner ==> g.owner[m] in g.members && m in g.members[g.owner[m]])
    && (forall o, m :: o in g.members && m in g.members[o] ==> m in g.owner && g.owner[m] == o)
    && (forall o :: o in g.members ==> Distinct(g.members[o]))
  }

  /** A new owner, with an empty ring. */
  function Born<M, O>(g: Rings<M, O>, o: O): Rings<M, O> {
    g.(members := g.members[o := []])
  }

  /** Puts m at the end of o's ring. */
  function Join<M, O>(g: Rings<M, O>, m: M, o: O): Rings<M, O>
    requires o in g.members
  {
    Rings(g.owner[m := o], g.members[o := g.members[o] + [m]])
  }

  /** Takes m off its owner's ring. */
  function Leave<M, O>(g: Rings<M, O>, m: M): Rings<M, O>
    requires m in g.owner && g.owner[m] in g.members
  {
    Rings(g.owner - {m}, g.members[g.owner[m] := Remove(g.members[g.owner[m]], m)])
  }

  function Dead<M, O>(g: Rings<M, O>, o: O): Rings<M, O> {
    g.(members := g.members - {o})
  }

  lemma BornKeeps<M, O>(g: Rings<M, O>, o: O)
    requires RingsOk(g) && o !in g.members
    ensures RingsOk(Born(g, o))
  {
  }

  lemma JoinKeeps<M, O>(g: Rings<M, O>, m: M, o: O)
    requires RingsOk(g) && o in g.members && m !in g.owner
    ensures RingsOk(Join(g, m, o))
  {
    var h := Join(g, m, o);
    assert m == h.members[o][|g.members[o]|];
    forall p, n | p in h.members && n in h.members[p]
      ensures n in h.owner && h.owner[n] == p
    {
      if n != m {
        assert n in g.members[p];
      }
    }
    forall n | n in h.owner
      ensures n in h.members[h.owner[n]]
    {
      if n != m {
        assert n in g.members[g.owner[n]];
      }
    }
  }

  /** d is g with m on no ring. */
  ghost predicate Left<M, O>(g: Rings<M, O>, d: Rings<M, O>, m: M) {
    && d.owner == g.owner - {m}
    && d.members.Keys == g.members.Keys
    && (forall o :: o in d.members ==> d.members[o] == Remove(g.members[o], m))
  }

  lemma LeaveLeaves<M, O>(g: Rings<M, O>, m: M)
    requires RingsOk(g)
    ensures Left(g, if m in g.owner then Leave(g, m) else g, m)
    ensures m in g.owner ==> |Leave(g, m).members[g.owner[m]]| == |g.members[g.owner[m]]| - 1
  {
    forall o | o in g.members && (m !in g.owner || g.owner[m] != o)
      ensures Remove(g.members[o], m) == g.members[o]
    {
      assert m !in g.members[o];
      RemoveAbsent(g.members[o], m);
    }
    if m in g.owner {
      RemoveDistinct(g.members[g.owner[m]], m);
    } else {
      assert g.owner - {m} == g.owner;
    }
  }

  lemma LeftKeeps<M, O>(g: Rings<M, O>, d: Rings<M, O>, m: M)
    requires RingsOk(g) && Left(g, d, m)
    ensures RingsOk(d)
  {
    forall o | o in d.members
      ensures Distinct(d.members[o])
    {
      RemoveDistinct(g.members[o], m);
    }
    forall o, n | o in d.members && n in d.members[o]
      ensures n in d.owner && d.owner[n] == o
    {
      RemoveMember(g.members[o], m, n);
    }
    forall n | n in d.owner
      ensures d.owner[n] in d.members && n in d.members[d.owner[n]]
    {
      RemoveMember(g.members[g.owner[n]], m, n);
    }
  }

  lemma LeaveKeeps<M, O>(g: Rings<M, O>, m: M)
    requires RingsOk(g) && m in g.owner
    ensures RingsOk(Leave(g, m))
  {
    LeaveLeaves(g, m);
    LeftKeeps(g, Leave(g, m), m);
  }

  // ----- removing an owner that still has members -----

  /** Takes every member off o's ring, first to last. */
  function Detach<M, O>(g: Rings<M, O>, o: O): Rings<M, O>
    requires o in g.members && RingsOk(g)
    decreases |g.members[o]|
  {
    if g.members[o] == [] then g
    else
      var m := g.members[o][0];
      LeaveLeaves(g, m);
      LeaveKeeps(g, m);
      Detach(Leave(g, m), o)
  }

  /** The pointers to anybody but o. */
  ghost function Others<M, O>(owner: map<M, O>, o: O): map<M, O> {
    map m | m in owner && owner[m] != o :: owner[m]
  }

  /** The first member to go takes no other pointer with it. */
  lemma FirstLeaves<M, O>(g: Rings<M, O>, o: O)
    requires RingsOk(g) && o in g.members && g.members[o] != []
    ensures g.members[o][0] in g.owner && g.owner[g.members[o][0]] == o
    ensures var h := Leave(g, g.members[o][0]);
      && RingsOk(h) && o in h.members && |h.members[o]| < |g.members[o]|
      && Others(h.owner, o) == Others(g.owner, o) && h.members[o := []] == g.members[o := []]
  {
    LeaveLeaves(g, g.members[o][0]);
    LeaveKeeps(g, g.members[o][0]);
  }

  lemma {:induction false} DetachIs<M, O>(g: Rings<M, O>, o: O)
    requires RingsOk(g) && o in g.members
    ensures Detach(g, o) == Rings(Others(g.owner, o), g.members[o := []])
    decreases |g.members[o]|
  {
    if g.members[o] == [] {
      assert g.members[o := []] == g.members && Others(g.owner, o) == g.owner;
    } else {
      FirstLeaves(g, o);
      DetachIs(Leave(g, g.members[o][0]), o);
    }
  }

  /** Afterwards o's ring is empty, its members have no owner, and everybody else is untouched. */
  lemma DetachEmpties<M, O>(g: Rings<M, O>, o: O)
    requires RingsOk(g) && o in g.members
    ensures var d := Detach(g, o);
      && d.members == g.members[o := []]
      && d.owner.Keys == (set m | m in g.owner && g.owner[m] != o)
      && (forall m :: m in d.owner ==> d.owner[m] == g.owner[m])
  {
    DetachIs(g, o);
  }
}
