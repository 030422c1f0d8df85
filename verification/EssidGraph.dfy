/**
 * The ESSID groups of core/essid.c as values: which node is in which group, and whether a group is split.
 * N and E stand for node and ESSID addresses.
 */
module EssidGraph {
  import opened Membership
  import opened NodeInfo
  import opened Options
  import opened Seqs
  import opened Wlan

  /** The plain fields of struct essid_info; the name is the C string in its buffer. */
  datatype Tag = Tag(name: seq<u8>, numNodes: int, split: bool)

  /** The ring of ESSIDs, the nodes on theirs, and their fields. */
  datatype Essids<N(==), E(==)> = Essids(ring: seq<E>, of: Rings<N, E>, tags: map<E, Tag>)

  /** n's essid is e if and only if n is on e's ring; the ring of ESSIDs lists every live one once. */
  ghost predicate Linked<N, E>(g: Essids<N, E>) {
    && RingsOk(g.of) && Distinct(g.ring) && g.of.members.Keys == g.tags.Keys
    && (forall e :: e in g.ring ==> e in g.tags) && (forall e :: e in g.tags ==> e in g.ring)
  }

  /** An ESSID has a name, has members, and counts them. */
  ghost predicate TagOk<N>(t: Tag, nodes: seq<N>) {
    t.name != [] && nodes != [] && t.numNodes == |nodes|
  }

  ghost predicate NamesUnique<E>(tags: map<E, Tag>) {
    forall e, f :: e in tags && f in tags && tags[e].name == tags[f].name ==> e == f
  }

  ghost predicate EssidsOk<N, E>(g: Essids<N, E>) {
    && Linked(g) && NamesUnique(g.tags)
    && (forall e :: e in g.tags ==> TagOk(g.tags[e], g.of.members[e]))
  }

  // ----- split -----

  /** Somebody whose BSSID counts: neither AP nor probing. */
  predicate Counts(i: Info) {
    !Is(i.id.mode, WLAN_MODE_AP) && !Is(i.id.mode, WLAN_MODE_PROBE)
  }

  /** The loop of update_essid_split_status: each counting member is compared with the one before it. */
  function Scan<N(==)>(nodes: seq<N>, who: map<N, Info>, last: Option<Mac>): bool
    requires forall n :: n in nodes ==> n in who
  {
    if nodes == [] then false
    else
      var i := who[nodes[0]];
      if !Counts(i) then Scan(nodes[1..], who, last)
      else (last.Some? && last.value != i.id.bssid) || Scan(nodes[1..], who, Some(i.id.bssid))
  }

  /** update_essid_split_status, for an ESSID that counts numNodes members */
  function SplitOf<N(==)>(numNodes: int, nodes: seq<N>, who: map<N, Info>): bool
    requires forall n :: n in nodes ==> n in who
  {
    numNodes > 1 && Scan(nodes, who, None)
  }

  /** Members i and j both count, with different BSSIDs. */
  ghost predicate Differ<N>(nodes: seq<N>, who: map<N, Info>, i: nat, j: nat)
    requires i < |nodes| && j < |nodes| && forall n :: n in nodes ==> n in who
  {
    Counts(who[nodes[i]]) && Counts(who[nodes[j]]) && who[nodes[i]].id.bssid != who[nodes[j]].id.bssid
  }

  ghost predicate Divided<N>(nodes: seq<N>, who: map<N, Info>)
    requires forall n :: n in nodes ==> n in who
  {
    exists i: nat, j: nat :: i < j < |nodes| && Differ(nodes, who, i, j)
  }

  ghost predicate OtherThan<N>(nodes: seq<N>, who: map<N, Info>, i: nat, b: Mac)
    requires i < |nodes| && forall n :: n in nodes ==> n in who
  {
    Counts(who[nodes[i]]) && who[nodes[i]].id.bssid != b
  }

  /** Comparing neighbours suffices: the scan finds a difference to `last`, or between two members, if there is one. */
  lemma {:induction false} ScanFindsAny<N>(nodes: seq<N>, who: map<N, Info>, last: Option<Mac>)
    requires forall n :: n in nodes ==> n in who
    ensures Scan(nodes, who, last) <==>
      Divided(nodes, who) || (last.Some? && exists i: nat :: i < |nodes| && OtherThan(nodes, who, i, last.value))
  {
    if nodes != [] {
      var rest, i := nodes[1..], who[nodes[0]];
      var next := if Counts(i) then Some(i.id.bssid) else last;
      ScanFindsAny(rest, who, next);
      if k: nat, l: nat :| k < l < |rest| && Differ(rest, who, k, l) {
        assert Differ(nodes, who, k + 1, l + 1);
      }
      if next.Some? {
        if k: nat :| k < |rest| && OtherThan(rest, who, k, next.value) {
          if Counts(i) {
            assert Differ(nodes, who, 0, k + 1);
          } else {
            assert OtherThan(nodes, who, k + 1, next.value);
          }
        }
      }
      if k: nat, l: nat :| k < l < |nodes| && Differ(nodes, who, k, l) {
        if k == 0 {
          assert OtherThan(rest, who, l - 1, i.id.bssid);
        } else {
          assert Differ(rest, who, k - 1, l - 1);
        }
      }
      if last.Some? {
        if Counts(i) && i.id.bssid != last.value {
          assert OtherThan(nodes, who, 0, last.value);
        }
        if k: nat :| k < |nodes| && OtherThan(nodes, who, k, last.value) {
          if k > 0 {
            assert OtherThan(rest, who, k - 1, last.value);
          }
        }
      }
    }
  }

  /** Never heard as an AP (bit 0 of the mode) nor probing (bit 3). */
  predicate Ordinary(i: Info) {
    0 !in i.id.mode && 3 !in i.id.mode
  }

  /** A group is divided exactly if two ordinary members, wherever on the ring, name different BSSIDs. */
  lemma DividedMeansTwo<N>(nodes: seq<N>, who: map<N, Info>)
    requires forall n :: n in nodes ==> n in who
    ensures Divided(nodes, who) <==>
      exists m, n :: m in nodes && n in nodes && Ordinary(who[m]) && Ordinary(who[n]) && who[m].id.bssid != who[n].id.bssid
  {
    forall n | n in nodes
      ensures Counts(who[n]) <==> Ordinary(who[n])
    {
      assert 0 in who[n].id.mode <==> 0 in who[n].id.mode * WLAN_MODE_AP;
      assert 3 in who[n].id.mode <==> 3 in who[n].id.mode * WLAN_MODE_PROBE;
    }
    if m, n :| m in nodes && n in nodes && Ordinary(who[m]) && Ordinary(who[n]) && who[m].id.bssid != who[n].id.bssid {
      var i, j :| 0 <= i < |nodes| && 0 <= j < |nodes| && nodes[i] == m && nodes[j] == n;
      assert if i < j then Differ(nodes, who, i, j) else Differ(nodes, who, j, i);
    }
  }

  /** The status computed for a group is exactly whether it is divided. */
  lemma SplitMeansDivided<N>(nodes: seq<N>, who: map<N, Info>)
    requires forall n :: n in nodes ==> n in who
    ensures SplitOf(|nodes|, nodes, who) <==> Divided(nodes, who)
  {
    ScanFindsAny(nodes, who, None);
  }

  // ----- steps -----

  function Enter<N, E>(g: Essids<N, E>, n: N, e: E): Essids<N, E>
    requires e in g.of.members && e in g.tags
  {
    g.(of := Join(g.of, n, e), tags := g.tags[e := g.tags[e].(numNodes := g.tags[e].numNodes + 1)])
  }

  function Exit<N, E>(g: Essids<N, E>, n: N): Essids<N, E>
    requires n in g.of.owner && g.of.owner[n] in g.of.members && g.of.owner[n] in g.tags
  {
    var e := g.of.owner[n];
    g.(of := Leave(g.of, n), tags := g.tags[e := g.tags[e].(numNodes := g.tags[e].numNodes - 1)])
  }

  function Open<N, E>(g: Essids<N, E>, e: E, name: seq<u8>): Essids<N, E> {
    Essids(g.ring + [e], Born(g.of, e), g.tags[e := Tag(name, 0, false)])
  }

  function Close<N, E>(g: Essids<N, E>, e: E): Essids<N, E> {
    Essids(Remove(g.ring, e), Dead(g.of, e), g.tags - {e})
  }

  function Resplit<N, E>(g: Essids<N, E>, e: E, who: map<N, Info>): Essids<N, E>
    requires e in g.of.members && e in g.tags && forall n :: n in g.of.members[e] ==> n in who
  {
    g.(tags := g.tags[e := g.tags[e].(split := SplitOf(g.tags[e].numNodes, g.of.members[e], who))])
  }

  /** Everybody in a group is known. */
  ghost predicate Known<N, E>(g: Essids<N, E>, who: map<N, Info>) {
    g.of.owner.Keys <= who.Keys
  }

  /** n's group, if it has one, is there and its members are known. */
  ghost predicate Removable<N, E>(g: Essids<N, E>, n: N, who: map<N, Info>) {
    n in g.of.owner ==>
      var e := g.of.owner[n];
      e in g.of.members && e in g.tags && forall m :: m in g.of.members[e] ==> m in who
  }

  /** uwifi_essids_remove_node */
  function RemoveNode<N, E>(g: Essids<N, E>, n: N, who: map<N, Info>): Essids<N, E>
    requires Removable(g, n, who)
  {
    if n !in g.of.owner then g
    else
      var e := g.of.owner[n];
      var h := Exit(g, n);
      RemoveSubset(g.of.members[e], n);
      if h.tags[e].numNodes == 0 then Close(h, e) else Resplit(h, e, who)
  }

  /** The first ESSID on the ring with this name. */
  function Find<E>(ring: seq<E>, tags: map<E, Tag>, name: seq<u8>): (r: Option<E>)
    requires forall e :: e in ring ==> e in tags
    ensures r.Some? ==> r.value in ring && tags[r.value].name == name
    ensures r.None? ==> forall k :: 0 <= k < |ring| ==> tags[ring[k]].name != name
  {
    if ring == [] then None
    else if tags[ring[0]].name == name then Some(ring[0])
    else Find(ring[1..], tags, name)
  }

  /** What strncpy leaves of a name, with the last byte of the buffer set to NUL. */
  function Stored(name: seq<u8>): seq<u8> {
    if |name| < WLAN_MAX_SSID_LEN then name else name[..WLAN_MAX_SSID_LEN - 1]
  }

  /** What uwifi_essids_update leaves in the buffer of a new ESSID. */
  function StoredBuf(buf: EssidBuf): EssidBuf {
    Strncpy(buf)[WLAN_MAX_SSID_LEN - 1 := 0]
  }

  lemma StoredInBuf(buf: EssidBuf)
    ensures CStr(StoredBuf(buf)) == Stored(CStr(buf))
  {
    var s, n := Stored(CStr(buf)), |CStr(buf)|;
    if n < 34 {
      assert Strncpy(buf)[n] == NO_ESSID[n..][0] == NO_ESSID[n];
      NoEssidAt(n);
    }
    assert StoredBuf(buf)[..|s|] == s;
    CStrIs(StoredBuf(buf), s);
  }

  lemma NoEssidAt(i: nat)
    requires i < 34
    ensures NO_ESSID[i] == 0
  {
  }

  /** The ESSID an update is about: the one found by name, or the new one. */
  function Target<N, E>(g: Essids<N, E>, name: seq<u8>, spare: E): E
    requires forall e :: e in g.ring ==> e in g.tags
  {
    var found := Find(g.ring, g.tags, name);
    if found.Some? then found.value else spare
  }

  /** The table once the ESSID is there: a new one has no members yet. */
  function Opened<N, E>(g: Essids<N, E>, name: seq<u8>, spare: E): Essids<N, E>
    requires forall e :: e in g.ring ==> e in g.tags
  {
    if Find(g.ring, g.tags, name).Some? then g else Open(g, spare, Stored(name))
  }

  /** The address is free, if it is needed. */
  ghost predicate Vacant<N, E>(g: Essids<N, E>, name: seq<u8>, spare: E) {
    spare in g.tags ==> exists e :: e in g.tags && g.tags[e].name == name
  }

  lemma NotFoundIsNew<N, E>(g: Essids<N, E>, name: seq<u8>, spare: E)
    requires Linked(g) && Find(g.ring, g.tags, name).None?
    ensures forall f :: f in g.tags ==> g.tags[f].name != name
    ensures Vacant(g, name, spare) ==> spare !in g.tags
  {
    forall f | f in g.tags
      ensures g.tags[f].name != name
    {
      assert f in g.ring;
    }
  }

  /** uwifi_essids_update for node n and a nonempty name; `spare` is the address a new ESSID gets, if one is needed. */
  function Update<N, E>(g: Essids<N, E>, name: seq<u8>, n: N, spare: E, who: map<N, Info>): Essids<N, E>
    requires Linked(g) && Known(g, who) && n in who && Vacant(g, name, spare)
  {
    var e := Target(g, name, spare);
    var g1 := Opened(g, name, spare);
    OpenedKeeps(g, name, n, spare, who);
    if n in g1.of.owner && g1.of.owner[n] == e then Resplit(g1, e, who)
    else Resplit(Enter(RemoveNode(g1, n, who), n, e), e, who)
  }

  lemma OpenKeeps<N, E>(g: Essids<N, E>, e: E, name: seq<u8>)
    requires Linked(g) && e !in g.tags
    ensures Linked(Open(g, e, name))
  {
    BornKeeps(g.of, e);
    assert Open(g, e, name).ring[|g.ring|] == e;
  }

  /** Opening the target keeps the links, and leaving another group keeps the target. */
  lemma OpenedKeeps<N, E>(g: Essids<N, E>, name: seq<u8>, n: N, spare: E, who: map<N, Info>)
    requires Linked(g) && Known(g, who) && n in who && Vacant(g, name, spare)
    ensures var e, g1 := Target(g, name, spare), Opened(g, name, spare);
      && Linked(g1) && Removable(g1, n, who) && e in g1.tags && (forall m :: m in g1.of.members[e] ==> m in who)
      && (!(n in g1.of.owner && g1.of.owner[n] == e) ==>
            && e in RemoveNode(g1, n, who).tags && e in RemoveNode(g1, n, who).of.members
            && RemoveNode(g1, n, who).of.members[e] == g1.of.members[e])
  {
    var e, g1 := Target(g, name, spare), Opened(g, name, spare);
    if Find(g.ring, g.tags, name).None? {
      NotFoundIsNew(g, name, spare);
      OpenKeeps(g, spare, Stored(name));
    }
    MembersKnown(g1, who, e);
    if n in g1.of.owner {
      MembersKnown(g1, who, g1.of.owner[n]);
      if g1.of.owner[n] != e {
        OthersStay(g1, n, e, who);
      }
    }
  }

  lemma MembersKnown<N, E>(g: Essids<N, E>, who: map<N, Info>, e: E)
    requires RingsOk(g.of) && Known(g, who) && e in g.of.members
    ensures forall m :: m in g.of.members[e] ==> m in who
  {
    forall m | m in g.of.members[e]
      ensures m in who
    {
      assert m in g.of.owner;
    }
  }

  lemma OthersStay<N, E>(g: Essids<N, E>, n: N, e: E, who: map<N, Info>)
    requires Removable(g, n, who) && n in g.of.owner && g.of.owner[n] != e && e in g.tags && e in g.of.members
    ensures var h := RemoveNode(g, n, who); e in h.tags && e in h.of.members && h.of.members[e] == g.of.members[e]
  {
  }

  // ----- what the steps keep -----

  /** The groups that lose their last member with n. */
  ghost function Emptied<N, E>(g: Essids<N, E>, n: N): set<E> {
    if n in g.of.owner && g.of.owner[n] in g.of.members && |g.of.members[g.of.owner[n]]| == 1 then {g.of.owner[n]} else {}
  }

  /** d is g without node n; its old group is gone if it is empty now, and otherwise its count and status are current. */
  ghost predicate Without<N, E>(g: Essids<N, E>, d: Essids<N, E>, n: N, who: map<N, Info>) {
    && d.of.owner == g.of.owner - {n}
    && d.ring == Keep(g.ring, Emptied(g, n))
    && g.of.members.Keys == g.tags.Keys
    && d.tags.Keys == d.of.members.Keys == g.tags.Keys - Emptied(g, n)
    && (forall e :: e in d.tags ==> d.of.members[e] == Remove(g.of.members[e], n))
    && (forall e :: e in d.tags && n !in g.of.members[e] ==> d.tags[e] == g.tags[e])
    && (forall e :: e in d.tags && n in g.of.members[e] ==> Current(d.tags[e], g.tags[e].name, d.of.members[e], who))
  }

  /** Count and split status match the members. */
  ghost predicate Current<N>(t: Tag, name: seq<u8>, nodes: seq<N>, who: map<N, Info>) {
    (forall m :: m in nodes ==> m in who) && t == Tag(name, |nodes|, SplitOf(|nodes|, nodes, who))
  }

  /** Every group counts its members. */
  ghost predicate Counted<N, E>(g: Essids<N, E>) {
    forall e :: e in g.tags && e in g.of.members ==> g.tags[e].numNodes == |g.of.members[e]|
  }

  lemma RemoveNodeRemoves<N, E>(g: Essids<N, E>, n: N, who: map<N, Info>)
    requires Linked(g) && Known(g, who) && Counted(g)
    ensures Removable(g, n, who) && Without(g, RemoveNode(g, n, who), n, who)
  {
    LeaveLeaves(g.of, n);
    if n !in g.of.owner {
      OnNoRing(g.of, n);
      RemovesNothing(g, n, who);
    } else {
      var o := g.of.owner[n];
      MembersKnown(g, who, o);
      NotElsewhere(g.of, n);
      RemoveDistinct(g.of.members[o], n);
      if |g.of.members[o]| == 1 {
        RemovesLast(g, n, o, who);
      } else {
        RemovesOther(g, n, o, who);
      }
    }
  }

  lemma OnNoRing<N, E>(g: Rings<N, E>, n: N)
    requires RingsOk(g) && n !in g.owner
    ensures forall e :: e in g.members ==> n !in g.members[e]
  {
  }

  lemma NotElsewhere<N, E>(g: Rings<N, E>, n: N)
    requires RingsOk(g) && n in g.owner
    ensures forall e :: e in g.members && e != g.owner[n] ==> n !in g.members[e]
  {
  }

  lemma RemovesNothing<N, E>(g: Essids<N, E>, n: N, who: map<N, Info>)
    requires g.of.members.Keys == g.tags.Keys && n !in g.of.owner && Left(g.of, g.of, n)
    requires forall e :: e in g.tags ==> n !in g.of.members[e]
    ensures Without(g, g, n, who)
  {
    KeepAll(g.ring, {});
  }

  /** What the two cases of a removal start from: n is a member of o alone, and o counts its members. */
  ghost predicate MemberOf<N, E>(g: Essids<N, E>, n: N, o: E) {
    && n in g.of.owner && g.of.owner[n] == o && o in g.of.members && g.of.members.Keys == g.tags.Keys
    && n in g.of.members[o] && g.tags[o].numNodes == |g.of.members[o]| == |Remove(g.of.members[o], n)| + 1
    && (forall e :: e in g.of.members && e != o ==> n !in g.of.members[e])
  }

  lemma RemovesLast<N, E>(g: Essids<N, E>, n: N, o: E, who: map<N, Info>)
    requires MemberOf(g, n, o) && Removable(g, n, who) && Left(g.of, Leave(g.of, n), n) && |g.of.members[o]| == 1 && Distinct(g.ring)
    ensures Without(g, RemoveNode(g, n, who), n, who)
  {
    KeepAll(g.ring, {});
    RemoveKeep(g.ring, {}, o);
    assert {} + {o} == {o};
  }

  lemma RemovesOther<N, E>(g: Essids<N, E>, n: N, o: E, who: map<N, Info>)
    requires MemberOf(g, n, o) && Removable(g, n, who) && Left(g.of, Leave(g.of, n), n) && |g.of.members[o]| > 1
    ensures Without(g, RemoveNode(g, n, who), n, who)
  {
    KeepAll(g.ring, {});
    RemoveSubset(g.of.members[o], n);
  }

  lemma WithoutLinks<N, E>(g: Essids<N, E>, d: Essids<N, E>, n: N, who: map<N, Info>)
    requires Linked(g) && Without(g, d, n, who)
    ensures Linked(d)
  {
    KeepDistinct(g.ring, Emptied(g, n));
    KeepMembers(g.ring, Emptied(g, n));
    WithoutRings(g, d, n, who);
  }

  lemma WithoutRings<N, E>(g: Essids<N, E>, d: Essids<N, E>, n: N, who: map<N, Info>)
    requires RingsOk(g.of) && Without(g, d, n, who)
    ensures RingsOk(d.of)
  {
    forall e | e in d.of.members
      ensures Distinct(d.of.members[e])
    {
      RemoveDistinct(g.of.members[e], n);
    }
    forall e, m | e in d.of.members && m in d.of.members[e]
      ensures m in d.of.owner && d.of.owner[m] == e
    {
      RemoveMember(g.of.members[e], n, m);
    }
    forall m | m in d.of.owner
      ensures d.of.owner[m] in d.of.members && m in d.of.members[d.of.owner[m]]
    {
      var e := g.of.owner[m];
      RemoveMember(g.of.members[e], n, m);
      if e in Emptied(g, n) {
        OnlyOne(g.of.members[e], m, n);
      }
    }
  }

  lemma OnlyOne<T>(s: seq<T>, x: T, y: T)
    requires |s| == 1 && x in s && y in s
    ensures x == y
  {
  }

  /** Groups that had members and remain still have some, and count them. */
  lemma WithoutFull<N, E>(g: Essids<N, E>, d: Essids<N, E>, n: N, who: map<N, Info>, e: E)
    requires Linked(g) && Without(g, d, n, who) && e in d.tags && TagOk(g.tags[e], g.of.members[e])
    ensures TagOk(d.tags[e], d.of.members[e]) && d.tags[e].name == g.tags[e].name
  {
    if n in g.of.members[e] {
      assert g.of.owner[n] == e;
      RemoveDistinct(g.of.members[e], n);
    } else {
      RemoveAbsent(g.of.members[e], n);
    }
  }

  lemma WithoutKeeps<N, E>(g: Essids<N, E>, d: Essids<N, E>, n: N, who: map<N, Info>)
    requires EssidsOk(g) && Without(g, d, n, who)
    ensures EssidsOk(d)
  {
    WithoutLinks(g, d, n, who);
    forall e | e in d.tags
      ensures TagOk(d.tags[e], d.of.members[e]) && d.tags[e].name == g.tags[e].name
    {
      WithoutFull(g, d, n, who, e);
    }
  }

  /** Removing a node keeps names in their buffers and members known, and the node is in no group. */
  lemma WithoutNames<N, E>(g: Essids<N, E>, d: Essids<N, E>, n: N, who: map<N, Info>)
    requires EssidsOk(g) && Without(g, d, n, who)
    ensures NamesFit(g) ==> NamesFit(d)
    ensures d.of.owner.Keys == g.of.owner.Keys - {n}
  {
    forall e | e in d.tags
      ensures d.tags[e].name == g.tags[e].name
    {
      assert TagOk(g.tags[e], g.of.members[e]);
      WithoutFull(g, d, n, who, e);
    }
  }

  lemma EnterKeeps<N, E>(g: Essids<N, E>, n: N, e: E)
    requires Linked(g) && n !in g.of.owner && e in g.tags
    ensures Linked(Enter(g, n, e))
  {
    JoinKeeps(g.of, n, e);
  }

  // ----- uwifi_essids_update -----

  /** Every stored name is terminated inside its buffer. */
  ghost predicate NamesFit<N, E>(g: Essids<N, E>) {
    forall e :: e in g.tags ==> |g.tags[e].name| < WLAN_MAX_SSID_LEN
  }

  /** Whoever else uses the stored form of the name uses the name itself, or has n as its only member. */
  ghost predicate StorableName<N, E>(g: Essids<N, E>, name: seq<u8>, n: N) {
    forall e :: e in g.tags && e in g.of.members && g.tags[e].name == Stored(name) ==>
      g.tags[e].name == name || g.of.members[e] == [n]
  }

  /** A name that fits its buffer, as every parsed one does, is storable. */
  lemma TerminatedIsStorable<N, E>(g: Essids<N, E>, name: seq<u8>, n: N)
    requires |name| < WLAN_MAX_SSID_LEN
    ensures StorableName(g, name, n)
  {
  }

  /** d has n in group e with count and status current; the groups n was alone in are gone, all others as in g. */
  ghost predicate Moved<N, E>(g: Essids<N, E>, d: Essids<N, E>, n: N, e: E, name: seq<u8>, who: map<N, Info>) {
    && Linked(d) && d.of.owner == g.of.owner[n := e]
    && e in d.tags && e in d.of.members && n in d.of.members[e] && Current(d.tags[e], name, d.of.members[e], who)
    && (forall f :: f in d.tags && f != e ==> f in g.tags && d.tags[f].name == g.tags[f].name)
    && (forall f :: f in d.tags && f != e && f in d.of.members ==> TagOk(d.tags[f], d.of.members[f]))
    && (forall f :: f in g.tags && f != e && f in g.of.members ==> (f in d.tags <==> g.of.members[f] != [n]))
  }

  /** What an update computes, whether it stays, moves, or opens a new ESSID. */
  lemma UpdateMoves<N, E>(g: Essids<N, E>, name: seq<u8>, n: N, spare: E, who: map<N, Info>)
    requires EssidsOk(g) && Known(g, who) && n in who && Vacant(g, name, spare)
    ensures Moved(g, Update(g, name, n, spare, who), n, Target(g, name, spare),
                  if Find(g.ring, g.tags, name).Some? then name else Stored(name), who)
  {
    var e, g1 := Target(g, name, spare), Opened(g, name, spare);
    OpenedKeeps(g, name, n, spare, who);
    if n in g1.of.owner && g1.of.owner[n] == e {
      Stays(g, n, e, who);
    } else {
      Counts1(g, name, spare);
      OpenedReady(g, name, spare);
      RemoveNodeRemoves(g1, n, who);
      var h := RemoveNode(g1, n, who);
      Moves(g, g1, h, n, e, who);
    }
  }

  lemma Counts1<N, E>(g: Essids<N, E>, name: seq<u8>, spare: E)
    requires EssidsOk(g) && Vacant(g, name, spare)
    ensures Counted(Opened(g, name, spare))
  {
    if Find(g.ring, g.tags, name).None? {
      NotFoundIsNew(g, name, spare);
    }
    assert forall e :: e in g.tags ==> TagOk(g.tags[e], g.of.members[e]);
  }

  lemma Stays<N, E>(g: Essids<N, E>, n: N, e: E, who: map<N, Info>)
    requires EssidsOk(g) && Known(g, who) && n in g.of.owner && g.of.owner[n] == e
    ensures (forall m :: m in g.of.members[e] ==> m in who)
    ensures Moved(g, Resplit(g, e, who), n, e, g.tags[e].name, who)
  {
    assert TagOk(g.tags[e], g.of.members[e]);
    assert g.of.owner[n := e] == g.of.owner;
    NotElsewhere(g.of, n);
  }

  /** g1 is g, or g with e newly opened. */
  ghost predicate Ready<N, E>(g: Essids<N, E>, g1: Essids<N, E>, e: E) {
    && e in g1.tags && e in g1.of.members
    && g1.of.owner == g.of.owner
    && (forall f :: f in g1.tags && f != e ==> f in g.tags && g1.tags[f] == g.tags[f])
    && (forall f :: f in g.tags ==> f in g1.tags)
    && (forall f :: f in g.of.members ==> f in g1.of.members && g1.of.members[f] == g.of.members[f])
  }

  lemma OpenedReady<N, E>(g: Essids<N, E>, name: seq<u8>, spare: E)
    requires Linked(g) && Vacant(g, name, spare)
    ensures Ready(g, Opened(g, name, spare), Target(g, name, spare))
  {
    if Find(g.ring, g.tags, name).None? {
      NotFoundIsNew(g, name, spare);
    }
  }

  lemma Moves<N, E>(g: Essids<N, E>, g1: Essids<N, E>, h: Essids<N, E>, n: N, e: E, who: map<N, Info>)
    requires EssidsOk(g) && Linked(g1) && Counted(g1) && Ready(g, g1, e) && Known(g, who) && n in who
    requires Without(g1, h, n, who) && n !in g1.of.members[e]
    ensures e in h.tags && e in h.of.members && (forall m :: m in Enter(h, n, e).of.members[e] ==> m in who)
    ensures Moved(g, Resplit(Enter(h, n, e), e, who), n, e, g1.tags[e].name, who)
  {
    MovesIn(g1, h, n, e, who);
    OthersAfter(g, g1, h, n, e, who);
    OwnersAfter(g.of.owner, n, e);
  }

  /** The node is in its new group. */
  lemma MovesIn<N, E>(g1: Essids<N, E>, h: Essids<N, E>, n: N, e: E, who: map<N, Info>)
    requires Linked(g1) && Counted(g1) && e in g1.tags && e in g1.of.members && Known(g1, who) && n in who
    requires Without(g1, h, n, who) && n !in g1.of.members[e]
    ensures e in h.tags && e in h.of.members && (forall m :: m in Enter(h, n, e).of.members[e] ==> m in who)
    ensures var d := Resplit(Enter(h, n, e), e, who);
      Linked(d) && n in d.of.members[e] && Current(d.tags[e], g1.tags[e].name, d.of.members[e], who)
  {
    EnterLinks(g1, h, n, e, who);
    RemoveAbsent(g1.of.members[e], n);
    EnterTarget(h, n, e, g1.tags[e].name, who);
  }

  lemma EnterLinks<N, E>(g: Essids<N, E>, h: Essids<N, E>, n: N, e: E, who: map<N, Info>)
    requires Linked(g) && Known(g, who) && Without(g, h, n, who) && e in h.tags && n in who
    ensures Linked(Enter(h, n, e)) && forall m :: m in Enter(h, n, e).of.members[e] ==> m in who
  {
    WithoutLinks(g, h, n, who);
    EnterKeeps(h, n, e);
    MembersKnown(Enter(h, n, e), who, e);
  }

  lemma OwnersAfter<N, E>(owner: map<N, E>, n: N, e: E)
    ensures (owner - {n})[n := e] == owner[n := e]
  {
  }

  lemma EnterTarget<N, E>(h: Essids<N, E>, n: N, e: E, name: seq<u8>, who: map<N, Info>)
    requires e in h.tags && e in h.of.members && h.tags[e].numNodes == |h.of.members[e]| && h.tags[e].name == name
    requires forall m :: m in Enter(h, n, e).of.members[e] ==> m in who
    ensures var d := Resplit(Enter(h, n, e), e, who);
      n in d.of.members[e] && Current(d.tags[e], name, d.of.members[e], who)
  {
    assert n == Enter(h, n, e).of.members[e][|h.of.members[e]|];
  }

  lemma OthersAfter<N, E>(g: Essids<N, E>, g1: Essids<N, E>, h: Essids<N, E>, n: N, e: E, who: map<N, Info>)
    requires EssidsOk(g) && Linked(g1) && Ready(g, g1, e) && Without(g1, h, n, who)
    ensures forall f :: f in h.tags && f != e ==>
      f in g.tags && h.tags[f].name == g.tags[f].name && TagOk(h.tags[f], h.of.members[f])
    ensures forall f :: f in g.tags && f != e ==> (f in h.tags <==> g.of.members[f] != [n])
  {
    forall f | f in h.tags && f != e
      ensures h.tags[f].name == g.tags[f].name && TagOk(h.tags[f], h.of.members[f])
    {
      assert TagOk(g.tags[f], g.of.members[f]);
      WithoutFull(g1, h, n, who, f);
    }
    forall f | f in g.tags && f != e
      ensures f in h.tags <==> g.of.members[f] != [n]
    {
      EmptiedIsAlone(g1, n, f);
    }
  }

  lemma EmptiedIsAlone<N, E>(g: Essids<N, E>, n: N, f: E)
    requires RingsOk(g.of) && f in g.of.members
    ensures f in Emptied(g, n) <==> g.of.members[f] == [n]
  {
    if g.of.members[f] == [n] {
      assert n in g.of.members[f];
    }
    if f in Emptied(g, n) {
      assert n in g.of.members[f];
      OnlyOne(g.of.members[f], n, g.of.members[f][0]);
    }
  }

  /** Names after a move: unique exactly if no remaining group but e has e's name. */
  lemma MovedNames<N, E>(g: Essids<N, E>, d: Essids<N, E>, n: N, e: E, name: seq<u8>, who: map<N, Info>)
    requires EssidsOk(g) && Moved(g, d, n, e, name, who) && name != []
    ensures EssidsOk(d) <==> forall f :: f in g.tags && f != e && g.tags[f].name == name ==> g.of.members[f] == [n]
  {
    assert TagOk(d.tags[e], d.of.members[e]);
    if forall f :: f in g.tags && f != e && g.tags[f].name == name ==> g.of.members[f] == [n] {
      forall a, b | a in d.tags && b in d.tags && d.tags[a].name == d.tags[b].name
        ensures a == b
      {
      }
    } else {
      var f :| f in g.tags && f != e && g.tags[f].name == name && g.of.members[f] != [n];
      assert f in d.tags && d.tags[f].name == d.tags[e].name;
    }
  }

  /**
   * An update keeps the groups in order exactly when the name is storable: an unterminated buffer of 34 bytes is never
   * found again by strncmp, and its truncation may name an ESSID that other nodes keep alive.
   */
  lemma UpdateKeeps<N, E>(g: Essids<N, E>, name: seq<u8>, n: N, spare: E, who: map<N, Info>)
    requires EssidsOk(g) && Known(g, who) && n in who && Vacant(g, name, spare) && name != []
    requires NamesFit(g)
    ensures EssidsOk(Update(g, name, n, spare, who)) <==> StorableName(g, name, n)
  {
    UpdateMoves(g, name, n, spare, who);
    var e, d := Target(g, name, spare), Update(g, name, n, spare, who);
    var found := Find(g.ring, g.tags, name);
    MovedNames(g, d, n, e, if found.Some? then name else Stored(name), who);
    if found.None? {
      NotFoundIsNew(g, name, spare);
    }
  }

  /** What an update changes: the table with the ESSID opened, without n if that has to move. */
  lemma UpdateSteps<N, E>(g: Essids<N, E>, name: seq<u8>, n: N, spare: E, who: map<N, Info>)
    requires EssidsOk(g) && Known(g, who) && n in who && Vacant(g, name, spare)
    ensures var d, e, g1 := Update(g, name, n, spare, who), Target(g, name, spare), Opened(g, name, spare);
      && g1.ring == (if e in g.ring then g.ring else g.ring + [spare])
      && g1.of.owner == g.of.owner && g1.of.members == (if e in g.ring then g.of.members else g.of.members[e := []])
      && if n in g.of.owner && g.of.owner[n] == e then d.ring == g1.ring && d.of == g1.of
         else exists h :: Without(g1, h, n, who) && e in h.of.members && d.ring == h.ring && d.of == Join(h.of, n, e)
  {
    var g1 := Opened(g, name, spare);
    OpenedKeeps(g, name, n, spare, who);
    OpenedRings(g, name, spare);
    RemoveNodeRemoves(g1, n, who);
    assert Without(g1, RemoveNode(g1, n, who), n, who);
  }

  lemma OpenedRings<N, E>(g: Essids<N, E>, name: seq<u8>, spare: E)
    requires EssidsOk(g) && Vacant(g, name, spare)
    ensures var e, g1 := Target(g, name, spare), Opened(g, name, spare);
      && Counted(g1) && g1.of.owner == g.of.owner
      && g1.ring == (if e in g.ring then g.ring else g.ring + [spare])
      && g1.of.members == (if e in g.ring then g.of.members else g.of.members[e := []])
  {
    Counts1(g, name, spare);
    if Find(g.ring, g.tags, name).None? {
      NotFoundIsNew(g, name, spare);
    }
  }

  /** The ring of ESSIDs after an update: a new one is the last, and the one that n was alone in goes. */
  lemma UpdateOrdersRing<N, E>(g: Essids<N, E>, name: seq<u8>, n: N, spare: E, who: map<N, Info>)
    requires EssidsOk(g) && Known(g, who) && n in who && Vacant(g, name, spare)
    ensures var d, e := Update(g, name, n, spare, who), Target(g, name, spare);
      var ring := if e in g.ring then g.ring else g.ring + [spare];
      d.ring == if n in g.of.owner && g.of.owner[n] != e then Keep(ring, Emptied(g, n)) else ring
  {
    UpdateSteps(g, name, n, spare, who);
    if n !in g.of.owner {
      KeepAll(Opened(g, name, spare).ring, {});
    }
  }

  /** The rings of nodes: n is the last in its new group or where it was in its old one, and all others keep their order. */
  lemma UpdateOrdersMembers<N, E>(g: Essids<N, E>, name: seq<u8>, n: N, spare: E, who: map<N, Info>, f: E)
    requires EssidsOk(g) && Known(g, who) && n in who && Vacant(g, name, spare)
    requires f in Update(g, name, n, spare, who).of.members
    ensures var e, before := Target(g, name, spare), if f in g.of.members then g.of.members[f] else [];
      Update(g, name, n, spare, who).of.members[f] ==
        if n in g.of.owner && g.of.owner[n] == e then before else Remove(before, n) + if f == e then [n] else []
  {
    UpdateSteps(g, name, n, spare, who);
  }

  /** Members stay known, and names stay within their buffers. */
  lemma UpdateStays<N, E>(g: Essids<N, E>, name: seq<u8>, n: N, spare: E, who: map<N, Info>)
    requires EssidsOk(g) && Known(g, who) && n in who && Vacant(g, name, spare) && NamesFit(g)
    ensures Known(Update(g, name, n, spare, who), who) && NamesFit(Update(g, name, n, spare, who))
  {
    UpdateMoves(g, name, n, spare, who);
  }

  /** After an update the node is in the group of that name, whose split status is exactly whether it is divided. */
  lemma UpdateSettles<N, E>(g: Essids<N, E>, name: seq<u8>, n: N, spare: E, who: map<N, Info>)
    requires EssidsOk(g) && Known(g, who) && n in who && Vacant(g, name, spare) && |name| < WLAN_MAX_SSID_LEN
    ensures var d := Update(g, name, n, spare, who);
      && n in d.of.owner && d.of.owner[n] in d.tags && d.of.owner[n] in d.of.members
      && (var e := d.of.owner[n];
          && d.tags[e].name == name && n in d.of.members[e]
          && (forall m :: m in d.of.members[e] ==> m in who)
          && (d.tags[e].split <==> Divided(d.of.members[e], who)))
  {
    UpdateMoves(g, name, n, spare, who);
    var d := Update(g, name, n, spare, who);
    SplitMeansDivided(d.of.members[d.of.owner[n]], who);
  }

  /** After a removal that leaves the group nonempty, its status is exactly whether it is divided. */
  lemma RemovalSettles<N, E>(g: Essids<N, E>, n: N, who: map<N, Info>)
    requires EssidsOk(g) && Known(g, who) && n in g.of.owner && |g.of.members[g.of.owner[n]]| > 1
    ensures Removable(g, n, who)
    ensures var e, d := g.of.owner[n], RemoveNode(g, n, who);
      && e in d.tags && e in d.of.members && d.of.members[e] == Remove(g.of.members[e], n)
      && (forall m :: m in d.of.members[e] ==> m in who)
      && (d.tags[e].split <==> Divided(d.of.members[e], who))
  {
    assert Counted(g) by {
      assert forall e :: e in g.tags ==> TagOk(g.tags[e], g.of.members[e]);
    }
    RemoveNodeRemoves(g, n, who);
    SplitMeansDivided(RemoveNode(g, n, who).of.members[g.of.owner[n]], who);
  }

  // ----- removing several nodes -----

  /** The groups all of whose members are gone. */
  ghost function AllEmptied<N, E>(g: Essids<N, E>, gone: set<N>): set<E> {
    set e | e in g.tags && e in g.of.members && Keep(g.of.members[e], gone) == []
  }

  /** What is left of a group with members s0: as before if it lost nobody, otherwise with current count and status. */
  ghost predicate TagTrimmed<N>(t0: Tag, s0: seq<N>, t: Tag, s: seq<N>, gone: set<N>, who: map<N, Info>) {
    && s == Keep(s0, gone) && t.name == t0.name
    && (s == s0 ==> t == t0)
    && (s != s0 ==> Current(t, t0.name, s, who))
  }

  /** The pointers and rings of g are those of g0 without the nodes in `gone` and without the groups that emptied. */
  ghost predicate RingsTrimmed<N, E>(g0: Essids<N, E>, g: Essids<N, E>, gone: set<N>) {
    && g.of.owner == g0.of.owner - gone
    && g0.of.members.Keys == g0.tags.Keys
    && g.tags.Keys == g.of.members.Keys == g0.tags.Keys - AllEmptied(g0, gone)
    && g.ring == Keep(g0.ring, AllEmptied(g0, gone))
  }

  /**
   * g is g0 without the nodes in `gone`: every group keeps its other members in order and is dropped if none is left;
   * its status is as before if it lost nobody, and current otherwise.
   */
  ghost predicate Trimmed<N, E>(g0: Essids<N, E>, g: Essids<N, E>, gone: set<N>, who: map<N, Info>) {
    && RingsTrimmed(g0, g, gone)
    && forall e :: e in g.tags ==> TagTrimmed(g0.tags[e], g0.of.members[e], g.tags[e], g.of.members[e], gone, who)
  }

  lemma TrimmedNone<N, E>(g: Essids<N, E>, who: map<N, Info>)
    requires EssidsOk(g)
    ensures Trimmed(g, g, {}, who)
  {
    FullIsNonempty(g);
    forall e | e in g.tags
      ensures Keep(g.of.members[e], {}) == g.of.members[e]
    {
      KeepAll(g.of.members[e], {});
    }
    assert AllEmptied(g, {}) == {};
    KeepAll(g.ring, {});
    assert g.of.owner - {} == g.of.owner;
  }

  lemma FullIsNonempty<N, E>(g: Essids<N, E>)
    requires EssidsOk(g)
    ensures forall e :: e in g.tags ==> g.of.members[e] != []
  {
    assert forall e :: e in g.tags ==> TagOk(g.tags[e], g.of.members[e]);
  }

  /** One more removal enlarges the set of removed nodes. */
  lemma RemoveTrims<N, E>(g0: Essids<N, E>, g: Essids<N, E>, gone: set<N>, n: N, who: map<N, Info>)
    requires EssidsOk(g0) && EssidsOk(g) && Known(g, who) && Trimmed(g0, g, gone, who)
    ensures Removable(g, n, who) && EssidsOk(RemoveNode(g, n, who))
    ensures Trimmed(g0, RemoveNode(g, n, who), gone + {n}, who)
  {
    FullIsCounted(g);
    RemoveNodeRemoves(g, n, who);
    var d := RemoveNode(g, n, who);
    WithoutKeeps(g, d, n, who);
    WithoutTrims(g0, g, d, gone, n, who);
  }

  lemma FullIsCounted<N, E>(g: Essids<N, E>)
    requires EssidsOk(g)
    ensures Counted(g)
  {
    assert forall e :: e in g.tags ==> TagOk(g.tags[e], g.of.members[e]);
  }

  lemma WithoutTrims<N, E>(g0: Essids<N, E>, g: Essids<N, E>, d: Essids<N, E>, gone: set<N>, n: N, who: map<N, Info>)
    requires EssidsOk(g0) && EssidsOk(g) && Trimmed(g0, g, gone, who) && Without(g, d, n, who)
    ensures Trimmed(g0, d, gone + {n}, who)
  {
    EmptiedTogether(g0, g, gone, n, who);
    RingsTrim(g0, g, d, gone, n, who);
    forall e | e in d.tags
      ensures TagTrimmed(g0.tags[e], g0.of.members[e], d.tags[e], d.of.members[e], gone + {n}, who)
    {
      TagTrims(g0, g, d, gone, n, who, e);
    }
  }

  lemma RingsTrim<N, E>(g0: Essids<N, E>, g: Essids<N, E>, d: Essids<N, E>, gone: set<N>, n: N, who: map<N, Info>)
    requires RingsTrimmed(g0, g, gone) && Without(g, d, n, who)
    requires AllEmptied(g0, gone + {n}) == AllEmptied(g0, gone) + Emptied(g, n)
    ensures RingsTrimmed(g0, d, gone + {n})
  {
    KeepKeep(g0.ring, AllEmptied(g0, gone), Emptied(g, n));
    assert g0.of.owner - gone - {n} == g0.of.owner - (gone + {n});
  }

  lemma TagTrims<N, E>(g0: Essids<N, E>, g: Essids<N, E>, d: Essids<N, E>, gone: set<N>, n: N, who: map<N, Info>, e: E)
    requires Linked(g0) && Linked(g) && Trimmed(g0, g, gone, who) && Without(g, d, n, who) && e in d.tags
    ensures TagTrimmed(g0.tags[e], g0.of.members[e], d.tags[e], d.of.members[e], gone + {n}, who)
  {
    TagLoses(g0.tags[e], g0.of.members[e], g.tags[e], g.of.members[e], d.tags[e], d.of.members[e], gone, n, who);
  }

  lemma TagLoses<N>(t0: Tag, s0: seq<N>, t: Tag, s: seq<N>, t': Tag, s': seq<N>, gone: set<N>, n: N, who: map<N, Info>)
    requires Distinct(s0) && TagTrimmed(t0, s0, t, s, gone, who) && s' == Remove(s, n)
    requires n !in s ==> t' == t
    requires n in s ==> Current(t', t.name, s', who)
    ensures TagTrimmed(t0, s0, t', s', gone + {n}, who)
  {
    RemoveKeep(s0, gone, n);
    if n !in s {
      RemoveAbsent(s, n);
    }
    KeepDistinct(s0, gone);
    RemoveDistinct(s, n);
    KeepShorter(s0, gone);
  }

  lemma {:induction false} KeepShorter<T>(s: seq<T>, gone: set<T>)
    ensures |Keep(s, gone)| <= |s|
  {
    if s != [] {
      KeepShorter(s[1..], gone);
    }
  }

  lemma EmptiedTogether<N, E>(g0: Essids<N, E>, g: Essids<N, E>, gone: set<N>, n: N, who: map<N, Info>)
    requires EssidsOk(g0) && EssidsOk(g) && Trimmed(g0, g, gone, who)
    ensures AllEmptied(g0, gone + {n}) == AllEmptied(g0, gone) + Emptied(g, n)
  {
    forall e | e in g0.tags
      ensures Keep(g0.of.members[e], gone + {n}) == [] <==> e in AllEmptied(g0, gone) || e in Emptied(g, n)
    {
      RemoveKeep(g0.of.members[e], gone, n);
      if e in g.tags {
        assert TagOk(g.tags[e], g.of.members[e]);
        EmptiedIsAlone(g, n, e);
        RemoveToNothing(g.of.members[e], n);
      }
    }
    forall e | e in Emptied(g, n)
      ensures e in g0.tags
    {
    }
  }

  lemma RemoveToNothing<T>(s: seq<T>, x: T)
    requires s != []
    ensures Remove(s, x) == [] <==> s == [x]
  {
    if Remove(s, x) == [] {
      assert s[0] == x && s[1..] == [];
    }
  }
}
