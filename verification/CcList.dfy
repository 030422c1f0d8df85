/**
 * The intrusive doubly linked ring of include/uwifi/cc_list.h and the
 * consistency check of core/cc_list.c, on the heap.
 *
 * A link is a struct member embedded in some container; `obj` and `offset`
 * play the part of container_of.  A ring is a head link plus the links between
 * its next and prev; the ghost fields record, for a head, the sequence of its
 * elements and, for every link, the head of the ring it sits on.
 */
module CcList {
  import opened Seqs

  class Link {
    var next: Link
    var prev: Link
    var obj: object?
    const offset: nat
    ghost var ring: Link?
    ghost var elems: seq<Link>

    /** A link on no ring.  The source leaves its pointers undefined; here they start as itself. */
    constructor (offset: nat)
      ensures this.offset == offset && obj == null
      ensures ring == null && elems == []
    {
      this.offset := offset;
      next, prev, obj := this, this, null;
      ring, elems := null, [];
    }
  }

  /** next and prev run from h through s and back to h, as each other's inverses. */
  ghost predicate Chained(h: Link, s: seq<Link>)
    reads h, s
  {
    && (s == [] ==> h.next == h && h.prev == h)
    && (s != [] ==> h.next == s[0] && s[0].prev == h && h.prev == s[|s| - 1] && s[|s| - 1].next == h)
    && (forall i {:trigger s[i].next} :: 0 <= i < |s| - 1 ==> s[i].next == s[i + 1])
    && (forall i {:trigger s[i].prev} :: 1 <= i < |s| ==> s[i].prev == s[i - 1])
  }

  /** h is the head of a well-formed ring whose elements are h.elems. */
  ghost predicate Ring(h: Link)
    reads h, h.elems
  {
    && h.ring == h
    && (forall i :: 0 <= i < |h.elems| ==> h.elems[i] != h && h.elems[i].ring == h)
    && Distinct(h.elems)
    && Chained(h, h.elems)
  }

  /** A ring none of whose links changed is still a ring. */
  twostate lemma RingKept(g: Link)
    requires old(Ring(g))
    requires unchanged(g)
    requires forall i :: 0 <= i < |g.elems| ==> unchanged(old(g.elems[i]))
    ensures Ring(g)
  {
    assert Chained(g, g.elems);
  }

  /** A step that puts link l onto, or takes it off, the ring h, seen among the objects `all`. */
  datatype Move = Move(h: Link, l: Link, all: set<object>)

  /** The ring at h consists of links among `all`. */
  ghost predicate Within(h: Link, all: set<object>)
    reads h
  {
    h in all && forall i :: 0 <= i < |h.elems| ==> h.elems[i] in all
  }

  /** All other links are on the rings they were on. */
  twostate predicate Moved(o: Move)
    reads o.all
  {
    && (forall g: Link {:trigger g.obj} {:trigger g.ring} :: g in o.all ==>
          g.obj == old(g.obj) && (g != o.l ==> g.ring == old(g.ring)))
    && (forall g: Link {:trigger Ring(g)} {:trigger g.elems} ::
          g in o.all && g != o.h && old(Within(g, o.all)) && old(Ring(g)) ==> g.elems == old(g.elems) && Ring(g))
  }

  /** cc_list_head_init */
  method HeadInit(h: Link)
    requires h.ring == null
    modifies h`next, h`prev, h`ring, h`elems
    ensures Ring(h) && h.elems == []
    ensures forall g: Link :: g != h && old(allocated(g)) && old(Ring(g)) ==> Ring(g)
  {
    h.next, h.prev := h, h;
    h.ring, h.elems := h, [];
  }

  /** cc_list_add_ */
  method Add(h: Link, n: Link)
    requires Ring(h) && n.ring == null
    modifies h`next, h`elems, h.next`prev, n`next, n`prev, n`ring
    ensures Ring(h) && h.elems == [n] + old(h.elems)
    ensures n.ring == h
    ensures forall g: Link :: g != h && old(allocated(g)) && old(Ring(g)) ==> Ring(g)
  {
    n.next := h.next;
    n.prev := h;
    h.next.prev := n;
    h.next := n;
    h.elems, n.ring := [n] + h.elems, h;
    forall g: Link | g != h && old(allocated(g)) && old(Ring(g))
      ensures Ring(g)
    {
      RingKept(g);
    }
  }

  /** cc_list_add_tail_ */
  method AddTail(h: Link, n: Link)
    requires Ring(h) && n.ring == null
    modifies h`prev, h`elems, h.prev`next, n`next, n`prev, n`ring
    ensures Ring(h) && h.elems == old(h.elems) + [n]
    ensures n.ring == h
    ensures forall g: Link :: g != h && old(allocated(g)) && old(Ring(g)) ==> Ring(g)
  {
    n.next := h;
    n.prev := h.prev;
    h.prev.next := n;
    h.prev := n;
    h.elems, n.ring := h.elems + [n], h;
    forall g: Link | g != h && old(allocated(g)) && old(Ring(g))
      ensures Ring(g)
    {
      RingKept(g);
    }
  }

  /** cc_list_del_: the caller need not know the head, only the ghost position is passed along. */
  method Del(n: Link, ghost h: Link, ghost k: nat)
    requires Ring(h) && k < |h.elems| && h.elems[k] == n
    modifies n.next`prev, n.prev`next, h`elems, n`ring
    ensures Ring(h) && h.elems == Cut(old(h.elems), k)
    ensures n.ring == null
    ensures forall g: Link :: g != h && old(allocated(g)) && old(Ring(g)) ==> Ring(g)
  {
    CutDistinct(h.elems, k);
    Unlink(n, h, k);
    h.elems, n.ring := Cut(h.elems, k), null;
    forall g: Link | g != h && old(allocated(g)) && old(Ring(g))
      ensures Ring(g)
    {
      RingKept(g);
    }
  }

  /** The two pointer writes of cc_list_del_. */
  method Unlink(n: Link, ghost h: Link, ghost k: nat)
    requires Ring(h) && k < |h.elems| && h.elems[k] == n
    modifies n.next`prev, n.prev`next
    ensures Chained(h, Cut(h.elems, k))
  {
    n.next.prev := n.prev;
    n.prev.next := n.next;
  }

  /** cc_list_del_from: its test for an empty list never fails on a list that holds n. */
  method DelFrom(h: Link, n: Link, ghost k: nat)
    requires Ring(h) && k < |h.elems| && h.elems[k] == n
    modifies n.next`prev, n.prev`next, h`elems, n`ring
    ensures Ring(h) && h.elems == Cut(old(h.elems), k)
    ensures n.ring == null
    ensures forall g: Link :: g != h && old(allocated(g)) && old(Ring(g)) ==> Ring(g)
  {
    assert h.next != h;
    Del(n, h, k);
  }

  /** The neighbours of a ring's links. */
  lemma Neighbours(h: Link)
    requires Ring(h)
    ensures h.next == (if h.elems == [] then h else h.elems[0])
    ensures h.prev == (if h.elems == [] then h else h.elems[|h.elems| - 1])
    ensures forall k {:trigger h.elems[k]} :: 0 <= k < |h.elems| ==>
              && h.elems[k].next == (if k + 1 < |h.elems| then h.elems[k + 1] else h)
              && h.elems[k].prev == (if k > 0 then h.elems[k - 1] else h)
  {
  }

  /** cc_list_empty_ */
  method Empty(h: Link) returns (b: bool)
    requires Ring(h)
    ensures b <==> h.elems == []
  {
    b := h.next == h;
  }

  ghost predicate Sewable(to: Link, from: Link, sewn: seq<Link>)
    reads to, from, sewn
  {
    && Distinct(sewn) && from in sewn
    && forall i :: 0 <= i < |sewn| ==>
         sewn[i] != to && (sewn[i].ring == to || sewn[i] == from || sewn[i] in from.elems)
  }

  /** Two rings with different heads share no link, so their elements may be sewn together. */
  lemma RingsApart(to: Link, from: Link)
    requires Ring(to) && Ring(from) && to != from
    ensures Sewable(to, from, to.elems + ([from] + from.elems))
    ensures Sewable(to, from, [from] + from.elems + to.elems)
  {
    var s, t := to.elems, [from] + from.elems;
    DistinctJoin([from], from.elems);
    DistinctJoin(s, t);
    DistinctJoin(t, s);
    assert from == t[0] == (s + t)[|s|] == (t + s)[0];
  }

  lemma DistinctJoin<T>(s: seq<T>, t: seq<T>)
    requires Distinct(s) && Distinct(t)
    requires forall i, j :: 0 <= i < |s| && 0 <= j < |t| ==> s[i] != t[j]
    ensures Distinct(s + t)
  {
  }

  lemma CutMiddle<T>(s: seq<T>, x: T, t: seq<T>)
    ensures (s + ([x] + t))[|s|] == x && Cut(s + ([x] + t), |s|) == s + t
  {
  }

  lemma CutFirst<T>(x: T, s: seq<T>, t: seq<T>)
    ensures ([x] + s + t)[0] == x && Cut([x] + s + t, 0) == s + t
  {
  }

  /** cc_list_append_list_ */
  method AppendList(to: Link, from: Link)
    requires Ring(to) && Ring(from) && to != from
    modifies to`prev, to`elems, from`next, from`prev, from`elems, from`ring
    modifies to.prev`next, from.prev`next, from.next`prev, from.elems`ring
    ensures Ring(to) && to.elems == old(to.elems) + old(from.elems)
    ensures Ring(from) && from.elems == []
    ensures forall g: Link :: g != to && g != from && old(allocated(g)) && old(Ring(g)) ==> Ring(g)
  {
    ghost var k, sewn := |to.elems|, to.elems + ([from] + from.elems);
    RingsApart(to, from);
    CutMiddle(to.elems, from, from.elems);
    SewTail(to, from);
    Claim(to, from, sewn);
    RemoveHead(to, from, k);
  }

  /** Ghost bookkeeping of a list move: the sewn-in links now sit on the ring of `to`. */
  ghost method Claim(to: Link, from: Link, sewn: seq<Link>)
    requires to.ring == to && from.ring == from
    requires Chained(to, sewn) && Sewable(to, from, sewn)
    requires forall i :: 0 <= i < |from.elems| ==> from.elems[i].ring == from
    modifies to`elems, from`ring, from.elems`ring
    ensures Ring(to) && to.elems == sewn
    ensures forall g: Link :: g != to && g != from && old(allocated(g)) && old(Ring(g)) ==> Ring(g)
  {
    from.ring := to;
    forall l | l in from.elems {
      l.ring := to;
    }
    to.elems := sewn;
  }

  /** Sew in head and entire list, at the end. */
  method SewTail(to: Link, from: Link)
    requires Ring(to) && Ring(from) && to != from
    modifies to`prev, from`prev, to.prev`next, from.prev`next
    ensures Chained(to, to.elems + ([from] + from.elems))
  {
    var fromTail := from.prev;
    var toTail := to.prev;
    to.prev := fromTail;
    fromTail.next := to;
    toTail.next := from;
    from.prev := toTail;
  }

  /** cc_list_prepend_list_ */
  method PrependList(to: Link, from: Link)
    requires Ring(to) && Ring(from) && to != from
    modifies to`next, to`elems, from`next, from`prev, from`elems, from`ring
    modifies to.next`prev, from.prev`next, from.next`prev, from.elems`ring
    ensures Ring(to) && to.elems == old(from.elems) + old(to.elems)
    ensures Ring(from) && from.elems == []
    ensures forall g: Link :: g != to && g != from && old(allocated(g)) && old(Ring(g)) ==> Ring(g)
  {
    ghost var sewn := [from] + from.elems + to.elems;
    RingsApart(to, from);
    CutFirst(from, from.elems, to.elems);
    SewHead(to, from);
    Claim(to, from, sewn);
    RemoveHead(to, from, 0);
  }

  /** Sew in head and entire list, at the start. */
  method SewHead(to: Link, from: Link)
    requires Ring(to) && Ring(from) && to != from
    modifies to`next, from`prev, to.next`prev, from.prev`next
    ensures Chained(to, [from] + from.elems + to.elems)
  {
    var fromTail := from.prev;
    var toHead := to.next;
    to.next := from;
    from.prev := to;
    toHead.prev := fromTail;
    fromTail.next := toHead;
  }

  /** The common end of the two list moves: take the emptied head out of the sewn ring. */
  method RemoveHead(to: Link, from: Link, ghost k: nat)
    requires Ring(to) && k < |to.elems| && to.elems[k] == from
    modifies from.next`prev, from.prev`next, to`elems, from`ring, from`next, from`prev, from`elems
    ensures Ring(to) && to.elems == Cut(old(to.elems), k)
    ensures Ring(from) && from.elems == []
    ensures forall g: Link :: g != to && g != from && old(allocated(g)) && old(Ring(g)) ==> Ring(g)
  {
    Del(from, to, k);
    HeadInit(from);
  }

  // ----- cc_list_check_node (core/cc_list.c) -----

  /** From h, next leads through all of s, and each link of s points back at its predecessor. */
  ghost predicate Walked(h: Link, s: seq<Link>)
    reads h, s
  {
    && (s != [] ==> h.next == s[0] && s[0].prev == h)
    && (forall i :: 0 <= i < |s| ==> s[i] != h)
    && (forall i {:trigger s[i].next} :: 0 <= i < |s| - 1 ==> s[i].next == s[i + 1])
    && (forall i {:trigger s[i].prev} :: 1 <= i < |s| ==> s[i].prev == s[i - 1])
  }

  /** The prev test forces visited links apart, so a next-cycle that misses h is always noticed. */
  lemma {:induction false} WalkedApart(h: Link, s: seq<Link>, i: nat, j: nat)
    requires Walked(h, s) && i < j < |s|
    ensures s[i] != s[j]
  {
    assert s[j].prev == s[j - 1];
    if i > 0 {
      WalkedApart(h, s, i - 1, j - 1);
      assert s[i].prev == s[i - 1];
    }
  }

  function Last(h: Link, s: seq<Link>): Link {
    if s == [] then h else s[|s| - 1]
  }

  /** next is a function: a walk from h runs along every chain from h. */
  lemma {:induction false} WalkFollowsChain(h: Link, walked: seq<Link>, s: seq<Link>)
    requires Walked(h, walked)
    requires h !in s && Chained(h, s)
    ensures walked <= s
    ensures |walked| < |s| ==> Last(h, walked).next == s[|walked|] && s[|walked|].prev == Last(h, walked)
    ensures |walked| == |s| ==> Last(h, walked).next == h && h.prev == Last(h, walked)
  {
    if |walked| > 0 {
      var k := |walked| - 1;
      var w := walked[..k];
      assert Walked(h, w) by {
        assert forall i :: 0 <= i < k ==> w[i] == walked[i];
      }
      WalkFollowsChain(h, w, s);
      assert Last(h, w).next == walked[k] by {
        if k > 0 {
          assert walked[k - 1].next == walked[k];
        }
      }
      assert s[k] == walked[k];
      if k + 1 < |s| {
        assert s[k].next == s[k + 1] && s[k + 1].prev == s[k];
      }
      assert walked == w + [walked[k]];
    }
  }

  lemma {:induction false} DistinctFits<T>(s: seq<T>, u: set<T>)
    requires Distinct(s) && forall x :: x in s ==> x in u
    ensures |s| <= |u|
  {
    if s != [] {
      DistinctFits(s[1..], u - {s[0]});
    }
  }

  /**
   * cc_list_check_node.  All that is asked of the heap is that it is finite: from node, the
   * links of `heap` never lead outside it.
   */
  method CheckNode(node: Link, ghost heap: set<Link>) returns (ok: bool)
    requires node in heap && forall l :: l in heap ==> l.next in heap
    ensures ok <==> exists s: seq<Link> :: node !in s && Distinct(s) && Chained(node, s)
  {
    var p, n := node, node.next;
    ghost var walked: seq<Link> := [];
    while n != node
      invariant p == Last(node, walked)
      invariant n == p.next && p in heap
      invariant Walked(node, walked) && Distinct(walked)
      invariant forall l :: l in walked ==> l in heap
      decreases |heap| - |walked|
    {
      if n.prev != p {
        forall s: seq<Link> | node !in s && Distinct(s)
          ensures !Chained(node, s)
        {
          if Chained(node, s) {
            WalkFollowsChain(node, walked, s);
          }
        }
        return false;
      }
      ghost var longer := walked + [n];
      assert Walked(node, longer);
      forall i, j | 0 <= i < j < |longer|
        ensures longer[i] != longer[j]
      {
        WalkedApart(node, longer, i, j);
      }
      DistinctFits(longer, heap);
      walked := longer;
      p, n := n, n.next;
    }
    ok := node.prev == p;
    if ok {
      assert node !in walked && Distinct(walked) && Chained(node, walked);
    } else {
      forall s: seq<Link> | node !in s && Distinct(s)
        ensures !Chained(node, s)
      {
        if Chained(node, s) {
          WalkFollowsChain(node, walked, s);
        }
      }
    }
  }
}
