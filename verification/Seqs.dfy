/** Facts about finite sequences that the ring and table models share. */
module Seqs {

  ghost predicate Distinct<T>(s: seq<T>) {
    forall i, j :: 0 <= i < j < |s| ==> s[i] != s[j]
  }

  /** The position of the first occurrence. */
  function IndexOf<T(==)>(s: seq<T>, x: T): (k: nat)
    requires x in s
    ensures k < |s| && s[k] == x && x !in s[..k]
  {
    if s[0] == x then 0 else 1 + IndexOf(s[1..], x)
  }

  /** s without the element at position k. */
  function Cut<T>(s: seq<T>, k: nat): (r: seq<T>)
    requires k < |s|
    ensures |r| == |s| - 1
    ensures forall i :: 0 <= i < k ==> r[i] == s[i]
    ensures forall i :: k <= i < |r| ==> r[i] == s[i + 1]
  {
    s[..k] + s[k + 1..]
  }

  /** s without the first occurrence of x. */
  function Remove<T(==)>(s: seq<T>, x: T): seq<T> {
    if s == [] then [] else if s[0] == x then s[1..] else [s[0]] + Remove(s[1..], x)
  }

  /** The elements of s that are not in gone, in their order. */
  function Keep<T(==)>(s: seq<T>, gone: set<T>): seq<T>
  {
    if s == [] then [] else (if s[0] in gone then [] else [s[0]]) + Keep(s[1..], gone)
  }

  lemma CutDistinct<T>(s: seq<T>, k: nat)
    requires k < |s| && Distinct(s)
    ensures Distinct(Cut(s, k))
    ensures forall x :: x in Cut(s, k) <==> x in s && x != s[k]
  {
    var r := Cut(s, k);
    forall x | x in s && x != s[k]
      ensures x in r
    {
      var i :| 0 <= i < |s| && s[i] == x;
      assert r[if i < k then i else i - 1] == x;
    }
  }

  lemma {:induction false} RemoveIsCut<T>(s: seq<T>, x: T)
    requires x in s
    ensures Remove(s, x) == Cut(s, IndexOf(s, x))
  {
    if s[0] != x {
      RemoveIsCut(s[1..], x);
    }
  }

  lemma {:induction false} RemoveDistinct<T>(s: seq<T>, x: T)
    requires Distinct(s)
    ensures Distinct(Remove(s, x))
    ensures forall y :: y in Remove(s, x) <==> y in s && y != x
    ensures |Remove(s, x)| == |s| - (if x in s then 1 else 0)
  {
    if x in s {
      RemoveIsCut(s, x);
      CutDistinct(s, IndexOf(s, x));
    } else {
      RemoveAbsent(s, x);
    }
  }

  lemma {:induction false} RemoveSubset<T>(s: seq<T>, x: T)
    ensures forall y :: y in Remove(s, x) ==> y in s
  {
    if s != [] {
      RemoveSubset(s[1..], x);
    }
  }

  lemma RemoveMember<T>(s: seq<T>, x: T, y: T)
    requires Distinct(s)
    ensures y in Remove(s, x) <==> y in s && y != x
  {
    RemoveDistinct(s, x);
  }

  lemma {:induction false} RemoveAbsent<T>(s: seq<T>, x: T)
    requires x !in s
    ensures Remove(s, x) == s
  {
    if s != [] {
      RemoveAbsent(s[1..], x);
    }
  }

  lemma {:induction false} KeepMembers<T>(s: seq<T>, gone: set<T>)
    ensures forall x :: x in Keep(s, gone) <==> x in s && x !in gone
  {
    if s != [] {
      KeepMembers(s[1..], gone);
      assert forall x :: x in s <==> x == s[0] || x in s[1..];
    }
  }

  lemma {:induction false} KeepAll<T>(s: seq<T>, gone: set<T>)
    requires forall x :: x in s ==> x !in gone
    ensures Keep(s, gone) == s
  {
    if s != [] {
      KeepAll(s[1..], gone);
    }
  }

  lemma {:induction false} KeepDistinct<T>(s: seq<T>, gone: set<T>)
    requires Distinct(s)
    ensures Distinct(Keep(s, gone))
  {
    if s != [] {
      KeepDistinct(s[1..], gone);
      KeepMembers(s[1..], gone);
    }
  }

  /** Removing one more element from a kept sequence enlarges the set of removed elements. */
  lemma {:induction false} RemoveKeep<T>(s: seq<T>, gone: set<T>, x: T)
    requires Distinct(s)
    ensures Remove(Keep(s, gone), x) == Keep(s, gone + {x})
  {
    if s != [] {
      var kept, more := Keep(s[1..], gone), Keep(s[1..], gone + {x});
      RemoveKeep(s[1..], gone, x);
      assert Remove(kept, x) == more;
      if s[0] == x {
        assert x !in s[1..];
        KeepMembers(s[1..], gone);
        RemoveAbsent(kept, x);
        assert Keep(s, gone + {x}) == more == kept;
      }
      if s[0] in gone {
        assert Keep(s, gone) == kept;
        assert Keep(s, gone + {x}) == more;
      } else {
        assert Keep(s, gone) == [s[0]] + kept;
        assert ([s[0]] + kept)[1..] == kept;
      }
    }
  }

  lemma {:induction false} KeepKeep<T>(s: seq<T>, a: set<T>, b: set<T>)
    ensures Keep(Keep(s, a), b) == Keep(s, a + b)
  {
    if s != [] {
      var rest := Keep(s[1..], a);
      KeepKeep(s[1..], a, b);
      if s[0] in a {
        assert Keep(s, a) == rest;
      } else {
        assert Keep(s, a) == [s[0]] + rest;
        assert ([s[0]] + rest)[1..] == rest;
      }
    }
  }
}
