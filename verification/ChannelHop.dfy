/** Channel hopping of core/channel.c: the walk over the list, and the cycle it settles into. */
module ChannelHop {
  import opened Channels
  import opened ChannelCapab

  /** The part of struct uwifi_interface that hopping reads and writes. */
  datatype Hop = Hop(min: int, max: int, idx: int, channel: Spec)

  /** What uwifi_channel_get_next picks: an index, an HT40 direction, and channel_min as it leaves it. */
  datatype Choice = Choice(idx: int, plus: bool, min: int)

  /** uwifi_channel_get_chan */
  function GetChan(cs: ChanList, i: int): int {
    if 0 <= i < |cs.chan| then cs.chan[i].chan else -1
  }

  /** The increment of uwifi_channel_get_next wraps around after i. */
  predicate Wraps(cs: ChanList, max: int, i: int) {
    i + 1 >= |cs.chan| || (max != 0 && GetChan(cs, i + 1) > max)
  }

  /** The choice part of uwifi_channel_get_next; the index -1 stands for its out-of-range read. */
  function Choose(cs: ChanList, h: Hop): (r: Choice)
    requires 0 <= h.idx < |cs.chan|
    ensures -1 <= r.idx < |cs.chan|
  {
    var below := h.min != 0 && GetChan(cs, h.idx) < h.min;
    var atMin := IdxFromChan(cs.chan, h.min);
    var min := if below && atMin < 0 then 0 else h.min;
    var cur := if below && atMin >= 0 then atMin else h.idx;
    var plus := below || IsHt40Plus(h.channel);
    if h.channel.width == CHAN_WIDTH_40 && !plus && cs.chan[cur].ht40plus then
      Choice(cur, true, min)
    else
      var next := if !Wraps(cs, h.max, cur) then cur + 1 else if min != 0 then IdxFromChan(cs.chan, min) else 0;
      Choice(next, next >= 0 && !cs.chan[next].ht40minus, min)
  }

  /** The specification uwifi_channel_get_next fills in; `center` is what the caller's struct held before. */
  function NextSpec(cs: ChanList, h: Hop, center: u32): Spec
    requires 0 <= h.idx < |cs.chan| && Choose(cs, h).idx >= 0
  {
    var c := Choose(cs, h);
    SpecOf(cs.chan[c.idx], c.plus, center)
  }

  /** A configured channel_min is listed, unless this very call resets it. */
  ghost predicate MinListed(cs: ChanList, h: Hop) {
    h.min != 0 && GetChan(cs, h.idx) >= h.min ==> HasChan(cs.chan, h.min)
  }

  /** An unlisted channel_min is harmless exactly while it is reset first or the walk does not wrap. */
  lemma ChoiceInRange(cs: ChanList, h: Hop)
    requires 0 <= h.idx < |cs.chan|
    ensures Choose(cs, h).idx >= 0 <==>
      || MinListed(cs, h)
      || (h.channel.width == CHAN_WIDTH_40 && !IsHt40Plus(h.channel) && cs.chan[h.idx].ht40plus)
      || !Wraps(cs, h.max, h.idx)
  {
  }

  /** The choice never asks for an HT40 direction the channel does not have. */
  lemma ChoiceIsOffered(cs: ChanList, h: Hop)
    requires Checked(cs) && 0 <= h.idx < |cs.chan| && Choose(cs, h).idx >= 0
    ensures Offered(cs.chan[Choose(cs, h).idx], Choose(cs, h).plus)
  {
    CapabIsMaximal(cs, Choose(cs, h).idx);
  }

  /** The check of the proposal can fail only if it must: on a checked list with its promised neighbours it never does. */
  lemma NextVerifies(cs: ChanList, h: Hop, center: u32)
    requires Checked(cs) && FreqsOk(cs.chan)
    requires 0 <= h.idx < |cs.chan| && Choose(cs, h).idx >= 0
    requires forall i: nat :: i < |cs.chan| ==> Paired(cs.chan, i)
    ensures Verify(cs.chan, NextSpec(cs, h, center))
  {
    ChoiceIsOffered(cs, h);
    OfferedVerifies(cs, Choose(cs, h).idx);
  }

  /** Without range limits this is exact: one unpaired channel, and some hop proposes a channel that does not verify. */
  lemma NextVerifiesOnlyIfPaired(cs: ChanList, i: nat) returns (h: Hop)
    requires Checked(cs) && FreqsOk(cs.chan) && i < |cs.chan| && !Paired(cs.chan, i)
    ensures h.min == h.max == 0 && 0 <= h.idx < |cs.chan| && Choose(cs, h).idx >= 0
    ensures !Verify(cs.chan, NextSpec(cs, h, 0))
  {
    var c := cs.chan[i];
    CapabIsMaximal(cs, i);
    if c.ht40minus && HasFreq(cs.chan, c.freq - 20) {
      h := Hop(0, 0, i, SpecOf(c, false, 0));
      SpecSign(c, false);
      assert Choose(cs, h) == Choice(i, true, 0);
      OfferVerifies(cs, i, true, 0);
    } else {
      h := HopInto(cs, i);
      OfferVerifies(cs, i, !c.ht40minus, 0);
    }
  }

  /** Without limits, every channel follows on another one. */
  lemma HopInto(cs: ChanList, i: nat) returns (h: Hop)
    requires i < |cs.chan| && FreqsOk(cs.chan)
    ensures h.min == h.max == 0 && 0 <= h.idx < |cs.chan| && Choose(cs, h) == Choice(i, !cs.chan[i].ht40minus, 0)
  {
    var prev := if i > 0 then i - 1 else |cs.chan| - 1;
    h := Hop(0, 0, prev, SpecOf(cs.chan[prev], cs.chan[prev].ht40plus, 0));
    SpecSign(cs.chan[prev], cs.chan[prev].ht40plus);
  }

  lemma SpecSign(c: ChanFreq, plus: bool)
    requires 20 <= c.freq < 0x1_0000_0000 - 70
    ensures IsHt40Plus(SpecOf(c, plus, 0)) <==> c.maxWidth == CHAN_WIDTH_40 && plus
  {
  }

  // ----- hopping with every set succeeding -----

  /** One successful hop: get_next into a zeroed struct, then uwifi_channel_change. */
  function Step(cs: ChanList, h: Hop): Hop
    requires 0 <= h.idx < |cs.chan| && Choose(cs, h).idx >= 0
  {
    var spec := NextSpec(cs, h, 0);
    Hop(Choose(cs, h).min, h.max, IdxFromFreq(cs.chan, spec.freq), spec)
  }

  /** The list falls into channels below the configured range, those of the range (lo..hi), and those above it. */
  ghost predicate Range(cs: ChanList, min: int, max: int, lo: nat, hi: nat) {
    && lo <= hi < |cs.chan|
    && (if min == 0 then lo == 0 else IdxFromChan(cs.chan, min) == lo)
    && (forall i :: 0 <= i < lo ==> cs.chan[i].chan < min)
    && (forall i :: lo <= i <= hi ==> (min == 0 || min <= cs.chan[i].chan) && (max == 0 || cs.chan[i].chan <= max))
    && (forall i :: hi < i < |cs.chan| ==> max != 0 && max < cs.chan[i].chan)
  }

  /** Channels sorted by number, channel_min listed or zero, some channel within the range: a range exists. */
  lemma RangeExists(cs: ChanList, min: int, max: int) returns (lo: nat, hi: nat)
    requires forall i, j :: 0 <= i < j < |cs.chan| ==> cs.chan[i].chan < cs.chan[j].chan
    requires |cs.chan| > 0
    requires if min == 0 then max == 0 || cs.chan[0].chan <= max else HasChan(cs.chan, min) && (max == 0 || min <= max)
    ensures Range(cs, min, max, lo, hi)
  {
    lo := if min == 0 then 0 else IdxFromChan(cs.chan, min);
    hi := lo;
    while !Wraps(cs, max, hi)
      invariant lo <= hi < |cs.chan| && (max == 0 || cs.chan[hi].chan <= max)
      decreases |cs.chan| - hi
    {
      hi := hi + 1;
    }
  }

  /** HT40 in both directions: such a channel is visited twice. */
  predicate TwoSided(c: ChanFreq) {
    c.maxWidth == CHAN_WIDTH_40 && c.ht40plus && c.ht40minus
  }

  datatype Visit = Visit(idx: nat, plus: bool)

  /** The visits of one round over the channels lo..hi: HT40- before HT40+. */
  function Visits(cs: ChanList, lo: nat, hi: nat): (r: seq<Visit>)
    requires lo <= hi < |cs.chan|
    ensures |r| > 0 && r[0] == Visit(lo, !cs.chan[lo].ht40minus)
    ensures forall k :: 0 <= k < |r| ==> lo <= r[k].idx <= hi
    decreases hi - lo
  {
    VisitsOf(cs.chan[lo], lo) + if lo == hi then [] else Visits(cs, lo + 1, hi)
  }

  function VisitsOf(c: ChanFreq, i: nat): seq<Visit> {
    if TwoSided(c) then [Visit(i, !c.ht40minus), Visit(i, true)] else [Visit(i, !c.ht40minus)]
  }

  lemma VisitsTail(cs: ChanList, lo: nat, hi: nat, k: nat)
    requires lo < hi < |cs.chan|
    requires k < |VisitsOf(cs.chan[lo], lo)| + |Visits(cs, lo + 1, hi)|
    ensures var n, t := |VisitsOf(cs.chan[lo], lo)|, Visits(cs, lo + 1, hi);
      && |Visits(cs, lo, hi)| == n + |t|
      && Visits(cs, lo, hi)[k] == if k < n then VisitsOf(cs.chan[lo], lo)[k] else t[k - n]
  {
  }

  function CountTwoSided(s: seq<ChanFreq>): nat {
    if s == [] then 0 else (if TwoSided(s[0]) then 1 else 0) + CountTwoSided(s[1..])
  }

  /** The round has one visit a channel and one more for every two-sided one. */
  lemma {:induction false} RoundLength(cs: ChanList, lo: nat, hi: nat)
    requires lo <= hi < |cs.chan|
    ensures |Visits(cs, lo, hi)| == hi - lo + 1 + CountTwoSided(cs.chan[lo..hi + 1])
    decreases hi - lo
  {
    assert cs.chan[lo..hi + 1][1..] == cs.chan[lo + 1..hi + 1];
    if lo < hi {
      RoundLength(cs, lo + 1, hi);
    }
  }

  /** HT40- of a two-sided channel, whose HT40+ is still to come. */
  predicate FirstOfTwo(cs: ChanList, v: Visit)
    requires v.idx < |cs.chan|
  {
    TwoSided(cs.chan[v.idx]) && !v.plus
  }

  /** The visit that follows v: its own HT40+, or else the first visit of the next channel. */
  function NextVisit(cs: ChanList, v: Visit): Visit
    requires v.idx < |cs.chan| && (FirstOfTwo(cs, v) || v.idx + 1 < |cs.chan|)
  {
    if FirstOfTwo(cs, v) then Visit(v.idx, true) else Visit(v.idx + 1, !cs.chan[v.idx + 1].ht40minus)
  }

  /** At place k, the sequence r goes on to the visit that follows, and ends with the last visit of channel hi. */
  ghost predicate InOrder(cs: ChanList, hi: nat, r: seq<Visit>, k: nat)
    requires k < |r| && r[k].idx <= hi < |cs.chan|
  {
    if FirstOfTwo(cs, r[k]) || r[k].idx < hi then k + 1 < |r| && r[k + 1] == NextVisit(cs, r[k]) else k + 1 == |r|
  }

  /** The round goes from each visit to the one that follows it. */
  lemma {:induction false} RoundOrder(cs: ChanList, lo: nat, hi: nat, k: nat)
    requires lo <= hi < |cs.chan| && k < |Visits(cs, lo, hi)|
    ensures InOrder(cs, hi, Visits(cs, lo, hi), k)
    decreases hi - lo
  {
    if lo < hi {
      var n := |VisitsOf(cs.chan[lo], lo)|;
      if k >= n {
        RoundOrder(cs, lo + 1, hi, k - n);
      }
      OrderExtends(cs, lo, hi, Visits(cs, lo + 1, hi), k);
    }
  }

  lemma OrderExtends(cs: ChanList, lo: nat, hi: nat, t: seq<Visit>, k: nat)
    requires lo < hi < |cs.chan| && k < |VisitsOf(cs.chan[lo], lo) + t|
    requires |t| > 0 && t[0] == Visit(lo + 1, !cs.chan[lo + 1].ht40minus)
    requires k >= |VisitsOf(cs.chan[lo], lo)| ==>
      var j := k - |VisitsOf(cs.chan[lo], lo)|; t[j].idx <= hi && InOrder(cs, hi, t, j)
    ensures (VisitsOf(cs.chan[lo], lo) + t)[k].idx <= hi && InOrder(cs, hi, VisitsOf(cs.chan[lo], lo) + t, k)
  {
  }

  /** Every visit is HT40- where the channel can, except the second one of a two-sided channel. */
  lemma {:induction false} RoundSigns(cs: ChanList, lo: nat, hi: nat, k: nat)
    requires lo <= hi < |cs.chan| && k < |Visits(cs, lo, hi)|
    ensures var v := Visits(cs, lo, hi)[k]; v.plus == !cs.chan[v.idx].ht40minus || (v.plus && TwoSided(cs.chan[v.idx]))
    decreases hi - lo
  {
    if lo < hi {
      VisitsTail(cs, lo, hi, k);
      var n := |VisitsOf(cs.chan[lo], lo)|;
      if k >= n {
        RoundSigns(cs, lo + 1, hi, k - n);
      }
    }
  }

  /** Where the visits of channel i begin. */
  function PlaceOf(cs: ChanList, lo: nat, i: nat): nat
    requires lo <= i <= |cs.chan|
  {
    i - lo + CountTwoSided(cs.chan[lo..i])
  }

  lemma PlaceShifts(cs: ChanList, lo: nat, i: nat)
    requires lo < i <= |cs.chan|
    ensures PlaceOf(cs, lo, i) == |VisitsOf(cs.chan[lo], lo)| + PlaceOf(cs, lo + 1, i)
  {
    assert cs.chan[lo..i][1..] == cs.chan[lo + 1..i];
  }

  /** In index order, every channel is visited. */
  lemma {:induction false} RoundCovers(cs: ChanList, lo: nat, hi: nat, i: nat)
    requires lo <= i <= hi < |cs.chan|
    ensures PlaceOf(cs, lo, i) < |Visits(cs, lo, hi)|
    ensures Visits(cs, lo, hi)[PlaceOf(cs, lo, i)] == Visit(i, !cs.chan[i].ht40minus)
    decreases i - lo
  {
    if lo < i {
      PlaceShifts(cs, lo, i);
      RoundCovers(cs, lo + 1, hi, i);
      VisitsTail(cs, lo, hi, PlaceOf(cs, lo, i));
    }
  }

  /** A place of the round is the first of its channel or, for a two-sided one, the HT40+ right after it. */
  lemma {:induction false} RoundPlace(cs: ChanList, lo: nat, hi: nat, k: nat)
    requires lo <= hi < |cs.chan| && k < |Visits(cs, lo, hi)|
    ensures var v := Visits(cs, lo, hi)[k];
      k == PlaceOf(cs, lo, v.idx) + if TwoSided(cs.chan[v.idx]) && v.plus then 1 else 0
    decreases hi - lo
  {
    if lo < hi {
      VisitsTail(cs, lo, hi, k);
      var n := |VisitsOf(cs.chan[lo], lo)|;
      if k >= n {
        RoundPlace(cs, lo + 1, hi, k - n);
        PlaceShifts(cs, lo, Visits(cs, lo, hi)[k].idx);
      }
    }
  }

  /** The interface is tuned to visit v. */
  ghost predicate At(cs: ChanList, h: Hop, v: Visit) {
    && v.idx < |cs.chan| && h.idx == v.idx && h.channel == SpecOf(cs.chan[v.idx], v.plus, 0)
  }

  /** From a visit, the walk chooses the next one of the round. */
  lemma ChooseFromVisit(cs: ChanList, h: Hop, lo: nat, hi: nat, v: Visit)
    requires FreqsOk(cs.chan) && Range(cs, h.min, h.max, lo, hi)
    requires lo <= v.idx <= hi && At(cs, h, v)
    requires v.plus == !cs.chan[v.idx].ht40minus || (v.plus && TwoSided(cs.chan[v.idx]))
    ensures Choose(cs, h) ==
      if TwoSided(cs.chan[v.idx]) && !v.plus then Choice(v.idx, true, h.min)
      else
        var next := if v.idx < hi then v.idx + 1 else lo;
        Choice(next, !cs.chan[next].ht40minus, h.min)
  {
    SpecSign(cs.chan[v.idx], v.plus);
  }

  /** The place after k on a round of the given length. */
  function After(k: nat, len: nat): nat {
    if k + 1 == len then 0 else k + 1
  }

  /** A successful hop tunes to the choice. */
  lemma StepLands(cs: ChanList, h: Hop)
    requires FreqsOk(cs.chan) && 0 <= h.idx < |cs.chan| && Choose(cs, h).idx >= 0
    ensures At(cs, Step(cs, h), Visit(Choose(cs, h).idx, Choose(cs, h).plus))
  {
    IdxOfFreq(cs.chan, Choose(cs, h).idx);
  }

  /** The interface is at place k of the round. */
  ghost predicate OnRound(cs: ChanList, lo: nat, hi: nat, h: Hop, k: nat) {
    && Range(cs, h.min, h.max, lo, hi)
    && k < |Visits(cs, lo, hi)| && At(cs, h, Visits(cs, lo, hi)[k])
  }

  lemma StepFromVisit(cs: ChanList, h: Hop, lo: nat, hi: nat, k: nat)
    requires FreqsOk(cs.chan) && OnRound(cs, lo, hi, h, k)
    ensures Choose(cs, h).idx >= 0 && Choose(cs, h).min == h.min
    ensures OnRound(cs, lo, hi, Step(cs, h), After(k, |Visits(cs, lo, hi)|))
  {
    RoundOrder(cs, lo, hi, k);
    RoundSigns(cs, lo, hi, k);
    ChooseFromVisit(cs, h, lo, hi, Visits(cs, lo, hi)[k]);
    StepLands(cs, h);
  }

  /** A hop as a function on all states: where the source would read outside the list, it stays put. */
  function Hopping(cs: ChanList): Hop -> Hop {
    (h: Hop) => if 0 <= h.idx < |cs.chan| && Choose(cs, h).idx >= 0 then Step(cs, h) else h
  }

  function Iterate<S>(next: S -> S, s: S, n: nat): S
    decreases n
  {
    if n == 0 then s else Iterate(next, next(s), n - 1)
  }

  /** The place reached from k by going n places around a round of length len. */
  function Around(k: nat, n: nat, len: nat): nat
    decreases n
  {
    if n == 0 then k else Around(After(k, len), n - 1, len)
  }

  /** Going around a round of length len, place by place. */
  lemma {:induction false} AroundPlaces(k: nat, n: nat, len: nat)
    requires k < len && n <= len
    ensures Around(k, n, len) == if k + n < len then k + n else k + n - len
    decreases n
  {
    if n > 0 {
      AroundPlaces(After(k, len), n - 1, len);
    }
  }

  lemma {:induction false} CycleAround<S(!new)>(next: S -> S, at: (S, nat) -> bool, len: nat, s: S, k: nat, n: nat)
    requires k < len && at(s, k)
    requires forall t: S, j: nat {:trigger at(t, j)} :: j < len && at(t, j) ==> at(next(t), After(j, len))
    ensures Around(k, n, len) < len && at(Iterate(next, s, n), Around(k, n, len))
    decreases n
  {
    if n > 0 {
      CycleAround(next, at, len, next(s), After(k, len), n - 1);
    }
  }

  /** Once on the round, n hops go n places further around it, for ever. */
  lemma HopsCycle(cs: ChanList, h: Hop, lo: nat, hi: nat, k: nat, n: nat)
    requires FreqsOk(cs.chan) && OnRound(cs, lo, hi, h, k)
    ensures var t := Iterate(Hopping(cs), h, n);
      OnRound(cs, lo, hi, t, Around(k, n, |Visits(cs, lo, hi)|)) && t.min == h.min && t.max == h.max
  {
    var at := (t: Hop, j: nat) => OnRound(cs, lo, hi, t, j) && t.min == h.min && t.max == h.max;
    var len := |Visits(cs, lo, hi)|;
    forall t: Hop, j: nat | j < len && at(t, j)
      ensures at(Hopping(cs)(t), After(j, len))
    {
      StepFromVisit(cs, t, lo, hi, j);
    }
    CycleAround(Hopping(cs), at, len, h, k, n);
  }

  /** An interface is at one place of the round only: the visits are different states. */
  lemma PlaceUnique(cs: ChanList, h: Hop, lo: nat, hi: nat, j: nat, k: nat)
    requires FreqsOk(cs.chan) && OnRound(cs, lo, hi, h, j) && OnRound(cs, lo, hi, h, k)
    ensures j == k
  {
    RoundPlace(cs, lo, hi, j);
    RoundPlace(cs, lo, hi, k);
    SpecSign(cs.chan[h.idx], Visits(cs, lo, hi)[j].plus);
    SpecSign(cs.chan[h.idx], Visits(cs, lo, hi)[k].plus);
  }

  /** The round is the exact period: its length in hops leads back to the very same state, and no fewer hops do. */
  lemma ExactPeriod(cs: ChanList, h: Hop, lo: nat, hi: nat, k: nat, n: nat)
    requires FreqsOk(cs.chan) && OnRound(cs, lo, hi, h, k) && 0 < n <= |Visits(cs, lo, hi)|
    ensures Iterate(Hopping(cs), h, n) == h <==> n == |Visits(cs, lo, hi)|
  {
    HopsCycle(cs, h, lo, hi, k, n);
    AroundPlaces(k, n, |Visits(cs, lo, hi)|);
    if Iterate(Hopping(cs), h, n) == h {
      PlaceUnique(cs, h, lo, hi, k, Around(k, n, |Visits(cs, lo, hi)|));
    }
  }

  /** From any listed channel and any current specification, at most two hops reach the round; without limits, one. */
  lemma HopsEnter(cs: ChanList, h: Hop, lo: nat, hi: nat) returns (n: nat, k: nat)
    requires Checked(cs) && FreqsOk(cs.chan) && Range(cs, h.min, h.max, lo, hi) && 0 <= h.idx < |cs.chan|
    ensures n <= 2 && (h.min == 0 && h.max == 0 ==> n == 1)
    ensures OnRound(cs, lo, hi, Iterate(Hopping(cs), h, n), k)
  {
    var h' := Hopping(cs)(h);
    assert Iterate(Hopping(cs), h, 1) == h';
    if lo <= Choose(cs, h).idx <= hi {
      n := 1;
      k := Place(cs, lo, hi, h);
    } else {
      AboveComesAround(cs, h, lo, hi);
      n := 2;
      k := Place(cs, lo, hi, h');
      assert Iterate(Hopping(cs), h, 2) == Hopping(cs)(h');
    }
  }

  /** Above the range and tuned to HT40-: the same channel once more with HT40+, and then around. */
  lemma AboveComesAround(cs: ChanList, h: Hop, lo: nat, hi: nat)
    requires FreqsOk(cs.chan) && Range(cs, h.min, h.max, lo, hi) && 0 <= h.idx < |cs.chan|
    requires !(lo <= Choose(cs, h).idx <= hi)
    ensures h.max != 0 && Choose(cs, h).idx >= 0
    ensures var h' := Step(cs, h);
      0 <= h'.idx < |cs.chan| && Range(cs, h'.min, h'.max, lo, hi) && Choose(cs, h').idx == lo
  {
    ChoiceAbove(cs, h, lo, hi);
    StepLands(cs, h);
    SpecSign(cs.chan[h.idx], true);
    ChoiceInside(cs, Step(cs, h), lo, hi);
  }

  lemma ChoiceAbove(cs: ChanList, h: Hop, lo: nat, hi: nat)
    requires Range(cs, h.min, h.max, lo, hi) && 0 <= h.idx < |cs.chan|
    requires !(lo <= Choose(cs, h).idx <= hi)
    ensures Choose(cs, h) == Choice(h.idx, true, h.min) && hi < h.idx && cs.chan[h.idx].ht40plus
  {
  }

  lemma ChoiceInside(cs: ChanList, h: Hop, lo: nat, hi: nat)
    requires Range(cs, h.min, h.max, lo, hi) && hi < h.idx < |cs.chan|
    requires h.channel.width == CHAN_WIDTH_40 ==> IsHt40Plus(h.channel)
    ensures Choose(cs, h).idx == lo
  {
  }

  /** Whatever is chosen inside the range is, as a specification, a visit of the round. */
  lemma Place(cs: ChanList, lo: nat, hi: nat, h: Hop) returns (k: nat)
    requires Checked(cs) && FreqsOk(cs.chan) && Range(cs, h.min, h.max, lo, hi) && 0 <= h.idx < |cs.chan|
    requires lo <= Choose(cs, h).idx <= hi
    ensures OnRound(cs, lo, hi, Step(cs, h), k)
  {
    var c := Choose(cs, h);
    StepLands(cs, h);
    RoundCovers(cs, lo, hi, c.idx);
    k := PlaceOf(cs, lo, c.idx);
    if TwoSided(cs.chan[c.idx]) && c.plus {
      RoundOrder(cs, lo, hi, k);
      k := k + 1;
    }
  }
}
