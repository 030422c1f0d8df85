/** The imperative half of core/channel.c: loops over the channel array and updates of the interface. */
module ChannelDriver {
  import opened Channels
  import opened ChannelCapab
  import opened ChannelHop

  /** struct uwifi_channels */
  class ChannelTable {
    const chan: array<ChanFreq>
    var numChannels: int
    var band0: Band
    var band1: Band

    constructor ()
      ensures Valid() && fresh(chan) && View() == ChanList([], Band(0, 0), Band(0, 0))
    {
      chan := new ChanFreq[MAX_CHANNELS](_ => ChanFreq(0, 0, 0, false, false));
      numChannels := 0;
      band0, band1 := Band(0, 0), Band(0, 0);
    }

    ghost predicate Valid()
      reads this
    {
      chan.Length == MAX_CHANNELS && 0 <= numChannels <= MAX_CHANNELS
    }

    ghost function View(): ChanList
      reads this, chan
      requires Valid()
    {
      ChanList(chan[..numChannels], band0, band1)
    }

    /** uwifi_channel_list_add */
    method ListAdd(freq: u32) returns (ok: bool)
      requires Valid()
      modifies this`numChannels, chan
      ensures Valid()
      ensures ok <==> old(numChannels) < MAX_CHANNELS
      ensures !ok ==> View() == old(View())
      ensures ok ==> |View().chan| == old(numChannels) + 1 && View().chan[..old(numChannels)] == old(View().chan)
      ensures ok ==> View().chan[old(numChannels)].freq == freq && View().chan[old(numChannels)].chan == Freq2Chan(freq)
    {
      if numChannels >= MAX_CHANNELS {
        return false;
      }
      chan[numChannels] := chan[numChannels].(chan := Freq2Chan(freq), freq := freq);
      numChannels := numChannels + 1;
      return true;
    }

    /** uwifi_channel_idx_from_chan */
    method FindChan(c: int) returns (r: int)
      requires Valid()
      ensures r == IdxFromChan(View().chan, c)
    {
      var i := 0;
      while i < numChannels && i < MAX_CHANNELS
        invariant 0 <= i <= numChannels
        invariant forall j :: 0 <= j < i ==> chan[j].chan != c
      {
        if chan[i].chan == c {
          return i;
        }
        i := i + 1;
      }
      return -1;
    }

    /** uwifi_channel_idx_from_freq */
    method FindFreq(f: u32) returns (r: int)
      requires Valid()
      ensures r == IdxFromFreq(View().chan, f)
    {
      var i := 0;
      while i < numChannels && i < MAX_CHANNELS
        invariant 0 <= i <= numChannels
        invariant forall j :: 0 <= j < i ==> chan[j].freq != f
      {
        if chan[i].freq == f {
          return i;
        }
        i := i + 1;
      }
      return -1;
    }

    /** uwifi_channel_verify_ch */
    method CheckSpec(ch: Spec) returns (ok: bool)
      requires Valid()
      ensures ok <==> VerifyCh(View().chan, ch)
    {
      if ch.width == CHAN_WIDTH_40 {
        var d := S32(U32(ch.center - ch.freq));
        if d != 10 && d != -10 {
          return false;
        }
        var idx := FindFreq(U32(ch.center + d));
        if idx == -1 {
          return false;
        }
      } else if ch.width == CHAN_WIDTH_80 || ch.width == CHAN_WIDTH_160 {
        var max := if ch.width == CHAN_WIDTH_80 then 30 else 70;
        ok := CheckBlock(ch.center, max);
        return;
      }
      return true;
    }

    /** The loops of uwifi_channel_verify_ch over a block of 20 MHz channels. */
    method CheckBlock(center: u32, max: int) returns (ok: bool)
      requires Valid()
      ensures ok <==> SubchannelsExist(View().chan, center, -max, max)
    {
      var i := -max;
      while i < max
        invariant SubchannelsExist(View().chan, center, -max, max) == SubchannelsExist(View().chan, center, i, max)
      {
        var idx := FindFreq(U32(center + i));
        if idx == -1 {
          return false;
        }
        i := i + 20;
      }
      return true;
    }

    /** uwifi_channel_verify */
    method CheckChannel(ch: Spec) returns (ok: bool)
      requires Valid()
      ensures ok <==> Verify(View().chan, ch)
    {
      var idx := FindFreq(ch.freq);
      if idx == -1 {
        return false;
      }
      if ch.width > chan[idx].maxWidth {
        return false;
      }
      ok := CheckSpec(ch);
    }

    /** chan_check_capab */
    method CheckCapab(idx: int)
      requires Valid() && 0 <= idx < numChannels
      modifies chan
      ensures View() == Check(old(View()), idx)
    {
      ghost var cs := View();
      var maxWidth := (if idx - band0.numChannels < 0 then band0 else band1).maxWidth;
      chan[idx] := chan[idx].(maxWidth := CHAN_WIDTH_20);
      assert View() == cs.(chan := cs.chan[idx := chan[idx]]);
      if chan[idx].freq == 2484 {
        return;
      }
      WidthsSame(cs, View(), chan[idx], maxWidth);
      CheckWidths(idx, maxWidth);
      assert View().chan == cs.chan[idx := chan[idx]];
    }

    /** The part of chan_check_capab for widths above 20 MHz. */
    method CheckWidths(idx: int, maxWidth: nat)
      requires Valid() && 0 <= idx < numChannels
      modifies chan
      ensures View().chan == old(View().chan)[idx := WidthsEntry(old(View().chan), old(chan[idx]), maxWidth)]
    {
      ghost var cs := View();
      if maxWidth >= CHAN_WIDTH_40 {
        CheckHt40(idx);
        if !(chan[idx].ht40minus || chan[idx].ht40plus) {
          return;
        }
        EntriesSame(cs, View(), chan[idx], maxWidth);
      }
      CheckVht(idx, maxWidth);
    }

    /** The HT40 part of chan_check_capab. */
    method CheckHt40(idx: int)
      requires Valid() && 0 <= idx < numChannels
      modifies chan
      ensures View().chan == old(View().chan)[idx := Ht40Entry(old(View().chan), old(chan[idx]))]
    {
      var ch := chan[idx].chan;
      var minus := FindChan(ch - 4);
      var plus := FindChan(ch + 4);
      chan[idx] := chan[idx].(ht40minus := minus != -1, ht40plus := plus != -1);
      if chan[idx].ht40minus || chan[idx].ht40plus {
        chan[idx] := chan[idx].(maxWidth := CHAN_WIDTH_40);
      }
    }

    /** The VHT part of chan_check_capab. */
    method CheckVht(idx: int, maxWidth: nat)
      requires Valid() && 0 <= idx < numChannels
      modifies chan
      ensures View().chan == old(View().chan)[idx := VhtEntry(old(View().chan), old(chan[idx]), maxWidth)]
    {
      var newChan := Spec(chan[idx].freq, CHAN_WIDTH_80, 0);
      ghost var cs, width := View(), Widen(View().chan, newChan, maxWidth, chan[idx].maxWidth);
      while newChan.width <= maxWidth
        invariant Widen(cs.chan, newChan, maxWidth, chan[idx].maxWidth) == width
        invariant View() == cs.(chan := cs.chan[idx := cs.chan[idx].(maxWidth := chan[idx].maxWidth)])
        decreases maxWidth + 1 - newChan.width
      {
        newChan := FixCenter(newChan, false);
        VerifyChSame(cs, View(), newChan);
        var ok := CheckSpec(newChan);
        if !ok {
          return;
        }
        chan[idx] := chan[idx].(maxWidth := newChan.width);
        newChan := newChan.(width := newChan.width + 1);
      }
    }

    /** The capability pass of uwifi_channel_init. */
    method CheckAll()
      requires Valid()
      modifies chan
      ensures Checked(View()) && SameGrid(old(View()), View())
    {
      ghost var cs, order: seq<nat> := View(), [];
      var i := 0;
      while i < numChannels && i < MAX_CHANNELS
        invariant 0 <= i <= numChannels
        invariant |order| == i && forall k :: 0 <= k < i ==> order[k] == k
        invariant View() == Pass(cs, order)
      {
        CheckCapab(i);
        assert (order + [i])[..i] == order;
        order := order + [i];
        i := i + 1;
      }
      forall j: nat | j < |cs.chan|
        ensures j in order
      {
        assert order[j] == j;
      }
      FullPassChecks(cs, order);
      PassInAnyOrder(cs, order);
    }
  }

  // ----- hopping under a dwell timer -----

  /** uwifi_channel_change refuses a width above 20 MHz without a centre frequency. */
  predicate Acceptable(spec: Spec) {
    spec.center != 0 || spec.width == CHAN_WIDTH_20_NOHT || spec.width == CHAN_WIDTH_20
  }

  /** What the next attempt starts from: the hop state, and the centre left in the caller's struct. */
  datatype Trial = Trial(hop: Hop, center: u32)

  /** The state after one more get_next whose change failed: only channel_min can differ. */
  function Failed(cs: ChanList, h: Hop): Hop
    requires 0 <= h.idx < |cs.chan|
  {
    h.(min := Choose(cs, h).min)
  }

  /** The state after k failed attempts of one call. */
  function TrialAt(cs: ChanList, h: Hop, k: nat): (t: Trial)
    requires 0 <= h.idx < |cs.chan| && Choose(cs, h).idx >= 0
    ensures t.hop.idx == h.idx && t.hop.channel == h.channel && t.hop.max == h.max && Choose(cs, t.hop).idx >= 0
  {
    if k == 0 then Trial(h, 0)
    else
      var t := TrialAt(cs, h, k - 1);
      Trial(Failed(cs, t.hop), NextSpec(cs, t.hop, t.center).center)
  }

  /** The specification that attempt k of one call proposes, all earlier ones having failed. */
  function Proposed(cs: ChanList, h: Hop, k: nat): Spec
    requires 0 <= h.idx < |cs.chan| && Choose(cs, h).idx >= 0
  {
    var t := TrialAt(cs, h, k);
    NextSpec(cs, t.hop, t.center)
  }

  /** No different channels are tried: from the second attempt on, all propose the same. */
  lemma {:induction false} RetriesRepeat(cs: ChanList, h: Hop, k: nat)
    requires 0 <= h.idx < |cs.chan| && Choose(cs, h).idx >= 0 && k >= 1
    ensures Proposed(cs, h, k) == Proposed(cs, h, 1)
    ensures Choose(cs, h).min == h.min ==> Proposed(cs, h, k) == Proposed(cs, h, 0)
  {
    TrialsSettle(cs, h, k);
    TrialsSettle(cs, h, 1);
  }

  lemma FailedIsStable(cs: ChanList, h: Hop)
    requires 0 <= h.idx < |cs.chan|
    ensures Failed(cs, Failed(cs, h)) == Failed(cs, h)
  {
  }

  lemma {:induction false} TrialsSettle(cs: ChanList, h: Hop, k: nat)
    requires 0 <= h.idx < |cs.chan| && Choose(cs, h).idx >= 0 && k >= 1
    ensures TrialAt(cs, h, k).hop == Failed(cs, h) && Choose(cs, Failed(cs, h)).idx >= 0
    ensures Proposed(cs, h, k) == NextSpec(cs, Failed(cs, h), NextSpec(cs, h, 0).center)
  {
    FailedIsStable(cs, h);
    if k == 1 {
      assert TrialAt(cs, h, 1) == Trial(Failed(cs, h), NextSpec(cs, h, 0).center);
    } else {
      TrialsSettle(cs, h, k - 1);
      CenterRepeats(cs, Failed(cs, h), NextSpec(cs, h, 0).center);
    }
  }

  /** Filling in a centre frequency over the one filled in before changes nothing. */
  lemma CenterRepeats(cs: ChanList, h: Hop, center: u32)
    requires 0 <= h.idx < |cs.chan| && Choose(cs, h).idx >= 0
    ensures NextSpec(cs, h, NextSpec(cs, h, center).center) == NextSpec(cs, h, center)
  {
  }

  /** No listed channel is below a centre frequency of zero. */
  lemma NoBlockAtZero(s: seq<ChanFreq>, max: int)
    requires FreqsOk(s) && (max == 30 || max == 70)
    ensures !SubchannelsExist(s, 0, -max, max)
  {
    assert U32(0 + -max) == 0x1_0000_0000 - max;
  }

  /** On a checked list, only a width of 80+80 MHz is ever refused for want of a centre frequency. */
  lemma NextIsAcceptable(cs: ChanList, h: Hop)
    requires Checked(cs) && FreqsOk(cs.chan) && 0 <= h.idx < |cs.chan| && Choose(cs, h).idx >= 0
    ensures Acceptable(NextSpec(cs, h, 0)) <==> NextSpec(cs, h, 0).width <= CHAN_WIDTH_160
  {
    var i := Choose(cs, h).idx;
    var c := cs.chan[i];
    CapabIsMaximal(cs, i);
    if CHAN_WIDTH_80 <= c.maxWidth <= CHAN_WIDTH_160 {
      assert Granted(cs.chan, c.freq, BandOf(cs, i).maxWidth, c.maxWidth);
      assert VerifyCh(cs.chan, VhtSpec(c.freq, c.maxWidth));
      NoBlockAtZero(cs.chan, if c.maxWidth == CHAN_WIDTH_80 then 30 else 70);
    }
  }

  /** The number of attempts one call makes at most. */
  function MaxTries(cs: ChanList, max: int): int {
    var t := if max != 0 then IdxFromChan(cs.chan, max) * 2 else -1;
    var tries := if t < 0 then |cs.chan| * 2 else t;
    if tries < 1 then 1 else tries
  }

  /** Without a listed channel_max: twice the whole list. */
  lemma TriesOfList(cs: ChanList, max: int)
    requires |cs.chan| > 0 && (max == 0 || !HasChan(cs.chan, max))
    ensures MaxTries(cs, max) == 2 * |cs.chan|
  {
    var k := IdxFromChan(cs.chan, max);
    assert k >= 0 ==> cs.chan[k].chan == max;
  }

  /** With one: twice its index, which leaves that channel itself out, but at least one. */
  lemma TriesOfMax(cs: ChanList, hi: nat)
    requires hi < |cs.chan| && cs.chan[hi].chan != 0 && forall j :: 0 <= j < hi ==> cs.chan[j].chan != cs.chan[hi].chan
    ensures MaxTries(cs, cs.chan[hi].chan) == if hi == 0 then 1 else 2 * hi
  {
    var k := IdxFromChan(cs.chan, cs.chan[hi].chan);
    assert k == hi;
  }

  lemma {:induction false} AtMostAll(s: seq<ChanFreq>)
    ensures CountTwoSided(s) <= |s|
    ensures CountTwoSided(s) == |s| <==> forall j :: 0 <= j < |s| ==> TwoSided(s[j])
  {
    if s != [] {
      AtMostAll(s[1..]);
      assert forall j :: 0 < j < |s| ==> s[j] == s[1..][j - 1];
    }
  }

  /**
   * The attempts of one call are enough for a whole round over the allowed channels if there is no listed channel_max; with
   * one, exactly if twice its index is.
   */
  lemma TriesCoverRound(cs: ChanList, min: int, max: int, lo: nat, hi: nat)
    requires Range(cs, min, max, lo, hi)
    requires forall i, j :: 0 <= i < j < |cs.chan| ==> cs.chan[i].chan < cs.chan[j].chan
    ensures max == 0 || !HasChan(cs.chan, max) ==> |Visits(cs, lo, hi)| <= MaxTries(cs, max)
    ensures max != 0 && HasChan(cs.chan, max) ==>
      && cs.chan[hi].chan == max
      && (|Visits(cs, lo, hi)| <= MaxTries(cs, max) <==>
           hi - lo + 1 + CountTwoSided(cs.chan[lo..hi + 1]) <= if hi == 0 then 1 else 2 * hi)
  {
    RoundLength(cs, lo, hi);
    AtMostAll(cs.chan[lo..hi + 1]);
    if max == 0 || !HasChan(cs.chan, max) {
      TriesOfList(cs, max);
    } else {
      MaxIsLast(cs, min, max, lo, hi);
      TriesOfMax(cs, hi);
    }
  }

  lemma MaxIsLast(cs: ChanList, min: int, max: int, lo: nat, hi: nat)
    requires Range(cs, min, max, lo, hi) && max != 0 && HasChan(cs.chan, max)
    requires forall i, j :: 0 <= i < j < |cs.chan| ==> cs.chan[i].chan < cs.chan[j].chan
    ensures cs.chan[hi].chan == max
  {
    var k :| 0 <= k < |cs.chan| && cs.chan[k].chan == max;
    var top := cs.chan[hi];
    assert top.chan <= max && (k < hi ==> max < top.chan);
  }

  /** So not when the channels from the first one up to a channel_max all have both HT40 directions: two visits are missing. */
  lemma TriesFallShort(cs: ChanList, max: int, hi: nat)
    requires Range(cs, 0, max, 0, hi) && hi > 0 && cs.chan[hi].chan == max != 0
    requires forall i, j :: 0 <= i < j < |cs.chan| ==> cs.chan[i].chan < cs.chan[j].chan
    requires forall j :: 0 <= j <= hi ==> TwoSided(cs.chan[j])
    ensures |Visits(cs, 0, hi)| == MaxTries(cs, max) + 2
  {
    RoundLength(cs, 0, hi);
    AtMostAll(cs.chan[0..hi + 1]);
    TriesOfMax(cs, hi);
  }

  /** struct uwifi_interface, as far as channel handling goes. */
  class Interface {
    var channelTime: int
    var channelMin: int
    var channelMax: int
    var channelScan: bool
    const channels: ChannelTable
    var channelIdx: int
    var channel: Spec
    var lastChannelChange: u32

    constructor (channels: ChannelTable)
      ensures this.channels == channels && !channelScan && channelIdx == -1
    {
      this.channels := channels;
      channelTime, channelMin, channelMax, channelScan := 0, 0, 0, false;
      channelIdx, channel, lastChannelChange := -1, Spec(0, 0, 0), 0;
    }

    ghost predicate Valid()
      reads this, channels
    {
      channels.Valid() && -1 <= channelIdx < channels.numChannels
    }

    ghost function Chans(): ChanList
      reads this, channels, channels.chan
      requires Valid()
    {
      channels.View()
    }

    ghost function View(): Hop
      reads this
    {
      Hop(channelMin, channelMax, channelIdx, channel)
    }

    /** uwifi_channel_get_remaining_dwell_time at clock reading `now` */
    function RemainingDwell(now: u32): (r: u32)
      reads this
      ensures !channelScan ==> r == 0xFFFF_FFFF
      ensures channelScan ==>
        var elapsed := U32(now - lastChannelChange);
        if elapsed >= channelTime then r == 0
        else if channelTime - elapsed <= 0xFFFF_FFFF then elapsed + r == channelTime
        else r == 0xFFFF_FFFF
    {
      if !channelScan then 0xFFFF_FFFF
      else
        var ret := channelTime - U32(now - lastChannelChange);
        if ret < 0 then 0 else if ret > 0xFFFF_FFFF then 0xFFFF_FFFF else ret
    }

    /** uwifi_channel_change at clock reading `now`; `accepted` is the driver's answer to the set request. */
    method Change(spec: Spec, now: u32, accepted: bool) returns (ok: bool)
      requires Valid()
      modifies `channelIdx, `channel, `lastChannelChange
      ensures Valid()
      ensures ok <==> Acceptable(spec) && accepted
      ensures ok ==> channelIdx == IdxFromFreq(Chans().chan, spec.freq) && channel == spec && lastChannelChange == now
      ensures !ok ==> View() == old(View()) && lastChannelChange == old(lastChannelChange)
    {
      if spec.center == 0 && !(spec.width == CHAN_WIDTH_20_NOHT || spec.width == CHAN_WIDTH_20) {
        return false;
      }
      if !accepted {
        return false;
      }
      channelIdx := channels.FindFreq(spec.freq);
      channel := spec;
      lastChannelChange := now;
      return true;
    }

    /** The index arithmetic of uwifi_channel_get_next. */
    method PickNext() returns (newIdx: int, ht40plus: bool)
      requires Valid() && channelIdx >= 0 && Choose(Chans(), View()).idx >= 0
      modifies `channelMin
      ensures Choose(old(Chans()), old(View())) == Choice(newIdx, ht40plus, channelMin)
    {
      newIdx := channelIdx;
      ht40plus := IsHt40Plus(channel);
      if channelMin != 0 && channels.chan[newIdx].chan < channelMin {
        newIdx := channels.FindChan(channelMin);
        ht40plus := true;
        if newIdx < 0 {
          channelMin := 0;
          newIdx := channelIdx;
        }
      }
      var ch := channels.chan[newIdx];
      if channel.width == CHAN_WIDTH_40 && !ht40plus && ch.ht40plus {
        ht40plus := true;
      } else {
        newIdx := newIdx + 1;
        if newIdx >= channels.numChannels || newIdx >= MAX_CHANNELS
           || (channelMax != 0 && channels.chan[newIdx].chan > channelMax) {
          if channelMin != 0 {
            newIdx := channels.FindChan(channelMin);
          } else {
            newIdx := 0;
          }
        }
        ch := channels.chan[newIdx];
        ht40plus := !ch.ht40minus;
      }
    }

    /** uwifi_channel_get_next into a struct whose centre frequency was `center`; `verified` is what it logs. */
    method GetNext(center: u32) returns (newChan: Spec, verified: bool)
      requires Valid() && channelIdx >= 0 && Choose(Chans(), View()).idx >= 0
      modifies `channelMin
      ensures newChan == NextSpec(old(Chans()), old(View()), center)
      ensures verified <==> Verify(Chans().chan, newChan)
      ensures View() == Failed(old(Chans()), old(View()))
    {
      var newIdx, ht40plus := PickNext();
      var ch := channels.chan[newIdx];
      newChan := FixCenter(Spec(ch.freq, ch.maxWidth, center), ht40plus);
      verified := channels.CheckChannel(newChan);
    }

    /**
     * uwifi_channel_auto_change.  now: the clock at the dwell test; accepts(k) and clock(k): the driver's
     * answer and the clock of attempt k; later: the clock after the last failure.
     */
    method AutoChange(now: u32, accepts: nat -> bool, clock: nat -> u32, later: u32) returns (ret: int)
      requires Valid() && (channelIdx >= 0 ==> Choose(Chans(), View()).idx >= 0)
      modifies `channelMin, `channelIdx, `channel, `lastChannelChange
      ensures Valid()
      ensures ret == 0 <==> !old(channelScan) || old(channelIdx) == -1 || old(RemainingDwell(now)) > 0
      ensures ret == 0 ==> View() == old(View()) && lastChannelChange == old(lastChannelChange)
      ensures ret == 0 || ret == 1 || ret == -1
      ensures ret == -1 ==> channelIdx == old(channelIdx) && channel == old(channel) && lastChannelChange == later
      ensures ret == -1 ==> AllFail(old(Chans()), old(View()), accepts, MaxTries(old(Chans()), old(channelMax)))
      ensures ret == 1 ==> TunedWithin(old(Chans()), old(View()), accepts, clock, MaxTries(old(Chans()), old(channelMax)))
      ensures ret == 1 && Succeeds(old(Chans()), old(View()), accepts, 0) ==> View() == Step(old(Chans()), old(View()))
    {
      if !channelScan {
        return 0;
      }
      if channelIdx == -1 {
        return 0;
      }
      if RemainingDwell(now) > 0 {
        return 0;
      }
      var tries := -1;
      if channelMax != 0 {
        tries := channels.FindChan(channelMax);
        tries := tries * 2;
      }
      if tries < 0 {
        tries := channels.numChannels * 2;
      }
      ret := TryAll(tries, accepts, clock);
      if ret != 1 {
        lastChannelChange := later;
        return -1;
      }
    }

    /** The do-while loop of uwifi_channel_auto_change. */
    method TryAll(maxTries: int, accepts: nat -> bool, clock: nat -> u32) returns (ret: int)
      requires Valid() && channelIdx >= 0 && Choose(Chans(), View()).idx >= 0
      modifies `channelMin, `channelIdx, `channel, `lastChannelChange
      ensures Valid() && (ret == 0 || ret == 1)
      ensures ret == 0 ==> channelIdx == old(channelIdx) && channel == old(channel)
      ensures ret == 0 ==> AllFail(old(Chans()), old(View()), accepts, if maxTries < 1 then 1 else maxTries)
      ensures ret == 1 ==> TunedWithin(old(Chans()), old(View()), accepts, clock, if maxTries < 1 then 1 else maxTries)
    {
      ghost var cs, h := Chans(), View();
      var tries := maxTries;
      var newChan := Spec(0, 0, 0);
      var attempt: nat := 0;
      ret := 0;
      while ret != 1 && (attempt == 0 || tries > 0)
        invariant Valid() && Chans() == cs && tries == maxTries - attempt
        invariant attempt > 0 ==> attempt <= if maxTries < 1 then 1 else maxTries
        invariant ret == 0 || ret == 1
        invariant ret == 0 ==> Trial(View(), newChan.center) == TrialAt(cs, h, attempt)
        invariant ret == 0 ==> AllFail(cs, h, accepts, attempt)
        invariant ret == 1 ==> attempt > 0 && TunedBy(cs, h, accepts, clock, attempt - 1)
        decreases 1 - ret, if attempt == 0 then 1 else 0, tries
      {
        tries := tries - 1;
        var ok;
        newChan, ok := TryOnce(newChan.center, accepts, clock, attempt, cs, h);
        ret := if ok then 1 else 0;
        attempt := attempt + 1;
      }
    }

    /** Attempt k of a call made in state h: one get_next and one change. */
    method TryOnce(center: u32, accepts: nat -> bool, clock: nat -> u32, k: nat, ghost cs: ChanList, ghost h: Hop)
      returns (newChan: Spec, ok: bool)
      requires Valid() && channelIdx >= 0 && Chans() == cs
      requires 0 <= h.idx < |cs.chan| && Choose(cs, h).idx >= 0
      requires Trial(View(), center) == TrialAt(cs, h, k) && AllFail(cs, h, accepts, k)
      modifies `channelMin, `channelIdx, `channel, `lastChannelChange
      ensures Valid()
      ensures ok ==> TunedBy(cs, h, accepts, clock, k)
      ensures !ok ==> Trial(View(), newChan.center) == TrialAt(cs, h, k + 1) && AllFail(cs, h, accepts, k + 1)
    {
      var verified;
      newChan, verified := GetNext(center);
      assert newChan == Proposed(cs, h, k);
      ok := Change(newChan, clock(k), accepts(k));
      if !ok {
        OneMoreFails(cs, h, accepts, k);
      }
    }

    static lemma OneMoreFails(cs: ChanList, h: Hop, accepts: nat -> bool, k: nat)
      requires 0 <= h.idx < |cs.chan| && Choose(cs, h).idx >= 0
      requires AllFail(cs, h, accepts, k) && !Succeeds(cs, h, accepts, k)
      ensures AllFail(cs, h, accepts, k + 1)
      ensures TrialAt(cs, h, k + 1) == Trial(Failed(cs, TrialAt(cs, h, k).hop), Proposed(cs, h, k).center)
    {
    }

    /** Attempt k of one call goes through. */
    static ghost predicate Succeeds(cs: ChanList, h: Hop, accepts: nat -> bool, k: nat)
      requires 0 <= h.idx < |cs.chan| && Choose(cs, h).idx >= 0
    {
      accepts(k) && Acceptable(Proposed(cs, h, k))
    }

    static ghost predicate AllFail(cs: ChanList, h: Hop, accepts: nat -> bool, limit: int)
      requires 0 <= h.idx < |cs.chan| && Choose(cs, h).idx >= 0
    {
      forall k: nat :: k < limit ==> !Succeeds(cs, h, accepts, k)
    }

    /** The interface is tuned to what attempt k, the first to go through, proposed. */
    ghost predicate TunedBy(cs: ChanList, h: Hop, accepts: nat -> bool, clock: nat -> u32, k: nat)
      reads this
      requires 0 <= h.idx < |cs.chan| && Choose(cs, h).idx >= 0
    {
      && Succeeds(cs, h, accepts, k) && AllFail(cs, h, accepts, k)
      && channel == Proposed(cs, h, k) && channelIdx == IdxFromFreq(cs.chan, channel.freq)
      && channelMin == Choose(cs, TrialAt(cs, h, k).hop).min && lastChannelChange == clock(k)
    }

    ghost predicate TunedWithin(cs: ChanList, h: Hop, accepts: nat -> bool, clock: nat -> u32, limit: int)
      reads this
      requires 0 <= h.idx < |cs.chan| && Choose(cs, h).idx >= 0
    {
      exists k: nat :: k < limit && TunedBy(cs, h, accepts, clock, k)
    }
  }
}
