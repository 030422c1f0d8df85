/** The capability pass of core/channel.c: which width and HT40 directions each listed channel allows. */
module ChannelCapab {
  import opened Channels

  /** The 80/160 MHz loop of chan_check_capab; `best` is the width granted so far. */
  function Widen(s: seq<ChanFreq>, spec: Spec, maxWidth: nat, best: nat): nat
    decreases maxWidth + 1 - spec.width
  {
    if spec.width > maxWidth then best
    else
      var fixed := FixCenter(spec, false);
      if !VerifyCh(s, fixed) then best else Widen(s, fixed.(width := fixed.width + 1), maxWidth, fixed.width)
  }

  /** The HT40 directions of an entry: a neighbour four channel numbers away is listed. */
  function Ht40Entry(s: seq<ChanFreq>, c: ChanFreq): ChanFreq {
    var minus := IdxFromChan(s, c.chan - 4) != -1;
    var plus := IdxFromChan(s, c.chan + 4) != -1;
    c.(ht40minus := minus, ht40plus := plus, maxWidth := if minus || plus then CHAN_WIDTH_40 else c.maxWidth)
  }

  function VhtEntry(s: seq<ChanFreq>, c: ChanFreq, maxWidth: nat): ChanFreq {
    c.(maxWidth := Widen(s, Spec(c.freq, CHAN_WIDTH_80, 0), maxWidth, c.maxWidth))
  }

  /** The widths above 20 MHz: those above 40 MHz only with an HT40 direction, if the band has HT40 at all. */
  function WidthsEntry(s: seq<ChanFreq>, c: ChanFreq, maxWidth: nat): ChanFreq {
    if maxWidth >= CHAN_WIDTH_40 then
      var d := Ht40Entry(s, c);
      if d.ht40minus || d.ht40plus then VhtEntry(s, d, maxWidth) else d
    else VhtEntry(s, c, maxWidth)
  }

  /** chan_check_capab: the new entry of channel idx. */
  function Capab(cs: ChanList, idx: nat): ChanFreq
    requires idx < |cs.chan|
  {
    var maxWidth := BandOf(cs, idx).maxWidth;
    var c := cs.chan[idx].(maxWidth := CHAN_WIDTH_20);
    if c.freq == 2484 then c else WidthsEntry(cs.chan, c, maxWidth)
  }

  function Check(cs: ChanList, idx: nat): (r: ChanList)
    requires idx < |cs.chan|
    ensures |r.chan| == |cs.chan|
  {
    cs.(chan := cs.chan[idx := Capab(cs, idx)])
  }

  /** The pass over the channels in any order, with repetitions. */
  function Pass(cs: ChanList, order: seq<nat>): (r: ChanList)
    requires forall k :: 0 <= k < |order| ==> order[k] < |cs.chan|
    ensures |r.chan| == |cs.chan|
  {
    if order == [] then cs else Check(Pass(cs, order[..|order| - 1]), order[|order| - 1])
  }

  // ----- the pass does not depend on its order -----

  /** Same numbers, frequencies and bands: all that the capability check reads of other channels. */
  ghost predicate SameGrid(a: ChanList, b: ChanList) {
    && |a.chan| == |b.chan| && a.band0 == b.band0 && a.band1 == b.band1
    && forall i :: 0 <= i < |a.chan| ==> a.chan[i].chan == b.chan[i].chan && a.chan[i].freq == b.chan[i].freq
  }

  lemma LookupsSame(a: ChanList, b: ChanList, c: int, f: u32)
    requires SameGrid(a, b)
    ensures IdxFromChan(a.chan, c) == IdxFromChan(b.chan, c)
    ensures IdxFromFreq(a.chan, f) == IdxFromFreq(b.chan, f)
    ensures HasFreq(a.chan, f) == HasFreq(b.chan, f)
  {
    var i, j := IdxFromChan(a.chan, c), IdxFromChan(b.chan, c);
    if i >= 0 {
      assert b.chan[i].chan == c;
    }
    if j >= 0 {
      assert a.chan[j].chan == c;
    }
    var k, l := IdxFromFreq(a.chan, f), IdxFromFreq(b.chan, f);
    if k >= 0 {
      assert b.chan[k].freq == f;
    }
    if l >= 0 {
      assert a.chan[l].freq == f;
    }
  }

  lemma {:induction false} SubchannelsSame(a: ChanList, b: ChanList, center: u32, i: int, max: int)
    requires SameGrid(a, b)
    ensures SubchannelsExist(a.chan, center, i, max) == SubchannelsExist(b.chan, center, i, max)
    decreases max - i
  {
    if i < max {
      LookupsSame(a, b, 0, U32(center + i));
      SubchannelsSame(a, b, center, i + 20, max);
    }
  }

  lemma VerifyChSame(a: ChanList, b: ChanList, ch: Spec)
    requires SameGrid(a, b)
    ensures VerifyCh(a.chan, ch) == VerifyCh(b.chan, ch)
  {
    LookupsSame(a, b, 0, U32(ch.center + S32(U32(ch.center - ch.freq))));
    SubchannelsSame(a, b, ch.center, -30, 30);
    SubchannelsSame(a, b, ch.center, -70, 70);
  }

  lemma {:induction false} WidenSame(a: ChanList, b: ChanList, spec: Spec, maxWidth: nat, best: nat)
    requires SameGrid(a, b)
    ensures Widen(a.chan, spec, maxWidth, best) == Widen(b.chan, spec, maxWidth, best)
    decreases maxWidth + 1 - spec.width
  {
    if spec.width <= maxWidth {
      var fixed := FixCenter(spec, false);
      VerifyChSame(a, b, fixed);
      WidenSame(a, b, fixed.(width := fixed.width + 1), maxWidth, fixed.width);
    }
  }

  lemma EntriesSame(a: ChanList, b: ChanList, c: ChanFreq, maxWidth: nat)
    requires SameGrid(a, b)
    ensures Ht40Entry(a.chan, c) == Ht40Entry(b.chan, c)
    ensures VhtEntry(a.chan, c, maxWidth) == VhtEntry(b.chan, c, maxWidth)
  {
    LookupsSame(a, b, c.chan - 4, 0);
    LookupsSame(a, b, c.chan + 4, 0);
    WidenSame(a, b, Spec(c.freq, CHAN_WIDTH_80, 0), maxWidth, c.maxWidth);
  }

  lemma WidthsSame(a: ChanList, b: ChanList, c: ChanFreq, maxWidth: nat)
    requires SameGrid(a, b)
    ensures WidthsEntry(a.chan, c, maxWidth) == WidthsEntry(b.chan, c, maxWidth)
  {
    EntriesSame(a, b, c, maxWidth);
    EntriesSame(a, b, Ht40Entry(a.chan, c), maxWidth);
  }

  /** A channel's own entry is computed from the grid and, where they are not set anew, its own old flags. */
  lemma CapabSame(a: ChanList, b: ChanList, idx: nat)
    requires SameGrid(a, b) && idx < |a.chan|
    requires a.chan[idx] == b.chan[idx] || b.chan[idx] == Capab(a, idx)
    ensures Capab(a, idx) == Capab(b, idx)
  {
    var w, c, d := BandOf(a, idx).maxWidth, a.chan[idx].(maxWidth := CHAN_WIDTH_20), b.chan[idx].(maxWidth := CHAN_WIDTH_20);
    EntriesSame(a, b, d, w);
    EntriesSame(a, b, Ht40Entry(a.chan, c), w);
    assert Ht40Entry(a.chan, d) == Ht40Entry(a.chan, c);
  }

  /** Whatever the order and however often: each visited channel gets the same entry, the others keep theirs. */
  lemma {:induction false} PassInAnyOrder(cs: ChanList, order: seq<nat>)
    requires forall k :: 0 <= k < |order| ==> order[k] < |cs.chan|
    ensures SameGrid(cs, Pass(cs, order))
    ensures forall i: nat :: i < |cs.chan| ==> Pass(cs, order).chan[i] == if i in order then Capab(cs, i) else cs.chan[i]
  {
    if order != [] {
      var before, idx := order[..|order| - 1], order[|order| - 1];
      PassInAnyOrder(cs, before);
      CapabSame(cs, Pass(cs, before), idx);
      assert order == before + [idx];
    }
  }

  // ----- the granted width is the largest one -----

  /** The specification of a channel at a VHT width. */
  function VhtSpec(freq: u32, width: nat): Spec {
    FixCenter(Spec(freq, width, 0), false)
  }

  /** The width v is granted when the band allows it and every VHT width up to v verifies. */
  ghost predicate Granted(s: seq<ChanFreq>, freq: u32, bandWidth: nat, v: nat) {
    && CHAN_WIDTH_80 <= v <= bandWidth
    && forall u {:trigger VhtSpec(freq, u)} :: CHAN_WIDTH_80 <= u <= v ==> VerifyCh(s, VhtSpec(freq, u))
  }

  lemma {:induction false} WidenIsLargest(s: seq<ChanFreq>, spec: Spec, bandWidth: nat, best: nat)
    requires spec.width >= CHAN_WIDTH_80
    requires spec.width > CHAN_WIDTH_80 ==> Granted(s, spec.freq, bandWidth, spec.width - 1) && best == spec.width - 1
    requires spec.width == CHAN_WIDTH_80 ==> best < CHAN_WIDTH_80
    ensures var w := Widen(s, spec, bandWidth, best);
      && (w == best || w >= CHAN_WIDTH_80)
      && (w >= CHAN_WIDTH_80 ==> Granted(s, spec.freq, bandWidth, w))
      && !Granted(s, spec.freq, bandWidth, if w < CHAN_WIDTH_80 then CHAN_WIDTH_80 else w + 1)
    decreases bandWidth + 1 - spec.width
  {
    if spec.width <= bandWidth {
      var fixed := FixCenter(spec, false);
      var vht := VhtSpec(spec.freq, spec.width);
      // above 160 MHz nothing about the centre is looked at
      assert VerifyCh(s, fixed) == VerifyCh(s, vht);
      if VerifyCh(s, fixed) {
        assert Granted(s, spec.freq, bandWidth, spec.width);
        WidenIsLargest(s, fixed.(width := fixed.width + 1), bandWidth, fixed.width);
      }
    }
  }

  /**
   * HT40 exactly when the band allows it and a neighbour exists; beyond that the largest width
   * within the band limit that verifies together with every VHT width below it.
   */
  lemma CapabIsMaximal(cs: ChanList, idx: nat)
    requires idx < |cs.chan|
    ensures var c, band := Capab(cs, idx), BandOf(cs, idx).maxWidth;
      && c.chan == cs.chan[idx].chan && c.freq == cs.chan[idx].freq
      && (c.freq == 2484 || band < CHAN_WIDTH_40 ==> c.maxWidth == CHAN_WIDTH_20)
      && (c.freq != 2484 && band >= CHAN_WIDTH_40 ==>
            && (c.ht40plus <==> HasChan(cs.chan, c.chan + 4))
            && (c.ht40minus <==> HasChan(cs.chan, c.chan - 4))
            && (c.maxWidth >= CHAN_WIDTH_40 <==> c.ht40plus || c.ht40minus)
            && (c.maxWidth < CHAN_WIDTH_40 ==> c.maxWidth == CHAN_WIDTH_20)
            && (forall v :: v >= CHAN_WIDTH_80 && (c.ht40plus || c.ht40minus) ==>
                  (v <= c.maxWidth <==> Granted(cs.chan, c.freq, band, v))))
  {
    var c, band := Capab(cs, idx), BandOf(cs, idx).maxWidth;
    if c.freq != 2484 && band >= CHAN_WIDTH_40 && (c.ht40plus || c.ht40minus) {
      WidenIsLargest(cs.chan, Spec(c.freq, CHAN_WIDTH_80, 0), band, CHAN_WIDTH_40);
      forall v | v >= CHAN_WIDTH_80
        ensures v <= c.maxWidth <==> Granted(cs.chan, c.freq, band, v)
      {
        if v <= c.maxWidth {
          GrantedBelow(cs.chan, c.freq, band, c.maxWidth, v);
        } else if Granted(cs.chan, c.freq, band, v) {
          GrantedBelow(cs.chan, c.freq, band, v, if c.maxWidth < CHAN_WIDTH_80 then CHAN_WIDTH_80 else c.maxWidth + 1);
        }
      }
    }
  }

  lemma GrantedBelow(s: seq<ChanFreq>, freq: u32, band: nat, v: nat, u: nat)
    requires Granted(s, freq, band, v) && CHAN_WIDTH_80 <= u <= v
    ensures Granted(s, freq, band, u)
  {
  }

  /** No channel is granted more than its band allows, wherever in the list of the two bands' channels it stands. */
  lemma WithinBand(a: seq<ChanFreq>, b: seq<ChanFreq>, band0: Band, band1: Band, idx: nat)
    requires band0.numChannels == |a| && idx < |a| + |b|
    ensures var limit := if idx < |a| then band0.maxWidth else band1.maxWidth;
      Capab(ChanList(a + b, band0, band1), idx).maxWidth <= if limit > CHAN_WIDTH_20 then limit else CHAN_WIDTH_20
  {
    var cs := ChanList(a + b, band0, band1);
    var c, band := Capab(cs, idx), BandOf(cs, idx).maxWidth;
    CapabIsMaximal(cs, idx);
    assert c.maxWidth >= CHAN_WIDTH_80 && band >= CHAN_WIDTH_40 ==> Granted(cs.chan, c.freq, band, c.maxWidth);
  }

  // ----- what every hop target verifies against -----

  /** Every channel carries the entry the pass gives it. */
  ghost predicate Checked(cs: ChanList) {
    forall i: nat :: i < |cs.chan| ==> cs.chan[i] == Capab(cs, i)
  }

  /** A pass over all channels leaves a checked list. */
  lemma FullPassChecks(cs: ChanList, order: seq<nat>)
    requires forall k :: 0 <= k < |order| ==> order[k] < |cs.chan|
    requires forall i: nat :: i < |cs.chan| ==> i in order
    ensures Checked(Pass(cs, order))
  {
    var r := Pass(cs, order);
    PassInAnyOrder(cs, order);
    forall i: nat | i < |r.chan|
      ensures r.chan[i] == Capab(r, i)
    {
      CapabSame(cs, r, i);
    }
  }

  /** The target a hop may choose for channel i: HT40+ only if allowed, HT40- only if allowed. */
  ghost predicate Offered(c: ChanFreq, plus: bool) {
    c.maxWidth == CHAN_WIDTH_40 ==> if plus then c.ht40plus else c.ht40minus
  }

  function SpecOf(c: ChanFreq, plus: bool, center: u32): Spec {
    FixCenter(Spec(c.freq, c.maxWidth, center), plus)
  }

  /** The channel at +-20 MHz that the HT40 directions of an entry promise is listed. */
  ghost predicate Paired(s: seq<ChanFreq>, i: nat)
    requires i < |s| && 20 <= s[i].freq < 0x1_0000_0000 - 70
  {
    s[i].maxWidth == CHAN_WIDTH_40 ==>
      && (s[i].ht40plus ==> HasFreq(s, s[i].freq + 20))
      && (s[i].ht40minus ==> HasFreq(s, s[i].freq - 20))
  }

  /** Whatever is offered for a checked channel verifies if and only if its promised neighbours are listed. */
  lemma OfferedVerifies(cs: ChanList, i: nat)
    requires Checked(cs) && FreqsOk(cs.chan) && i < |cs.chan|
    ensures (forall plus, center :: Offered(cs.chan[i], plus) ==> Verify(cs.chan, SpecOf(cs.chan[i], plus, center)))
      <==> Paired(cs.chan, i)
  {
    var c := cs.chan[i];
    if Paired(cs.chan, i) {
      forall plus, center | Offered(c, plus)
        ensures Verify(cs.chan, SpecOf(c, plus, center))
      {
        OfferVerifies(cs, i, plus, center);
      }
    } else {
      var plus := c.ht40plus && !HasFreq(cs.chan, c.freq + 20);
      OfferVerifies(cs, i, plus, 0);
      assert Offered(c, plus) && !Verify(cs.chan, SpecOf(c, plus, 0));
    }
  }

  lemma OfferVerifies(cs: ChanList, i: nat, plus: bool, center: u32)
    requires Checked(cs) && FreqsOk(cs.chan) && i < |cs.chan| && Offered(cs.chan[i], plus)
    ensures var c := cs.chan[i];
      Verify(cs.chan, SpecOf(c, plus, center)) <==>
        (c.maxWidth == CHAN_WIDTH_40 ==> HasFreq(cs.chan, if plus then c.freq + 20 else c.freq - 20))
  {
    var c, band := cs.chan[i], BandOf(cs, i).maxWidth;
    IdxOfFreq(cs.chan, i);
    CapabIsMaximal(cs, i);
    if c.maxWidth >= CHAN_WIDTH_80 {
      assert Granted(cs.chan, c.freq, band, c.maxWidth);
      assert VerifyCh(cs.chan, VhtSpec(c.freq, c.maxWidth));
      assert VerifyCh(cs.chan, SpecOf(c, plus, center));
    } else if c.maxWidth == CHAN_WIDTH_40 {
      var d := if plus then 10 else -10;
      assert SpecOf(c, plus, center).center == c.freq + d;
      assert S32(U32(c.freq + d - c.freq)) == d;
    }
  }

  /** Channel numbers four apart are frequencies 20 MHz apart. */
  ghost predicate NumbersMatch(s: seq<ChanFreq>) {
    forall i, j :: 0 <= i < |s| && 0 <= j < |s| && s[j].chan == s[i].chan + 4 ==> s[j].freq == s[i].freq + 20
  }

  lemma MatchedIsPaired(cs: ChanList, i: nat)
    requires Checked(cs) && FreqsOk(cs.chan) && i < |cs.chan| && NumbersMatch(cs.chan)
    ensures Paired(cs.chan, i)
  {
    CapabIsMaximal(cs, i);
  }

  /** C division, which truncates toward zero. */
  function Quot(a: int, b: nat): int
    requires b > 0
  {
    if a >= 0 then a / b else -(-a / b)
  }

  /** wlan_freq2chan */
  function Freq2Chan(freq: int): int {
    if freq == 2484 then 14
    else if freq < 2484 then Quot(freq - 2407, 5)
    else if 4910 <= freq <= 4980 then (freq - 4000) / 5
    else if freq <= 45000 then Quot(freq - 5000, 5)
    else if 58320 <= freq <= 64800 then (freq - 56160) / 2160
    else 0
  }

  /** wlan_chan2freq */
  function Chan2Freq(channel: int): int {
    if channel == 14 then 2484 else if channel < 14 then 2407 + channel * 5 else 5000 + channel * 5
  }

  lemma QuotExact(a: int)
    ensures 5 * Quot(a, 5) == a <==> a % 5 == 0
    ensures Quot(5 * a, 5) == a
  {
  }

  /** A number comes back from its frequency exactly up to number 8000. */
  lemma NumberBack(channel: int)
    ensures Freq2Chan(Chan2Freq(channel)) == channel <==> channel <= 8000
  {
    QuotExact(channel);
  }

  /**
   * A frequency comes back from its number exactly if it is 2484 MHz, below 2477 MHz and two above a multiple of five, or a
   * multiple of five from 5075 to 45000 MHz.
   */
  lemma FreqBack(freq: int)
    ensures Chan2Freq(Freq2Chan(freq)) == freq <==>
      || freq == 2484 || (freq < 2477 && freq % 5 == 2) || (5075 <= freq <= 45000 && freq % 5 == 0)
  {
    QuotExact(freq - 2407);
    QuotExact(freq - 5000);
  }

  /** Numbers taken from wlan_freq2chan match on the 2.4 GHz channels 1-13 together with the 5 GHz raster. */
  lemma RasterMatches(s: seq<ChanFreq>)
    requires forall i :: 0 <= i < |s| ==>
      && s[i].chan == Freq2Chan(s[i].freq)
      && ((2412 <= s[i].freq <= 2472 && s[i].freq % 5 == 2) || (5170 <= s[i].freq <= 5885 && s[i].freq % 5 == 0))
    ensures NumbersMatch(s)
  {
  }

  /** Not so with channel 14: next to it, channel 10 is promised HT40+ although 2477 MHz is not listed. */
  lemma Channel14Unpaired()
    ensures var cs := ChanList([ChanFreq(10, 2457, 3, true, false), ChanFreq(14, 2484, 2, false, false)],
                               Band(2, CHAN_WIDTH_40), Band(0, 0));
      Checked(cs) && FreqsOk(cs.chan) && !Paired(cs.chan, 0)
  {
    var cs := ChanList([ChanFreq(10, 2457, 3, true, false), ChanFreq(14, 2484, 2, false, false)],
                       Band(2, CHAN_WIDTH_40), Band(0, 0));
    assert cs.chan[1].chan == 14;
    assert IdxFromChan(cs.chan, 14) != -1;
    assert IdxFromChan(cs.chan, 6) == -1;
    assert Capab(cs, 0) == cs.chan[0];
    assert Capab(cs, 1) == cs.chan[1];
  }
}
