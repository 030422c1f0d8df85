/**
 * Where on the air the channels of core/channel.c lie: which 80 and 160 MHz block a centre frequency names (IEEE 802.11-2016
 * section 21.3.14 and annex E), and that a proposed channel lies in the block that is proposed with it.
 */
module ChannelGeometry {
  import opened Channels
  import opened ChannelCapab
  import opened ChannelHop
  import D = ChannelDriver

  /** The 20 MHz channels at 5 GHz: numbers 36 to 64, 100 to 144 and 149 to 165, four apart. */
  predicate Raster(freq: u32) {
    || (5180 <= freq <= 5320 && (freq - 5180) % 20 == 0)
    || (5500 <= freq <= 5720 && (freq - 5500) % 20 == 0)
    || (5745 <= freq <= 5825 && (freq - 5745) % 20 == 0)
  }

  /** The number of 20 MHz channels in a block. */
  function Slots(width: nat): nat {
    if width == CHAN_WIDTH_40 then 2
    else if width == CHAN_WIDTH_80 then 4
    else if width == CHAN_WIDTH_160 then 8
    else 1
  }

  /** The k-th 20 MHz channel of a block, from below. */
  function Slot(center: u32, width: nat, k: nat): int {
    center - 10 * Slots(width) + 10 + 20 * k
  }

  /** A 20 MHz channel is one of a block's. */
  ghost predicate InBlock(freq: u32, center: u32, width: nat) {
    exists k: nat :: k < Slots(width) && freq == Slot(center, width, k)
  }

  /** It lies between the edges of the block. */
  predicate WithinEdges(freq: u32, center: u32, width: nat) {
    center - 10 * Slots(width) <= freq - 10 && freq + 10 <= center + 10 * Slots(width)
  }

  predicate IsVht(width: nat) {
    width == CHAN_WIDTH_80 || width == CHAN_WIDTH_160
  }

  /** The numbers of the centre frequencies at 5 GHz; number n is at 5000 + 5n MHz. */
  function CenterNumbers(width: nat): set<nat> {
    if width == CHAN_WIDTH_80 then {42, 58, 106, 122, 138, 155}
    else if width == CHAN_WIDTH_160 then {50, 114}
    else {}
  }

  function FreqOfNumber(n: nat): nat {
    5000 + 5 * n
  }

  /** A centre frequency that is found is that of a block whose edges the channel lies between, whatever its frequency. */
  lemma CenterIsNear(freq: u32, width: nat)
    requires CenterFreqVht(freq, width) != 0
    ensures IsVht(width) && WithinEdges(freq, CenterFreqVht(freq, width), width)
  {
  }

  /** Everything between the edges of that block has the same centre frequency, and nothing else has. */
  lemma BlockShares(freq: u32, width: nat, other: u32)
    requires CenterFreqVht(freq, width) != 0
    ensures var c := CenterFreqVht(freq, width); CenterFreqVht(other, width) == c <==> WithinEdges(other, c, width)
  {
  }

  lemma SlotBetween(freq: u32, center: u32, width: nat)
    requires InBlock(freq, center, width)
    ensures WithinEdges(freq, center, width)
  {
    var k: nat :| k < Slots(width) && freq == Slot(center, width, k);
  }

  /**
   * On the raster a channel's centre frequency is that of the block it is one of, for every block of the standard but the
   * upper one of 160 MHz.
   */
  lemma CenterNamesBlock(freq: u32, width: nat, n: nat)
    requires Raster(freq) && n in CenterNumbers(width) && n != 114
    ensures CenterFreqVht(freq, width) == FreqOfNumber(n) <==> InBlock(freq, FreqOfNumber(n), width)
  {
    var c := FreqOfNumber(n);
    if CenterFreqVht(freq, width) == c {
      var k := (freq - Slot(c, width, 0)) / 20;
      assert k < Slots(width) && freq == Slot(c, width, k);
    } else if InBlock(freq, c, width) {
      SlotBetween(freq, c, width);
    }
  }

  /** No raster channel has another one, and these have none: 165 at 80 MHz, all above 64 at 160 MHz. */
  lemma CentersOfRaster(freq: u32, width: nat)
    requires Raster(freq) && IsVht(width)
    ensures var c := CenterFreqVht(freq, width);
      if c == 0 then if width == CHAN_WIDTH_80 then freq == 5825 else freq > 5320
      else exists n :: n in CenterNumbers(width) && c == FreqOfNumber(n) && InBlock(freq, c, width)
  {
    var c := CenterFreqVht(freq, width);
    if c != 0 {
      var n := (c - 5000) / 5;
      assert n in CenterNumbers(width) && n != 114 && c == FreqOfNumber(n);
      CenterNamesBlock(freq, width, n);
    }
  }

  /** The upper 160 MHz block, around 5570 MHz, is never found for a channel in it. */
  lemma UpperBlockIsLost(freq: u32)
    requires InBlock(freq, FreqOfNumber(114), CHAN_WIDTH_160)
    ensures Raster(freq) && CenterFreqVht(freq, CHAN_WIDTH_160) == 0
  {
    var k: nat :| k < Slots(CHAN_WIDTH_160) && freq == Slot(FreqOfNumber(114), CHAN_WIDTH_160, k);
    assert (freq - 5500) % 20 == 0;
  }

  /** Blocks nest: the 80 MHz block of a channel is one half of its 160 MHz block. */
  lemma BlocksNest(freq: u32)
    requires Raster(freq) && CenterFreqVht(freq, CHAN_WIDTH_160) != 0
    ensures var c := CenterFreqVht(freq, CHAN_WIDTH_160);
      CenterFreqVht(freq, CHAN_WIDTH_80) == if freq < c then c - 40 else c + 40
  {
  }

  /** All 20 MHz channels of a block are listed, the top one apart. */
  ghost predicate BlockListed(s: seq<ChanFreq>, center: u32, width: nat) {
    forall k: nat :: k + 1 < Slots(width) ==> exists j :: 0 <= j < |s| && s[j].freq == Slot(center, width, k)
  }

  lemma ListedBelowTop(s: seq<ChanFreq>, center: u32, width: nat)
    requires 70 <= center < 0x1_0000_0000 - 70 && IsVht(width) && VerifyCh(s, Spec(0, width, center))
    ensures BlockListed(s, center, width)
  {
    BlockBelowTop(s, center);
    forall k: nat | k + 1 < Slots(width)
      ensures HasFreq(s, Slot(center, width, k))
    {
      SevenSteps(k);
    }
  }

  lemma SevenSteps(k: nat)
    requires k < 7
    ensures k == 0 || k == 1 || k == 2 || k == 3 || k == 4 || k == 5 || k == 6
  {
  }

  /**
   * A specification whose channel lies in its block: between the edges, one of the block's 20 MHz channels at 40 MHz and, on
   * the raster, above; and at 80 and 160 MHz the rest of the block below the top is listed too.
   */
  ghost predicate LiesInBlock(s: seq<ChanFreq>, spec: Spec) {
    && (CHAN_WIDTH_40 <= spec.width <= CHAN_WIDTH_160 ==> WithinEdges(spec.freq, spec.center, spec.width))
    && (spec.width == CHAN_WIDTH_40 ==> InBlock(spec.freq, spec.center, CHAN_WIDTH_40))
    && (IsVht(spec.width) ==> BlockListed(s, spec.center, spec.width))
    && (IsVht(spec.width) && Raster(spec.freq) ==> InBlock(spec.freq, spec.center, spec.width))
  }

  lemma VhtLies(s: seq<ChanFreq>, spec: Spec)
    requires IsVht(spec.width) && spec.center == CenterFreqVht(spec.freq, spec.width) != 0
    requires VerifyCh(s, Spec(0, spec.width, spec.center))
    ensures LiesInBlock(s, spec)
  {
    CenterIsNear(spec.freq, spec.width);
    CenterInBand(spec.freq, spec.width);
    ListedBelowTop(s, spec.center, spec.width);
    if Raster(spec.freq) {
      CentersOfRaster(spec.freq, spec.width);
    }
  }

  lemma CenterInBand(freq: u32, width: nat)
    requires CenterFreqVht(freq, width) != 0
    ensures 5210 <= CenterFreqVht(freq, width) <= 5775
  {
  }

  lemma Ht40Lies(s: seq<ChanFreq>, freq: u32, plus: bool)
    requires 20 <= freq < 0x1_0000_0000 - 70
    ensures LiesInBlock(s, FixCenter(Spec(freq, CHAN_WIDTH_40, 0), plus))
  {
    HalfIsIn(freq, plus);
  }

  /** Whatever channel the walk over a checked list proposes is listed and lies in the block proposed with it. */
  lemma NextLiesInBlock(cs: ChanList, h: Hop, center: u32)
    requires Checked(cs) && FreqsOk(cs.chan) && 0 <= h.idx < |cs.chan| && Choose(cs, h).idx >= 0
    ensures HasFreq(cs.chan, NextSpec(cs, h, center).freq) && LiesInBlock(cs.chan, NextSpec(cs, h, center))
  {
    var c, spec := Choose(cs, h), NextSpec(cs, h, center);
    assert cs.chan[c.idx].freq == spec.freq;
    if IsVht(spec.width) {
      VhtIsVerified(cs, h, center);
      VhtLies(cs.chan, spec);
    } else if spec.width == CHAN_WIDTH_40 {
      Ht40Lies(cs.chan, spec.freq, c.plus);
    }
  }

  lemma HalfIsIn(freq: u32, plus: bool)
    requires 20 <= freq < 0x1_0000_0000 - 70
    ensures InBlock(freq, U32(freq + if plus then 10 else -10), CHAN_WIDTH_40)
  {
    var c, k: nat := U32(freq + if plus then 10 else -10), if plus then 0 else 1;
    assert k < Slots(CHAN_WIDTH_40) && freq == Slot(c, CHAN_WIDTH_40, k);
  }

  lemma VhtIsVerified(cs: ChanList, h: Hop, center: u32)
    requires Checked(cs) && FreqsOk(cs.chan) && 0 <= h.idx < |cs.chan| && Choose(cs, h).idx >= 0
    requires IsVht(NextSpec(cs, h, center).width)
    ensures var spec := NextSpec(cs, h, center);
      spec.center == CenterFreqVht(spec.freq, spec.width) != 0 && VerifyCh(cs.chan, Spec(0, spec.width, spec.center))
  {
    D.NextIsAcceptable(cs, h);
    var i := Choose(cs, h).idx;
    var c := cs.chan[i];
    CapabIsMaximal(cs, i);
    assert Granted(cs.chan, c.freq, BandOf(cs, i).maxWidth, c.maxWidth);
    assert VerifyCh(cs.chan, VhtSpec(c.freq, c.maxWidth));
  }
}
