/**
 * The channel list of core/channel.c: index lookups, centre frequencies and the
 * verification of a channel specification.
 */
module Channels {
  const MAX_CHANNELS := 64

  // enum uwifi_chan_width
  const CHAN_WIDTH_20_NOHT := 1
  const CHAN_WIDTH_20 := 2
  const CHAN_WIDTH_40 := 3
  const CHAN_WIDTH_80 := 4
  const CHAN_WIDTH_160 := 5
  const CHAN_WIDTH_8080 := 6

  type u32 = x: int | 0 <= x < 0x1_0000_0000

  /** Truncation to unsigned int. */
  function U32(x: int): (r: u32)
    ensures 0 <= x < 0x1_0000_0000 ==> r == x
  {
    x % 0x1_0000_0000
  }

  /** Reinterpretation of an unsigned int as a signed one. */
  function S32(x: u32): int {
    if x < 0x8000_0000 then x else x - 0x1_0000_0000
  }

  datatype ChanFreq = ChanFreq(chan: int, freq: u32, maxWidth: nat, ht40plus: bool, ht40minus: bool)
  datatype Band = Band(numChannels: int, maxWidth: nat)
  datatype Spec = Spec(freq: u32, width: nat, center: u32)

  /** struct uwifi_channels: the listed channels in order, and the two band slots. */
  datatype ChanList = ChanList(chan: seq<ChanFreq>, band0: Band, band1: Band)

  // ----- lookups -----

  /** uwifi_channel_idx_from_chan: the first channel with this number, or -1. */
  function IdxFromChan(s: seq<ChanFreq>, c: int): (r: int)
    ensures -1 <= r < |s|
    ensures r >= 0 ==> s[r].chan == c && forall j :: 0 <= j < r ==> s[j].chan != c
    ensures r < 0 ==> forall j :: 0 <= j < |s| ==> s[j].chan != c
  {
    if s == [] then -1
    else
      var k := IdxFromChan(s[..|s| - 1], c);
      if k >= 0 then k else if s[|s| - 1].chan == c then |s| - 1 else -1
  }

  /** uwifi_channel_idx_from_freq: the first channel with this frequency, or -1. */
  function IdxFromFreq(s: seq<ChanFreq>, f: u32): (r: int)
    ensures -1 <= r < |s|
    ensures r >= 0 ==> s[r].freq == f && forall j :: 0 <= j < r ==> s[j].freq != f
    ensures r < 0 ==> forall j :: 0 <= j < |s| ==> s[j].freq != f
  {
    if s == [] then -1
    else
      var k := IdxFromFreq(s[..|s| - 1], f);
      if k >= 0 then k else if s[|s| - 1].freq == f then |s| - 1 else -1
  }

  predicate HasFreq(s: seq<ChanFreq>, f: u32) {
    exists j :: 0 <= j < |s| && s[j].freq == f
  }

  predicate HasChan(s: seq<ChanFreq>, c: int) {
    exists j :: 0 <= j < |s| && s[j].chan == c
  }

  /** channel_get_band_from_idx */
  function BandOf(cs: ChanList, idx: int): Band {
    if idx - cs.band0.numChannels < 0 then cs.band0 else cs.band1
  }

  // ----- centre frequencies -----

  /** get_center_freq_vht.  The second 160 MHz case repeats the first test in the source, so it never applies. */
  function CenterFreqVht(freq: u32, width: nat): u32 {
    if width == CHAN_WIDTH_80 then
      if 5180 <= freq <= 5240 then 5210
      else if 5260 <= freq <= 5320 then 5290
      else if 5500 <= freq <= 5560 then 5530
      else if 5580 <= freq <= 5640 then 5610
      else if 5660 <= freq <= 5720 then 5690
      else if 5745 <= freq <= 5805 then 5775
      else 0
    else if width == CHAN_WIDTH_160 then
      if 5180 <= freq <= 5320 then 5250 else 0
    else 0
  }

  /** uwifi_channel_fix_center_freq */
  function FixCenter(spec: Spec, plus: bool): Spec {
    if spec.width == CHAN_WIDTH_40 then
      spec.(center := U32(spec.freq + if plus then 10 else -10))
    else if spec.width == CHAN_WIDTH_80 || spec.width == CHAN_WIDTH_160 then
      spec.(center := CenterFreqVht(spec.freq, spec.width))
    else spec
  }

  /** uwifi_channel_is_ht40plus */
  predicate IsHt40Plus(spec: Spec) {
    spec.width == CHAN_WIDTH_40 && spec.center > spec.freq
  }

  // ----- verification -----

  /** The sub-channels at center+i, center+i+20, ... below center+max exist. */
  predicate SubchannelsExist(s: seq<ChanFreq>, center: u32, i: int, max: int)
    decreases max - i
  {
    i < max ==> HasFreq(s, U32(center + i)) && SubchannelsExist(s, center, i + 20, max)
  }

  /** uwifi_channel_verify_ch: primary channel and width are not looked at. */
  predicate VerifyCh(s: seq<ChanFreq>, ch: Spec) {
    if ch.width == CHAN_WIDTH_40 then
      var d := S32(U32(ch.center - ch.freq));
      (d == 10 || d == -10) && HasFreq(s, U32(ch.center + d))
    else if ch.width == CHAN_WIDTH_80 then SubchannelsExist(s, ch.center, -30, 30)
    else if ch.width == CHAN_WIDTH_160 then SubchannelsExist(s, ch.center, -70, 70)
    else true
  }

  /** uwifi_channel_verify */
  predicate Verify(s: seq<ChanFreq>, ch: Spec) {
    var idx := IdxFromFreq(s, ch.freq);
    idx != -1 && ch.width <= s[idx].maxWidth && VerifyCh(s, ch)
  }

  /** Frequencies are distinct, and the MHz offsets added to them stay within an unsigned int. */
  ghost predicate FreqsOk(s: seq<ChanFreq>) {
    && (forall i, j :: 0 <= i < j < |s| ==> s[i].freq != s[j].freq)
    && (forall i :: 0 <= i < |s| ==> 20 <= s[i].freq < 0x1_0000_0000 - 70)
  }

  lemma IdxOfFreq(s: seq<ChanFreq>, i: nat)
    requires FreqsOk(s) && i < |s|
    ensures IdxFromFreq(s, s[i].freq) == i
  {
    var k := IdxFromFreq(s, s[i].freq);
    assert k >= 0;
  }

  lemma {:induction false} SubchannelsAll(s: seq<ChanFreq>, center: u32, i: int, max: int)
    ensures SubchannelsExist(s, center, i, max) <==>
      forall k: nat {:trigger Step20(center, i, k)} :: i + 20 * k < max ==> HasFreq(s, Step20(center, i, k))
    decreases max - i
  {
    if i < max {
      SubchannelsAll(s, center, i + 20, max);
      assert Step20(center, i, 0) == U32(center + i);
      if SubchannelsExist(s, center, i, max) {
        forall k: nat | i + 20 * k < max
          ensures HasFreq(s, Step20(center, i, k))
        {
          if k > 0 {
            assert Step20(center, i + 20, k - 1) == Step20(center, i, k);
          }
        }
      } else if HasFreq(s, Step20(center, i, 0)) {
        var k: nat :| i + 20 + 20 * k < max && !HasFreq(s, Step20(center, i + 20, k));
        assert Step20(center, i + 20, k) == Step20(center, i, k + 1);
      }
    }
  }

  /** The k-th sub-channel, 20 MHz apart, from center+i on. */
  function Step20(center: u32, i: int, k: nat): u32 {
    U32(center + i + 20 * k)
  }

  /** What the walk accepts: every 20 MHz channel of the block except the top one. */
  lemma BlockBelowTop(s: seq<ChanFreq>, center: u32)
    requires 70 <= center < 0x1_0000_0000 - 70
    ensures SubchannelsExist(s, center, -30, 30) <==>
      HasFreq(s, center - 30) && HasFreq(s, center - 10) && HasFreq(s, center + 10)
    ensures SubchannelsExist(s, center, -70, 70) <==>
      (&& HasFreq(s, center - 70) && HasFreq(s, center - 50) && HasFreq(s, center - 30) && HasFreq(s, center - 10)
       && HasFreq(s, center + 10) && HasFreq(s, center + 30) && HasFreq(s, center + 50))
  {
    SubchannelsAll(s, center, -30, 30);
    SubchannelsAll(s, center, -70, 70);
    assert Step20(center, -30, 0) == center - 30 && Step20(center, -30, 1) == center - 10 && Step20(center, -30, 2) == center + 10;
    assert Step20(center, -70, 0) == center - 70 && Step20(center, -70, 1) == center - 50 && Step20(center, -70, 2) == center - 30;
    assert Step20(center, -70, 3) == center - 10 && Step20(center, -70, 4) == center + 10;
    assert Step20(center, -70, 5) == center + 30 && Step20(center, -70, 6) == center + 50;
  }
}
