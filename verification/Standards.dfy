/** The guesses of core/wlan_util.c at the standard of a sender, against the rates and frame types of IEEE 802.11-2016. */
module Standards {
  import opened Wlan
  import B = FrameBuilder
  import C = Channels

  // ----- legacy rates, in units of 100 kb/s -----

  /** The rates of clauses 15 and 16: DSSS and HR/DSSS, the only ones of 802.11b. */
  const DSSS_RATES: set<int> := {10, 20, 55, 110}

  /** The rates of clauses 17 and 18: OFDM at 5 GHz, and ERP-OFDM at 2.4 GHz. */
  const OFDM_RATES: seq<int> := [60, 90, 120, 180, 240, 360, 480, 540]

  /** wlan_rate_to_index */
  function RateIndex(rate: int): nat {
    if rate == 540 then 12
    else if rate == 480 then 11
    else if rate == 360 then 10
    else if rate == 240 then 9
    else if rate == 180 then 8
    else if rate == 120 then 7
    else if rate == 110 then 6
    else if rate == 90 then 5
    else if rate == 60 then 4
    else if rate == 55 then 3
    else if rate == 20 then 2
    else if rate == 10 then 1
    else 0
  }

  /** wlan_rate_to_rate */
  function IndexRate(idx: int): nat {
    match idx
    case 12 => 540
    case 11 => 480
    case 10 => 360
    case 9 => 240
    case 8 => 180
    case 7 => 120
    case 6 => 110
    case 5 => 90
    case 4 => 60
    case 3 => 55
    case 2 => 20
    case 1 => 10
    case _ => 0
  }

  /** Rates and indices are in one-to-one order: exactly the legacy rates have one, and faster ones have greater ones. */
  lemma RatesInOrder(r1: int, r2: int)
    ensures RateIndex(r1) > 0 <==> r1 in DSSS_RATES || r1 in OFDM_RATES
    ensures RateIndex(r1) > 0 ==> IndexRate(RateIndex(r1)) == r1
    ensures RateIndex(r1) > 0 && RateIndex(r2) > 0 ==> (r1 < r2 <==> RateIndex(r1) < RateIndex(r2))
  {
    assert r1 in OFDM_RATES <==> r1 in {60, 90, 120, 180, 240, 360, 480, 540} by {
      var s := OFDM_RATES;
      assert s[0] == 60 && s[1] == 90 && s[2] == 120 && s[3] == 180 && s[4] == 240 && s[5] == 360 && s[6] == 480 && s[7] == 540;
    }
  }

  /** The standard whose rate a legacy rate is. */
  function StandardOfRate(rate: int, chan: int): nat {
    if rate in DSSS_RATES then STD_B else if chan > 14 then STD_A else STD_G
  }

  /** The guess is right except for 6 and 9 Mb/s, which lie between the rates of 802.11b and are taken for them. */
  lemma RateGuess(rate: int, chan: int)
    requires rate in DSSS_RATES || rate in OFDM_RATES
    ensures StdFromRate(RateIndex(rate), chan) == StandardOfRate(rate, chan) <==> rate != 60 && rate != 90
  {
    RatesInOrder(rate, rate);
  }

  // ----- channel widths -----

  /** A wider channel never means an older standard; exactly the widths that need VHT mean 802.11ac. */
  lemma WidthGuess(narrow: nat, wide: nat, chan: int)
    requires narrow <= wide <= C.CHAN_WIDTH_8080
    ensures StdFromChan(narrow, chan) <= StdFromChan(wide, chan)
    ensures StdFromChan(wide, chan) == STD_AC <==> wide >= C.CHAN_WIDTH_80
    ensures StdFromChan(wide, chan) < STD_N <==> wide <= C.CHAN_WIDTH_20_NOHT
  {
  }

  // ----- frame types -----

  /** The frames that came with an amendment, by type and subtype of table 9-1 of IEEE 802.11-2016. */
  function StandardOfType(kind: nat, subtype: nat): nat {
    if kind == TYPE_CTRL && (subtype == 4 || subtype == 5) then STD_AC  // Beamforming Report Poll, VHT NDP Announcement
    else if kind == TYPE_MGMT && (subtype == 6 || subtype == 14) then STD_N  // Timing Advertisement, Action No Ack
    else if kind == TYPE_MGMT && subtype == 13 then STD_G  // Action
    else if kind == TYPE_CTRL && (subtype == 8 || subtype == 9) then STD_G  // Block Ack Request, Block Ack
    else if kind == TYPE_DATA && 8 <= subtype <= 12 then STD_G  // QoS Data, with CF-Ack, CF-Poll or both, QoS Null
    else STD_UNKNOWN
  }

  /** The type is read as its numbers say. */
  lemma TypeGuess(kind: nat, subtype: nat)
    requires kind < 4 && subtype < 16
    ensures StdFromType(4 * kind + 16 * subtype) == StandardOfType(kind, subtype)
  {
  }

  // ----- the supported rates of a built frame -----

  /** A rate on the air: units of 500 kb/s, and the top bit for a basic one. */
  function RateByte(rate: nat, basic: bool): nat {
    rate / 5 + if basic then 128 else 0
  }

  /** They are the OFDM rates in order, of which 6, 12 and 24 Mb/s are basic. */
  lemma SupportedRates(i: nat)
    requires i < |OFDM_RATES|
    ensures |B.SUPP_RATES| == |OFDM_RATES| && B.SUPP_RATES[i] == RateByte(OFDM_RATES[i], OFDM_RATES[i] in {60, 120, 240})
  {
    assert i == 0 || i == 1 || i == 2 || i == 3 || i == 4 || i == 5 || i == 6 || i == 7;
  }
}
