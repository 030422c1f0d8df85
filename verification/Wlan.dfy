/** Bytes, MAC addresses, frame types and the parsed packet (include/uwifi/wlan80211.h, wlan_parser.h, wlan_util.h). */
module Wlan {
  type u8 = x: int | 0 <= x < 0x100
  type u16 = x: int | 0 <= x < 0x1_0000
  type u32 = x: int | 0 <= x < 0x1_0000_0000
  type u64 = x: int | 0 <= x < 0x1_0000_0000_0000_0000

  /** A MAC address. */
  type Mac = m: seq<u8> | |m| == 6 witness [0, 0, 0, 0, 0, 0]

  const NO_MAC: Mac := [0, 0, 0, 0, 0, 0]
  const BROADCAST: Mac := [0xff, 0xff, 0xff, 0xff, 0xff, 0xff]

  const WLAN_MAX_SSID_LEN := 34

  /** char[WLAN_MAX_SSID_LEN] */
  type EssidBuf = b: seq<u8> | |b| == 34 witness NO_ESSID

  const NO_ESSID: seq<u8> := [0, 0, 0, 0, 0, 0, 0, 0, 0, 0, 0, 0, 0, 0, 0, 0, 0,
                              0, 0, 0, 0, 0, 0, 0, 0, 0, 0, 0, 0, 0, 0, 0, 0, 0]

  /** The C string in a buffer: the bytes before the first NUL, or all of them. */
  function CStr(b: seq<u8>): (s: seq<u8>)
    ensures |s| <= |b| && s == b[..|s|] && 0 !in s
    ensures |s| < |b| ==> b[|s|] == 0
  {
    if b == [] || b[0] == 0 then [] else [b[0]] + CStr(b[1..])
  }

  lemma {:induction false} CStrIs(b: seq<u8>, s: seq<u8>)
    requires |s| < |b| && b[..|s|] == s && b[|s|] == 0 && 0 !in s
    ensures CStr(b) == s
  {
    if s != [] {
      assert b[0] == s[0];
      assert b[1..][..|s| - 1] == s[1..];
      CStrIs(b[1..], s[1..]);
    }
  }

  /** strncpy of a whole buffer: the string, and NULs for the rest. */
  function Strncpy(src: EssidBuf): EssidBuf {
    CStr(src) + NO_ESSID[|CStr(src)|..]
  }

  /** An unsigned int used as a bit mask: the numbers of the bits that are set. */
  type Bits = set<nat>

  // PHY_FLAG_*, WLAN_MODE_*
  const PHY_FLAG_BADFCS: Bits := {1}
  const WLAN_MODE_AP: Bits := {0}
  const WLAN_MODE_IBSS: Bits := {1}
  const WLAN_MODE_STA: Bits := {2}
  const WLAN_MODE_PROBE: Bits := {3}
  const WLAN_MODE_4ADDR: Bits := {4}
  const WLAN_MODE_UNKNOWN: Bits := {5}

  // ----- frame types: WLAN_FRAME_FC(type, subtype) -----

  const TYPE_MGMT := 0
  const TYPE_CTRL := 1
  const TYPE_DATA := 2

  const PROBE_REQ := 0x40
  const PROBE_RESP := 0x50
  const TIMING := 0x60
  const BEACON := 0x80
  const AUTH := 0xb0
  const ACTION := 0xd0
  const ACTION_NOACK := 0xe0
  const BEAM_REP := 0x44
  const VHT_NDP := 0x54
  const BLKACK_REQ := 0x84
  const BLKACK := 0x94
  const PSPOLL := 0xa4
  const RTS := 0xb4
  const CTS := 0xc4
  const ACK := 0xd4
  const CF_END := 0xe4
  const CF_END_ACK := 0xf4
  const DATA := 0x08
  const DATA_CF_ACK := 0x18
  const DATA_CF_POLL := 0x28
  const DATA_CF_ACKPOLL := 0x38
  const NULL_DATA := 0x48
  const QDATA := 0x88
  const QDATA_CF_ACK := 0x98
  const QDATA_CF_POLL := 0xa8
  const QDATA_CF_ACKPOLL := 0xb8
  const QOS_NULL := 0xc8

  /** WLAN_FRAME_TYPE */
  function TypeOf(fc: u16): nat {
    fc / 4 % 4
  }

  /** Type and subtype: the frame control field without its flags. */
  function TypeAndSubtype(fc: u16): u16 {
    fc % 256 - fc % 4
  }

  /** WLAN_FRAME_IS_QOS: equality with subtype 8 */
  predicate IsQos(fc: u16) {
    fc / 16 % 16 == 8
  }

  predicate ToDs(fc: u16) { fc / 0x100 % 2 == 1 }
  predicate FromDs(fc: u16) { fc / 0x200 % 2 == 1 }
  predicate Retry(fc: u16) { fc / 0x800 % 2 == 1 }
  predicate Protected(fc: u16) { fc / 0x4000 % 2 == 1 }
  predicate Order(fc: u16) { fc / 0x8000 % 2 == 1 }

  /** The part of struct uwifi_packet that information elements fill in. */
  datatype IeInfo = IeInfo(
    essid: EssidBuf,
    channel: u8,
    chanWidth: nat,
    txStreams: u8,
    rxStreams: u8,
    wpa: bool,
    rsn: bool,
    ht40plus: bool
  )

  /** What other parts fill in: general, PHY and payload fields. */
  datatype Meta = Meta(
    pktTypes: Bits,
    signal: int,
    rate: u32,
    rateIdx: u8,
    flags: Bits,
    batGw: bool,
    ipSrc: u32,
    olsrNeigh: u32,
    olsrTc: u32
  )

  /** What the frame header parser fills in. */
  datatype Header = Header(
    len: nat,
    fromds: bool,
    tods: bool,
    wlanType: u16,
    mode: Bits,
    qosClass: u8,
    nav: u32,
    seqno: u32,
    wep: bool,
    retry: bool
  )

  datatype Addresses = Addresses(ta: Mac, ra: Mac, bssid: Mac)

  /** struct uwifi_packet, as far as frame parsing and the node table use it. */
  datatype Packet = Packet(meta: Meta, hdr: Header, addr: Addresses, tsf: u64, bintval: u32, ie: IeInfo, retries: u32)

  /** A packet nothing was parsed into yet. */
  const ZERO_PACKET := Packet(Meta({}, 0, 0, 0, {}, false, 0, 0, 0), Header(0, false, false, 0, {}, 0, 0, 0, false, false),
                              Addresses(NO_MAC, NO_MAC, NO_MAC), 0, 0,
                              IeInfo(NO_ESSID, 0, 0, 0, 0, false, false, false), 0)

  /** A struct uwifi_packet passed by pointer. */
  class PacketRef {
    var v: Packet

    constructor ()
      ensures v == ZERO_PACKET
    {
      v := ZERO_PACKET;
    }
  }

  // ----- little-endian integers -----

  /** The n low-order bytes of x, lowest first. */
  function Le(x: nat, n: nat): (b: seq<u8>)
    ensures |b| == n
    decreases n
  {
    if n == 0 then [] else [x % 256] + Le(x / 256, n - 1)
  }

  function FromLe(b: seq<u8>): nat {
    if b == [] then 0 else b[0] + 256 * FromLe(b[1..])
  }

  /** 256^n */
  function Pow256(n: nat): (p: nat)
    ensures p >= 1
  {
    if n == 0 then 1 else 256 * Pow256(n - 1)
  }

  lemma {:induction false} LeRoundTrip(x: nat, n: nat)
    requires x < Pow256(n)
    ensures FromLe(Le(x, n)) == x
    decreases n
  {
    if n > 0 {
      LeRoundTrip(x / 256, n - 1);
    }
  }

  lemma {:induction false} FromLeBound(b: seq<u8>)
    ensures FromLe(b) < Pow256(|b|)
  {
    if b != [] {
      FromLeBound(b[1..]);
    }
  }

  /** A 16-bit little-endian field. */
  function Le16(b: seq<u8>, i: nat): u16
    requires i + 2 <= |b|
  {
    Pair(b[i], b[i + 1])
  }

  function Pair(lo: int, hi: int): (r: int)
    requires 0 <= lo < 256 && 0 <= hi < 256
    ensures 0 <= r < 0x1_0000
  {
    lo + 256 * hi
  }

  /** A 64-bit little-endian field. */
  function Le64(b: seq<u8>, i: nat): u64
    requires i + 8 <= |b|
  {
    FromLeBound(b[i..i + 8]);
    Pow256Of8();
    FromLe(b[i..i + 8])
  }

  lemma Pow256Of8()
    ensures Pow256(8) == 0x1_0000_0000_0000_0000
  {
    assert Pow256(4) == 0x1_0000_0000;
    assert Pow256(6) == 256 * Pow256(5) == 256 * 256 * Pow256(4);
  }

  // ----- streams and standards -----

  /** The leading nonzero bytes among mcs[i..4]. */
  function HtRxStreams(mcs: seq<u8>, i: nat): (r: nat)
    requires |mcs| >= 4 && i <= 4
    ensures i <= r <= 4 && (forall k :: i <= k < r ==> mcs[k] != 0) && (r < 4 ==> mcs[r] == 0)
    decreases 4 - i
  {
    if i == 4 || mcs[i] == 0 then i else HtRxStreams(mcs, i + 1)
  }

  /** wlan_ht_streams_from_mcs: the new receive and transmit stream counts. */
  function HtStreams(mcs: seq<u8>, tx: u8): (u8, u8)
    requires |mcs| >= 13
  {
    var rx := HtRxStreams(mcs, 0);
    var defined, notEqual := mcs[12] % 2 == 1, mcs[12] / 2 % 2 == 1;
    (rx, if defined && !notEqual then rx else if defined then mcs[12] / 4 % 4 + 1 else tx)
  }

  /** The two-bit field i of a 16-bit stream map. */
  function TwoBits(tmp: nat, i: nat): nat {
    if i == 0 then tmp % 4 else TwoBits(tmp / 4, i - 1)
  }

  /** The first two-bit field from i on that reads 3, or 8. */
  function VhtStreams(tmp: nat, i: nat): (r: nat)
    requires i <= 8
    ensures i <= r <= 8 && (forall k :: i <= k < r ==> TwoBits(tmp, k) != 3) && (r < 8 ==> TwoBits(tmp, r) == 3)
    decreases 8 - i
  {
    if i == 8 || TwoBits(tmp, i) == 3 then i else VhtStreams(tmp, i + 1)
  }

  method HtStreamsFromMcs(mcs: seq<u8>, tx: u8) returns (rx: u8, newTx: u8)
    requires |mcs| >= 13
    ensures (rx, newTx) == HtStreams(mcs, tx)
  {
    var i := 0;
    while i < 4
      invariant 0 <= i <= 4 && HtRxStreams(mcs, 0) == HtRxStreams(mcs, i)
    {
      if mcs[i] == 0 {
        break;
      }
      i := i + 1;
    }
    rx := i;
    var defined, notEqual := mcs[12] % 2 == 1, mcs[12] / 2 % 2 == 1;
    newTx := tx;
    if defined && !notEqual {
      newTx := rx;
    } else if defined && notEqual {
      newTx := mcs[12] / 4 % 4 + 1;
    }
  }

  method VhtStreamsFromMap(tmp: nat) returns (n: u8)
    ensures n == VhtStreams(tmp, 0)
  {
    var i := 0;
    while i < 8
      invariant 0 <= i <= 8 && VhtStreams(tmp, 0) == VhtStreams(tmp, i)
    {
      if TwoBits(tmp, i) == 3 {
        break;
      }
      i := i + 1;
    }
    n := i;
  }

  // enum uwifi_80211_std
  const STD_UNKNOWN := 0
  const STD_B := 1
  const STD_G := 2
  const STD_A := 3
  const STD_N := 4
  const STD_AC := 5

  function Max(a: nat, b: nat): nat {
    if a > b then a else b
  }

  /** wlan_80211std_from_chan */
  function StdFromChan(width: nat, chan: int): nat {
    if width <= 1 then if chan > 14 then STD_A else STD_B
    else if width <= 3 then STD_N
    else if width <= 6 then STD_AC
    else STD_UNKNOWN
  }

  /** wlan_80211std_from_rate */
  function StdFromRate(rateIdx: int, chan: int): nat {
    if rateIdx <= 6 then STD_B else if rateIdx <= 12 then if chan > 14 then STD_A else STD_G else STD_N
  }

  /** wlan_80211std_from_type */
  function StdFromType(fc: u16): nat {
    if fc == BEAM_REP || fc == VHT_NDP then STD_AC
    else if fc == TIMING || fc == ACTION_NOACK then STD_N
    else if fc in {ACTION, BLKACK_REQ, BLKACK, QDATA, QDATA_CF_ACK, QDATA_CF_POLL, QDATA_CF_ACKPOLL, QOS_NULL} then STD_G
    else STD_UNKNOWN
  }
}
