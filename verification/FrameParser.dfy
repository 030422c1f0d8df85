/** The frame header parser of core/wlan_parser.c (IEEE 802.11-2016 sections 9.2.4.1, 9.3.2.1 and 9.3.3). */
module FrameParser {
  import opened Wlan
  import opened Elements
  import opened Options

  /** The addresses found so far; None is a NULL pointer. */
  datatype Addrs = Addrs(ra: Option<Mac>, ta: Option<Mac>, bssid: Option<Mac>)

  datatype Parsed = Parsed(ret: int, p: Packet)

  function MacAt(b: seq<u8>, i: nat): Mac
    requires i + 6 <= |b|
  {
    b[i..i + 6]
  }

  function Addr1(b: seq<u8>): Mac requires |b| >= 10 { MacAt(b, 4) }
  function Addr2(b: seq<u8>): Mac requires |b| >= 16 { MacAt(b, 10) }
  function Addr3(b: seq<u8>): Mac requires |b| >= 22 { MacAt(b, 16) }

  // ----- header lengths -----

  function DataHdrLen(fc: u16): nat {
    24 + (if IsQos(fc) then if Order(fc) then 6 else 2 else 0) + if FromDs(fc) && ToDs(fc) then 6 else 0
  }

  function CtrlHdrLen(fc: u16): nat {
    if TypeAndSubtype(fc) == CTS || TypeAndSubtype(fc) == ACK then 10 else 16
  }

  function MgmtHdrLen(fc: u16): nat {
    if Order(fc) then 28 else 24
  }

  predicate IsBeaconLike(fc: u16) {
    TypeAndSubtype(fc) == BEACON || TypeAndSubtype(fc) == PROBE_RESP
  }

  /** The element region of n bytes at offset at; nothing if n is negative. */
  function Region(b: seq<u8>, at: nat, n: int): seq<u8>
    requires n > 0 ==> at + n <= |b|
  {
    if n <= 0 then [] else b[at..at + n]
  }

  /**
   * What the parser needs of the memory behind buf: the frame itself, the two fields it reads without comparing lengths
   * first (frame control, and the QoS field of a frame with four addresses), the fixed fields of a beacon, and element chains
   * that stay inside the frame.
   */
  ghost predicate Readable(b: seq<u8>, len: nat) {
    && len <= |b| && |b| >= 2
    && (len >= 10 ==>
          var fc := Le16(b, 0);
          && (TypeOf(fc) == TYPE_DATA && IsQos(fc) && FromDs(fc) && ToDs(fc) ==> |b| >= 32)
          && (TypeOf(fc) == TYPE_MGMT && len >= MgmtHdrLen(fc) ==>
                var h := MgmtHdrLen(fc);
                && (IsBeaconLike(fc) ==> |b| >= h + 12 && Fits(Region(b, h + 12, len - h - 16)))
                && (TypeAndSubtype(fc) == PROBE_REQ ==> Fits(Region(b, h, len - h - 4)))))
  }

  // ----- what the parser computes -----

  /** memcpy of the addresses that were found */
  function SetAddrs(p: Addresses, a: Addrs): Addresses {
    Addresses(if a.ta.Some? then a.ta.value else p.ta,
              if a.ra.Some? then a.ra.value else p.ra,
              if a.bssid.Some? then a.bssid.value else p.bssid)
  }

  function DataMode(fc: u16): Bits {
    if FromDs(fc) then if ToDs(fc) then WLAN_MODE_4ADDR else WLAN_MODE_AP
    else if ToDs(fc) then WLAN_MODE_STA
    else WLAN_MODE_IBSS
  }

  /** An A-MSDU in a QoS frame with four addresses keeps the BSSID in the third one. */
  predicate AmsduPresent(b: seq<u8>)
    requires |b| >= 32
  {
    Le16(b, 30) / 0x80 % 2 == 1
  }

  /** Which address is the BSSID, as its offset. */
  function BssidAt(b: seq<u8>, fc: u16): (r: Option<nat>)
    requires IsQos(fc) && FromDs(fc) && ToDs(fc) ==> |b| >= 32
    ensures r.Some? ==> r.value <= 16
  {
    if FromDs(fc) && ToDs(fc) then if IsQos(fc) && AmsduPresent(b) then Some(16) else None
    else if FromDs(fc) then Some(10)
    else if ToDs(fc) then Some(4)
    else Some(16)
  }

  function DataAddrs(b: seq<u8>, bssidAt: Option<nat>): Addrs
    requires |b| >= 22 && (bssidAt.Some? ==> bssidAt.value <= 16)
  {
    Addrs(Some(Addr1(b)), Some(Addr2(b)), if bssidAt.Some? then Some(MacAt(b, bssidAt.value)) else None)
  }

  lemma QdataIsQos(fc: u16)
    ensures TypeAndSubtype(fc) == QDATA ==> IsQos(fc)
  {
  }

  /** The header fields of a data frame that is long enough. */
  function DataHeader(b: seq<u8>, len: nat, fc: u16, hdr: Header): Header
    requires 24 <= len <= |b| && (TypeAndSubtype(fc) == QDATA ==> len >= 26)
  {
    hdr.(nav := Le16(b, 2), seqno := Le16(b, 22) / 16, wep := Protected(fc) || hdr.wep, retry := Retry(fc) || hdr.retry,
         len := len, qosClass := if TypeAndSubtype(fc) == QDATA then Le16(b, 24) % 8 else hdr.qosClass)
  }

  function ParseData(b: seq<u8>, len: nat, fc: u16, p: Packet): Parsed
    requires len <= |b| && (IsQos(fc) && FromDs(fc) && ToDs(fc) ==> |b| >= 32)
  {
    var h1 := p.hdr.(fromds := FromDs(fc), tods := ToDs(fc), mode := DataMode(fc));
    if len < DataHdrLen(fc) then Parsed(-1, p.(hdr := h1))
    else
      QdataIsQos(fc);
      var h2 := DataHeader(b, len, fc, h1);
      Parsed(if h2.wep then 0 else DataHdrLen(fc), p.(hdr := h2, addr := SetAddrs(p.addr, DataAddrs(b, BssidAt(b, fc)))))
  }

  function CtrlAddrs(b: seq<u8>, t: u16): Addrs
    requires |b| >= if t == CTS || t == ACK then 10 else 16
  {
    if t == CTS || t == ACK then Addrs(Some(Addr1(b)), None, None)
    else if t == RTS || t == BLKACK || t == BLKACK_REQ then Addrs(Some(Addr1(b)), Some(Addr2(b)), None)
    else if t == PSPOLL then Addrs(Some(Addr1(b)), Some(Addr2(b)), Some(Addr1(b)))
    else if t == CF_END || t == CF_END_ACK then Addrs(Some(Addr1(b)), Some(Addr2(b)), Some(Addr2(b)))
    else Addrs(None, None, None)
  }

  function ParseCtrl(b: seq<u8>, len: nat, fc: u16, p: Packet): Parsed
    requires len <= |b|
  {
    var t := TypeAndSubtype(fc);
    if len < CtrlHdrLen(fc) then Parsed(-1, p)
    else
      var nav := if t in {RTS, CTS, ACK, BLKACK, BLKACK_REQ} then Le16(b, 2) else p.hdr.nav;
      Parsed(0, p.(hdr := p.hdr.(len := len, nav := nav), addr := SetAddrs(p.addr, CtrlAddrs(b, t))))
  }

  function BeaconMode(capab: u16, mode: Bits): Bits {
    if capab / 2 % 2 == 1 then WLAN_MODE_IBSS else if capab % 2 == 1 then WLAN_MODE_AP else mode
  }

  /** The fixed fields and the elements of a Beacon or Probe Response body at offset h. */
  ghost function BeaconBody(b: seq<u8>, len: nat, h: nat, p: Packet): Packet
    requires len <= |b| && h + 12 <= |b| && Fits(Region(b, h + 12, len - h - 16))
  {
    var capab := Le16(b, h + 10);
    p.(tsf := Le64(b, h), bintval := Le16(b, h + 8), ie := Walk(p.ie, Region(b, h + 12, len - h - 16)),
       hdr := p.hdr.(mode := BeaconMode(capab, p.hdr.mode), wep := capab / 0x10 % 2 == 1 || p.hdr.wep))
  }

  /** The switch on the type of a management frame with header length h. */
  ghost function MgmtContents(b: seq<u8>, len: nat, fc: u16, p: Packet): Packet
    requires Readable(b, len) && len >= 10 && fc == Le16(b, 0) && TypeOf(fc) == TYPE_MGMT && len >= MgmtHdrLen(fc)
  {
    var h, t := MgmtHdrLen(fc), TypeAndSubtype(fc);
    if IsBeaconLike(fc) then BeaconBody(b, len, h, p)
    else if t == PROBE_REQ then p.(ie := Walk(p.ie, Region(b, h, len - h - 4)), hdr := p.hdr.(mode := WLAN_MODE_PROBE))
    else if t == AUTH then p.(hdr := p.hdr.(wep := Protected(fc) || p.hdr.wep))
    else p
  }

  ghost function ParseMgmt(b: seq<u8>, len: nat, fc: u16, p: Packet): Parsed
    requires Readable(b, len) && len >= 10 && fc == Le16(b, 0) && TypeOf(fc) == TYPE_MGMT
  {
    if len < MgmtHdrLen(fc) then Parsed(-1, p)
    else
      var h1 := p.hdr.(fromds := FromDs(fc), tods := ToDs(fc), seqno := Le16(b, 22) / 16,
                       retry := Retry(fc) || p.hdr.retry, len := len);
      var p2 := MgmtContents(b, len, fc, p.(hdr := h1));
      Parsed(0, p2.(addr := SetAddrs(p2.addr, Addrs(Some(Addr1(b)), Some(Addr2(b)), Some(Addr3(b))))))
  }

  /** uwifi_parse_80211_header */
  ghost function ParseHeader(b: seq<u8>, len: nat, p: Packet): Parsed
    requires Readable(b, len)
  {
    var fc := Le16(b, 0);
    if len < 10 then Parsed(-1, p)
    else
      var p1 := p.(hdr := p.hdr.(mode := WLAN_MODE_UNKNOWN, wlanType := TypeAndSubtype(fc)));
      if TypeOf(fc) == TYPE_DATA then ParseData(b, len, fc, p1)
      else if TypeOf(fc) == TYPE_CTRL then ParseCtrl(b, len, fc, p1)
      else if TypeOf(fc) == TYPE_MGMT then ParseMgmt(b, len, fc, p1)
      else Parsed(-1, p1)
  }

  // ----- the parser, step by step -----

  method Word(buf: array<u8>, i: nat) returns (r: u16)
    requires i + 2 <= buf.Length
    ensures r == Le16(buf[..], i)
  {
    r := Pair(buf[i], buf[i + 1]);
  }

  method Addr(buf: array<u8>, i: nat) returns (m: Mac)
    requires i + 6 <= buf.Length
    ensures m == MacAt(buf[..], i)
  {
    m := buf[i..i + 6];
    assert m == buf[..][i..i + 6];
  }

  method CopyAddrs(p: PacketRef, a: Addrs)
    modifies p
    ensures p.v == old(p.v).(addr := SetAddrs(old(p.v.addr), a))
  {
    var to := p.v.addr;
    if a.ta.Some? {
      to := to.(ta := a.ta.value);
    }
    if a.ra.Some? {
      to := to.(ra := a.ra.value);
    }
    if a.bssid.Some? {
      to := to.(bssid := a.bssid.value);
    }
    p.v := p.v.(addr := to);
  }

  /** The address pointers are set before any length is compared, but not followed yet. */
  method BssidPointer(buf: array<u8>, fc: u16) returns (at: Option<nat>)
    requires IsQos(fc) && FromDs(fc) && ToDs(fc) ==> buf.Length >= 32
    ensures at == BssidAt(buf[..], fc)
  {
    at := None;
    if !FromDs(fc) && !ToDs(fc) {
      at := Some(16);
    } else if FromDs(fc) && ToDs(fc) {
      if IsQos(fc) {
        var qos := Word(buf, 30);
        if qos / 0x80 % 2 == 1 {
          at := Some(16);
        }
      }
    } else if FromDs(fc) {
      at := Some(10);
    } else if ToDs(fc) {
      at := Some(4);
    }
  }

  method DataAddresses(buf: array<u8>, bssidAt: Option<nat>) returns (a: Addrs)
    requires buf.Length >= 22 && (bssidAt.Some? ==> bssidAt.value <= 16)
    ensures a == DataAddrs(buf[..], bssidAt)
  {
    var ra := Addr(buf, 4);
    var ta := Addr(buf, 10);
    a := Addrs(Some(ra), Some(ta), None);
    if bssidAt.Some? {
      var bssid := Addr(buf, bssidAt.value);
      a := a.(bssid := Some(bssid));
    }
  }

  method DataHeaderLength(fc: u16) returns (hdrlen: nat)
    ensures hdrlen == DataHdrLen(fc)
  {
    hdrlen := 24;
    if IsQos(fc) {
      hdrlen := hdrlen + 2;
      if Order(fc) {
        hdrlen := hdrlen + 4;
      }
    }
    if FromDs(fc) && ToDs(fc) {
      hdrlen := hdrlen + 6;
    }
  }

  method DataHeaderFields(buf: array<u8>, len: nat, fc: u16, before: Header) returns (hdr: Header)
    requires 24 <= len <= buf.Length && (TypeAndSubtype(fc) == QDATA ==> len >= 26)
    ensures hdr == DataHeader(buf[..], len, fc, before)
  {
    var nav := Word(buf, 2);
    var seqCtrl := Word(buf, 22);
    hdr := before.(nav := nav, seqno := seqCtrl / 16);
    if Protected(fc) {
      hdr := hdr.(wep := true);
    }
    if Retry(fc) {
      hdr := hdr.(retry := true);
    }
    hdr := hdr.(len := len);
    if TypeAndSubtype(fc) == QDATA {
      var qos := Word(buf, 24);
      hdr := hdr.(qosClass := qos % 8);
    }
  }

  method DataFrame(buf: array<u8>, len: nat, fc: u16, p: PacketRef) returns (ret: int)
    requires len <= buf.Length && (IsQos(fc) && FromDs(fc) && ToDs(fc) ==> buf.Length >= 32)
    modifies p
    ensures Parsed(ret, p.v) == ParseData(buf[..], len, fc, old(p.v))
  {
    var hdr := p.v.hdr.(fromds := FromDs(fc), tods := ToDs(fc), mode := DataMode(fc));
    var hdrlen := DataHeaderLength(fc);
    var at := BssidPointer(buf, fc);
    if len < hdrlen {
      p.v := p.v.(hdr := hdr);
      return -1;
    }
    QdataIsQos(fc);
    hdr := DataHeaderFields(buf, len, fc, hdr);
    p.v := p.v.(hdr := hdr);
    var a := DataAddresses(buf, at);
    CopyAddrs(p, a);
    ret := if hdr.wep then 0 else hdrlen;
  }

  method CtrlAddresses(buf: array<u8>, t: u16) returns (a: Addrs)
    requires buf.Length >= if t == CTS || t == ACK then 10 else 16
    ensures a == CtrlAddrs(buf[..], t)
  {
    var a1 := Addr(buf, 4);
    if t == CTS || t == ACK {
      return Addrs(Some(a1), None, None);
    }
    var a2 := Addr(buf, 10);
    if t == RTS || t == BLKACK || t == BLKACK_REQ {
      return Addrs(Some(a1), Some(a2), None);
    }
    if t == PSPOLL {
      return Addrs(Some(a1), Some(a2), Some(a1));
    }
    if t == CF_END || t == CF_END_ACK {
      return Addrs(Some(a1), Some(a2), Some(a2));
    }
    return Addrs(None, None, None);
  }

  method CtrlFrame(buf: array<u8>, len: nat, fc: u16, p: PacketRef) returns (ret: int)
    requires len <= buf.Length
    modifies p
    ensures Parsed(ret, p.v) == ParseCtrl(buf[..], len, fc, old(p.v))
  {
    var t := TypeAndSubtype(fc);
    var hdrlen := if t == CTS || t == ACK then 10 else 16;
    if len < hdrlen {
      return -1;
    }
    var hdr := p.v.hdr.(len := len);
    if t in {RTS, CTS, ACK, BLKACK, BLKACK_REQ} {
      var nav := Word(buf, 2);
      hdr := hdr.(nav := nav);
    }
    p.v := p.v.(hdr := hdr);
    var a := CtrlAddresses(buf, t);
    CopyAddrs(p, a);
    return 0;
  }

  method Timestamp(buf: array<u8>, at: nat) returns (t: u64)
    requires at + 8 <= buf.Length
    ensures t == Le64(buf[..], at)
  {
    var x: nat, i := 0, 8;
    ghost var field := buf[..][at..at + 8];
    assert field[8..] == [];
    while i > 0
      invariant 0 <= i <= 8 && x == FromLe(field[i..])
    {
      i := i - 1;
      assert field[i..] == [field[i]] + field[i + 1..];
      var low: int := buf[at + i];
      x := low + 256 * x;
    }
    assert field[0..] == field;
    FromLeBound(field);
    Pow256Of8();
    t := x;
  }

  lemma RegionOfArray(buf: array<u8>, at: nat, n: int)
    requires n > 0 ==> at + n <= buf.Length
    ensures Region(buf[..], at, n) == if n > 0 then buf[at..at + n] else []
  {
  }

  method ApplyCapabilities(hdr: Header, capab: u16) returns (r: Header)
    ensures r == hdr.(mode := BeaconMode(capab, hdr.mode), wep := capab / 0x10 % 2 == 1 || hdr.wep)
  {
    r := hdr;
    if capab / 2 % 2 == 1 {
      r := r.(mode := WLAN_MODE_IBSS);
    } else if capab % 2 == 1 {
      r := r.(mode := WLAN_MODE_AP);
    }
    if capab / 0x10 % 2 == 1 {
      r := r.(wep := true);
    }
  }

  method BeaconFrame(buf: array<u8>, len: nat, h: nat, p: PacketRef)
    requires len <= buf.Length && h + 12 <= buf.Length && Fits(Region(buf[..], h + 12, len - h - 16))
    modifies p
    ensures p.v == BeaconBody(buf[..], len, h, old(p.v))
  {
    var tsf := Timestamp(buf, h);
    var bintval := Word(buf, h + 8);
    var capab := Word(buf, h + 10);
    RegionOfArray(buf, h + 12, len - h - 16);
    p.v := p.v.(tsf := tsf, bintval := bintval);
    ParseElements(buf, h + 12, len - h - 12 - 4, p);
    var hdr := ApplyCapabilities(p.v.hdr, capab);
    p.v := p.v.(hdr := hdr);
  }

  method MgmtFrame(buf: array<u8>, len: nat, fc: u16, p: PacketRef) returns (ret: int)
    requires Readable(buf[..], len) && len >= 10 && fc == Le16(buf[..], 0) && TypeOf(fc) == TYPE_MGMT
    modifies p
    ensures Parsed(ret, p.v) == ParseMgmt(buf[..], len, fc, old(p.v))
  {
    var hdrlen := 24;
    if Order(fc) {
      hdrlen := hdrlen + 4;
    }
    if len < hdrlen {
      return -1;
    }
    var ra := Addr(buf, 4);
    var ta := Addr(buf, 10);
    var bssid := Addr(buf, 16);
    var seqCtrl := Word(buf, 22);
    var hdr := p.v.hdr.(fromds := FromDs(fc), tods := ToDs(fc), seqno := seqCtrl / 16);
    if Retry(fc) {
      hdr := hdr.(retry := true);
    }
    hdr := hdr.(len := len);
    p.v := p.v.(hdr := hdr);
    MgmtBody(buf, len, fc, hdrlen, p);
    CopyAddrs(p, Addrs(Some(ra), Some(ta), Some(bssid)));
    return 0;
  }

  method MgmtBody(buf: array<u8>, len: nat, fc: u16, hdrlen: nat, p: PacketRef)
    requires Readable(buf[..], len) && len >= 10 && fc == Le16(buf[..], 0) && TypeOf(fc) == TYPE_MGMT
    requires len >= hdrlen == MgmtHdrLen(fc)
    modifies p
    ensures p.v == MgmtContents(buf[..], len, fc, old(p.v))
  {
    var t := TypeAndSubtype(fc);
    if t == BEACON || t == PROBE_RESP {
      BeaconFrame(buf, len, hdrlen, p);
    } else if t == PROBE_REQ {
      RegionOfArray(buf, hdrlen, len - hdrlen - 4);
      ParseElements(buf, hdrlen, len - hdrlen - 4, p);
      p.v := p.v.(hdr := p.v.hdr.(mode := WLAN_MODE_PROBE));
    } else if t == AUTH {
      if Protected(fc) {
        p.v := p.v.(hdr := p.v.hdr.(wep := true));
      }
    }
  }

  /** uwifi_parse_80211_header: consumed length, 0 to stop parsing, or -1 on error. */
  method ParseFrame(buf: array<u8>, len: nat, p: PacketRef) returns (ret: int)
    requires Readable(buf[..], len)
    modifies p
    ensures Parsed(ret, p.v) == ParseHeader(buf[..], len, old(p.v))
  {
    var fc := Word(buf, 0);
    if len < 10 {
      return -1;
    }
    p.v := p.v.(hdr := p.v.hdr.(mode := WLAN_MODE_UNKNOWN, wlanType := TypeAndSubtype(fc)));
    if TypeOf(fc) == TYPE_DATA {
      ret := DataFrame(buf, len, fc, p);
    } else if TypeOf(fc) == TYPE_CTRL {
      ret := CtrlFrame(buf, len, fc, p);
    } else if TypeOf(fc) == TYPE_MGMT {
      ret := MgmtFrame(buf, len, fc, p);
    } else {
      ret := -1;
    }
  }

  // ----- properties of the parser -----

  /** Whatever the frame, a terminated ESSID stays terminated. */
  lemma ParserKeepsTerminated(b: seq<u8>, len: nat, p: Packet)
    requires Readable(b, len) && Terminated(p.ie)
    ensures Terminated(ParseHeader(b, len, p).p.ie)
  {
    var fc := Le16(b, 0);
    if len >= 10 && TypeOf(fc) == TYPE_MGMT && len >= MgmtHdrLen(fc) {
      var h := MgmtHdrLen(fc);
      if IsBeaconLike(fc) {
        WalkKeepsTerminated(p.ie, Region(b, h + 12, len - h - 16));
      } else if TypeAndSubtype(fc) == PROBE_REQ {
        WalkKeepsTerminated(p.ie, Region(b, h, len - h - 4));
      }
    }
  }

  /** Control frames whose transmitter uwifi_get_80211_header_ta knows. */
  predicate QuickTa(t: u16) {
    t == RTS || t == PSPOLL || t == CF_END || t == CF_END_ACK || t == BLKACK_REQ || t == BLKACK || t == VHT_NDP || t == BEAM_REP
  }

  /** uwifi_get_80211_header_ta: the transmitter address, or NULL.  The control case tests the unmasked field. */
  function HeaderTa(b: seq<u8>, len: nat): Option<Mac>
    requires len <= |b|
  {
    if len < 16 then None
    else
      var fc := Le16(b, 0);
      if TypeOf(fc) == TYPE_DATA || TypeOf(fc) == TYPE_MGMT || (TypeOf(fc) == TYPE_CTRL && QuickTa(fc)) then Some(Addr2(b))
      else None
  }

  /** On data and management frames the quick lookup is what the parser stores. */
  lemma HeaderTaOfFrame(b: seq<u8>, len: nat, p: Packet)
    requires Readable(b, len) && ParseHeader(b, len, p).ret >= 0 && TypeOf(Le16(b, 0)) != TYPE_CTRL
    ensures HeaderTa(b, len) == Some(ParseHeader(b, len, p).p.addr.ta)
  {
  }

  /**
   * On control frames it is, unless the frame control field carries flag bits (then the lookup finds nothing) or the
   * frame is one of the two kinds the parser passes over.
   */
  lemma HeaderTaOfCtrl(b: seq<u8>, len: nat)
    requires 16 <= len <= |b| && TypeOf(Le16(b, 0)) == TYPE_CTRL
    ensures var fc, t := Le16(b, 0), TypeAndSubtype(Le16(b, 0));
      HeaderTa(b, len) == CtrlAddrs(b, t).ta <==>
        if fc == t then t != VHT_NDP && t != BEAM_REP else t == VHT_NDP || t == BEAM_REP || !QuickTa(t)
  {
    var fc := Le16(b, 0);
    if QuickTa(fc) {
      QuickTaHasNoFlags(fc);
    }
  }

  lemma QuickTaHasNoFlags(fc: u16)
    requires QuickTa(fc)
    ensures TypeAndSubtype(fc) == fc
  {
  }
}
