/**
 * The frame formats of IEEE 802.11-2016 sections 9.2.3, 9.2.4.1, 9.3.1, 9.3.2.1 and 9.3.3 as values with their encoding, and
 * the header parser of core/wlan_parser.c as the way back.
 */
module FrameFormats {
  import opened Capabilities
  import opened Elements
  import opened FrameParser
  import opened Options
  import opened Wlan
  import B = FrameBuilder

  // ----- frame control -----

  datatype Control = Control(version: nat, kind: nat, subtype: nat, toDs: bool, fromDs: bool, moreFrag: bool, retry: bool,
                             powerMgmt: bool, moreData: bool, protected: bool, order: bool)

  predicate ControlSound(c: Control) {
    c.version < 4 && c.kind < 4 && c.subtype < 16
  }

  function LowByte(c: Control): nat {
    c.version + 4 * c.kind + 16 * c.subtype
  }

  /** Three flags as a number, the first one in the lowest bit. */
  function ThreeFlags(a: bool, b: bool, c: bool): nat {
    (if a then 1 else 0) + (if b then 2 else 0) + if c then 4 else 0
  }

  lemma ThreeFlagsBack(a: bool, b: bool, c: bool)
    ensures var n := ThreeFlags(a, b, c);
      n < 8 && (n % 2 == 1 <==> a) && (n / 2 % 2 == 1 <==> b) && (!c ==> n < 4)
  {
  }

  function Flags(c: Control): nat {
    ThreeFlags(c.toDs, c.fromDs, c.moreFrag) + 8 * ThreeFlags(c.retry, c.powerMgmt, c.moreData)
    + 64 * ThreeFlags(c.protected, c.order, false)
  }

  /** The frame control field: version, type and subtype in the low byte, the flags in the high one. */
  function ControlWord(c: Control): u16
    requires ControlSound(c)
  {
    LowByte(c) + 256 * Flags(c)
  }

  lemma LowSplits(low: nat, flags: nat)
    requires low < 256 && flags < 256
    ensures var fc := low + 256 * flags;
      fc % 256 == low && fc % 4 == low % 4 && fc / 4 % 4 == low / 4 % 4 && fc / 16 % 16 == low / 16
  {
    assert (low + 256 * flags) / 4 == low / 4 + 64 * flags && (low + 256 * flags) / 16 == low / 16 + 16 * flags;
  }

  lemma HighSplits(low: nat, flags: nat)
    requires low < 256 && flags < 256
    ensures var fc := low + 256 * flags;
      && fc / 0x100 == flags && fc / 0x200 == flags / 2 && fc / 0x800 == flags / 8 && fc / 0x4000 == flags / 64
      && fc / 0x8000 == flags / 128
  {
    var fc := low + 256 * flags;
    Halves(fc, 0x100, flags);
  }

  lemma Halves(x: nat, m: nat, q: nat)
    requires m == 0x100 && x / m == q
    ensures x / 0x200 == q / 2 && x / 0x800 == q / 8 && x / 0x4000 == q / 64 && x / 0x8000 == q / 128
  {
  }

  lemma KindOf(low: nat, flags: nat, version: nat, kind: nat, subtype: nat)
    requires version < 4 && kind < 4 && subtype < 16 && low == version + 4 * kind + 16 * subtype && flags < 256
    ensures low < 256
    ensures var fc := low + 256 * flags;
      TypeOf(fc) == kind && TypeAndSubtype(fc) == 4 * kind + 16 * subtype && (IsQos(fc) <==> subtype == 8)
  {
    LowBits(version, kind, subtype);
    LowSplits(low, flags);
  }

  lemma LowBits(version: nat, kind: nat, subtype: nat)
    requires version < 4 && kind < 4 && subtype < 16
    ensures var low := version + 4 * kind + 16 * subtype;
      low < 256 && low % 4 == version && low / 4 % 4 == kind && low / 16 == subtype
  {
  }

  lemma FlagsOf(low: nat, flags: nat)
    requires low < 256 && flags < 256
    ensures var fc := low + 256 * flags;
      && ToDs(fc) == (flags % 2 == 1) && FromDs(fc) == (flags / 2 % 2 == 1) && Retry(fc) == (flags / 8 % 2 == 1)
      && Protected(fc) == (flags / 64 % 2 == 1) && Order(fc) == (flags / 128 % 2 == 1)
  {
    HighSplits(low, flags);
  }

  lemma FlagBits(c: Control)
    ensures var f := Flags(c);
      && f < 256 && (f % 2 == 1 <==> c.toDs) && (f / 2 % 2 == 1 <==> c.fromDs) && (f / 8 % 2 == 1 <==> c.retry)
      && (f / 64 % 2 == 1 <==> c.protected) && (f / 128 % 2 == 1 <==> c.order)
  {
    ThreeFlagsBack(c.toDs, c.fromDs, c.moreFrag);
    ThreeFlagsBack(c.retry, c.powerMgmt, c.moreData);
    ThreeFlagsBack(c.protected, c.order, false);
    ThreeParts(ThreeFlags(c.toDs, c.fromDs, c.moreFrag), ThreeFlags(c.retry, c.powerMgmt, c.moreData),
               ThreeFlags(c.protected, c.order, false));
  }

  lemma ThreeParts(low: nat, mid: nat, top: nat)
    requires low < 8 && mid < 8 && top < 4
    ensures var f := low + 8 * mid + 64 * top;
      && f < 256 && f % 2 == low % 2 && f / 2 % 2 == low / 2 % 2 && f / 8 % 2 == mid % 2 && f / 64 % 2 == top % 2
      && f / 128 % 2 == top / 2 % 2
  {
    var f := low + 8 * mid + 64 * top;
    assert f / 2 == low / 2 + 4 * mid + 32 * top;
    assert f / 8 == mid + 8 * top;
    assert f / 64 == top;
    assert f / 128 == top / 2;
  }

  /** What the parser makes of a frame control field. */
  datatype Reading = Reading(kind: nat, name: u16, qos: bool, toDs: bool, fromDs: bool, retry: bool, protected: bool,
                             order: bool)

  function ReadingOf(fc: u16): Reading {
    Reading(TypeOf(fc), TypeAndSubtype(fc), IsQos(fc), ToDs(fc), FromDs(fc), Retry(fc), Protected(fc), Order(fc))
  }

  /** What there is to read; a frame is taken for a QoS frame exactly if its subtype is 8. */
  function ReadingFrom(c: Control): Reading
    requires ControlSound(c)
  {
    Reading(c.kind, 4 * c.kind + 16 * c.subtype, c.subtype == 8, c.toDs, c.fromDs, c.retry, c.protected, c.order)
  }

  /** Every field that the parser uses is read back. */
  lemma ControlBack(c: Control)
    requires ControlSound(c)
    ensures ReadingOf(ControlWord(c)) == ReadingFrom(c)
  {
    FlagBits(c);
    WordBack(LowByte(c), Flags(c), c);
  }

  lemma WordBack(low: nat, flags: nat, c: Control)
    requires ControlSound(c) && low == c.version + 4 * c.kind + 16 * c.subtype && flags < 256
    requires (flags % 2 == 1) == c.toDs && (flags / 2 % 2 == 1) == c.fromDs && (flags / 8 % 2 == 1) == c.retry
    requires (flags / 64 % 2 == 1) == c.protected && (flags / 128 % 2 == 1) == c.order
    ensures low < 256 && ReadingOf(low + 256 * flags) == ReadingFrom(c)
  {
    KindOf(low, flags, c.version, c.kind, c.subtype);
    FlagsOf(low, flags);
  }

  // ----- the header all data and management frames share -----

  /** Frame control, duration, three addresses, and the sequence control: fragment number below sequence number. */
  function Head(fc: u16, duration: u16, a1: Mac, a2: Mac, a3: Mac, sc: u16): (r: seq<u8>)
    ensures |r| == 24
  {
    Le(fc, 2) + Le(duration, 2) + a1 + a2 + a3 + Le(sc, 2)
  }

  function SeqControl(fragment: nat, seqno: nat): u16
    requires fragment < 16 && seqno < 4096
  {
    fragment + 16 * seqno
  }

  lemma SixParts(a: seq<u8>, d: seq<u8>, a1: seq<u8>, a2: seq<u8>, a3: seq<u8>, s: seq<u8>, rest: seq<u8>)
    requires |a| == |d| == |s| == 2 && |a1| == |a2| == |a3| == 6
    ensures var b := a + d + a1 + a2 + a3 + s + rest;
      b[0..2] == a && b[2..4] == d && b[4..10] == a1 && b[10..16] == a2 && b[16..22] == a3 && b[22..24] == s && b[24..] == rest
  {
  }

  lemma HeadFields(fc: u16, duration: u16, a1: Mac, a2: Mac, a3: Mac, sc: u16, rest: seq<u8>)
    ensures var b := Head(fc, duration, a1, a2, a3, sc) + rest;
      && |b| == 24 + |rest| && Le16(b, 0) == fc && Le16(b, 2) == duration && Le16(b, 22) == sc
      && Addr1(b) == a1 && Addr2(b) == a2 && Addr3(b) == a3 && b[24..] == rest
  {
    var b := Head(fc, duration, a1, a2, a3, sc) + rest;
    SixParts(Le(fc, 2), Le(duration, 2), a1, a2, a3, Le(sc, 2), rest);
    B.Le16Back(b, 0, fc);
    B.Le16Back(b, 2, duration);
    B.Le16Back(b, 22, sc);
  }

  // ----- data frames -----

  /** The fourth address, the QoS control and the HT control are there only in frames that have them. */
  datatype DataFrame = DataFrame(control: Control, duration: u16, a1: Mac, a2: Mac, a3: Mac, fragment: nat, seqno: nat,
                                 a4: Mac, qos: u16, htc: seq<u8>, body: seq<u8>)

  predicate DataSound(f: DataFrame) {
    ControlSound(f.control) && f.control.kind == 2 && f.fragment < 16 && f.seqno < 4096 && |f.htc| == 4
  }

  predicate FourAddresses(c: Control) {
    c.toDs && c.fromDs
  }

  /** The upper half of the data subtypes has QoS. */
  predicate HasQos(c: Control) {
    c.subtype >= 8
  }

  function Extension(f: DataFrame): seq<u8> {
    (if FourAddresses(f.control) then f.a4 else [])
    + if HasQos(f.control) then Le(f.qos, 2) + (if f.control.order then f.htc else []) else []
  }

  function DataBytes(f: DataFrame): seq<u8>
    requires DataSound(f)
  {
    Head(ControlWord(f.control), f.duration, f.a1, f.a2, f.a3, SeqControl(f.fragment, f.seqno)) + (Extension(f) + f.body)
  }

  function HeaderLength(f: DataFrame): nat {
    24 + |Extension(f)|
  }

  /** Where a data frame travels. */
  function ModeOf(c: Control): Bits {
    if c.toDs && c.fromDs then WLAN_MODE_4ADDR else if c.fromDs then WLAN_MODE_AP else if c.toDs then WLAN_MODE_STA
    else WLAN_MODE_IBSS
  }

  /**
   * The BSSID: the sender of a frame from the distribution system, the receiver of one to it, the third address in an
   * ad-hoc network, and with four addresses the third one if the frame aggregates MSDUs (bit 7 of the QoS control).
   */
  function BssidOf(f: DataFrame): Option<Mac> {
    var c := f.control;
    if c.fromDs && !c.toDs then Some(f.a2)
    else if c.toDs && !c.fromDs then Some(f.a1)
    else if !c.toDs then Some(f.a3)
    else if c.subtype == 8 && f.qos / 0x80 % 2 == 1 then Some(f.a3)
    else None
  }

  /** The traffic class, as it is read: in a frame with four addresses, from the fourth one. */
  function ClassOf(f: DataFrame, before: u8): u8 {
    if f.control.subtype != 8 then before else if FourAddresses(f.control) then f.a4[0] % 8 else f.qos % 8
  }

  /** A packet after a data frame was read into it. */
  function DataRead(f: DataFrame, p: Packet): Packet
    requires DataSound(f)
  {
    var c := f.control;
    p.(hdr := p.hdr.(len := |DataBytes(f)|, fromds := c.fromDs, tods := c.toDs, wlanType := 8 + 16 * c.subtype,
                     mode := ModeOf(c), qosClass := ClassOf(f, p.hdr.qosClass), nav := f.duration, seqno := f.seqno,
                     wep := c.protected || p.hdr.wep, retry := c.retry || p.hdr.retry),
       addr := Addresses(f.a2, f.a1, if BssidOf(f).Some? then BssidOf(f).value else p.addr.bssid))
  }

  /** The header length the parser assumes. */
  function AssumedLength(c: Control): nat {
    24 + (if c.subtype == 8 then if c.order then 6 else 2 else 0) + if FourAddresses(c) then 6 else 0
  }

  /** It is the true one exactly for frames without QoS and plain QoS data: the parser takes no other subtype for QoS. */
  lemma AssumedIsTrue(f: DataFrame)
    requires DataSound(f)
    ensures AssumedLength(f.control) == HeaderLength(f) <==> f.control.subtype <= 8
    ensures AssumedLength(f.control) <= HeaderLength(f)
  {
  }

  lemma PairModEight(lo: u8, hi: u8)
    ensures Pair(lo, hi) % 8 == lo % 8
  {
  }

  lemma ExtensionFields(f: DataFrame, b: seq<u8>)
    requires DataSound(f) && |b| == 24 + |Extension(f) + f.body| && b[24..] == Extension(f) + f.body && f.control.subtype == 8
    ensures |b| >= 26 && (FourAddresses(f.control) ==> |b| >= 32 && Le16(b, 30) == f.qos && Le16(b, 24) % 8 == f.a4[0] % 8)
    ensures !FourAddresses(f.control) ==> Le16(b, 24) == f.qos
  {
    var q := Le(f.qos, 2);
    B.Le16Of(f.qos);
    if FourAddresses(f.control) {
      PairModEight(b[24], b[25]);
      assert b[24] == b[24..][0] == f.a4[0] && b[30] == b[24..][6] == q[0] && b[31] == b[24..][7] == q[1];
    } else {
      assert b[24] == b[24..][0] == q[0] && b[25] == b[24..][1] == q[1];
    }
  }

  lemma SeqBack(fragment: nat, seqno: nat)
    requires fragment < 16 && seqno < 4096
    ensures SeqControl(fragment, seqno) / 16 == seqno
  {
  }

  /**
   * The parser undoes the encoding of every data frame: type, distribution system bits, mode, addresses, BSSID, duration,
   * sequence number and flags come back, and the length of the header unless the body is encrypted.
   */
  lemma DataFrameBack(f: DataFrame, p: Packet)
    requires DataSound(f)
    ensures var b := DataBytes(f);
      && Readable(b, |b|)
      && ParseHeader(b, |b|, p) ==
           Parsed(if f.control.protected || p.hdr.wep then 0 else AssumedLength(f.control), DataRead(f, p))
  {
    var b, c, fc := DataBytes(f), f.control, ControlWord(f.control);
    ControlBack(c);
    HeadFields(fc, f.duration, f.a1, f.a2, f.a3, SeqControl(f.fragment, f.seqno), Extension(f) + f.body);
    SeqBack(f.fragment, f.seqno);
    if c.subtype == 8 {
      ExtensionFields(f, b);
    }
    DataParsed(f, b, fc, p.(hdr := p.hdr.(mode := WLAN_MODE_UNKNOWN, wlanType := 8 + 16 * c.subtype)));
  }

  lemma DataParsed(f: DataFrame, b: seq<u8>, fc: u16, p: Packet)
    requires DataSound(f) && ReadingOf(fc) == ReadingFrom(f.control) && |b| == |DataBytes(f)| >= HeaderLength(f)
    requires Le16(b, 2) == f.duration && Le16(b, 22) / 16 == f.seqno && Addr1(b) == f.a1 && Addr2(b) == f.a2 && Addr3(b) == f.a3
    requires f.control.subtype == 8 ==>
      if FourAddresses(f.control) then |b| >= 32 && Le16(b, 30) == f.qos && Le16(b, 24) % 8 == f.a4[0] % 8
      else Le16(b, 24) == f.qos
    requires p.hdr.wlanType == 8 + 16 * f.control.subtype
    ensures ParseData(b, |b|, fc, p) ==
      Parsed(if f.control.protected || p.hdr.wep then 0 else AssumedLength(f.control), DataRead(f, p))
  {
  }

  // ----- control frames -----

  const BLOCK_ACK_REQUEST := 8
  const BLOCK_ACK := 9
  const POLL := 10
  const REQUEST_TO_SEND := 11
  const CLEAR_TO_SEND := 12
  const ACKNOWLEDGEMENT := 13
  const CONTENTION_FREE_END := 14
  const CONTENTION_FREE_END_ACK := 15

  /** The second address is missing in CTS and ACK frames. */
  datatype ControlFrame = ControlFrame(control: Control, duration: u16, a1: Mac, a2: Mac, rest: seq<u8>)

  predicate CtrlSound(f: ControlFrame) {
    ControlSound(f.control) && f.control.kind == 1
  }

  predicate Short(c: Control) {
    c.subtype == CLEAR_TO_SEND || c.subtype == ACKNOWLEDGEMENT
  }

  function CtrlBytes(f: ControlFrame): seq<u8>
    requires CtrlSound(f)
  {
    Le(ControlWord(f.control), 2) + Le(f.duration, 2) + f.a1 + ((if Short(f.control) then [] else f.a2) + f.rest)
  }

  /** Receiver, transmitter and BSSID of the frames the parser knows; the others leave the addresses as they were. */
  function CtrlAddresses(f: ControlFrame, before: Addresses): Addresses {
    var t := f.control.subtype;
    if t < BLOCK_ACK_REQUEST then before
    else if Short(f.control) then before.(ra := f.a1)
    else if t == POLL then Addresses(f.a2, f.a1, f.a1)
    else if t == CONTENTION_FREE_END || t == CONTENTION_FREE_END_ACK then Addresses(f.a2, f.a1, f.a2)
    else before.(ta := f.a2, ra := f.a1)
  }

  /** A PS-Poll frame has an association identifier in the place of the duration. */
  function CtrlRead(f: ControlFrame, p: Packet): Packet
    requires CtrlSound(f)
  {
    var t := f.control.subtype;
    var timed := t in {BLOCK_ACK_REQUEST, BLOCK_ACK, REQUEST_TO_SEND, CLEAR_TO_SEND, ACKNOWLEDGEMENT};
    p.(hdr := p.hdr.(len := |CtrlBytes(f)|, mode := WLAN_MODE_UNKNOWN, wlanType := 4 + 16 * t,
                     nav := if timed then f.duration else p.hdr.nav),
       addr := CtrlAddresses(f, p.addr))
  }

  lemma ThreeFields(a: seq<u8>, d: seq<u8>, a1: seq<u8>, rest: seq<u8>)
    requires |a| == |d| == 2 && |a1| == 6
    ensures var b := a + d + a1 + rest; b[0..2] == a && b[2..4] == d && b[4..10] == a1 && b[10..] == rest
  {
  }

  /** The parser undoes the encoding of every control frame. */
  lemma ControlFrameBack(f: ControlFrame, p: Packet)
    requires CtrlSound(f)
    ensures var b := CtrlBytes(f); Readable(b, |b|) && ParseHeader(b, |b|, p) == Parsed(0, CtrlRead(f, p))
  {
    var b, fc := CtrlBytes(f), ControlWord(f.control);
    var rest := (if Short(f.control) then [] else f.a2) + f.rest;
    ControlBack(f.control);
    ThreeFields(Le(fc, 2), Le(f.duration, 2), f.a1, rest);
    B.Le16Back(b, 0, fc);
    B.Le16Back(b, 2, f.duration);
    if !Short(f.control) {
      assert b[10..16] == b[10..][..6] == f.a2;
    }
    CtrlParsed(f, b, fc, p.(hdr := p.hdr.(mode := WLAN_MODE_UNKNOWN, wlanType := 4 + 16 * f.control.subtype)));
  }

  lemma CtrlParsed(f: ControlFrame, b: seq<u8>, fc: u16, p: Packet)
    requires CtrlSound(f) && ReadingOf(fc) == ReadingFrom(f.control) && |b| == |CtrlBytes(f)|
    requires |b| >= 10 && Le16(b, 2) == f.duration && MacAt(b, 4) == f.a1
    requires !Short(f.control) ==> |b| >= 16 && MacAt(b, 10) == f.a2
    requires p.hdr.wlanType == 4 + 16 * f.control.subtype && p.hdr.mode == WLAN_MODE_UNKNOWN
    ensures ParseCtrl(b, |b|, fc, p) == Parsed(0, CtrlRead(f, p))
  {
  }

  // ----- management frames -----

  /** The capability information of a beacon; `others` are the bits above the privacy bit. */
  datatype CapabInfo = CapabInfo(ess: bool, ibss: bool, pollable: bool, pollRequest: bool, privacy: bool, others: nat)

  function CapabWord(c: CapabInfo): u16
    requires c.others < 2048
  {
    ThreeFlags(c.ess, c.ibss, c.pollable) + 8 * ThreeFlags(c.pollRequest, c.privacy, false) + 32 * c.others
  }

  lemma CapabBack(c: CapabInfo)
    requires c.others < 2048
    ensures var w := CapabWord(c);
      (w % 2 == 1 <==> c.ess) && (w / 2 % 2 == 1 <==> c.ibss) && (w / 0x10 % 2 == 1 <==> c.privacy)
  {
    ThreeFlagsBack(c.ess, c.ibss, c.pollable);
    ThreeFlagsBack(c.pollRequest, c.privacy, false);
    CapabParts(ThreeFlags(c.ess, c.ibss, c.pollable), ThreeFlags(c.pollRequest, c.privacy, false), c.others);
  }

  lemma CapabParts(low: nat, mid: nat, top: nat)
    requires low < 8 && mid < 4
    ensures var w := low + 8 * mid + 32 * top; w % 2 == low % 2 && w / 2 % 2 == low / 2 % 2 && w / 0x10 % 2 == mid / 2 % 2
  {
    Split8(low, mid + 4 * top);
    Split4(mid, top);
  }

  lemma Split8(low: nat, x: nat)
    requires low < 8
    ensures var w := low + 8 * x; w % 2 == low % 2 && w / 2 % 2 == low / 2 % 2 && w / 0x10 == x / 2
  {
  }

  lemma Split4(low: nat, x: nat)
    requires low < 4
    ensures (low + 4 * x) / 2 % 2 == low / 2 % 2
  {
  }

  /** What a management frame carries; elements end in a frame check sequence of four bytes. */
  datatype Body =
    | Announcing(response: bool, tsf: u64, interval: u16, capab: CapabInfo, stated: seq<Stated>, fcs: seq<u8>)
    | Probing(stated: seq<Stated>, fcs: seq<u8>)
    | Bytes(subtype: nat, bytes: seq<u8>)

  datatype MgmtFrame = MgmtFrame(control: Control, duration: u16, a1: Mac, a2: Mac, a3: Mac, fragment: nat, seqno: nat,
                                 htc: seq<u8>, body: Body)

  const PROBE_REQUEST := 4
  const PROBE_RESPONSE := 5
  const BEACON_FRAME := 8
  const AUTHENTICATION := 11

  function SubtypeOf(body: Body): nat {
    match body
    case Announcing(response, _, _, _, _, _) => if response then PROBE_RESPONSE else BEACON_FRAME
    case Probing(_, _) => PROBE_REQUEST
    case Bytes(subtype, _) => subtype
  }

  /** The last element has a body. */
  predicate Ended(s: seq<Stated>) {
    s != [] ==> StatedElement(s[|s| - 1]).body != []
  }

  predicate BodySound(body: Body) {
    match body
    case Announcing(_, _, _, capab, stated, fcs) => capab.others < 2048 && Ended(stated) && |fcs| == 4
    case Probing(stated, fcs) => Ended(stated) && |fcs| == 4
    case Bytes(subtype, _) => subtype != PROBE_REQUEST && subtype != PROBE_RESPONSE && subtype != BEACON_FRAME
  }

  predicate MgmtSound(f: MgmtFrame) {
    && ControlSound(f.control) && f.control.kind == 0 && f.control.subtype == SubtypeOf(f.body)
    && f.fragment < 16 && f.seqno < 4096 && |f.htc| == 4 && BodySound(f.body)
  }

  function BodyBytes(body: Body): seq<u8>
    requires BodySound(body)
  {
    match body
    case Announcing(_, tsf, interval, capab, stated, fcs) =>
      Le(tsf, 8) + Le(interval, 2) + Le(CapabWord(capab), 2) + EncodeAll(ElementsOf(stated)) + fcs
    case Probing(stated, fcs) => EncodeAll(ElementsOf(stated)) + fcs
    case Bytes(_, bytes) => bytes
  }

  function MgmtBytes(f: MgmtFrame): seq<u8>
    requires MgmtSound(f)
  {
    Head(ControlWord(f.control), f.duration, f.a1, f.a2, f.a3, SeqControl(f.fragment, f.seqno))
    + ((if f.control.order then f.htc else []) + BodyBytes(f.body))
  }

  /** An ad-hoc network has its own mode; a network of access points makes the sender one. */
  function BeaconModeOf(c: CapabInfo): Bits {
    if c.ibss then WLAN_MODE_IBSS else if c.ess then WLAN_MODE_AP else WLAN_MODE_UNKNOWN
  }

  function BodyRead(f: MgmtFrame, p: Packet): Packet {
    match f.body
    case Announcing(_, tsf, interval, capab, stated, _) =>
      p.(tsf := tsf, bintval := interval, ie := LearntFrom(p.ie, stated),
         hdr := p.hdr.(mode := BeaconModeOf(capab), wep := capab.privacy || p.hdr.wep))
    case Probing(stated, _) => p.(ie := LearntFrom(p.ie, stated), hdr := p.hdr.(mode := WLAN_MODE_PROBE))
    case Bytes(subtype, _) =>
      if subtype == AUTHENTICATION then p.(hdr := p.hdr.(wep := f.control.protected || p.hdr.wep)) else p
  }

  /** A packet after a management frame was read into it. */
  function MgmtRead(f: MgmtFrame, p: Packet): Packet
    requires MgmtSound(f)
  {
    var c := f.control;
    BodyRead(f, p.(hdr := p.hdr.(len := |MgmtBytes(f)|, fromds := c.fromDs, tods := c.toDs, wlanType := 16 * c.subtype,
                                 mode := WLAN_MODE_UNKNOWN, seqno := f.seqno, retry := c.retry || p.hdr.retry),
                   addr := Addresses(f.a2, f.a1, f.a3)))
  }

  lemma HeaderThenBody(head: seq<u8>, htc: seq<u8>, body: seq<u8>)
    requires |head| == 24
    ensures var b := head + (htc + body); b[24 + |htc|..] == body
  {
  }

  lemma TailSlice(b: seq<u8>, h: nat, i: nat, j: nat)
    requires h <= |b| && i <= j <= |b| - h
    ensures b[h + i..h + j] == b[h..][i..j]
  {
  }

  lemma FixedFields(b: seq<u8>, h: nat, t: seq<u8>, i: seq<u8>, c: seq<u8>, ies: seq<u8>, fcs: seq<u8>)
    requires h <= |b| && b[h..] == t + i + c + ies + fcs && |t| == 8 && |i| == |c| == 2 && |fcs| == 4
    ensures |b| == h + 16 + |ies| && b[h..h + 8] == t && b[h + 8..h + 10] == i && b[h + 10..h + 12] == c
    ensures Region(b, h + 12, |b| - h - 16) == ies
  {
    var y := b[h..];
    FiveParts(t, i, c, ies, fcs);
    TailSlice(b, h, 0, 8);
    TailSlice(b, h, 8, 10);
    TailSlice(b, h, 10, 12);
    TailSlice(b, h, 12, 12 + |ies|);
  }

  lemma FiveParts(t: seq<u8>, i: seq<u8>, c: seq<u8>, ies: seq<u8>, fcs: seq<u8>)
    requires |t| == 8 && |i| == |c| == 2
    ensures var y := t + i + c + ies + fcs; y[0..8] == t && y[8..10] == i && y[10..12] == c && y[12..12 + |ies|] == ies
  {
  }

  /** The elements that were stated are read; the packet learns from them what they state. */
  lemma AnnouncingBack(f: MgmtFrame, b: seq<u8>, h: nat, p: Packet)
    requires f.body.Announcing? && BodySound(f.body) && h <= |b| && b[h..] == BodyBytes(f.body)
    requires p.hdr.mode == WLAN_MODE_UNKNOWN
    ensures |b| >= h + 12 && Fits(Region(b, h + 12, |b| - h - 16)) && BeaconBody(b, |b|, h, p) == BodyRead(f, p)
  {
    var a := f.body;
    FixedFields(b, h, Le(a.tsf, 8), Le(a.interval, 2), Le(CapabWord(a.capab), 2), EncodeAll(ElementsOf(a.stated)), a.fcs);
    B.Le64Back(b, h, a.tsf);
    B.Le16Back(b, h + 8, a.interval);
    B.Le16Back(b, h + 10, CapabWord(a.capab));
    CapabBack(a.capab);
    ParserLearns(p.ie, a.stated);
  }

  lemma ProbingBack(f: MgmtFrame, b: seq<u8>, h: nat, p: Packet)
    requires f.body.Probing? && BodySound(f.body) && h <= |b| && b[h..] == BodyBytes(f.body)
    ensures var r := Region(b, h, |b| - h - 4); Fits(r) && Walk(p.ie, r) == LearntFrom(p.ie, f.body.stated)
  {
    var ies := EncodeAll(ElementsOf(f.body.stated));
    TailSlice(b, h, 0, |ies|);
    assert Region(b, h, |b| - h - 4) == ies;
    ParserLearns(p.ie, f.body.stated);
  }

  lemma MgmtContentsBack(f: MgmtFrame, b: seq<u8>, fc: u16, p: Packet)
    requires MgmtSound(f) && |b| >= 24 && Le16(b, 0) == fc && ReadingOf(fc) == ReadingFrom(f.control)
    requires MgmtHdrLen(fc) <= |b| && b[MgmtHdrLen(fc)..] == BodyBytes(f.body) && p.hdr.mode == WLAN_MODE_UNKNOWN
    ensures Readable(b, |b|) && MgmtContents(b, |b|, fc, p) == BodyRead(f, p)
  {
    match f.body
    case Announcing(_, _, _, _, _, _) => AnnouncingBack(f, b, MgmtHdrLen(fc), p);
    case Probing(_, _) => ProbingBack(f, b, MgmtHdrLen(fc), p);
    case Bytes(_, _) =>
  }

  lemma MgmtLayout(f: MgmtFrame)
    requires MgmtSound(f)
    ensures var b, fc := MgmtBytes(f), ControlWord(f.control);
      && |b| >= 24 && Le16(b, 0) == fc && ReadingOf(fc) == ReadingFrom(f.control) && Le16(b, 22) / 16 == f.seqno
      && Addr1(b) == f.a1 && Addr2(b) == f.a2 && Addr3(b) == f.a3
      && MgmtHdrLen(fc) <= |b| && b[MgmtHdrLen(fc)..] == BodyBytes(f.body)
  {
    var fc, sc := ControlWord(f.control), SeqControl(f.fragment, f.seqno);
    var htc := if f.control.order then f.htc else [];
    ControlBack(f.control);
    HeadFields(fc, f.duration, f.a1, f.a2, f.a3, sc, htc + BodyBytes(f.body));
    HeaderThenBody(Head(fc, f.duration, f.a1, f.a2, f.a3, sc), htc, BodyBytes(f.body));
    SeqBack(f.fragment, f.seqno);
  }

  /** The parser undoes the encoding of every management frame, and what the elements in it state is learnt. */
  lemma MgmtFrameBack(f: MgmtFrame, p: Packet)
    requires MgmtSound(f)
    ensures var b := MgmtBytes(f); Readable(b, |b|) && ParseHeader(b, |b|, p) == Parsed(0, MgmtRead(f, p))
  {
    var b, c, fc := MgmtBytes(f), f.control, ControlWord(f.control);
    MgmtLayout(f);
    var p1 := p.(hdr := p.hdr.(mode := WLAN_MODE_UNKNOWN, wlanType := 16 * c.subtype));
    var p2 := p1.(hdr := p1.hdr.(fromds := c.fromDs, tods := c.toDs, seqno := f.seqno, retry := c.retry || p.hdr.retry,
                                 len := |b|));
    MgmtContentsBack(f, b, fc, p2);
    MgmtParsed(f, b, fc, p1, p2);
    AddressesAside(f, p2, Addresses(f.a2, f.a1, f.a3));
  }

  lemma MgmtParsed(f: MgmtFrame, b: seq<u8>, fc: u16, p: Packet, q: Packet)
    requires MgmtSound(f) && Readable(b, |b|) && |b| >= 24 && |b| >= MgmtHdrLen(fc)
    requires Le16(b, 0) == fc && ReadingOf(fc) == ReadingFrom(f.control) && Le16(b, 22) / 16 == f.seqno
    requires Addr1(b) == f.a1 && Addr2(b) == f.a2 && Addr3(b) == f.a3
    requires q == p.(hdr := p.hdr.(fromds := f.control.fromDs, tods := f.control.toDs, seqno := f.seqno,
                                   retry := f.control.retry || p.hdr.retry, len := |b|))
    ensures ParseMgmt(b, |b|, fc, p) == Parsed(0, MgmtContents(b, |b|, fc, q).(addr := Addresses(f.a2, f.a1, f.a3)))
  {
  }

  lemma AddressesAside(f: MgmtFrame, p: Packet, a: Addresses)
    ensures BodyRead(f, p).(addr := a) == BodyRead(f, p.(addr := a))
  {
  }
}
