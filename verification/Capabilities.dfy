/**
 * What a station announces in its elements (IEEE 802.11-2016 sections 9.4.2.2, 9.4.2.4, 9.4.2.25, 9.4.2.26, 9.4.2.56, 9.4.2.57,
 * 9.4.2.158, 9.4.2.159 and 9.4.1.53): capability values, their encoding on the air, and the element parser of
 * core/wlan_parser.c as the way back.
 */
module Capabilities {
  import opened Elements
  import opened Wlan
  import C = Channels

  // ----- capability values -----

  /** The transmit side of an HT MCS set; `others` are the bits of its byte that nothing is read from. */
  datatype TxSet = Undefined(others: nat) | AsReceived(others: nat) | Streams(n: nat, others: nat)

  /** Where the secondary channel of HT operation lies; the code 2 is reserved. */
  datatype Secondary = NoSecondary | Above | ReservedOffset | Below

  /** The supported channel width set of VHT; the code 3 is reserved. */
  datatype VhtWidth = Only80 | Also160 | Also8080 | ReservedWidth

  /** The leading streams that are supported, each with a code 0, 1 or 2, and the bits behind the first unsupported one. */
  datatype StreamMap = StreamMap(codes: seq<nat>, others: nat)

  /**
   * One announcement. `low`, `high`, `two`, `three`, `unused` and `rest` are bits and bytes nothing is read from; `mcs` are the
   * rates of the leading streams of an HT MCS set, of which each supports some.
   */
  datatype Announcement =
    | Ssid(name: seq<u8>)
    | DsParameter(channel: u8, rest: seq<u8>)
    | HtCapability(forty: bool, low: nat, high: nat, two: seq<u8>, mcs: seq<u8>, unused: seq<u8>, tx: TxSet, rest: seq<u8>)
    | HtBrief(forty: bool, low: nat, high: nat, rest: seq<u8>)
    | HtOperation(primary: u8, secondary: Secondary, high: nat, rest: seq<u8>)
    | VhtCapability(width: VhtWidth, low: nat, high: nat, three: seq<u8>, rx: StreamMap, two: seq<u8>, txMap: StreamMap,
                    rest: seq<u8>)
    | VhtOperation(rest: seq<u8>)
    | VhtMode(rest: seq<u8>)
    | Rsn(rest: seq<u8>)
    | Wpa(rest: seq<u8>)
    | Vendor(oui: seq<u8>, kind: u8, rest: seq<u8>)
    | Truncated(id: u8, rest: seq<u8>)
    | Other(id: u8, rest: seq<u8>)

  const MICROSOFT: seq<u8> := [0x00, 0x50, 0xf2]

  predicate TxSound(tx: TxSet) {
    tx.others < (if tx.Undefined? then 128 else if tx.AsReceived? then 64 else 16) && (tx.Streams? ==> 1 <= tx.n <= 4)
  }

  predicate MapSound(m: StreamMap) {
    && |m.codes| <= 8 && (forall i :: 0 <= i < |m.codes| ==> m.codes[i] < 3)
    && m.others < if |m.codes| == 8 then 1 else Pow4(7 - |m.codes|)
  }

  predicate McsSound(mcs: seq<u8>, unused: seq<u8>) {
    && |mcs| <= 4 && (forall i :: 0 <= i < |mcs| ==> mcs[i] != 0)
    && |mcs| + |unused| == 12 && (|mcs| < 4 ==> unused[0] == 0)
  }

  /** Fields have their sizes. */
  predicate Sound(a: Announcement) {
    && (a.Ssid? ==> |a.name| < 256)
    && (a.HtCapability? ==>
          && a.low < 2 && a.high < 64 && |a.two| == 2 && McsSound(a.mcs, a.unused) && TxSound(a.tx) && |a.rest| >= 10)
    && (a.HtBrief? ==> a.low < 2 && a.high < 64 && |a.rest| < 25)
    && (a.HtOperation? ==> a.high < 64)
    && (a.VhtCapability? ==>
          && a.low < 4 && a.high < 16 && |a.three| == 3 && |a.two| == 2
          && MapSound(a.rx) && MapSound(a.txMap) && |a.rest| >= 2)
    && (a.Vendor? ==> |a.oui| == 3 && (a.oui != MICROSOFT || a.kind != 1))
    && (a.Truncated? ==> |a.rest| < if a.id == 61 then 2 else if a.id == 191 then 12 else if a.id == 221 then 4 else 0)
    && (a.Other? ==> a.id !in {0, 3, 45, 48, 61, 191, 192, 199, 221})
  }

  // ----- on the air -----

  function Pow4(n: nat): (p: nat)
    ensures p >= 1
  {
    if n == 0 then 1 else 4 * Pow4(n - 1)
  }

  /** Bit 1 is the channel width. */
  function HtInfo(forty: bool, low: nat, high: nat): nat {
    low + (if forty then 2 else 0) + 4 * high
  }

  /** Bit 0: the transmit set is defined; bit 1: and unlike the receive set; bits 2 and 3: its streams, less one. */
  function TxByte(tx: TxSet): u8
    requires TxSound(tx)
  {
    match tx
    case Undefined(others) => 2 * others
    case AsReceived(others) => 1 + 4 * others
    case Streams(n, others) => 3 + 4 * (n - 1) + 16 * others
  }

  function OffsetCode(s: Secondary): nat {
    match s
    case NoSecondary => 0
    case Above => 1
    case ReservedOffset => 2
    case Below => 3
  }

  function WidthCode(w: VhtWidth): nat {
    match w
    case Only80 => 0
    case Also160 => 1
    case Also8080 => 2
    case ReservedWidth => 3
  }

  /** Two bits a stream, for n streams; 3 stands for no support. */
  function Pack(codes: seq<nat>, others: nat, n: nat): nat
    decreases n
  {
    if n == 0 then 0
    else if codes == [] then 3 + 4 * others
    else codes[0] + 4 * Pack(codes[1..], others, n - 1)
  }

  lemma {:induction false} PackFits(codes: seq<nat>, others: nat, n: nat)
    requires |codes| <= n && forall i :: 0 <= i < |codes| ==> codes[i] < 3
    requires others < if |codes| == n then 1 else Pow4(n - |codes| - 1)
    ensures Pack(codes, others, n) < Pow4(n)
    decreases n
  {
    if codes != [] {
      PackFits(codes[1..], others, n - 1);
    }
  }

  lemma Pow4Of8()
    ensures Pow4(8) == 0x1_0000
  {
    assert Pow4(4) == 256;
  }

  /** A stream map as a little-endian field. */
  function MapBytes(m: StreamMap): (r: seq<u8>)
    requires MapSound(m)
    ensures |r| == 2
  {
    PackFits(m.codes, m.others, 8);
    Pow4Of8();
    var x := Pack(m.codes, m.others, 8);
    [x % 256, x / 256]
  }

  /** The element that makes an announcement. */
  function ElementOf(a: Announcement): Element
    requires Sound(a)
  {
    match a
    case Ssid(name) => Element(0, name)
    case DsParameter(channel, rest) => Element(3, [channel] + rest)
    case HtCapability(forty, low, high, two, mcs, unused, tx, rest) =>
      Element(45, [HtInfo(forty, low, high)] + two + (mcs + unused) + [TxByte(tx)] + rest)
    case HtBrief(forty, low, high, rest) => Element(45, [HtInfo(forty, low, high)] + rest)
    case HtOperation(primary, secondary, high, rest) => Element(61, [primary, OffsetCode(secondary) + 4 * high] + rest)
    case VhtCapability(width, low, high, three, rx, two, tx, rest) =>
      Element(191, [low + 4 * WidthCode(width) + 16 * high] + three + MapBytes(rx) + two + MapBytes(tx) + rest)
    case VhtOperation(rest) => Element(192, rest)
    case VhtMode(rest) => Element(199, rest)
    case Rsn(rest) => Element(48, rest)
    case Wpa(rest) => Element(221, MICROSOFT + [1] + rest)
    case Vendor(oui, kind, rest) => Element(221, oui + [kind] + rest)
    case Truncated(id, rest) => Element(id, rest)
    case Other(id, rest) => Element(id, rest)
  }

  // ----- what a packet learns -----

  function WidthOf(w: VhtWidth): nat {
    match w
    case Only80 => C.CHAN_WIDTH_80
    case Also160 => C.CHAN_WIDTH_160
    case Also8080 => C.CHAN_WIDTH_8080
    case ReservedWidth => 0
  }

  function HtWidthOf(forty: bool): nat {
    if forty then C.CHAN_WIDTH_40 else C.CHAN_WIDTH_20
  }

  function Learnt(p: IeInfo, a: Announcement): IeInfo
    requires Sound(a)
  {
    match a
    case Ssid(name) => p.(essid := SetEssid(p.essid, |name|, name))
    case DsParameter(channel, _) => p.(channel := channel)
    case HtCapability(forty, _, _, _, mcs, _, tx, _) =>
      p.(chanWidth := HtWidthOf(forty), rxStreams := |mcs|,
         txStreams := match tx case Undefined(_) => p.txStreams case AsReceived(_) => |mcs| case Streams(n, _) => n)
    case HtBrief(forty, _, _, _) => p.(chanWidth := HtWidthOf(forty))
    case HtOperation(_, NoSecondary, _, _) => p.(chanWidth := C.CHAN_WIDTH_20)
    case HtOperation(_, Above, _, _) => p.(ht40plus := true)
    case HtOperation(_, Below, _, _) => p.(ht40plus := false)
    case HtOperation(_, ReservedOffset, _, _) => p
    case VhtCapability(width, _, _, _, rx, _, tx, _) =>
      p.(chanWidth := WidthOf(width), rxStreams := |rx.codes|, txStreams := |tx.codes|)
    case VhtOperation(_) => p.(chanWidth := C.CHAN_WIDTH_80)
    case VhtMode(_) => p.(chanWidth := C.CHAN_WIDTH_80)
    case Rsn(_) => p.(rsn := true)
    case Wpa(_) => p.(wpa := true)
    case Vendor(_, _, _) => p
    case Truncated(_, _) => p
    case Other(_, _) => p
  }

  // ----- the way back, one element -----

  lemma {:induction false} TwoBitsOfPack(codes: seq<nat>, others: nat, n: nat, i: nat)
    requires |codes| <= n && i < n && i <= |codes| && forall k :: 0 <= k < |codes| ==> codes[k] < 3
    ensures TwoBits(Pack(codes, others, n), i) == if i < |codes| then codes[i] else 3
    decreases n
  {
    if codes != [] {
      var x := Pack(codes[1..], others, n - 1);
      assert (codes[0] + 4 * x) % 4 == codes[0] && (codes[0] + 4 * x) / 4 == x;
      if i > 0 {
        TwoBitsOfPack(codes[1..], others, n - 1, i - 1);
      }
    }
  }

  /** The supported streams are counted. */
  lemma MapBack(m: StreamMap, lo: u8, hi: u8)
    requires MapSound(m) && [lo, hi] == MapBytes(m)
    ensures VhtStreams(Pair(lo, hi), 0) == |m.codes|
  {
    var x := Pack(m.codes, m.others, 8);
    assert Pair(lo, hi) == x;
    var r := VhtStreams(x, 0);
    if r < |m.codes| {
      TwoBitsOfPack(m.codes, m.others, 8, r);
    } else if |m.codes| < 8 {
      TwoBitsOfPack(m.codes, m.others, 8, |m.codes|);
    }
  }

  lemma TxBack(tx: TxSet, mcs: seq<u8>, before: u8)
    requires TxSound(tx) && |mcs| >= 13 && mcs[12] == TxByte(tx)
    ensures HtStreams(mcs, before).1 ==
      match tx case Undefined(_) => before case AsReceived(_) => HtStreams(mcs, before).0 case Streams(n, _) => n
  {
  }

  lemma McsBack(mcs: seq<u8>, unused: seq<u8>, tail: seq<u8>)
    requires McsSound(mcs, unused)
    ensures HtRxStreams((mcs + unused) + tail, 0) == |mcs|
  {
    var s := (mcs + unused) + tail;
    assert forall i :: 0 <= i < |mcs| ==> s[i] == mcs[i];
    if |mcs| < 4 {
      assert s[|mcs|] == unused[0];
    }
  }

  lemma HtBits(forty: bool, low: nat, high: nat)
    requires low < 2 && high < 64
    ensures HtInfo(forty, low, high) < 256 && (HtInfo(forty, low, high) / 2 % 2 == 1 <==> forty)
  {
  }

  /** The announcement fits its element, whose length is one byte. */
  predicate Fitting(a: Announcement) {
    Sound(a) && |ElementOf(a).body| < 256
  }

  lemma HtLayout(info: nat, two: seq<u8>, set_: seq<u8>, tx: u8, rest: seq<u8>)
    requires info < 256 && |two| == 2 && |set_| == 12 && |rest| >= 10
    ensures var b := [info] + two + set_ + [tx] + rest + [0];
      |b| >= 27 && b[0] == info && b[3..16] == set_ + [tx] && b[3..16][12] == tx
  {
  }

  lemma HtBack(p: IeInfo, a: Announcement)
    requires a.HtCapability? && Fitting(a)
    ensures Apply(p, ElementOf(a)) == Learnt(p, a)
  {
    HtBits(a.forty, a.low, a.high);
    HtLayout(HtInfo(a.forty, a.low, a.high), a.two, a.mcs + a.unused, TxByte(a.tx), a.rest);
    McsBack(a.mcs, a.unused, [TxByte(a.tx)]);
    TxBack(a.tx, (a.mcs + a.unused) + [TxByte(a.tx)], p.txStreams);
  }

  lemma VhtLayout(info: nat, three: seq<u8>, rx: seq<u8>, two: seq<u8>, tx: seq<u8>, rest: seq<u8>)
    requires info < 256 && |three| == 3 && |rx| == 2 && |two| == 2 && |tx| == 2 && |rest| >= 2
    ensures var b := [info] + three + rx + two + tx + rest + [0];
      |b| >= 13 && b[0] == info && [b[4], b[5]] == rx && [b[8], b[9]] == tx
  {
  }

  lemma VhtBits(width: VhtWidth, low: nat, high: nat)
    requires low < 4 && high < 16
    ensures var b := low + 4 * WidthCode(width) + 16 * high; b < 256 && WidthFromVhtCapab(b) == WidthOf(width)
  {
  }

  lemma VhtBack(p: IeInfo, a: Announcement)
    requires a.VhtCapability? && Fitting(a)
    ensures Apply(p, ElementOf(a)) == Learnt(p, a)
  {
    var rx, tx := MapBytes(a.rx), MapBytes(a.txMap);
    VhtBits(a.width, a.low, a.high);
    VhtLayout(a.low + 4 * WidthCode(a.width) + 16 * a.high, a.three, rx, a.two, tx, a.rest);
    MapBack(a.rx, rx[0], rx[1]);
    MapBack(a.txMap, tx[0], tx[1]);
  }

  lemma OperationBits(secondary: Secondary, high: nat)
    requires high < 64
    ensures var b := OffsetCode(secondary) + 4 * high; b < 256 && b % 4 == OffsetCode(secondary)
  {
  }

  lemma VendorBack(p: IeInfo, a: Announcement)
    requires (a.Wpa? || a.Vendor?) && Fitting(a)
    ensures Apply(p, ElementOf(a)) == Learnt(p, a)
  {
    var b := ElementOf(a).body + [0];
    if a.Vendor? {
      assert b[0] == a.oui[0] && b[1] == a.oui[1] && b[2] == a.oui[2] && b[3] == a.kind;
      assert b[0] == 0 && b[1] == 0x50 && b[2] == 0xf2 ==> a.oui == MICROSOFT;
    }
  }

  /** Reading an announced element gives the announced values back, and nothing else changes. */
  lemma AnnouncementBack(p: IeInfo, a: Announcement)
    requires Fitting(a)
    ensures Apply(p, ElementOf(a)) == Learnt(p, a)
  {
    match a
    case HtCapability(_, _, _, _, _, _, _, _) => HtBack(p, a);
    case VhtCapability(_, _, _, _, _, _, _, _) => VhtBack(p, a);
    case HtOperation(_, secondary, high, _) => OperationBits(secondary, high);
    case HtBrief(forty, low, high, _) => HtBits(forty, low, high);
    case Wpa(_) => VendorBack(p, a);
    case Vendor(_, _, _) => VendorBack(p, a);
    case Ssid(name) => SsidLocal(p.essid, name);
    case _ =>
  }

  lemma SsidLocal(essid: EssidBuf, name: seq<u8>)
    requires |name| < 256
    ensures SetEssid(essid, |name|, name + [0]) == SetEssid(essid, |name|, name)
  {
    if |name| < 33 {
      assert (name + [0])[..|name|] == name[..|name|];
    } else {
      assert (name + [0])[..33] == name[..33];
    }
  }

  // ----- the way back, a list of elements -----

  type Stated = a: Announcement | Fitting(a) witness Rsn([])

  function StatedElement(a: Stated): (e: Element)
    ensures |e.body| < 256 && Definite(e)
  {
    ElementOf(a)
  }

  function LearntBy(p: IeInfo, a: Stated): IeInfo {
    Learnt(p, a)
  }

  function ElementsOf(s: seq<Stated>): (es: seq<Element>)
    ensures |es| == |s| && forall i :: 0 <= i < |s| ==> es[i] == StatedElement(s[i])
  {
    if s == [] then [] else [StatedElement(s[0])] + ElementsOf(s[1..])
  }

  /** What a packet learns from a list of announcements, one after the other. */
  function LearntFrom(p: IeInfo, s: seq<Stated>): IeInfo
    decreases |s|
  {
    if s == [] then p else LearntFrom(LearntBy(p, s[0]), s[1..])
  }

  lemma {:induction false} FoldLearns(p: IeInfo, s: seq<Stated>)
    ensures AllEncodable(ElementsOf(s)) && Fold(p, ElementsOf(s)) == LearntFrom(p, s)
    decreases |s|
  {
    if s != [] {
      AnnouncementBack(p, s[0]);
      FoldLearns(LearntBy(p, s[0]), s[1..]);
      assert ElementsOf(s)[1..] == ElementsOf(s[1..]);
    }
  }

  /** The parser undoes the encoding: what a list of elements announces is what it leaves in the packet. */
  lemma ParserLearns(p: IeInfo, s: seq<Stated>)
    requires s != [] ==> StatedElement(s[|s| - 1]).body != []
    ensures AllEncodable(ElementsOf(s)) && Fits(EncodeAll(ElementsOf(s)))
    ensures Walk(p, EncodeAll(ElementsOf(s))) == LearntFrom(p, s)
  {
    FoldLearns(p, s);
    WalkIsFold(p, ElementsOf(s));
  }

  // ----- every element is an announcement -----

  lemma {:induction false} Unpack(x: nat, n: nat) returns (codes: seq<nat>, others: nat)
    requires x < Pow4(n)
    ensures |codes| <= n && (forall i :: 0 <= i < |codes| ==> codes[i] < 3)
    ensures others < if |codes| == n then 1 else Pow4(n - |codes| - 1)
    ensures Pack(codes, others, n) == x
    decreases n
  {
    if n == 0 {
      codes, others := [], 0;
    } else if x % 4 == 3 {
      codes, others := [], x / 4;
    } else {
      var tail;
      tail, others := Unpack(x / 4, n - 1);
      codes := [x % 4] + tail;
      assert codes[1..] == tail;
    }
  }

  lemma MapOfBytes(lo: u8, hi: u8) returns (m: StreamMap)
    ensures MapSound(m) && MapBytes(m) == [lo, hi]
  {
    Pow4Of8();
    PairDigits(lo, hi);
    var codes, others := Unpack(lo + 256 * hi, 8);
    m := StreamMap(codes, others);
  }

  lemma PairDigits(lo: u8, hi: u8)
    ensures var x := lo + 256 * hi; x < 0x1_0000 && x % 256 == lo && x / 256 == hi
  {
  }

  lemma TxOfByte(b: u8) returns (tx: TxSet)
    ensures TxSound(tx) && TxByte(tx) == b
  {
    if b % 2 == 0 {
      tx := Undefined(b / 2);
    } else if b / 2 % 2 == 0 {
      tx := AsReceived(b / 4);
    } else {
      tx := Streams(b / 4 % 4 + 1, b / 16);
    }
  }

  lemma McsOfBytes(s: seq<u8>) returns (mcs: seq<u8>, unused: seq<u8>)
    requires |s| == 12
    ensures McsSound(mcs, unused) && mcs + unused == s
  {
    var r := HtRxStreams(s, 0);
    mcs, unused := s[..r], s[r..];
  }

  lemma InfoOfByte(b: u8) returns (forty: bool, low: nat, high: nat)
    ensures low < 2 && high < 64 && HtInfo(forty, low, high) == b
  {
    forty, low, high := b / 2 % 2 == 1, b % 2, b / 4;
  }

  lemma HtOfBody(body: seq<u8>) returns (a: Announcement)
    requires body != []
    ensures Sound(a) && ElementOf(a) == Element(45, body)
  {
    var forty, low, high := InfoOfByte(body[0]);
    if |body| < 26 {
      a := HtBrief(forty, low, high, body[1..]);
      assert ElementOf(a).body == body;
    } else {
      var mcs, unused := McsOfBytes(body[3..15]);
      var tx := TxOfByte(body[15]);
      a := HtCapability(forty, low, high, body[1..3], mcs, unused, tx, body[16..]);
      assert ElementOf(a).body == body;
    }
  }

  lemma OperationOfBody(body: seq<u8>) returns (a: Announcement)
    ensures Sound(a) && ElementOf(a) == Element(61, body)
  {
    if |body| < 2 {
      a := Truncated(61, body);
    } else {
      var x := body[1] % 4;
      var s := if x == 0 then NoSecondary else if x == 1 then Above else if x == 2 then ReservedOffset else Below;
      a := HtOperation(body[0], s, body[1] / 4, body[2..]);
      assert ElementOf(a).body == body;
    }
  }

  lemma VhtOfBody(body: seq<u8>) returns (a: Announcement)
    ensures Sound(a) && ElementOf(a) == Element(191, body)
  {
    if |body| < 12 {
      a := Truncated(191, body);
    } else {
      var width, low, high := VhtInfoOfByte(body[0]);
      var rx := MapOfBytes(body[4], body[5]);
      var tx := MapOfBytes(body[8], body[9]);
      a := VhtCapability(width, low, high, body[1..4], rx, body[6..8], tx, body[10..]);
      VhtPieces(body);
    }
  }

  lemma VhtInfoOfByte(b: u8) returns (width: VhtWidth, low: nat, high: nat)
    ensures low < 4 && high < 16 && low + 4 * WidthCode(width) + 16 * high == b
  {
    var x := b / 4 % 4;
    width := if x == 0 then Only80 else if x == 1 then Also160 else if x == 2 then Also8080 else ReservedWidth;
    low, high := b % 4, b / 16;
  }

  lemma VhtPieces(body: seq<u8>)
    requires |body| >= 12
    ensures [body[0]] + body[1..4] + [body[4], body[5]] + body[6..8] + [body[8], body[9]] + body[10..] == body
  {
  }

  lemma VendorOfBody(body: seq<u8>) returns (a: Announcement)
    ensures Sound(a) && ElementOf(a) == Element(221, body)
  {
    if |body| < 4 {
      a := Truncated(221, body);
    } else {
      a := if body[..3] == MICROSOFT && body[3] == 1 then Wpa(body[4..]) else Vendor(body[..3], body[3], body[4..]);
      assert ElementOf(a).body == body;
    }
  }

  /** Nothing is left open: every element the parser handles on its own makes one of these announcements. */
  lemma EveryElementAnnounces(e: Element) returns (a: Announcement)
    requires |e.body| < 256 && Definite(e)
    ensures Fitting(a) && ElementOf(a) == e
  {
    if e.id == 0 {
      a := Ssid(e.body);
    } else if e.id == 3 {
      a := DsParameter(e.body[0], e.body[1..]);
    } else if e.id == 45 {
      a := HtOfBody(e.body);
    } else if e.id == 61 {
      a := OperationOfBody(e.body);
    } else if e.id == 191 {
      a := VhtOfBody(e.body);
    } else if e.id == 221 {
      a := VendorOfBody(e.body);
    } else {
      a := if e.id == 192 then VhtOperation(e.body) else if e.id == 199 then VhtMode(e.body)
        else if e.id == 48 then Rsn(e.body) else Other(e.id, e.body);
    }
  }
}
