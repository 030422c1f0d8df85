/** What core/node.c records about a node from the frames it sent or was sent. */
module NodeInfo {
  import opened Options
  import opened Wlan
  import Ewma

  // The logarithms of 1024 and 8, the factor and the weight of a node's signal average.
  const SIG_FACTOR: nat := 10
  const SIG_WEIGHT: nat := 3

  datatype Ident = Ident(src: Mac, bssid: Mac, mode: Bits, channel: u32)
  datatype Seen = Seen(lastSeen: u32, pktTypes: Bits, pktCount: u32, rxPktCount: u32, rxOnly: bool)
  datatype Signal = Signal(rateLast: u32, last: int, max: int, avg: Ewma.u64, sum: Ewma.u64, count: int)
  datatype Retries = Retries(all: u32, last: u32, seqno: u32)
  datatype BeaconInfo = BeaconInfo(tsf: u64, bintval: u32, wpa: bool, rsn: bool)
  datatype Misc = Misc(wep: bool, chanWidth: nat, txStreams: u8, rxStreams: u8, std: nat, ht40plus: bool,
                       batGw: bool, ipSrc: u32, olsrNeigh: u32, olsrTc: u32)

  /** The fields of struct uwifi_node that are not pointers. */
  datatype Info = Info(id: Ident, seen: Seen, sig: Signal, retries: Retries, beacon: BeaconInfo, misc: Misc)

  /** The record of a node whose memory was just cleared. */
  const ZERO_INFO := Info(Ident(NO_MAC, NO_MAC, {}, 0), Seen(0, {}, 0, 0, false), Signal(0, 0, 0, 0, 0, 0), Retries(0, 0, 0),
                          BeaconInfo(0, 0, false, false), Misc(false, 0, 0, 0, 0, false, false, 0, 0, 0))

  /** Truncation to unsigned int. */
  function U32(x: int): u32 {
    x % 0x1_0000_0000
  }

  predicate Is(mode: Bits, flag: Bits) {
    mode * flag != {}
  }

  predicate BadFcs(p: Packet) {
    p.meta.flags * PHY_FLAG_BADFCS != {}
  }

  predicate BeaconLike(t: u16) {
    t == BEACON || t == PROBE_RESP
  }

  /** Frame types that tell whether WEP is on. */
  predicate TellsWep(t: u16) {
    || t == DATA || t == QDATA || t == AUTH || t == BEACON || t == PROBE_RESP
    || t == DATA_CF_ACK || t == DATA_CF_POLL || t == DATA_CF_ACKPOLL
    || t == QDATA_CF_ACK || t == QDATA_CF_POLL || t == QDATA_CF_ACKPOLL
  }

  // ----- a frame sent by the node: copy_nodeinfo -----

  /** The channel: from the beacon, else from the AP of a station, else only if still unknown. */
  function ChannelAfter(mode: Bits, channel: u32, p: Packet, beacon: bool, ap: Option<u32>): u32 {
    if beacon then p.ie.channel
    else if Is(mode, WLAN_MODE_STA) && ap.Some? then ap.value
    else if channel == 0 && p.ie.channel != 0 then p.ie.channel
    else channel
  }

  function TxIdent(i: Ident, p: Packet, ap: Option<u32>): Ident {
    var mode := i.mode + p.hdr.mode;
    Ident(p.addr.ta, if p.addr.bssid != NO_MAC then p.addr.bssid else i.bssid, mode,
          ChannelAfter(mode, i.channel, p, BeaconLike(p.hdr.wlanType), ap))
  }

  function TxSeen(s: Seen, p: Packet, now: u32): Seen {
    Seen(now, s.pktTypes + p.meta.pktTypes, U32(s.pktCount + 1), s.rxPktCount, false)
  }

  /** A signal with its sign changed, converted to unsigned long. */
  function Sample(signal: int): Ewma.u64 {
    Ewma.Word(-signal)
  }

  function TxSignal(s: Signal, p: Packet): Signal {
    Signal(p.meta.rate, p.meta.signal, if p.meta.signal > s.max || s.max == 0 then p.meta.signal else s.max,
           Ewma.AddWord(s.avg, SIG_FACTOR, SIG_WEIGHT, Sample(p.meta.signal)), Ewma.Word(s.sum - p.meta.signal), s.count + 1)
  }

  function TxRetries(r: Retries, p: Packet): Retries {
    if p.hdr.seqno == 0 then r
    else if p.hdr.retry && p.hdr.seqno == r.seqno then Retries(U32(r.all + 1), U32(r.last + 1), p.hdr.seqno)
    else Retries(r.all, 0, p.hdr.seqno)
  }

  function TxBeacon(b: BeaconInfo, p: Packet): BeaconInfo {
    if BeaconLike(p.hdr.wlanType) then BeaconInfo(p.tsf, p.bintval, p.ie.wpa, p.ie.rsn) else b
  }

  /** The standard guessed from channel width, rate and frame type. */
  function GuessStd(p: Packet): nat {
    Max(Max(StdFromChan(p.ie.chanWidth, p.ie.channel), StdFromRate(p.meta.rateIdx, p.ie.channel)), StdFromType(p.hdr.wlanType))
  }

  function TxMisc(m: Misc, p: Packet): Misc {
    Misc(if TellsWep(p.hdr.wlanType) then p.hdr.wep else m.wep,
         Max(p.ie.chanWidth, m.chanWidth),
         if p.ie.txStreams != 0 then p.ie.txStreams else m.txStreams,
         if p.ie.rxStreams != 0 then p.ie.rxStreams else m.rxStreams,
         Max(m.std, GuessStd(p)),
         p.ie.ht40plus || m.ht40plus,
         p.meta.batGw || m.batGw,
         if p.meta.ipSrc != 0 then p.meta.ipSrc else m.ipSrc,
         if p.meta.olsrNeigh != 0 then p.meta.olsrNeigh else m.olsrNeigh,
         if p.meta.olsrTc != 0 then p.meta.olsrTc else m.olsrTc)
  }

  /** copy_nodeinfo; ap is the channel of the node's AP, if it has one. */
  function Tx(i: Info, p: Packet, now: u32, ap: Option<u32>): Info {
    Info(TxIdent(i.id, p, ap), TxSeen(i.seen, p, now), TxSignal(i.sig, p), TxRetries(i.retries, p), TxBeacon(i.beacon, p),
         TxMisc(i.misc, p))
  }

  // ----- a frame sent to the node: copy_rx_nodeinfo -----

  /** The receiver of an AP's frame is a station and vice versa. */
  function RxMode(mode: Bits, p: Packet): Bits {
    if p.hdr.mode == WLAN_MODE_AP then WLAN_MODE_STA
    else if p.hdr.mode == WLAN_MODE_STA then WLAN_MODE_AP
    else if p.hdr.mode == WLAN_MODE_IBSS then WLAN_MODE_IBSS
    else mode
  }

  function RxIdent(i: Ident, p: Packet, ap: Option<u32>): Ident {
    var mode := RxMode(i.mode, p);
    Ident(p.addr.ra, if p.addr.bssid != NO_MAC then p.addr.bssid else i.bssid, mode, ChannelAfter(mode, i.channel, p, false, ap))
  }

  function RxSeen(s: Seen, p: Packet, now: u32): Seen {
    Seen(now, s.pktTypes + p.meta.pktTypes, s.pktCount, U32(s.rxPktCount + 1), s.rxOnly)
  }

  function Rx(i: Info, p: Packet, now: u32, ap: Option<u32>): Info {
    i.(id := RxIdent(i.id, p, ap), seen := RxSeen(i.seen, p, now),
       misc := i.misc.(wep := if TellsWep(p.hdr.wlanType) then p.hdr.wep else i.misc.wep))
  }

  // ----- a node's record is the fold of its frames -----

  /** One frame of a node's history: its direction, arrival time and the channel of the node's AP at that moment. */
  datatype Frame = Frame(sent: bool, p: Packet, now: u32, ap: Option<u32>)

  function After(i: Info, f: Frame): Info {
    if f.sent then Tx(i, f.p, f.now, f.ap) else Rx(i, f.p, f.now, f.ap)
  }

  /** A new node: all zero, but marked receive-only if it was first heard as a receiver. */
  function Fresh(sent: bool): Info {
    if sent then ZERO_INFO else ZERO_INFO.(seen := ZERO_INFO.seen.(rxOnly := true))
  }

  function Fold(h: seq<Frame>): Info
    requires h != []
  {
    After(if |h| == 1 then Fresh(h[0].sent) else Fold(h[..|h| - 1]), h[|h| - 1])
  }

  /** The packets the node sent. */
  function Sent(h: seq<Frame>): (r: seq<Packet>)
    ensures |r| <= |h|
  {
    if h == [] then []
    else Sent(h[..|h| - 1]) + if h[|h| - 1].sent then [h[|h| - 1].p] else []
  }

  function Last<T>(s: seq<T>): T
    requires s != []
  {
    s[|s| - 1]
  }

  function Front<T>(s: seq<T>): seq<T>
    requires s != []
  {
    s[..|s| - 1]
  }

  /** Signal and retry records depend on the sent packets alone. */
  function SignalOf(s: seq<Packet>): Signal {
    if s == [] then ZERO_INFO.sig else TxSignal(SignalOf(Front(s)), Last(s))
  }

  function RetriesOf(s: seq<Packet>): Retries {
    if s == [] then ZERO_INFO.retries else TxRetries(RetriesOf(Front(s)), Last(s))
  }

  /** What one frame does to the records that are counted below. */
  lemma AfterFrame(i: Info, f: Frame)
    ensures After(i, f).sig == if f.sent then TxSignal(i.sig, f.p) else i.sig
    ensures After(i, f).retries == if f.sent then TxRetries(i.retries, f.p) else i.retries
    ensures After(i, f).seen == if f.sent then TxSeen(i.seen, f.p, f.now) else RxSeen(i.seen, f.p, f.now)
  {
  }

  /** The record before the last frame of a history. */
  function Before(h: seq<Frame>): Info
    requires h != []
  {
    if |h| == 1 then Fresh(h[0].sent) else Fold(Front(h))
  }

  lemma {:induction false} FoldsSent(h: seq<Frame>)
    requires h != []
    ensures Fold(h).sig == SignalOf(Sent(h)) && Fold(h).retries == RetriesOf(Sent(h))
  {
    var pre := Front(h);
    if pre != [] {
      FoldsSent(pre);
    }
    OneMore(h);
  }

  lemma OneMore(h: seq<Frame>)
    requires h != [] && Before(h).sig == SignalOf(Sent(Front(h))) && Before(h).retries == RetriesOf(Sent(Front(h)))
    ensures Fold(h).sig == SignalOf(Sent(h)) && Fold(h).retries == RetriesOf(Sent(h))
  {
    SentOneMore(h);
    FoldLast(h);
  }

  lemma SentOneMore(h: seq<Frame>)
    requires h != []
    ensures var pre, f := Sent(Front(h)), Last(h);
      && SignalOf(Sent(h)) == (if f.sent then TxSignal(SignalOf(pre), f.p) else SignalOf(pre))
      && RetriesOf(Sent(h)) == (if f.sent then TxRetries(RetriesOf(pre), f.p) else RetriesOf(pre))
  {
    assert Front(h) + [Last(h)] == h;
    SentAppend(Front(h), Last(h));
    if Last(h).sent {
      SentStep(Sent(Front(h)), Last(h).p);
    }
  }

  lemma FoldLast(h: seq<Frame>)
    requires h != []
    ensures Fold(h).sig == (if Last(h).sent then TxSignal(Before(h).sig, Last(h).p) else Before(h).sig)
    ensures Fold(h).retries == (if Last(h).sent then TxRetries(Before(h).retries, Last(h).p) else Before(h).retries)
  {
    AfterFrame(Before(h), Last(h));
  }

  lemma SentAppend(h: seq<Frame>, f: Frame)
    ensures Sent(h + [f]) == if f.sent then Sent(h) + [f.p] else Sent(h)
  {
    assert (h + [f])[..|h|] == h;
  }

  lemma SentStep(s: seq<Packet>, p: Packet)
    ensures SignalOf(s + [p]) == TxSignal(SignalOf(s), p) && RetriesOf(s + [p]) == TxRetries(RetriesOf(s), p)
  {
    assert Front(s + [p]) == s && Last(s + [p]) == p;
  }

  /** Packet counts, the receive-only mark and the time last seen. */
  lemma {:induction false} CountsFrames(h: seq<Frame>)
    requires h != [] && |h| < 0x1_0000_0000
    ensures var seen := Fold(h).seen;
      && seen.pktCount == |Sent(h)|
      && seen.rxPktCount == |h| - |Sent(h)|
      && (seen.rxOnly <==> seen.pktCount == 0)
      && seen.lastSeen == Last(h).now
  {
    if |h| > 1 {
      CountsFrames(Front(h));
    }
    AfterFrame(Before(h), Last(h));
    SeenStep(Before(h).seen, Last(h), |h| - 1, |Sent(Front(h))|);
  }

  lemma SeenStep(s: Seen, f: Frame, n: nat, sent: nat)
    requires sent <= n < 0xffff_ffff && s.pktCount == sent && s.rxPktCount == n - sent
    ensures var s' := if f.sent then TxSeen(s, f.p, f.now) else RxSeen(s, f.p, f.now);
      && s'.pktCount == sent + (if f.sent then 1 else 0) && s'.rxPktCount == n - sent + (if f.sent then 0 else 1)
      && s'.rxOnly == (s.rxOnly && !f.sent) && s'.lastSeen == f.now
  {
  }

  /** Every sent packet contributes one signal sample. */
  lemma {:induction false} CountsSamples(s: seq<Packet>)
    ensures SignalOf(s).count == |s|
  {
    if s != [] {
      CountsSamples(Front(s));
    }
  }

  // what accumulates

  /** The frames of a history have packet type b among them. */
  ghost predicate HasType(h: seq<Frame>, b: nat) {
    exists k :: 0 <= k < |h| && b in h[k].p.meta.pktTypes
  }

  lemma HasTypeLast(h: seq<Frame>, b: nat)
    requires h != []
    ensures HasType(h, b) <==> HasType(Front(h), b) || b in Last(h).p.meta.pktTypes
  {
    var m := |h| - 1;
    if k :| 0 <= k < m && b in Front(h)[k].p.meta.pktTypes {
      assert b in h[k].p.meta.pktTypes;
    }
    if k :| 0 <= k < |h| && b in h[k].p.meta.pktTypes {
      assert k < m ==> b in Front(h)[k].p.meta.pktTypes;
    }
    assert Last(h) == h[m];
  }

  lemma FoldTypes(h: seq<Frame>)
    requires h != []
    ensures Fold(h).seen.pktTypes == Before(h).seen.pktTypes + Last(h).p.meta.pktTypes
  {
    AfterFrame(Before(h), Last(h));
  }

  /** The packet types seen are those of all frames, sent or received. */
  lemma {:induction false} TypesAreUnion(h: seq<Frame>, b: nat)
    requires h != []
    ensures b in Fold(h).seen.pktTypes <==> HasType(h, b)
  {
    if |h| > 1 {
      TypesAreUnion(Front(h), b);
    }
    HasTypeLast(h, b);
    FoldTypes(h);
  }

  /** Capabilities and beacon data, folded over the sent packets. */
  function MiscOf(s: seq<Packet>): Misc {
    if s == [] then ZERO_INFO.misc else TxMisc(MiscOf(Front(s)), Last(s))
  }

  function BeaconOf(s: seq<Packet>): BeaconInfo {
    if s == [] then ZERO_INFO.beacon else TxBeacon(BeaconOf(Front(s)), Last(s))
  }

  /** The beacon data are those of the latest Beacon or Probe Response the node sent. */
  function LatestBeacon(s: seq<Packet>): Option<Packet> {
    if s == [] then None
    else if BeaconLike(Last(s).hdr.wlanType) then Some(Last(s))
    else LatestBeacon(Front(s))
  }

  lemma {:induction false} BeaconIsLatest(s: seq<Packet>)
    ensures var b := LatestBeacon(s);
      BeaconOf(s) == if b.None? then ZERO_INFO.beacon else BeaconInfo(b.value.tsf, b.value.bintval, b.value.ie.wpa, b.value.ie.rsn)
  {
    if s != [] {
      BeaconIsLatest(Front(s));
    }
  }

  /** The channel width is the greatest of all sent packets, and HT40+ is set once one of them had it. */
  lemma {:induction false} CapabilitiesAccumulate(s: seq<Packet>)
    ensures forall k :: 0 <= k < |s| ==> s[k].ie.chanWidth <= MiscOf(s).chanWidth
    ensures MiscOf(s).chanWidth == 0 || exists k :: 0 <= k < |s| && s[k].ie.chanWidth == MiscOf(s).chanWidth
    ensures MiscOf(s).ht40plus <==> exists k :: 0 <= k < |s| && s[k].ie.ht40plus
  {
    if s != [] {
      var pre, m := Front(s), |s| - 1;
      CapabilitiesAccumulate(pre);
      assert forall k :: 0 <= k < m ==> pre[k] == s[k];
      assert s[m] == Last(s);
    }
  }

  /** The standard is the greatest one guessed from a sent packet. */
  lemma {:induction false} StandardIsGreatest(s: seq<Packet>)
    ensures forall k :: 0 <= k < |s| ==> GuessStd(s[k]) <= MiscOf(s).std
    ensures MiscOf(s).std == 0 || exists k :: 0 <= k < |s| && GuessStd(s[k]) == MiscOf(s).std
  {
    if s != [] {
      var pre, m := Front(s), |s| - 1;
      StandardIsGreatest(pre);
      assert forall k :: 0 <= k < m ==> pre[k] == s[k];
      assert s[m] == Last(s);
    }
  }

  /** The transmit streams are those of the latest sent packet that names any; k is -1 if none does. */
  lemma {:induction false} TxStreamsAreLatest(s: seq<Packet>, k: int)
    requires -1 <= k < |s| && (k >= 0 ==> s[k].ie.txStreams != 0)
    requires forall j :: k < j < |s| ==> s[j].ie.txStreams == 0
    ensures MiscOf(s).txStreams == if k < 0 then 0 else s[k].ie.txStreams
  {
    if k < |s| - 1 {
      TxStreamsAreLatest(Front(s), k);
    }
  }

  /** The receive streams, whatever the same packets say about the transmit streams. */
  lemma {:induction false} RxStreamsAreLatest(s: seq<Packet>, k: int)
    requires -1 <= k < |s| && (k >= 0 ==> s[k].ie.rxStreams != 0)
    requires forall j :: k < j < |s| ==> s[j].ie.rxStreams == 0
    ensures MiscOf(s).rxStreams == if k < 0 then 0 else s[k].ie.rxStreams
  {
    if k < |s| - 1 {
      RxStreamsAreLatest(Front(s), k);
    }
  }

  /** The record's beacon data and capabilities are those of the sent packets; only WEP is also told by received ones. */
  lemma {:induction false} FoldsCapabilities(h: seq<Frame>)
    requires h != []
    ensures Fold(h).beacon == BeaconOf(Sent(h))
    ensures Fold(h).misc.(wep := false) == MiscOf(Sent(h)).(wep := false)
  {
    if |h| > 1 {
      FoldsCapabilities(Front(h));
    }
    OneMoreCapability(h);
  }

  lemma OneMoreCapability(h: seq<Frame>)
    requires h != [] && Before(h).beacon == BeaconOf(Sent(Front(h)))
    requires Before(h).misc.(wep := false) == MiscOf(Sent(Front(h))).(wep := false)
    ensures Fold(h).beacon == BeaconOf(Sent(h))
    ensures Fold(h).misc.(wep := false) == MiscOf(Sent(h)).(wep := false)
  {
    SentLast(h);
    MiscForgetsWep(Before(h).misc, MiscOf(Sent(Front(h))), Last(h).p);
    CapabilitiesAfter(Before(h), Last(h));
  }

  lemma SentLast(h: seq<Frame>)
    requires h != []
    ensures var pre, f := Sent(Front(h)), Last(h);
      && BeaconOf(Sent(h)) == (if f.sent then TxBeacon(BeaconOf(pre), f.p) else BeaconOf(pre))
      && MiscOf(Sent(h)) == (if f.sent then TxMisc(MiscOf(pre), f.p) else MiscOf(pre))
  {
    assert Front(h) + [Last(h)] == h;
    SentAppend(Front(h), Last(h));
    if Last(h).sent {
      assert Front(Sent(h)) == Sent(Front(h)) && Last(Sent(h)) == Last(h).p;
    }
  }

  lemma MiscForgetsWep(a: Misc, b: Misc, p: Packet)
    requires a.(wep := false) == b.(wep := false)
    ensures TxMisc(a, p).(wep := false) == TxMisc(b, p).(wep := false)
  {
  }

  lemma CapabilitiesAfter(i: Info, f: Frame)
    ensures After(i, f).beacon == if f.sent then TxBeacon(i.beacon, f.p) else i.beacon
    ensures After(i, f).misc.(wep := false) == (if f.sent then TxMisc(i.misc, f.p) else i.misc).(wep := false)
  {
  }

  function BatGw(p: Packet): bool { p.meta.batGw }
  function IpSrc(p: Packet): u32 { p.meta.ipSrc }
  function OlsrNeigh(p: Packet): u32 { p.meta.olsrNeigh }
  function OlsrTc(p: Packet): u32 { p.meta.olsrTc }

  /** The latest value other than 0 of a field. */
  function LatestNamed(s: seq<Packet>, f: Packet -> u32): u32 {
    if s == [] then 0 else if f(Last(s)) != 0 then f(Last(s)) else LatestNamed(Front(s), f)
  }

  /** What the payload told is kept: the latest addresses and OLSR counts named, and whether a gateway was ever seen. */
  lemma {:induction false} PayloadIsLatest(s: seq<Packet>)
    ensures var m := MiscOf(s);
      && m.ipSrc == LatestNamed(s, IpSrc) && m.olsrNeigh == LatestNamed(s, OlsrNeigh) && m.olsrTc == LatestNamed(s, OlsrTc)
      && (m.batGw <==> exists k :: 0 <= k < |s| && BatGw(s[k]))
  {
    if s != [] {
      var pre, m := Front(s), |s| - 1;
      PayloadIsLatest(pre);
      assert forall k :: 0 <= k < m ==> pre[k] == s[k];
      assert s[m] == Last(s);
    }
  }

  // WEP

  /** Data frames that carry data, authentication, beacons and probe responses, by type and subtype. */
  lemma TellsWepByType(kind: nat, subtype: nat)
    requires kind < 4 && subtype < 16
    ensures TellsWep(4 * kind + 16 * subtype) <==>
      (kind == TYPE_DATA && subtype % 8 < 4) || (kind == TYPE_MGMT && (subtype == 5 || subtype == 8 || subtype == 11))
  {
  }

  /** Whether WEP is on is what the latest telling frame said, sent or received; k is -1 if none told. */
  lemma {:induction false} WepIsLatest(h: seq<Frame>, k: int)
    requires h != [] && -1 <= k < |h| && (k >= 0 ==> TellsWep(h[k].p.hdr.wlanType))
    requires forall j :: k < j < |h| ==> !TellsWep(h[j].p.hdr.wlanType)
    ensures Fold(h).misc.wep <==> k >= 0 && h[k].p.hdr.wep
  {
    WepLast(h);
    if k < |h| - 1 && |h| > 1 {
      WepIsLatest(Front(h), k);
    }
  }

  lemma WepLast(h: seq<Frame>)
    requires h != []
    ensures var p := Last(h).p; Fold(h).misc.wep == if TellsWep(p.hdr.wlanType) then p.hdr.wep else Before(h).misc.wep
  {
  }

  // addresses, mode and channel

  lemma IdentLast(h: seq<Frame>)
    requires h != []
    ensures var f, i := Last(h), Before(h).id;
      Fold(h).id == if f.sent then TxIdent(i, f.p, f.ap) else RxIdent(i, f.p, f.ap)
  {
  }

  /** The BSSID is the latest one that a frame named, sent or received; k is -1 if none did. */
  lemma {:induction false} BssidIsLatest(h: seq<Frame>, k: int)
    requires h != [] && -1 <= k < |h| && (k >= 0 ==> h[k].p.addr.bssid != NO_MAC)
    requires forall j :: k < j < |h| ==> h[j].p.addr.bssid == NO_MAC
    ensures Fold(h).id.bssid == if k < 0 then NO_MAC else h[k].p.addr.bssid
  {
    IdentLast(h);
    if k < |h| - 1 && |h| > 1 {
      BssidIsLatest(Front(h), k);
    }
  }

  /** A received frame that tells the mode: from an AP to a station, from a station to an AP, or in an ad-hoc network. */
  function Told(f: Frame): Option<Bits> {
    if f.sent then None
    else if f.p.hdr.mode == WLAN_MODE_AP then Some(WLAN_MODE_STA)
    else if f.p.hdr.mode == WLAN_MODE_STA then Some(WLAN_MODE_AP)
    else if f.p.hdr.mode == WLAN_MODE_IBSS then Some(WLAN_MODE_IBSS)
    else None
  }

  /** The modes of the frames the node sent after frame k. */
  function SentSince(h: seq<Frame>, k: int): Bits
    requires -1 <= k < |h| || h == []
  {
    if |h| - 1 <= k || h == [] then {} else SentSince(Front(h), k) + if Last(h).sent then Last(h).p.hdr.mode else {}
  }

  /** The mode is what the latest telling received frame k said, or nothing if k is -1, and all modes of frames sent since. */
  lemma {:induction false} ModeIsSince(h: seq<Frame>, k: int)
    requires h != [] && -1 <= k < |h| && (k >= 0 ==> Told(h[k]).Some?)
    requires forall j :: k < j < |h| ==> Told(h[j]).None?
    ensures Fold(h).id.mode == (if k < 0 then {} else Told(h[k]).value) + SentSince(h, k)
  {
    IdentLast(h);
    if k < |h| - 1 {
      assert Told(Last(h)).None?;
      if |h| > 1 {
        ModeIsSince(Front(h), k);
      }
    }
  }

  lemma {:induction false} SentSinceIsUnion(h: seq<Frame>, k: int, b: nat)
    requires -1 <= k < |h|
    ensures b in SentSince(h, k) <==> exists j :: k < j < |h| && h[j].sent && b in h[j].p.hdr.mode
  {
    if k < |h| - 1 {
      var pre, m := Front(h), |h| - 1;
      assert Last(h) == h[m];
      if pre != [] {
        SentSinceIsUnion(pre, k, b);
        assert forall j :: 0 <= j < m ==> pre[j] == h[j];
      }
    }
  }

  /** The channel a frame is authoritative for: a beacon's own, or that of the AP of a station. */
  function TellsChannel(h: seq<Frame>, k: nat): Option<u32>
    requires k < |h|
  {
    if h[k].sent && BeaconLike(h[k].p.hdr.wlanType) then Some(h[k].p.ie.channel)
    else if Is(Fold(h[..k + 1]).id.mode, WLAN_MODE_STA) then h[k].ap
    else None
  }

  /** The first channel other than 0 that a frame from k on named. */
  function FirstKnown(h: seq<Frame>, k: nat): u32
    decreases |h| - k
  {
    if k >= |h| then 0 else if h[k].p.ie.channel != 0 then h[k].p.ie.channel else FirstKnown(h, k + 1)
  }

  /** The channel is that of the latest authoritative frame k; if it has none, the first one known since. */
  lemma {:induction false} ChannelIsTold(h: seq<Frame>, k: int)
    requires h != [] && -1 <= k < |h| && (k >= 0 ==> TellsChannel(h, k).Some?)
    requires forall j :: k < j < |h| ==> TellsChannel(h, j).None?
    ensures Fold(h).id.channel ==
      if k >= 0 && TellsChannel(h, k).value != 0 then TellsChannel(h, k).value else FirstKnown(h, k + 1)
  {
    ChannelLast(h);
    var m := |h| - 1;
    if k < m {
      assert TellsChannel(h, m).None?;
      if m > 0 {
        TellsBefore(h);
        ChannelIsTold(Front(h), k);
      }
      FirstKnownLast(h, k + 1);
    }
  }

  /** What the last frame does to the channel. */
  lemma ChannelLast(h: seq<Frame>)
    requires h != []
    ensures var c, told, named := Before(h).id.channel, TellsChannel(h, |h| - 1), Last(h).p.ie.channel;
      Fold(h).id.channel == if told.Some? then told.value else if c != 0 then c else named
  {
    assert h[..|h| - 1 + 1] == h;
    IdentLast(h);
  }

  lemma TellsBefore(h: seq<Frame>)
    requires |h| > 1
    ensures forall j :: 0 <= j < |h| - 1 ==> TellsChannel(Front(h), j) == TellsChannel(h, j)
  {
    forall j | 0 <= j < |h| - 1
      ensures TellsChannel(Front(h), j) == TellsChannel(h, j)
    {
      assert Front(h)[..j + 1] == h[..j + 1];
    }
  }

  lemma {:induction false} FirstKnownLast(h: seq<Frame>, k: nat)
    requires k < |h|
    ensures var c := FirstKnown(Front(h), k); FirstKnown(h, k) == if c != 0 then c else Last(h).p.ie.channel
    decreases |h| - k
  {
    if k < |h| - 1 {
      FirstKnownLast(h, k + 1);
    }
  }

  // retries

  /** The packets that carry a sequence number. */
  function Numbered(s: seq<Packet>): (r: seq<Packet>)
    ensures |r| <= |s|
  {
    if s == [] then [] else Numbered(Front(s)) + if Last(s).hdr.seqno != 0 then [Last(s)] else []
  }

  /** Packet k repeats its predecessor's sequence number with the retry bit set. */
  predicate Repeats(s: seq<Packet>, k: nat)
    requires k < |s|
  {
    k > 0 && s[k].hdr.retry && s[k].hdr.seqno == s[k - 1].hdr.seqno
  }

  /** The length of the run of retries at the end. */
  function TrailingRun(s: seq<Packet>): (n: nat)
    ensures n <= if s == [] then 0 else |s| - 1
  {
    if s == [] || !Repeats(s, |s| - 1) then 0 else 1 + TrailingRun(Front(s))
  }

  /** All retries. */
  function TotalRetries(s: seq<Packet>): (n: nat)
    ensures TrailingRun(s) <= n <= if s == [] then 0 else |s| - 1
  {
    if s == [] then 0 else TotalRetries(Front(s)) + if Repeats(s, |s| - 1) then 1 else 0
  }

  /** The trailing run is the longest suffix of retries: they all repeat the packet right before the run. */
  lemma {:induction false} TrailingRunIsLongest(s: seq<Packet>)
    requires s != []
    ensures var n := TrailingRun(s);
      && (forall k :: |s| - n <= k < |s| ==> Repeats(s, k) && s[k].hdr.seqno == s[|s| - n - 1].hdr.seqno)
      && !Repeats(s, |s| - n - 1)
  {
    var m := |s| - 1;
    if Repeats(s, m) {
      TrailingRunIsLongest(Front(s));
      assert forall k :: 0 <= k < m ==> Repeats(Front(s), k) == Repeats(s, k);
    }
  }

  /** The retry counters: the last one is the trailing run, the total all retries, among packets with a sequence number. */
  lemma {:induction false} CountsRetries(s: seq<Packet>)
    requires |s| < 0x1_0000_0000
    ensures var r, numbered := RetriesOf(s), Numbered(s);
      && r.last == TrailingRun(numbered) && r.all == TotalRetries(numbered)
      && r.seqno == if numbered == [] then 0 else Last(numbered).hdr.seqno
    ensures RetriesOf(s).last <= RetriesOf(s).all <= if s == [] then 0 else |s| - 1
  {
    if s != [] {
      CountsRetries(Front(s));
      RetriesStep(RetriesOf(Front(s)), Numbered(Front(s)), Last(s));
    }
  }

  lemma RetriesStep(r: Retries, s: seq<Packet>, p: Packet)
    requires |s| < 0xffff_ffff
    requires r.last == TrailingRun(s) && r.all == TotalRetries(s) && r.seqno == if s == [] then 0 else Last(s).hdr.seqno
    ensures var r', s' := TxRetries(r, p), s + if p.hdr.seqno != 0 then [p] else [];
      r'.last == TrailingRun(s') && r'.all == TotalRetries(s') && r'.seqno == if s' == [] then 0 else Last(s').hdr.seqno
  {
    if p.hdr.seqno == 0 {
      assert s + [] == s;
    } else {
      var s' := s + [p];
      assert Front(s') == s && Last(s') == p;
      assert s != [] ==> s'[|s| - 1] == Last(s);
    }
  }

  // signal

  /** The sum of the attenuations. */
  function Attenuation(s: seq<Packet>): int {
    if s == [] then 0 else Attenuation(Front(s)) - Last(s).meta.signal
  }

  /** Signal and rate are those of the last packet, and the sum is that of all attenuations, as an unsigned long. */
  lemma {:induction false} SignalIsLast(s: seq<Packet>)
    requires s != []
    ensures var g := SignalOf(s);
      g.last == Last(s).meta.signal && g.rateLast == Last(s).meta.rate && g.sum == Ewma.Word(Attenuation(s))
  {
    if |s| > 1 {
      SignalIsLast(Front(s));
    }
    WordSteps(Attenuation(Front(s)), Last(s).meta.signal);
  }

  lemma WordSteps(sum: int, x: int)
    ensures Ewma.Word(Ewma.Word(sum) - x) == Ewma.Word(sum - x)
  {
  }

  function Samples(s: seq<Packet>): (r: seq<Ewma.u64>)
    ensures |r| == |s|
    ensures forall k :: 0 <= k < |s| ==> r[k] == Sample(s[k].meta.signal)
  {
    if s == [] then [] else Samples(Front(s)) + [Sample(Last(s).meta.signal)]
  }

  /** Signals as they are in practice: negative dBm values of an int. */
  ghost predicate Negative(s: seq<Packet>) {
    forall k :: 0 <= k < |s| ==> -0x8000_0000 < s[k].meta.signal < 0
  }

  /** The recorded average is the EWMA of the samples. */
  lemma {:induction false} AveragesSignal(s: seq<Packet>)
    ensures SignalOf(s).avg == Ewma.FoldWord(Samples(s), SIG_FACTOR, SIG_WEIGHT)
  {
    if s != [] {
      AveragesSignal(Front(s));
      assert Samples(s)[..|s| - 1] == Samples(Front(s));
    }
  }

  /** top is the greatest signal of the packets. */
  ghost predicate Greatest(s: seq<Packet>, top: int) {
    && (exists k :: 0 <= k < |s| && s[k].meta.signal == top)
    && (forall k :: 0 <= k < |s| ==> s[k].meta.signal <= top)
  }

  /** Among negative signals, the recorded maximum is the true one. */
  lemma {:induction false} TracksMaximum(s: seq<Packet>)
    requires Negative(s)
    ensures if s == [] then SignalOf(s).max == 0 else Greatest(s, SignalOf(s).max)
  {
    if s != [] {
      var pre := Front(s);
      TracksMaximum(pre);
      var top := SignalOf(s).max;
      if pre == [] || Last(s).meta.signal > SignalOf(pre).max {
        assert s[|s| - 1].meta.signal == top;
      } else {
        var k :| 0 <= k < |pre| && pre[k].meta.signal == top;
        assert s[k].meta.signal == top;
      }
      forall k | 0 <= k < |s|
        ensures s[k].meta.signal <= top
      {
        if k < |pre| {
          assert pre[k] == s[k];
        }
      }
    }
  }

  /** The average that is read is at least the weakest attenuation, the negated maximum: nothing wraps. */
  lemma AverageAboveMaximum(s: seq<Packet>)
    requires s != [] && Negative(s)
    ensures -SignalOf(s).max <= Ewma.ReadOf(SignalOf(s).avg, SIG_FACTOR)
  {
    AveragesSignal(s);
    TracksMaximum(s);
    var v: seq<nat>, top := Samples(s), SignalOf(s).max;
    forall k | 0 <= k < |v|
      ensures -top <= v[k] <= 0x7fff_ffff
    {
      SampleOf(s[k].meta.signal);
    }
    LimitFits();
    Ewma.NoWrap(Samples(s), SIG_FACTOR, SIG_WEIGHT, 0x7fff_ffff);
    Ewma.ReadBetween(v, SIG_FACTOR, SIG_WEIGHT, -top, 0x7fff_ffff);
  }

  lemma SampleOf(signal: int)
    requires -0x8000_0000 < signal < 0
    ensures Sample(signal) == -signal
  {
    Ewma.WordKeeps(-signal);
  }

  lemma LimitFits()
    ensures Ewma.WithinLimit(0x7fff_ffff, SIG_FACTOR, SIG_WEIGHT)
  {
    Ewma.ShlIsTimes(0x7fff_ffff, SIG_FACTOR);
    assert Ewma.Pow2(5) == 32;
    assert Ewma.Pow2(10) == 1024;
    Ewma.ShlIsTimes(Ewma.Shl(0x7fff_ffff, SIG_FACTOR), SIG_WEIGHT);
    assert Ewma.Pow2(3) == 8;
  }
}
