/** The frame builder of core/inject.c, and the parser as its inverse. */
module FrameBuilder {
  import opened Wlan
  import opened Elements
  import opened FrameParser

  const CAPAB_ESS: u16 := 1

  /** Supported rates of every built frame. */
  const SUPP_RATES: seq<u8> := [0x8c, 0x12, 0x98, 0x24, 0xb0, 0x48, 0x60, 0x6c]

  /** htole16(x) << 4, cut to 16 bits */
  function SeqCtrl(seqno: u16): u16 {
    seqno * 16 % 0x1_0000
  }

  function MacHeader(fc: u16, a1: Mac, a2: Mac, a3: Mac, seqno: u16): (r: seq<u8>)
    ensures |r| == 24
  {
    Le(fc, 2) + [0, 0] + a1 + a2 + a3 + Le(SeqCtrl(seqno), 2)
  }

  function BeaconHeader(probeResponse: bool, sa: Mac, da: Mac, bssid: Mac, seqno: u16): (r: seq<u8>)
    ensures |r| == 24
  {
    MacHeader(if probeResponse then PROBE_RESP else BEACON, if probeResponse then da else BROADCAST, sa, bssid, seqno)
  }

  /** The elements of a built frame; essid is a C string, without its NUL, and its length is cut to a byte. */
  function IeBytes(essid: seq<u8>, channel: int): (r: seq<u8>)
    ensures |r| == 15 + |essid|
  {
    [IE_SSID, |essid| % 256] + essid + [IE_SUPP_RATES, 8] + SUPP_RATES + [IE_DSSS_PARAM, 1, channel % 256]
  }

  /** The bytes of a built Beacon or Probe Response. */
  function BeaconBytes(probeResponse: bool, sa: Mac, da: Mac, bssid: Mac, essid: seq<u8>, tsf: u64,
                       channel: int, bintval: int, seqno: u16): seq<u8>
  {
    BeaconHeader(probeResponse, sa, da, bssid, seqno)
    + Le(tsf, 8) + Le(bintval % 0x1_0000, 2) + Le(CAPAB_ESS, 2) + IeBytes(essid, channel)
  }

  /** memcpy to buf + i; returns the next index */
  method Put(buf: array<u8>, i: nat, bytes: seq<u8>) returns (r: nat)
    requires i + |bytes| <= buf.Length
    modifies buf
    ensures r == i + |bytes| && buf[..r] == old(buf[..i]) + bytes
    ensures forall j :: r <= j < buf.Length ==> buf[j] == old(buf[j])
  {
    var k := 0;
    while k < |bytes|
      invariant 0 <= k <= |bytes|
      invariant forall j :: 0 <= j < buf.Length ==> buf[j] == if i <= j < i + k then bytes[j - i] else old(buf[j])
    {
      buf[i + k] := bytes[k];
      k := k + 1;
    }
    r := i + |bytes|;
  }

  method PutMacHeader(buf: array<u8>, fc: u16, a1: Mac, a2: Mac, a3: Mac, seqno: u16) returns (i: nat)
    requires buf.Length >= 24
    modifies buf
    ensures i == 24 && buf[..24] == MacHeader(fc, a1, a2, a3, seqno)
    ensures forall j :: 24 <= j < buf.Length ==> buf[j] == old(buf[j])
  {
    i := Put(buf, 0, Le(fc, 2));
    i := Put(buf, i, [0, 0]);
    i := Put(buf, i, a1);
    i := Put(buf, i, a2);
    i := Put(buf, i, a3);
    i := Put(buf, i, Le(SeqCtrl(seqno), 2));
  }

  /** uwifi_create_beacon_probe_response, into a buffer with room for the frame; returns the frame length. */
  method CreateBeacon(buf: array<u8>, probeResponse: bool, sa: Mac, da: Mac, bssid: Mac, essid: seq<u8>,
                      tsf: u64, channel: int, bintval: int, seqno: u16) returns (n: nat)
    requires 0 !in essid && buf.Length >= 51 + |essid|
    modifies buf
    ensures n == 51 + |essid|
    ensures buf[..n] == BeaconBytes(probeResponse, sa, da, bssid, essid, tsf, channel, bintval, seqno)
    ensures forall j :: n <= j < buf.Length ==> buf[j] == old(buf[j])
  {
    var fc := if probeResponse then PROBE_RESP else BEACON;
    var i := PutMacHeader(buf, fc, if probeResponse then da else BROADCAST, sa, bssid, seqno);
    i := Put(buf, i, Le(tsf, 8));
    i := Put(buf, i, Le(bintval % 0x1_0000, 2));
    i := Put(buf, i, Le(CAPAB_ESS, 2));
    n := PutIes(buf, i, essid, channel);
  }

  method PutIes(buf: array<u8>, at: nat, essid: seq<u8>, channel: int) returns (r: nat)
    requires at + 15 + |essid| <= buf.Length
    modifies buf
    ensures r == at + 15 + |essid| && buf[..r] == old(buf[..at]) + IeBytes(essid, channel)
    ensures forall j :: r <= j < buf.Length ==> buf[j] == old(buf[j])
  {
    ghost var p, dsss := buf[..at], [IE_DSSS_PARAM, 1, channel % 256];
    var i := Put(buf, at, [IE_SSID, |essid| % 256]);
    i := Put(buf, i, essid);
    i := Put(buf, i, [IE_SUPP_RATES, 8]);
    i := Put(buf, i, SUPP_RATES);
    r := Put(buf, i, [IE_DSSS_PARAM, 1, channel % 256]);
    Gather(p, [IE_SSID, |essid| % 256], essid, [IE_SUPP_RATES, 8], SUPP_RATES, dsss);
  }

  lemma Gather<T>(p: seq<T>, a: seq<T>, b: seq<T>, c: seq<T>, d: seq<T>, e: seq<T>)
    ensures p + a + b + c + d + e == p + (a + b + c + d + e)
  {
  }

  /** uwifi_create_nulldata.  It returns the size of the whole header struct, 36, of which it fills 24 bytes. */
  method CreateNullData(buf: array<u8>, sa: Mac, da: Mac, bssid: Mac, seqno: u16) returns (n: nat)
    requires buf.Length >= 24
    modifies buf
    ensures n == 36 && buf[..24] == MacHeader(NULL_DATA + 0x100, bssid, sa, da, seqno)
    ensures forall j :: 24 <= j < buf.Length ==> buf[j] == old(buf[j])
  {
    var i := PutMacHeader(buf, NULL_DATA + 0x100, bssid, sa, da, seqno);
    n := 36;
  }

  // ----- reading the fields back -----

  lemma MidSlice<T>(p: seq<T>, m: seq<T>, s: seq<T>)
    ensures ((p + m) + s)[|p|..|p| + |m|] == m
  {
  }

  lemma Le16Of(x: u16)
    ensures Le(x, 2) == [x % 256, x / 256]
  {
    assert Le(x / 256, 1) == [x / 256 % 256] + Le(x / 256 / 256, 0);
  }

  lemma Le16Back(b: seq<u8>, i: nat, x: u16)
    requires i + 2 <= |b| && b[i..i + 2] == Le(x, 2)
    ensures Le16(b, i) == x
  {
    Le16Of(x);
    assert b[i] == b[i..i + 2][0] && b[i + 1] == b[i..i + 2][1];
  }

  lemma Le64Back(b: seq<u8>, i: nat, x: u64)
    requires i + 8 <= |b| && b[i..i + 8] == Le(x, 8)
    ensures Le64(b, i) == x
  {
    Pow256Of8();
    LeRoundTrip(x, 8);
  }

  lemma HeaderFields(fc: u16, a1: Mac, a2: Mac, a3: Mac, seqno: u16, rest: seq<u8>)
    ensures var b := MacHeader(fc, a1, a2, a3, seqno) + rest;
      && Le16(b, 0) == fc && Addr1(b) == a1 && Addr2(b) == a2 && Addr3(b) == a3 && Le16(b, 22) / 16 == seqno % 4096
  {
    var b := MacHeader(fc, a1, a2, a3, seqno) + rest;
    var f, s := Le(fc, 2), Le(SeqCtrl(seqno), 2);
    MidSlice([], f, [0, 0] + a1 + a2 + a3 + s + rest);
    assert b == ([] + f) + ([0, 0] + a1 + a2 + a3 + s + rest);
    MidSlice(f + [0, 0], a1, a2 + a3 + s + rest);
    assert b == ((f + [0, 0]) + a1) + (a2 + a3 + s + rest);
    MidSlice(f + [0, 0] + a1, a2, a3 + s + rest);
    assert b == ((f + [0, 0] + a1) + a2) + (a3 + s + rest);
    MidSlice(f + [0, 0] + a1 + a2, a3, s + rest);
    assert b == ((f + [0, 0] + a1 + a2) + a3) + (s + rest);
    MidSlice(f + [0, 0] + a1 + a2 + a3, s, rest);
    Le16Back(b, 0, fc);
    Le16Back(b, 22, SeqCtrl(seqno));
    ShiftedSeq(seqno);
  }

  lemma ShiftedSeq(seqno: u16)
    ensures SeqCtrl(seqno) / 16 == seqno % 4096
  {
  }

  function Ies(essid: seq<u8>, channel: int): seq<Element> {
    [Element(IE_SSID, essid), Element(IE_SUPP_RATES, SUPP_RATES), Element(IE_DSSS_PARAM, [channel % 256])]
  }

  lemma IesEncoded(essid: seq<u8>, channel: int)
    requires |essid| < 256
    ensures AllEncodable(Ies(essid, channel))
    ensures EncodeAll(Ies(essid, channel)) == IeBytes(essid, channel)
  {
    var es := Ies(essid, channel);
    assert es[1..][1..] == es[2..] && es[2..][1..] == [];
    assert EncodeAll(es[2..]) == [IE_DSSS_PARAM, 1, channel % 256];
    assert EncodeAll(es[1..]) == ([IE_SUPP_RATES, 8] + SUPP_RATES) + [IE_DSSS_PARAM, 1, channel % 256];
    assert EncodeAll(es) == ([IE_SSID, |essid|] + essid) + EncodeAll(es[1..]);
  }

  lemma IesFolded(p: IeInfo, essid: seq<u8>, channel: int)
    requires |essid| < 256
    ensures AllEncodable(Ies(essid, channel)) && AllDefinite(Ies(essid, channel))
    ensures Fold(p, Seen(Ies(essid, channel))) == p.(essid := SetEssid(p.essid, |essid|, essid), channel := channel % 256)
  {
    var es := Ies(essid, channel);
    assert Seen(es) == es;
    assert es[1..][1..] == es[2..] && es[2..][1..] == [];
    var p1 := Apply(p, es[0]);
    assert (essid + [0])[..|essid|] == essid;
    if |essid| >= 33 {
      assert (essid + [0])[..33] == essid[..33];
    }
    assert p1 == p.(essid := SetEssid(p.essid, |essid|, essid));
    assert Apply(p1, es[1]) == p1;
    var p2 := Apply(p1, es[2]);
    assert Fold(p, es) == Fold(p1, es[1..]) == Fold(p1, es[2..]) == Fold(p2, []);
  }

  /** A NUL-free SSID is read back from the ESSID buffer, up to 33 bytes of it. */
  lemma EssidBack(old_: EssidBuf, essid: seq<u8>)
    requires |essid| < 256 && 0 !in essid
    ensures CStr(SetEssid(old_, |essid|, essid)) == if |essid| <= 33 then essid else essid[..33]
  {
    var kept := if |essid| <= 33 then essid else essid[..33];
    var r := SetEssid(old_, |essid|, essid);
    assert r[..|kept|] == kept && r[|kept|] == 0;
    CStrIs(r, kept);
  }

  /** What the parser makes of a built Beacon or Probe Response with any four bytes of FCS behind it. */
  function Expected(probeResponse: bool, sa: Mac, da: Mac, bssid: Mac, essid: seq<u8>, tsf: u64,
                    channel: int, bintval: int, seqno: u16): Packet
    requires |essid| < 256
  {
    var z := ZERO_PACKET;
    z.(hdr := z.hdr.(wlanType := if probeResponse then PROBE_RESP else BEACON, mode := WLAN_MODE_AP,
                     seqno := seqno % 4096, len := 55 + |essid|),
       addr := Addresses(sa, if probeResponse then da else BROADCAST, bssid),
       tsf := tsf, bintval := bintval % 0x1_0000,
       ie := z.ie.(essid := SetEssid(z.ie.essid, |essid|, essid), channel := channel % 256))
  }

  lemma BeaconLayout(h: seq<u8>, t: seq<u8>, i: seq<u8>, c: seq<u8>, ies: seq<u8>, fcs: seq<u8>)
    requires |h| == 24 && |t| == 8 && |i| == 2 && |c| == 2 && |fcs| == 4
    ensures var b := h + t + i + c + ies + fcs;
      && b == h + (t + i + c + ies + fcs)
      && b[24..32] == t && b[32..34] == i && b[34..36] == c && b[36..36 + |ies|] == ies
  {
    Gather(h, t, i, c, ies, fcs);
    Regroup(h, t, i, c, ies, fcs);
    MidSlice(h, t, i + c + ies + fcs);
    MidSlice(h + t, i, c + ies + fcs);
    MidSlice(h + t + i, c, ies + fcs);
    MidSlice(h + t + i + c, ies, fcs);
  }

  lemma Regroup<T>(h: seq<T>, t: seq<T>, i: seq<T>, c: seq<T>, ies: seq<T>, fcs: seq<T>)
    ensures h + t + i + c + ies + fcs == (h + t) + (i + c + ies + fcs)
    ensures h + t + i + c + ies + fcs == (h + t + i) + (c + ies + fcs)
    ensures h + t + i + c + ies + fcs == (h + t + i + c) + (ies + fcs)
  {
  }

  lemma BeaconControl(fc: u16)
    requires fc == BEACON || fc == PROBE_RESP
    ensures TypeOf(fc) == TYPE_MGMT && TypeAndSubtype(fc) == fc && IsBeaconLike(fc)
    ensures !ToDs(fc) && !FromDs(fc) && !Retry(fc) && !Order(fc) && !Protected(fc)
  {
  }

  /** The body of a frame that carries just the ESS capability. */
  lemma EssBody(b: seq<u8>, p: Packet)
    requires |b| >= 40 && Fits(Region(b, 36, |b| - 40)) && Le16(b, 34) == CAPAB_ESS
    ensures BeaconBody(b, |b|, 24, p) ==
      p.(tsf := Le64(b, 24), bintval := Le16(b, 32), ie := Walk(p.ie, Region(b, 36, |b| - 40)),
         hdr := p.hdr.(mode := WLAN_MODE_AP))
  {
  }

  /** The parser on a Beacon or Probe Response without flags, in a zeroed packet. */
  lemma BeaconParsed(b: seq<u8>, fc: u16)
    requires |b| >= 40 && Le16(b, 0) == fc && (fc == BEACON || fc == PROBE_RESP)
    requires Fits(Region(b, 36, |b| - 40)) && Le16(b, 34) == CAPAB_ESS
    ensures Readable(b, |b|)
    ensures var z := ZERO_PACKET;
      ParseHeader(b, |b|, z) == Parsed(0, z.(
        hdr := z.hdr.(wlanType := fc, mode := WLAN_MODE_AP, seqno := Le16(b, 22) / 16, len := |b|),
        addr := Addresses(Addr2(b), Addr1(b), Addr3(b)),
        tsf := Le64(b, 24), bintval := Le16(b, 32), ie := Walk(z.ie, Region(b, 36, |b| - 40))))
  {
    BeaconControl(fc);
    var z := ZERO_PACKET;
    var h1 := z.hdr.(wlanType := fc, mode := WLAN_MODE_UNKNOWN, seqno := Le16(b, 22) / 16, len := |b|);
    EssBody(b, z.(hdr := h1));
  }

  /** The parser undoes the builder: every field comes back, and 0 is returned. */
  lemma ParserUndoesBuilder(probeResponse: bool, sa: Mac, da: Mac, bssid: Mac, essid: seq<u8>, tsf: u64,
                            channel: int, bintval: int, seqno: u16, fcs: seq<u8>)
    requires |essid| < 256 && 0 !in essid && |fcs| == 4
    ensures var b := BeaconBytes(probeResponse, sa, da, bssid, essid, tsf, channel, bintval, seqno) + fcs;
      && Readable(b, |b|)
      && ParseHeader(b, |b|, ZERO_PACKET) ==
           Parsed(0, Expected(probeResponse, sa, da, bssid, essid, tsf, channel, bintval, seqno))
    ensures CStr(Expected(probeResponse, sa, da, bssid, essid, tsf, channel, bintval, seqno).ie.essid) == essid
      <==> |essid| <= 33
  {
    var b := BeaconBytes(probeResponse, sa, da, bssid, essid, tsf, channel, bintval, seqno) + fcs;
    BuiltFields(probeResponse, sa, da, bssid, essid, tsf, channel, bintval, seqno, fcs);
    IesFolded(ZERO_PACKET.ie, essid, channel);
    WalkIsFold(ZERO_PACKET.ie, Ies(essid, channel));
    BeaconParsed(b, if probeResponse then PROBE_RESP else BEACON);
    EssidBack(ZERO_PACKET.ie.essid, essid);
  }

  lemma BuiltFields(probeResponse: bool, sa: Mac, da: Mac, bssid: Mac, essid: seq<u8>, tsf: u64,
                    channel: int, bintval: int, seqno: u16, fcs: seq<u8>)
    requires |essid| < 256 && |fcs| == 4
    ensures AllEncodable(Ies(essid, channel))
    ensures var b := BeaconBytes(probeResponse, sa, da, bssid, essid, tsf, channel, bintval, seqno) + fcs;
      && |b| == 55 + |essid|
      && Le16(b, 0) == (if probeResponse then PROBE_RESP else BEACON)
      && Addr1(b) == (if probeResponse then da else BROADCAST) && Addr2(b) == sa && Addr3(b) == bssid
      && Le16(b, 22) / 16 == seqno % 4096
      && Le64(b, 24) == tsf && Le16(b, 32) == bintval % 0x1_0000 && Le16(b, 34) == CAPAB_ESS
      && Region(b, 36, |b| - 40) == EncodeAll(Ies(essid, channel))
  {
    var h := BeaconHeader(probeResponse, sa, da, bssid, seqno);
    var t, i, c := Le(tsf, 8), Le(bintval % 0x1_0000, 2), Le(CAPAB_ESS, 2);
    var ies := EncodeAll(Ies(essid, channel));
    var b := BeaconBytes(probeResponse, sa, da, bssid, essid, tsf, channel, bintval, seqno) + fcs;
    IesEncoded(essid, channel);
    assert b == h + t + i + c + ies + fcs;
    BeaconLayout(h, t, i, c, ies, fcs);
    HeaderFields(if probeResponse then PROBE_RESP else BEACON, if probeResponse then da else BROADCAST, sa, bssid, seqno,
                 t + i + c + ies + fcs);
    Le64Back(b, 24, tsf);
    Le16Back(b, 32, bintval % 0x1_0000);
    Le16Back(b, 34, CAPAB_ESS);
  }

  /** The parser undoes the null data builder, whatever the twelve bytes it leaves unset. */
  lemma ParserUndoesNullData(sa: Mac, da: Mac, bssid: Mac, seqno: u16, unset: seq<u8>)
    requires |unset| == 12
    ensures var b := MacHeader(NULL_DATA + 0x100, bssid, sa, da, seqno) + unset;
      var z := ZERO_PACKET;
      && Readable(b, 36)
      && ParseHeader(b, 36, z) == Parsed(24, z.(
           hdr := z.hdr.(wlanType := NULL_DATA, mode := WLAN_MODE_STA, tods := true, seqno := seqno % 4096, len := 36),
           addr := Addresses(sa, bssid, bssid)))
  {
    var b := MacHeader(NULL_DATA + 0x100, bssid, sa, da, seqno) + unset;
    HeaderFields(NULL_DATA + 0x100, bssid, sa, da, seqno, unset);
    assert b[2] == 0 && b[3] == 0;
    NullDataControl();
    var z := ZERO_PACKET;
    NullDataParsed(b, z.(hdr := z.hdr.(mode := WLAN_MODE_UNKNOWN, wlanType := NULL_DATA)));
  }

  lemma NullDataControl()
    ensures var fc := NULL_DATA + 0x100;
      && TypeOf(fc) == TYPE_DATA && TypeAndSubtype(fc) == NULL_DATA && !IsQos(fc)
      && ToDs(fc) && !FromDs(fc) && !Retry(fc) && !Order(fc) && !Protected(fc)
  {
  }

  lemma NullDataParsed(b: seq<u8>, p: Packet)
    requires |b| >= 36 && b[2] == 0 && b[3] == 0 && !p.hdr.wep && !p.hdr.retry
    ensures ParseData(b, 36, NULL_DATA + 0x100, p) == Parsed(24, p.(
      hdr := p.hdr.(fromds := false, tods := true, mode := WLAN_MODE_STA, nav := 0, seqno := Le16(b, 22) / 16, len := 36),
      addr := Addresses(Addr2(b), Addr1(b), Addr1(b))))
  {
    NullDataControl();
  }
}
