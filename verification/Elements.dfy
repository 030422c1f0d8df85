/** The information element chain of core/wlan_parser.c (IEEE 802.11-2016 section 9.4.2.1). */
module Elements {
  import opened Wlan

  const IE_SSID := 0
  const IE_SUPP_RATES := 1
  const IE_DSSS_PARAM := 3
  const IE_HT_CAPAB := 45
  const IE_RSN := 48
  const IE_HT_OPER := 61
  const IE_VHT_CAPAB := 191
  const IE_VHT_OPER := 192
  const IE_VHT_OMN := 199
  const IE_VENDOR := 221

  // ----- what one element does to the packet -----

  /** The SSID case: at most 33 bytes and a NUL; what lies behind the NUL is left over. */
  function SetEssid(essid: EssidBuf, n: u8, body: seq<u8>): EssidBuf
    requires n <= |body|
  {
    if n < WLAN_MAX_SSID_LEN - 1 then body[..n] + [0] + essid[n + 1..] else body[..WLAN_MAX_SSID_LEN - 1] + [0]
  }

  /** wlan_chan_width_from_vht_capab of the first capability byte */
  function WidthFromVhtCapab(b: u8): nat {
    var w := b / 4 % 4;
    if w == 0 then 4 else if w == 1 then 5 else if w == 2 then 6 else 0
  }

  /** The switch on the element id.  `body` is all that follows in the region; the element claims n bytes of it. */
  function Effect(p: IeInfo, id: u8, n: u8, body: seq<u8>): IeInfo
    requires 1 <= |body| && n <= |body|
  {
    if id == IE_SSID then p.(essid := SetEssid(p.essid, n, body))
    else if id == IE_DSSS_PARAM then p.(channel := body[0])
    else if id == IE_RSN then p.(rsn := true)
    else if id == IE_HT_CAPAB then
      var q := p.(chanWidth := if body[0] / 2 % 2 == 1 then 3 else 2);
      if n >= 26 then
        var s := HtStreams(body[3..16], q.txStreams);
        q.(rxStreams := s.0, txStreams := s.1)
      else q
    else if id == IE_HT_OPER then
      if n > 1 then
        var offset := body[1] % 4;
        if offset == 0 then p.(chanWidth := 2)
        else if offset == 1 then p.(ht40plus := true)
        else if offset == 3 then p.(ht40plus := false)
        else p
      else p
    else if id == IE_VHT_OPER || id == IE_VHT_OMN then p.(chanWidth := 4)
    else if id == IE_VHT_CAPAB then
      if n >= 12 then
        p.(chanWidth := WidthFromVhtCapab(body[0]),
           rxStreams := VhtStreams(Pair(body[4], body[5]), 0),
           txStreams := VhtStreams(Pair(body[8], body[9]), 0))
      else p
    else if id == IE_VENDOR then
      if n >= 4 && body[0] == 0x00 && body[1] == 0x50 && body[2] == 0xf2 && body[3] == 1 then p.(wpa := true) else p
    else p
  }

  // ----- the cursor loop -----

  /** Every element the cursor reaches ends inside the region. */
  ghost predicate Fits(region: seq<u8>) {
    |region| > 2 ==> 2 + region[1] <= |region| && Fits(region[2 + region[1]..])
  }

  /** uwifi_parse_information_elements over a region */
  ghost function Walk(p: IeInfo, region: seq<u8>): IeInfo
    requires Fits(region)
    decreases |region|
  {
    if |region| <= 2 then p
    else Walk(Effect(p, region[0], region[1], region[2..]), region[2 + region[1]..])
  }

  /** The loop itself, over buf[pos..] with `len` bytes to go; len may start negative. */
  method ParseElements(buf: array<u8>, pos: nat, len: int, p: PacketRef)
    requires len > 0 ==> pos + len <= buf.Length && Fits(buf[pos..pos + len])
    modifies p
    ensures p.v == old(p.v).(ie := if len <= 0 then old(p.v.ie) else Walk(old(p.v.ie), buf[pos..pos + len]))
  {
    if len <= 0 {
      return;
    }
    ghost var region := buf[pos..pos + len];
    ghost var rest := region;
    var at, left := pos, len;
    while left > 2
      invariant 0 <= left && 0 <= at && at + left == pos + len && Fits(rest)
      invariant |rest| == left && forall j :: 0 <= j < left ==> rest[j] == buf[at + j]
      invariant Walk(old(p.v.ie), region) == Walk(p.v.ie, rest)
      invariant p.v == old(p.v).(ie := p.v.ie)
      decreases left
    {
      var n: int := buf[at + 1];
      TakeElement(buf, at, left, p, rest);
      rest := rest[2 + n..];
      at := at + n + 2;
      left := left - (n + 2);
    }
  }

  /** One turn of the loop, at an element of n bytes. */
  method TakeElement(buf: array<u8>, at: nat, left: nat, p: PacketRef, ghost rest: seq<u8>)
    requires 2 < left == |rest| && at + left <= buf.Length && Fits(rest)
    requires forall j :: 0 <= j < left ==> rest[j] == buf[at + j]
    modifies p
    ensures 2 + rest[1] <= left && Fits(rest[2 + rest[1]..])
    ensures Walk(old(p.v.ie), rest) == Walk(p.v.ie, rest[2 + rest[1]..])
    ensures p.v == old(p.v).(ie := p.v.ie)
  {
    WalkStep(p.v.ie, rest);
    var ie := ElementStep(buf, at + 2, buf[at + 1], left - 2, buf[at], p.v.ie, rest[2..]);
    p.v := p.v.(ie := ie);
  }

  lemma WalkStep(p: IeInfo, region: seq<u8>)
    requires Fits(region) && |region| > 2
    ensures 2 + region[1] <= |region| && Fits(region[2 + region[1]..])
    ensures Walk(p, region) == Walk(Effect(p, region[0], region[1], region[2..]), region[2 + region[1]..])
  {
  }

  /** The body of the loop. */
  method ElementStep(buf: array<u8>, at: nat, n: u8, left: nat, id: u8, p: IeInfo, ghost body: seq<u8>)
    returns (q: IeInfo)
    requires 1 <= left && n <= left && at + left <= buf.Length
    requires |body| == left && forall j :: 0 <= j < left ==> body[j] == buf[at + j]
    ensures q == Effect(p, id, n, body)
  {
    q := p;
    if id == IE_SSID {
      var k := if n < WLAN_MAX_SSID_LEN - 1 then n else WLAN_MAX_SSID_LEN - 1;
      assert buf[at..at + k] == body[..k];
      q := q.(essid := buf[at..at + k] + [0] + q.essid[k + 1..]);
    } else if id == IE_DSSS_PARAM {
      q := q.(channel := buf[at]);
    } else if id == IE_RSN {
      q := q.(rsn := true);
    } else if id == IE_HT_CAPAB {
      q := q.(chanWidth := if buf[at] / 2 % 2 == 1 then 3 else 2);
      if n >= 26 {
        assert buf[at + 3..at + 16] == body[3..16];
        var rx, tx := HtStreamsFromMcs(buf[at + 3..at + 16], q.txStreams);
        q := q.(rxStreams := rx, txStreams := tx);
      }
    } else if id == IE_HT_OPER {
      if n > 1 {
        var offset := buf[at + 1] % 4;
        if offset == 0 {
          q := q.(chanWidth := 2);
        } else if offset == 1 {
          q := q.(ht40plus := true);
        } else if offset == 3 {
          q := q.(ht40plus := false);
        }
      }
    } else if id == IE_VHT_OPER || id == IE_VHT_OMN {
      q := q.(chanWidth := 4);
    } else if id == IE_VHT_CAPAB {
      if n >= 12 {
        var rx := VhtStreamsFromMap(Pair(buf[at + 4], buf[at + 5]));
        var tx := VhtStreamsFromMap(Pair(buf[at + 8], buf[at + 9]));
        q := q.(chanWidth := WidthFromVhtCapab(buf[at]), rxStreams := rx, txStreams := tx);
      }
    } else if id == IE_VENDOR {
      if n >= 4 && buf[at] == 0x00 && buf[at + 1] == 0x50 && buf[at + 2] == 0xf2 && buf[at + 3] == 1 {
        q := q.(wpa := true);
      }
    }
  }

  // ----- elements as values -----

  datatype Element = Element(id: u8, body: seq<u8>)

  function Encode(e: Element): seq<u8>
    requires |e.body| < 256
  {
    [e.id, |e.body|] + e.body
  }

  ghost predicate AllEncodable(es: seq<Element>) {
    forall i :: 0 <= i < |es| ==> |es[i].body| < 256
  }

  function EncodeAll(es: seq<Element>): seq<u8>
    requires forall i :: 0 <= i < |es| ==> |es[i].body| < 256
  {
    if es == [] then [] else Encode(es[0]) + EncodeAll(es[1..])
  }

  /** The parser takes the first body byte of these two kinds without looking at the length. */
  ghost predicate Definite(e: Element) {
    e.id == IE_DSSS_PARAM || e.id == IE_HT_CAPAB ==> e.body != []
  }

  ghost predicate AllDefinite(es: seq<Element>) {
    forall i :: 0 <= i < |es| ==> Definite(es[i])
  }

  /** What an element does, whatever follows it. */
  ghost function Apply(p: IeInfo, e: Element): IeInfo
    requires |e.body| < 256
  {
    Effect(p, e.id, |e.body|, e.body + [0])
  }

  ghost function Fold(p: IeInfo, es: seq<Element>): IeInfo
    requires AllEncodable(es)
    decreases |es|
  {
    if es == [] then p else Fold(Apply(p, es[0]), es[1..])
  }

  /** A definite element's effect depends on its own body alone. */
  lemma EffectIsLocal(p: IeInfo, e: Element, rest: seq<u8>)
    requires |e.body| < 256 && Definite(e) && |e.body + rest| >= 1
    ensures Effect(p, e.id, |e.body|, e.body + rest) == Apply(p, e)
  {
    var n := |e.body|;
    var a, b := e.body + rest, e.body + [0];
    assert forall k :: 0 <= k < n ==> a[k] == b[k] == e.body[k];
    if e.id == IE_SSID {
      assert a[..n] == b[..n];
      if n >= 33 {
        assert a[..33] == b[..33];
      }
    } else if e.id == IE_HT_CAPAB && n >= 26 {
      assert a[3..16] == b[3..16];
    }
  }

  /** The elements the cursor loop gets to see: all but a final one with an empty body. */
  ghost function Seen(es: seq<Element>): seq<Element> {
    if es != [] && es[|es| - 1].body == [] then es[..|es| - 1] else es
  }

  lemma SeenTail(es: seq<Element>)
    requires es != [] && (es[0].body != [] || |es| > 1)
    ensures Seen(es) != [] && Seen(es)[0] == es[0] && Seen(es)[1..] == Seen(es[1..])
  {
  }

  lemma SeenAppend(es: seq<Element>, fs: seq<Element>)
    requires fs != []
    ensures Seen(es + fs) == es + Seen(fs)
  {
    assert (es + fs)[|es + fs| - 1] == fs[|fs| - 1];
    assert (es + fs)[..|es + fs| - 1] == es + fs[..|fs| - 1];
  }

  lemma {:induction false} EncodedFits(es: seq<Element>)
    requires AllEncodable(es)
    ensures Fits(EncodeAll(es))
  {
    if es != [] {
      EncodeHead(es);
      EncodedFits(es[1..]);
    }
  }

  lemma EncodeHead(es: seq<Element>)
    requires AllEncodable(es) && es != []
    ensures var r, n := EncodeAll(es), |es[0].body|;
      |r| >= 2 + n && r[0] == es[0].id && r[1] == n && r[2..] == es[0].body + EncodeAll(es[1..]) && r[2 + n..] == EncodeAll(es[1..])
  {
    HeadSplits(es[0].id, |es[0].body|, es[0].body, EncodeAll(es[1..]));
  }

  lemma HeadSplits(x: u8, y: u8, s: seq<u8>, t: seq<u8>)
    ensures var r := ([x, y] + s) + t;
      |r| == 2 + |s| + |t| && r[0] == x && r[1] == y && r[2..] == s + t && r[2 + |s|..] == t
  {
  }

  /** The cursor loop is the fold of the element effects, omitting exactly a final element with an empty body. */
  lemma {:induction false} WalkIsFold(p: IeInfo, es: seq<Element>)
    requires AllEncodable(es) && AllDefinite(es)
    ensures Fits(EncodeAll(es)) && Walk(p, EncodeAll(es)) == Fold(p, Seen(es))
    decreases |es|
  {
    EncodedFits(es);
    if es != [] {
      EncodeHead(es);
      if es[0].body == [] && |es| == 1 {
        assert Seen(es) == [];
      } else {
        EffectIsLocal(p, es[0], EncodeAll(es[1..]));
        WalkIsFold(Apply(p, es[0]), es[1..]);
        SeenTail(es);
      }
    }
  }

  lemma {:induction false} FoldAppend(p: IeInfo, es: seq<Element>, fs: seq<Element>)
    requires AllEncodable(es) && AllEncodable(fs)
    ensures Fold(p, es + fs) == Fold(Fold(p, es), fs)
    decreases |es|
  {
    if es == [] {
      assert es + fs == fs;
    } else {
      assert (es + fs)[1..] == es[1..] + fs;
      FoldAppend(Apply(p, es[0]), es[1..], fs);
    }
  }

  lemma {:induction false} EncodeAppend(es: seq<Element>, fs: seq<Element>)
    requires AllEncodable(es) && AllEncodable(fs)
    ensures EncodeAll(es + fs) == EncodeAll(es) + EncodeAll(fs)
  {
    if es == [] {
      assert es + fs == fs;
    } else {
      assert (es + fs)[1..] == es[1..] + fs;
      EncodeAppend(es[1..], fs);
    }
  }

  /** Parsing is compositional over concatenation wherever the first part does not end in an empty body. */
  lemma WalkComposes(p: IeInfo, es: seq<Element>, fs: seq<Element>)
    requires AllEncodable(es) && AllEncodable(fs)
    requires AllDefinite(es) && AllDefinite(fs)
    requires es == [] || es[|es| - 1].body != [] || fs == []
    ensures Fits(EncodeAll(es)) && Fits(EncodeAll(fs)) && Fits(EncodeAll(es) + EncodeAll(fs))
    ensures Walk(p, EncodeAll(es) + EncodeAll(fs)) == Walk(Walk(p, EncodeAll(es)), EncodeAll(fs))
  {
    EncodeAppend(es, fs);
    WalkIsFold(p, es);
    WalkIsFold(Fold(p, Seen(es)), fs);
    WalkIsFold(p, es + fs);
    FoldComposes(p, es, fs);
  }

  lemma FoldComposes(p: IeInfo, es: seq<Element>, fs: seq<Element>)
    requires AllEncodable(es) && AllEncodable(fs)
    requires es == [] || es[|es| - 1].body != [] || fs == []
    ensures Fold(p, Seen(es + fs)) == Fold(Fold(p, Seen(es)), Seen(fs))
  {
    if fs == [] {
      assert es + fs == es;
    } else {
      SeenAppend(es, fs);
      FoldAppend(p, es, Seen(fs));
    }
  }

  /** Every region that fits is a list of encoded elements and at most two bytes more. */
  lemma {:induction false} FittingIsEncoded(region: seq<u8>) returns (es: seq<Element>, rest: seq<u8>)
    requires Fits(region)
    ensures AllEncodable(es) && |rest| <= 2 && region == EncodeAll(es) + rest
    decreases |region|
  {
    if |region| <= 2 {
      es, rest := [], region;
    } else {
      var n := region[1];
      var e := Element(region[0], region[2..2 + n]);
      var tail;
      tail, rest := FittingIsEncoded(region[2 + n..]);
      es := [e] + tail;
      assert es[1..] == tail;
      HeadAndRest(region, n);
      assert (Encode(e) + EncodeAll(tail)) + rest == Encode(e) + (EncodeAll(tail) + rest);
    }
  }

  lemma HeadAndRest(region: seq<u8>, n: nat)
    requires 2 + n <= |region|
    ensures region == ([region[0], region[1]] + region[2..2 + n]) + region[2 + n..]
  {
  }

  // ----- the ESSID is always a C string -----

  ghost predicate Terminated(p: IeInfo) {
    |CStr(p.essid)| < WLAN_MAX_SSID_LEN
  }

  lemma {:induction false} CStrEndsBefore(b: seq<u8>, k: nat)
    requires k < |b| && b[k] == 0
    ensures |CStr(b)| <= k
  {
    if b[0] != 0 {
      CStrEndsBefore(b[1..], k - 1);
    }
  }

  /** The element loop leaves a terminated ESSID terminated, whatever the elements say. */
  lemma {:induction false} WalkKeepsTerminated(p: IeInfo, region: seq<u8>)
    requires Fits(region) && Terminated(p)
    ensures Terminated(Walk(p, region))
    decreases |region|
  {
    if |region| > 2 {
      var id, n, body := region[0], region[1], region[2..];
      var q := Effect(p, id, n, body);
      if id == IE_SSID {
        CStrEndsBefore(q.essid, if n < 33 then n else 33);
      }
      assert Terminated(q);
      WalkKeepsTerminated(q, region[2 + n..]);
    }
  }
}
