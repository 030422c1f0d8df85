/** Over whole runs, a node's record is determined by the frames from and to its MAC address since it was created. */
module History {
  import opened NodeInfo
  import opened Options
  import opened Wlan
  import opened World
  import Ewma
  import T = Table

  /** A frame as the log of calls shows it: whether it was sent by the address, and the packet. */
  type Heard = (bool, Packet)

  /** The frames from or to an address among the calls of a run. */
  function Traffic<N, E>(steps: seq<Step<N, E>>, mac: Mac): (r: seq<Heard>)
    ensures |r| <= |steps|
  {
    if steps == [] then [] else Traffic(steps[..|steps| - 1], mac) + Contribution(steps[|steps| - 1].call, mac)
  }

  function Contribution<N, E>(call: Call<N, E>, mac: Mac): (r: seq<Heard>)
    ensures |r| <= 1
  {
    var r := Records(call);
    if r.Some? && r.value.0 == mac then [(r.value.1, r.value.2)] else []
  }

  /** A node's history without the times and AP channels. */
  function Heads(h: seq<Frame>): (r: seq<Heard>)
    ensures |r| == |h|
  {
    if h == [] then [] else Heads(Front(h)) + [(Last(h).sent, Last(h).p)]
  }

  /** The packets the address sent. */
  function Transmitted(traffic: seq<Heard>): (r: seq<Packet>)
    ensures |r| <= |traffic|
  {
    if traffic == [] then [] else Transmitted(Front(traffic)) + if Last(traffic).0 then [Last(traffic).1] else []
  }

  /** Before step b no node had the address, and h is all its traffic from then on. */
  ghost predicate BornAt<N, E>(start: State<N, E>, steps: seq<Step<N, E>>, b: nat, mac: Mac, traffic: seq<Heard>) {
    && b < |steps| && Traffic(steps[b..], mac) == traffic
    && var s := Run(start, steps[..b]); s.Some? && Unheard(s.value.t.info, mac)
  }

  ghost predicate Unheard<N>(info: map<N, Info>, mac: Mac) {
    forall n :: n in info ==> info[n].id.src != mac
  }

  ghost predicate Since<N, E>(start: State<N, E>, steps: seq<Step<N, E>>, mac: Mac, traffic: seq<Heard>) {
    exists b: nat :: BornAt(start, steps, b, mac, traffic)
  }

  /** Every history is the traffic since the node's birth. */
  ghost predicate Sourced<N, E>(start: State<N, E>, steps: seq<Step<N, E>>, info: map<N, Info>, hist: map<N, seq<Frame>>)
    requires info.Keys <= hist.Keys
  {
    forall n :: n in info ==> Since(start, steps, info[n].id.src, Heads(hist[n]))
  }

  lemma TrafficGrows<N, E>(steps: seq<Step<N, E>>, step: Step<N, E>, b: nat, mac: Mac)
    requires b <= |steps|
    ensures Traffic((steps + [step])[b..], mac) == Traffic(steps[b..], mac) + Contribution(step.call, mac)
  {
    assert (steps + [step])[b..] == steps[b..] + [step];
    assert (steps[b..] + [step])[..|steps[b..]|] == steps[b..];
  }

  /** One more step leaves a birth where it was and adds its contribution. */
  lemma SinceGrows<N, E>(start: State<N, E>, steps: seq<Step<N, E>>, step: Step<N, E>, mac: Mac, traffic: seq<Heard>)
    requires Since(start, steps, mac, traffic)
    ensures Since(start, steps + [step], mac, traffic + Contribution(step.call, mac))
  {
    var b: nat :| BornAt(start, steps, b, mac, traffic);
    TrafficGrows(steps, step, b, mac);
    assert (steps + [step])[..b] == steps[..b];
    assert BornAt(start, steps + [step], b, mac, traffic + Contribution(step.call, mac));
  }

  lemma BornNow<N, E>(start: State<N, E>, steps: seq<Step<N, E>>, step: Step<N, E>, mac: Mac)
    requires Run(start, steps).Some? && Unheard(Run(start, steps).value.t.info, mac)
    ensures Since(start, steps + [step], mac, Contribution(step.call, mac))
  {
    TrafficGrows(steps, step, |steps|, mac);
    assert steps[|steps|..] == [];
    assert (steps + [step])[..|steps|] == steps;
    assert [] + Contribution(step.call, mac) == Contribution(step.call, mac);
    assert BornAt(start, steps + [step], |steps|, mac, Contribution(step.call, mac));
  }

  lemma HeadsAppend(h: seq<Frame>, f: Frame)
    ensures Heads(h + [f]) == Heads(h) + [(f.sent, f.p)]
  {
    assert Front(h + [f]) == h;
  }

  /** A step that records nothing. */
  lemma SourcedQuiet<N, E>(start: State<N, E>, steps: seq<Step<N, E>>, step: Step<N, E>, info: map<N, Info>,
                           past: Past<N>, live: map<N, Info>)
    requires info.Keys == past.hist.Keys && Sourced(start, steps, info, past.hist) && Records(step.call).None?
    requires live.Keys <= info.Keys && forall n :: n in live ==> live[n] == info[n]
    ensures live.Keys <= Kept(past, live.Keys).hist.Keys && Sourced(start, steps + [step], live, Kept(past, live.Keys).hist)
  {
    forall n | n in live
      ensures Since(start, steps + [step], live[n].id.src, Heads(past.hist[n]))
    {
      SinceGrows(start, steps, step, info[n].id.src, Heads(past.hist[n]));
      assert Heads(past.hist[n]) + [] == Heads(past.hist[n]);
    }
  }

  /** A step that records f at node n, whose address is mac. */
  ghost predicate Adds<N, E>(step: Step<N, E>, info: map<N, Info>, n: N, mac: Mac, f: Frame) {
    && Contribution(step.call, mac) == [(f.sent, f.p)]
    && (n in info ==> info[n].id.src == mac)
    && (n !in info ==> Unheard(info, mac))
    && (forall m :: m in info && m != n ==> info[m].id.src != mac && Contribution(step.call, info[m].id.src) == [])
  }

  lemma SourcedNoted<N, E>(start: State<N, E>, steps: seq<Step<N, E>>, step: Step<N, E>, info: map<N, Info>, past: Past<N>,
                           n: N, mac: Mac, f: Frame, i: Info)
    requires info.Keys == past.hist.Keys && Sourced(start, steps, info, past.hist)
    requires Run(start, steps).Some? && Run(start, steps).value.t.info == info
    requires Adds(step, info, n, mac, f) && i.id.src == mac
    ensures Sourced(start, steps + [step], info[n := i], Noted(past, n, f, step.at).hist)
  {
    var hist := Noted(past, n, f, step.at).hist;
    forall m | m in info[n := i]
      ensures Since(start, steps + [step], info[n := i][m].id.src, Heads(hist[m]))
    {
      if m != n {
        SinceGrows(start, steps, step, info[m].id.src, Heads(past.hist[m]));
        assert Heads(past.hist[m]) + [] == Heads(past.hist[m]);
      } else if n in info {
        SinceGrows(start, steps, step, mac, Heads(past.hist[n]));
        HeadsAppend(past.hist[n], f);
      } else {
        BornNow(start, steps, step, mac);
        HeadsAppend([], f);
        assert [] + [f] == [f];
      }
    }
  }

  /** A recorded frame is one more of its address, and of no other node's. */
  lemma RecordAdds<N, E>(t: T.Table<N, E>, step: Step<N, E>)
    requires T.TableOk(t) && Legal(t, step.call) && Records(step.call).Some?
    ensures var r := Records(step.call).value;
      var n := T.Heard(t, r.0, r.3);
      Adds(step, t.info, n, r.0, Frame(r.1, r.2, U32(step.at), T.ApChannel(t.aps, t.info, n)))
  {
    var r := Records(step.call).value;
    T.RecordRecords(t, r.0, r.1, r.2, U32(step.at), r.3);
  }

  ghost predicate StateSourced<N, E>(start: State<N, E>, steps: seq<Step<N, E>>, s: State<N, E>) {
    s.t.info.Keys <= s.past.hist.Keys && Sourced(start, steps, s.t.info, s.past.hist)
  }

  lemma StepSourced<N, E>(start: State<N, E>, steps: seq<Step<N, E>>, s: State<N, E>, step: Step<N, E>)
    requires Run(start, steps) == Some(s) && Good(s) && StateSourced(start, steps, s)
    requires Legal(s.t, step.call) && s.clock <= step.at
    ensures StateSourced(start, steps + [step], Do(s, step))
  {
    ApplyInfo(s.t, s.last, step.at, step.call);
    var r := Records(step.call);
    if r.None? {
      SourcedQuiet(start, steps, step, s.t.info, s.past, Do(s, step).t.info);
    } else {
      var n := T.Heard(s.t, r.value.0, r.value.3);
      var f := Frame(r.value.1, r.value.2, U32(step.at), T.ApChannel(s.t.aps, s.t.info, n));
      RecordAdds(s.t, step);
      T.AfterSrc(if n in s.t.info then s.t.info[n] else Fresh(f.sent), f);
      SourcedNoted(start, steps, step, s.t.info, s.past, n, r.value.0, f, Do(s, step).t.info[n]);
    }
  }

  lemma {:induction false} RunsSourced<N, E>(last: u32, clock: nat, steps: seq<Step<N, E>>)
    requires Run(Start(last, clock), steps).Some?
    ensures StateSourced(Start(last, clock), steps, Run(Start(last, clock), steps).value)
  {
    if steps != [] {
      var pre := steps[..|steps| - 1];
      RunLast(Start<N, E>(last, clock), steps);
      RunsSourced(last, clock, pre);
      RunsKeepTable(last, clock, pre);
      LastSourced(Start(last, clock), steps, Run(Start(last, clock), pre).value, Run(Start(last, clock), steps).value);
    }
  }

  lemma LastSourced<N, E>(start: State<N, E>, steps: seq<Step<N, E>>, s: State<N, E>, d: State<N, E>)
    requires steps != [] && Run(start, steps[..|steps| - 1]) == Some(s) && Good(s)
    requires StateSourced(start, steps[..|steps| - 1], s) && Next(Some(s), steps[|steps| - 1]) == Some(d)
    ensures StateSourced(start, steps, d)
  {
    var pre, step := steps[..|steps| - 1], steps[|steps| - 1];
    NextIsDo(s, step);
    StepSourced(start, pre, s, step);
    assert pre + [step] == steps;
  }

  lemma NextIsDo<N, E>(s: State<N, E>, step: Step<N, E>)
    requires T.TableOk(s.t) && Next(Some(s), step).Some?
    ensures Legal(s.t, step.call) && s.clock <= step.at && Next(Some(s), step).value == Do(s, step)
  {
  }

  // ----- statistics -----

  /** What a record says about the traffic of its address. */
  ghost predicate Statistics(i: Info, traffic: seq<Heard>) {
    var sent := Transmitted(traffic);
    && i.seen.pktCount == i.sig.count == |sent| && i.seen.rxPktCount == |traffic| - |sent|
    && (i.seen.rxOnly <==> i.seen.pktCount == 0)
    && i.sig.avg == Ewma.FoldWord(Samples(sent), SIG_FACTOR, SIG_WEIGHT)
    && i.retries.last == TrailingRun(Numbered(sent)) && i.retries.all == TotalRetries(Numbered(sent))
    && i.retries.last <= i.retries.all <= (if sent == [] then 0 else |sent| - 1)
    && (sent != [] && Negative(sent) ==> Greatest(sent, i.sig.max) && -i.sig.max <= Ewma.ReadOf(i.sig.avg, SIG_FACTOR))
  }

  lemma {:induction false} TransmittedHeads(h: seq<Frame>)
    ensures Transmitted(Heads(h)) == Sent(h)
  {
    if h != [] {
      TransmittedHeads(Front(h));
      assert Front(Heads(h)) == Heads(Front(h));
    }
  }

  lemma FoldStatistics(h: seq<Frame>)
    requires h != [] && |h| < 0x1_0000_0000
    ensures Statistics(Fold(h), Heads(h))
  {
    TransmittedHeads(h);
    CountsFrames(h);
    FoldsSent(h);
    CountsSamples(Sent(h));
    AveragesSignal(Sent(h));
    CountsRetries(Sent(h));
    if Sent(h) != [] && Negative(Sent(h)) {
      TracksMaximum(Sent(h));
      AverageAboveMaximum(Sent(h));
    }
  }

  lemma RecordStatistics(i: Info, h: seq<Frame>, seen: nat, clock: nat)
    requires Tracked(i, h, seen, clock) && |h| < 0x1_0000_0000
    ensures Statistics(i, Heads(h))
  {
    FoldStatistics(h);
  }

  /** In any run of fewer than 2^32 calls, every node's record describes the traffic of its address since the node's birth. */
  lemma RunsCount<N, E>(last: u32, clock: nat, steps: seq<Step<N, E>>, n: N) returns (b: nat)
    requires Run(Start(last, clock), steps).Some? && |steps| < 0x1_0000_0000
    requires n in Run(Start(last, clock), steps).value.t.info
    ensures var i := Run(Start(last, clock), steps).value.t.info[n];
      && b < |steps| && BornAt(Start(last, clock), steps, b, i.id.src, Traffic(steps[b..], i.id.src))
      && Statistics(i, Traffic(steps[b..], i.id.src))
  {
    RunsRemember(last, clock, steps);
    RunsSourced(last, clock, steps);
    var start := Start<N, E>(last, clock);
    var s := Run(start, steps).value;
    assert Since(start, steps, s.t.info[n].id.src, Heads(s.past.hist[n]));
    b :| BornAt(start, steps, b, s.t.info[n].id.src, Heads(s.past.hist[n]));
    RecordStatistics(s.t.info[n], s.past.hist[n], s.past.seen[n], s.clock);
  }
}
