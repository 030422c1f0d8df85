/** Whole runs of the node table: any sequence of calls, on a clock that the code sees modulo 2^32 microseconds. */
module World {
  import opened NodeInfo
  import opened Options
  import opened Wlan
  import G = EssidGraph
  import T = Table

  /** A call of the library. `spare` stands for the address the allocator returns if it is asked. */
  datatype Call<N(==), E(==)> =
    | NodeUpdate(p: Packet, spare: N)
    | ReceiverUpdate(p: Packet, spare: N)
    | FindAp(n: N)
    | EssidsUpdate(p: Packet, sender: Option<N>, spareEssid: E)
    | EssidsRemoveNode(n: N)
    | Timeout(sec: u32)

  /** A call and the true time, in microseconds, at which it is made. */
  datatype Step<N(==), E(==)> = Step(at: nat, call: Call<N, E>)

  /** The histories and the times last seen of the live nodes. */
  datatype Past<N(==)> = Past(hist: map<N, seq<Frame>>, seen: map<N, nat>)

  function Noted<N>(past: Past<N>, n: N, f: Frame, at: nat): Past<N> {
    Past(past.hist[n := (if n in past.hist then past.hist[n] else []) + [f]], past.seen[n := at])
  }

  function Kept<N>(past: Past<N>, live: set<N>): Past<N> {
    Past(map n | n in past.hist && n in live :: past.hist[n], map n | n in past.seen && n in live :: past.seen[n])
  }

  /** The table, *last_nodetimeout, the true time, and what the live nodes went through. */
  datatype State<N(==), E(==)> = State(t: T.Table<N, E>, last: u32, clock: nat, past: Past<N>)

  function Start<N, E>(last: u32, clock: nat): State<N, E> {
    State(T.Empty(), last, clock, Past(map[], map[]))
  }

  /**
   * What a caller owes: live nodes, and names that are terminated, as the parser leaves them. The allocator owes an address
   * that is free, if it is asked.
   */
  ghost predicate Legal<N, E>(t: T.Table<N, E>, call: Call<N, E>) {
    match call
    case NodeUpdate(p, spare) => T.Sends(p) ==> T.Vacant(t, p.addr.ta, spare)
    case ReceiverUpdate(p, spare) => T.Receives(p) ==> T.Vacant(t, p.addr.ra, spare)
    case FindAp(n) => n in t.info
    case EssidsUpdate(p, n, e) =>
      && (n.Some? ==> n.value in t.info)
      && (n.Some? && T.Names(p) ==> 0 in p.ie.essid && G.Vacant(t.ess, CStr(p.ie.essid), e))
    case EssidsRemoveNode(n) => n in t.info
    case Timeout(_) => true
  }

  /** What a call does to the table and *last_nodetimeout. */
  function Apply<N, E>(t: T.Table<N, E>, last: u32, now: u32, call: Call<N, E>): T.Swept<N, E>
    requires T.TableOk(t) && Legal(t, call)
  {
    match call
    case NodeUpdate(p, spare) => T.Swept(T.NodeUpdate(t, p, now, spare), last)
    case ReceiverUpdate(p, spare) => T.Swept(T.ReceiverUpdate(t, p, now, spare), last)
    case FindAp(n) => T.Swept(T.FindAp(t, n), last)
    case EssidsUpdate(p, n, e) => T.Swept(T.EssidsUpdate(t, p, n, e), last)
    case EssidsRemoveNode(n) => T.Swept(T.EssidsRemoveNode(t, n), last)
    case Timeout(sec) => T.Timeout(t, now, sec, last)
  }

  /** The frame a call records, if any, with its MAC address. */
  function Records<N, E>(call: Call<N, E>): Option<(Mac, bool, Packet, N)> {
    match call
    case NodeUpdate(p, spare) => if T.Sends(p) then Some((p.addr.ta, true, p, spare)) else None
    case ReceiverUpdate(p, spare) => if T.Receives(p) then Some((p.addr.ra, false, p, spare)) else None
    case _ => None
  }

  /** What a call adds to the histories; those of freed nodes are forgotten. */
  function Recall<N, E>(t: T.Table<N, E>, past: Past<N>, at: nat, call: Call<N, E>, live: set<N>): Past<N>
    requires forall n :: n in t.order ==> n in t.info
  {
    var r := Records(call);
    if r.None? then Kept(past, live)
    else
      var n := T.Heard(t, r.value.0, r.value.3);
      Noted(past, n, Frame(r.value.1, r.value.2, U32(at), T.ApChannel(t.aps, t.info, n)), at)
  }

  function Do<N, E>(s: State<N, E>, step: Step<N, E>): State<N, E>
    requires T.TableOk(s.t) && Legal(s.t, step.call)
  {
    var r := Apply(s.t, s.last, U32(step.at), step.call);
    State(r.t, r.last, step.at, Recall(s.t, s.past, step.at, step.call, r.t.info.Keys))
  }

  /** The state after a run, if every call of it is legal and time goes forward. */
  ghost function Run<N, E>(start: State<N, E>, steps: seq<Step<N, E>>): Option<State<N, E>> {
    if steps == [] then Some(start) else Next(Run(start, steps[..|steps| - 1]), steps[|steps| - 1])
  }

  ghost function Next<N, E>(s: Option<State<N, E>>, step: Step<N, E>): Option<State<N, E>> {
    if s.Some? && T.TableOk(s.value.t) && Legal(s.value.t, step.call) && s.value.clock <= step.at then Some(Do(s.value, step))
    else None
  }

  lemma RunLast<N, E>(start: State<N, E>, steps: seq<Step<N, E>>)
    requires steps != []
    ensures Run(start, steps) == Next(Run(start, steps[..|steps| - 1]), steps[|steps| - 1])
  {
  }

  // ----- the invariant -----

  /** A call keeps the table in order. */
  lemma ApplyKeeps<N, E>(t: T.Table<N, E>, last: u32, now: u32, call: Call<N, E>)
    requires T.TableOk(t) && Legal(t, call)
    ensures T.TableOk(Apply(t, last, now, call).t)
  {
    match call
    case NodeUpdate(p, spare) => T.NodeUpdateKeeps(t, p, now, spare);
    case ReceiverUpdate(p, spare) => T.ReceiverUpdateKeeps(t, p, now, spare);
    case FindAp(n) => T.FindApKeeps(t, n);
    case EssidsUpdate(p, n, e) => T.EssidsUpdateKeeps(t, p, n, e);
    case EssidsRemoveNode(n) => T.EssidsRemoveNodeKeeps(t, n);
    case Timeout(sec) => T.TimeoutEvicts(t, now, sec, last);
  }

  /** The record is the fold of the frames, the last of which arrived at `seen`. */
  ghost predicate Tracked(i: Info, h: seq<Frame>, seen: nat, clock: nat) {
    h != [] && i == Fold(h) && Last(h).now == U32(seen) && seen <= clock
  }

  ghost predicate Remembered<N>(info: map<N, Info>, past: Past<N>, clock: nat) {
    && past.hist.Keys == past.seen.Keys == info.Keys
    && forall n :: n in info ==> Tracked(info[n], past.hist[n], past.seen[n], clock)
  }

  ghost predicate Good<N, E>(s: State<N, E>) {
    T.TableOk(s.t) && Remembered(s.t.info, s.past, s.clock)
  }

  lemma FoldAppend(h: seq<Frame>, f: Frame)
    ensures Fold(h + [f]) == After(if h == [] then Fresh(f.sent) else Fold(h), f)
  {
    assert (h + [f])[..|h|] == h;
  }

  lemma NotedTracked(i: Info, h: seq<Frame>, f: Frame, at: nat)
    requires i == (if h == [] then Fresh(f.sent) else Fold(h)) && f.now == U32(at)
    ensures Tracked(After(i, f), h + [f], at, at)
  {
    FoldAppend(h, f);
  }

  lemma RestTracked<N>(info: map<N, Info>, past: Past<N>, clock: nat, n: N, at: nat)
    requires Remembered(info, past, clock) && clock <= at
    ensures forall m :: m in info && m != n ==> Tracked(info[m], past.hist[m], past.seen[m], at)
  {
    forall m | m in info && m != n
      ensures Tracked(info[m], past.hist[m], past.seen[m], at)
    {
      assert Tracked(info[m], past.hist[m], past.seen[m], clock);
    }
  }

  lemma TrackedAll<N>(d: map<N, Info>, info: map<N, Info>, past: Past<N>, more: Past<N>, n: N, at: nat)
    requires past.hist.Keys == past.seen.Keys == info.Keys && n in d && d == info[n := d[n]]
    requires n in more.hist && n in more.seen
    requires more.hist == past.hist[n := more.hist[n]] && more.seen == past.seen[n := more.seen[n]]
    requires Tracked(d[n], more.hist[n], more.seen[n], at)
    requires forall m :: m in info && m != n ==> Tracked(info[m], past.hist[m], past.seen[m], at)
    ensures Remembered(d, more, at)
  {
  }

  lemma NotedKeeps<N>(info: map<N, Info>, past: Past<N>, clock: nat, n: N, f: Frame, at: nat)
    requires Remembered(info, past, clock) && clock <= at && f.now == U32(at)
    ensures Remembered(info[n := After(if n in info then info[n] else Fresh(f.sent), f)], Noted(past, n, f, at), at)
  {
    var i, h := if n in info then info[n] else Fresh(f.sent), if n in past.hist then past.hist[n] else [];
    assert n in info ==> Tracked(info[n], past.hist[n], past.seen[n], clock);
    NotedTracked(i, h, f, at);
    RestTracked(info, past, clock, n, at);
    TrackedAll(info[n := After(i, f)], info, past, Noted(past, n, f, at), n, at);
  }

  lemma KeptKeeps<N>(info: map<N, Info>, past: Past<N>, clock: nat, live: map<N, Info>, at: nat)
    requires Remembered(info, past, clock) && clock <= at && live.Keys <= info.Keys
    requires forall n :: n in live ==> live[n] == info[n]
    ensures Remembered(live, Kept(past, live.Keys), at)
  {
  }

  /** The records after a call: one more frame at one node, or fewer nodes. */
  lemma ApplyInfo<N, E>(t: T.Table<N, E>, last: u32, at: nat, call: Call<N, E>)
    requires T.TableOk(t) && Legal(t, call)
    ensures var info, r := Apply(t, last, U32(at), call).t.info, Records(call);
      if r.None? then info.Keys <= t.info.Keys && forall n :: n in info ==> info[n] == t.info[n]
      else
        var n := T.Heard(t, r.value.0, r.value.3);
        var f := Frame(r.value.1, r.value.2, U32(at), T.ApChannel(t.aps, t.info, n));
        info == t.info[n := After(if n in t.info then t.info[n] else Fresh(f.sent), f)]
  {
    match call
    case NodeUpdate(p, spare) =>
      if T.Sends(p) {
        RecordInfo(t, p.addr.ta, true, p, U32(at), spare);
      }
    case ReceiverUpdate(p, spare) =>
      if T.Receives(p) {
        RecordInfo(t, p.addr.ra, false, p, U32(at), spare);
      }
    case Timeout(sec) => T.TimeoutEvicts(t, U32(at), sec, last);
    case _ =>
  }

  lemma RecordInfo<N, E>(t: T.Table<N, E>, mac: Mac, sent: bool, p: Packet, now: u32, spare: N)
    requires T.TableOk(t) && T.Vacant(t, mac, spare)
    ensures var n := T.Heard(t, mac, spare);
      T.Record(t, mac, sent, p, now, spare).info ==
      t.info[n := After(if n in t.info then t.info[n] else Fresh(sent), Frame(sent, p, now, T.ApChannel(t.aps, t.info, n)))]
  {
    T.RecordRecords(t, mac, sent, p, now, spare);
  }

  lemma StepKeeps<N, E>(s: State<N, E>, step: Step<N, E>)
    requires Good(s) && Legal(s.t, step.call) && s.clock <= step.at
    ensures Good(Do(s, step))
  {
    ApplyKeeps(s.t, s.last, U32(step.at), step.call);
    ApplyInfo(s.t, s.last, step.at, step.call);
    var r := Records(step.call);
    if r.None? {
      KeptKeeps(s.t.info, s.past, s.clock, Do(s, step).t.info, step.at);
    } else {
      var n := T.Heard(s.t, r.value.0, r.value.3);
      var f := Frame(r.value.1, r.value.2, U32(step.at), T.ApChannel(s.t.aps, s.t.info, n));
      NotedKeeps(s.t.info, s.past, s.clock, n, f, step.at);
    }
  }

  /** Every run of legal calls from empty lists keeps the table in order and every record the fold of its frames. */
  lemma {:induction false} RunsKeepTable<N, E>(last: u32, clock: nat, steps: seq<Step<N, E>>)
    requires Run(Start(last, clock), steps).Some?
    ensures Good(Run(Start(last, clock), steps).value)
  {
    if steps == [] {
      T.EmptyOk<N, E>();
    } else {
      var pre := steps[..|steps| - 1];
      RunsKeepTable(last, clock, pre);
      StepKeeps(Run(Start<N, E>(last, clock), pre).value, steps[|steps| - 1]);
    }
  }

  /** The part of the invariant that is about histories alone. */
  lemma RunsRemember<N, E>(last: u32, clock: nat, steps: seq<Step<N, E>>)
    requires Run(Start(last, clock), steps).Some?
    ensures var s := Run(Start(last, clock), steps).value; Remembered(s.t.info, s.past, s.clock)
  {
    RunsKeepTable(last, clock, steps);
  }

  // ----- what is recorded at all -----

  /** A frame with a good FCS (bit 1 of the flags unset), from somebody or to somebody in particular. */
  predicate Clean(f: Frame) {
    1 !in f.p.meta.flags && if f.sent then f.p.addr.ta != NO_MAC else f.p.addr.ra != NO_MAC && f.p.addr.ra != BROADCAST
  }

  ghost predicate AllClean<N>(hist: map<N, seq<Frame>>) {
    forall n, k :: n in hist && 0 <= k < |hist[n]| ==> Clean(hist[n][k])
  }

  lemma NotedClean<N>(past: Past<N>, n: N, f: Frame, at: nat)
    requires AllClean(past.hist) && Clean(f)
    ensures AllClean(Noted(past, n, f, at).hist)
  {
  }

  lemma GoodFcs(p: Packet)
    ensures BadFcs(p) <==> 1 in p.meta.flags
  {
    assert 1 in p.meta.flags <==> 1 in p.meta.flags * PHY_FLAG_BADFCS;
  }

  lemma StepClean<N, E>(s: State<N, E>, step: Step<N, E>)
    requires T.TableOk(s.t) && Legal(s.t, step.call) && AllClean(s.past.hist)
    ensures AllClean(Do(s, step).past.hist)
  {
    var r := Records(step.call);
    if r.Some? {
      GoodFcs(r.value.2);
      var n := T.Heard(s.t, r.value.0, r.value.3);
      NotedClean(s.past, n, Frame(r.value.1, r.value.2, U32(step.at), T.ApChannel(s.t.aps, s.t.info, n)), step.at);
    }
  }

  /** In every run, no node's history has a damaged frame in it, nor a received one that was sent to everybody. */
  lemma {:induction false} RunsClean<N, E>(last: u32, clock: nat, steps: seq<Step<N, E>>)
    requires Run(Start(last, clock), steps).Some?
    ensures AllClean(Run(Start(last, clock), steps).value.past.hist)
  {
    if steps != [] {
      var pre := steps[..|steps| - 1];
      RunLast(Start<N, E>(last, clock), steps);
      RunsClean(last, clock, pre);
      StepClean(Run(Start<N, E>(last, clock), pre).value, steps[|steps| - 1]);
    }
  }

  /** So nobody who was only ever a receiver has the broadcast address. */
  lemma ReceiversAreUnicast<N, E>(last: u32, clock: nat, steps: seq<Step<N, E>>, n: N)
    requires Run(Start(last, clock), steps).Some?
    requires var s := Run(Start(last, clock), steps).value; n in s.t.info && s.t.info[n].seen.rxOnly
    ensures Run(Start(last, clock), steps).value.t.info[n].id.src != BROADCAST
  {
    RunsClean(last, clock, steps);
    RunsRemember(last, clock, steps);
    var s := Run(Start<N, E>(last, clock), steps).value;
    var h := s.past.hist[n];
    assert Tracked(s.t.info[n], h, s.past.seen[n], s.clock);
    assert Clean(h[|h| - 1]);
    LastReceived(h);
  }

  lemma LastReceived(h: seq<Frame>)
    requires h != [] && Fold(h).seen.rxOnly
    ensures !Last(h).sent && Fold(h).id.src == Last(h).p.addr.ra
  {
  }

  /** A run never gets stuck: any legal call can follow. */
  lemma RunsContinue<N, E>(last: u32, clock: nat, steps: seq<Step<N, E>>, step: Step<N, E>)
    requires Run(Start(last, clock), steps).Some?
    requires Legal(Run(Start(last, clock), steps).value.t, step.call) && Run(Start(last, clock), steps).value.clock <= step.at
    ensures Run(Start(last, clock), steps + [step]).Some?
  {
    RunsKeepTable(last, clock, steps);
    assert (steps + [step])[..|steps|] == steps;
  }
}
