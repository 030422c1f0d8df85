/**
 * Whole runs on the heap: from two empty lists, whatever calls a client makes, rings and pointers stand for the table that
 * World.Run computes, so that what holds of every run holds of the heap.
 */
module HeapRun {
  import opened CcList
  import opened HeapAps
  import opened HeapEssids
  import opened HeapInvariant
  import opened HeapNodes
  import opened HeapTimeout
  import opened HeapView
  import opened History
  import opened NodeInfo
  import opened Nodes
  import opened Options
  import opened Staleness
  import opened Wlan
  import opened World
  import G = EssidGraph
  import T = Table

  // ----- what a client asks for -----

  /**
   * A call by a client that knows nodes by their MAC addresses, of which every live node has its own: the two node updates,
   * the search for an AP, the ESSID update (of no node, if nobody has the address), the removal from an ESSID, the timeout.
   */
  datatype Request =
    | Transmitted(p: Packet)
    | Received(p: Packet)
    | Seeking(mac: Mac)
    | Naming(p: Packet, mac: Mac)
    | Unnaming(mac: Mac)
    | Sweeping(sec: u32)

  /** A request and the true time, in microseconds, at which it is made. */
  datatype Timed = Timed(at: nat, request: Request)

  type HeapCall = Call<Node, Essid>

  /** Time goes forward, and names are terminated, as the parser leaves them. */
  ghost predicate Fair(requests: seq<Timed>, clock: nat) {
    && (forall k :: 0 <= k < |requests| ==> clock <= requests[k].at)
    && (forall j, k :: 0 <= j < k < |requests| ==> requests[j].at <= requests[k].at)
    && (forall k :: 0 <= k < |requests| && requests[k].request.Naming? ==> 0 in requests[k].request.p.ie.essid)
  }

  // ----- the calls that answer the requests -----

  /** n is the node of this address. */
  ghost predicate Owns(t: Model, mac: Mac, n: Node) {
    n in t.info && t.info[n].id.src == mac
  }

  /** The addresses of the live nodes. */
  ghost function Addresses<N>(info: map<N, Info>): set<Mac> {
    set n | n in info :: info[n].id.src
  }

  /** The call a request leads to in table t: none if the frame is ignored or the address is nobody's. */
  ghost predicate Answers(t: Model, r: Request, c: Option<HeapCall>) {
    match r
    case Transmitted(p) => if T.Sends(p) then c.Some? && c.value.NodeUpdate? && c.value.p == p else c.None?
    case Received(p) => if T.Receives(p) then c.Some? && c.value.ReceiverUpdate? && c.value.p == p else c.None?
    case Seeking(mac) => if mac in Addresses(t.info) then c.Some? && c.value.FindAp? && Owns(t, mac, c.value.n) else c.None?
    case Naming(p, mac) =>
      if mac in Addresses(t.info) && T.Names(p) then
        c.Some? && c.value.EssidsUpdate? && c.value.p == p && c.value.sender.Some? && Owns(t, mac, c.value.sender.value)
      else c.None?
    case Unnaming(mac) =>
      if mac in Addresses(t.info) then c.Some? && c.value.EssidsRemoveNode? && Owns(t, mac, c.value.n) else c.None?
    case Sweeping(sec) => c == Some(Timeout(sec))
  }

  /** The steps of a run: the calls that were made, at their times. */
  ghost function StepsOf(requests: seq<Timed>, calls: seq<Option<HeapCall>>): (r: seq<Step<Node, Essid>>)
    requires |requests| == |calls|
    ensures |r| <= |requests|
  {
    if requests == [] then []
    else
      var m := |requests| - 1;
      var steps := StepsOf(requests[..m], calls[..m]);
      if calls[m].Some? then steps + [Step(requests[m].at, calls[m].value)] else steps
  }

  /** Every call is the answer to its request in the table that the calls before it left. */
  ghost predicate Follows(start: State<Node, Essid>, requests: seq<Timed>, calls: seq<Option<HeapCall>>)
    requires |requests| == |calls|
  {
    requests == [] ||
    var m := |requests| - 1;
    && Follows(start, requests[..m], calls[..m])
    && var s := Run(start, StepsOf(requests[..m], calls[..m]));
      s.Some? && T.TableOk(s.value.t) && Answers(s.value.t, requests[m].request, calls[m])
  }

  /** What was asked so far is a run that ends in table t with *last_nodetimeout as given. */
  ghost predicate Ran(start: State<Node, Essid>, requests: seq<Timed>, calls: seq<Option<HeapCall>>, t: Model, last: u32) {
    && |calls| == |requests| && Follows(start, requests, calls)
    && var s := Run(start, StepsOf(requests, calls));
      && s.Some? && s.value.t == t && s.value.last == last
      && s.value.clock <= if requests == [] then start.clock else requests[|requests| - 1].at
  }

  /** What a request does to the table: the effect of its call, which is legal, or nothing. */
  ghost predicate Served(t: Model, last: u32, now: u32, r: Request, c: Option<HeapCall>, d: Model, newLast: u32)
    requires T.TableOk(t)
  {
    && Answers(t, r, c)
    && match c
       case None => d == t && newLast == last
       case Some(call) => Legal(t, call) && T.Swept(d, newLast) == Apply(t, last, now, call)
  }

  /** The same as one fact, so that a method can pass it on unopened. */
  ghost function Service(t: Model, last: u32, now: u32, r: Request, c: Option<HeapCall>, d: Model, newLast: u32): Integrity {
    if T.TableOk(t) && Served(t, last, now, r, c, d, newLast) then Intact else Damaged
  }

  lemma StepsMore(requests: seq<Timed>, calls: seq<Option<HeapCall>>, r: Timed, c: Option<HeapCall>)
    requires |requests| == |calls|
    ensures var steps := StepsOf(requests, calls);
      StepsOf(requests + [r], calls + [c]) == if c.Some? then steps + [Step(r.at, c.value)] else steps
  {
    assert (requests + [r])[..|requests|] == requests && (calls + [c])[..|calls|] == calls;
  }

  lemma RunMore(start: State<Node, Essid>, steps: seq<Step<Node, Essid>>, step: Step<Node, Essid>)
    ensures Run(start, steps + [step]) == Next(Run(start, steps), step)
  {
    assert (steps + [step])[..|steps|] == steps;
  }

  lemma FollowsMore(start: State<Node, Essid>, requests: seq<Timed>, calls: seq<Option<HeapCall>>, t: Model,
                    r: Timed, c: Option<HeapCall>)
    requires |requests| == |calls| && Follows(start, requests, calls) && T.TableOk(t) && Answers(t, r.request, c)
    requires var s := Run(start, StepsOf(requests, calls)); s.Some? && s.value.t == t
    ensures Follows(start, requests + [r], calls + [c])
  {
    assert (requests + [r])[..|requests|] == requests && (calls + [c])[..|calls|] == calls;
  }

  /** A legal call is one more step of the run. */
  lemma OneStep(s: State<Node, Essid>, r: Timed, call: HeapCall, d: Model, newLast: u32)
    requires T.TableOk(s.t) && Legal(s.t, call) && s.clock <= r.at && T.Swept(d, newLast) == Apply(s.t, s.last, U32(r.at), call)
    ensures var n := Next(Some(s), Step(r.at, call));
      n.Some? && n.value.t == d && n.value.last == newLast && n.value.clock == r.at
  {
  }

  lemma RanMore(start: State<Node, Essid>, requests: seq<Timed>, calls: seq<Option<HeapCall>>, t: Model, last: u32,
                r: Timed, c: Option<HeapCall>, d: Model, newLast: u32)
    requires Ran(start, requests, calls, t, last) && T.TableOk(t)
    requires Service(t, last, U32(r.at), r.request, c, d, newLast).Intact?
    requires start.clock <= r.at && (requests != [] ==> requests[|requests| - 1].at <= r.at)
    ensures Ran(start, requests + [r], calls + [c], d, newLast)
  {
    var steps := StepsOf(requests, calls);
    FollowsMore(start, requests, calls, t, r, c);
    StepsMore(requests, calls, r, c);
    if c.Some? {
      OneStep(Run(start, steps).value, r, c.value, d, newLast);
      RunMore(start, steps, Step(r.at, c.value));
    }
  }

  /** Whether the requests so far ran, as one fact. */
  ghost function Log(start: State<Node, Essid>, requests: seq<Timed>, calls: seq<Option<HeapCall>>, t: Model, last: u32)
    : Integrity
  {
    if Ran(start, requests, calls, t, last) then Intact else Damaged
  }

  lemma LogStart(last: u32, clock: nat)
    ensures Log(Start(last, clock), [], [], T.Empty(), last).Intact?
  {
  }

  lemma LogKeepsTable(last0: u32, clock: nat, requests: seq<Timed>, calls: seq<Option<HeapCall>>, t: Model, last: u32)
    requires Log(Start(last0, clock), requests, calls, t, last).Intact?
    ensures T.TableOk(t)
  {
    RunsKeepTable(last0, clock, StepsOf(requests, calls));
  }

  lemma LogMore(start: State<Node, Essid>, requests: seq<Timed>, calls: seq<Option<HeapCall>>, t: Model, last: u32,
                r: Timed, c: Option<HeapCall>, d: Model, newLast: u32)
    requires Log(start, requests, calls, t, last).Intact? && T.TableOk(t)
    requires Service(t, last, U32(r.at), r.request, c, d, newLast).Intact?
    requires start.clock <= r.at && (requests != [] ==> requests[|requests| - 1].at <= r.at)
    ensures Log(start, requests + [r], calls + [c], d, newLast).Intact?
  {
    RanMore(start, requests, calls, t, last, r, c, d, newLast);
  }

  // ----- serving a request -----

  /** Whether the table is in order, as one fact. */
  ghost function Order(t: Model): Integrity {
    if T.TableOk(t) then Intact else Damaged
  }

  /** The search on the list finds the node of an address. */
  lemma Searched(t: Model, mac: Mac)
    requires Order(t).Intact?
    ensures forall m :: m in t.order ==> m in t.info
    ensures var r := T.FindMac(t.order, t.info, mac); if r.Some? then Owns(t, mac, r.value) else mac !in Addresses(t.info)
  {
    if T.FindMac(t.order, t.info, mac).None? {
      T.NotFoundIsNew(t, mac);
    }
  }

  /** A request whose call is legal is served by what the call computes. */
  lemma ServedBy(t: Model, last: u32, now: u32, r: Request, call: HeapCall)
    requires T.TableOk(t) && Answers(t, r, Some(call)) && Legal(t, call)
    ensures var d := Apply(t, last, now, call); Service(t, last, now, r, Some(call), d.t, d.last).Intact?
  {
  }

  lemma HeardServed(t: Model, last: u32, now: u32, p: Packet, n: Node)
    requires T.TableOk(t) && T.Sends(p) && NewIfUnknown(t, p.addr.ta, n)
    ensures Service(t, last, now, Transmitted(p), Some(World.NodeUpdate(p, n)), T.NodeUpdate(t, p, now, n), last).Intact?
  {
  }

  lemma HeardOfServed(t: Model, last: u32, now: u32, p: Packet, n: Node)
    requires T.TableOk(t) && T.Receives(p) && NewIfUnknown(t, p.addr.ra, n)
    ensures Service(t, last, now, Received(p), Some(ReceiverUpdate(p, n)), T.ReceiverUpdate(t, p, now, n), last).Intact?
  {
  }

  lemma NamedAnswers(t: Model, p: Packet, mac: Mac, n: Node, e: Essid)
    requires Owns(t, mac, n) && T.Names(p)
    requires 0 in p.ie.essid && G.Vacant(t.ess, CStr(p.ie.essid), e)
    ensures var c := World.EssidsUpdate(p, Some(n), e); Answers(t, Naming(p, mac), Some(c)) && Legal(t, c)
  {
  }

  lemma NamedServed(t: Model, last: u32, now: u32, p: Packet, mac: Mac, n: Node, e: Essid)
    requires T.TableOk(t) && Owns(t, mac, n) && T.Names(p) && 0 in p.ie.essid
    requires G.Vacant(t.ess, CStr(p.ie.essid), e)
    ensures var c, d := World.EssidsUpdate(p, Some(n), e), T.EssidsUpdate(t, p, Some(n), e);
      Service(t, last, now, Naming(p, mac), Some(c), d, last).Intact?
  {
    NamedAnswers(t, p, mac, n, e);
    ServedBy(t, last, now, Naming(p, mac), World.EssidsUpdate(p, Some(n), e));
  }

  /** Requests about a node that is there, found by its address. */
  lemma NodeAnswers(t: Model, mac: Mac, n: Node)
    requires Owns(t, mac, n)
    ensures Answers(t, Seeking(mac), Some(World.FindAp(n))) && Answers(t, Unnaming(mac), Some(EssidsRemoveNode(n)))
  {
  }

  lemma UnnamedServed(t: Model, last: u32, now: u32, mac: Mac, n: Node)
    requires T.TableOk(t) && Owns(t, mac, n)
    ensures Service(t, last, now, Unnaming(mac), Some(EssidsRemoveNode(n)), T.EssidsRemoveNode(t, n), last).Intact?
  {
    NodeAnswers(t, mac, n);
    ServedBy(t, last, now, Unnaming(mac), EssidsRemoveNode(n));
  }

  lemma SoughtServed(t: Model, last: u32, now: u32, mac: Mac, n: Node)
    requires T.TableOk(t) && Owns(t, mac, n)
    ensures Service(t, last, now, Seeking(mac), Some(World.FindAp(n)), T.FindAp(t, n), last).Intact?
  {
    NodeAnswers(t, mac, n);
    ServedBy(t, last, now, Seeking(mac), World.FindAp(n));
  }

  /** What taking a node out of its group needs. */
  lemma UnnamingReady(t: Model, n: Node)
    requires T.TableOk(t) && n in t.info
    ensures G.Linked(t.ess) && G.Known(t.ess, t.info) && G.Removable(t.ess, n, t.info)
    ensures T.EssidsRemoveNode(t, n) == t.(ess := G.RemoveNode(t.ess, n, t.info))
  {
    T.RemovableIn(t.ess, n, t.info);
  }

  lemma IgnoredServed(t: Model, last: u32, now: u32, r: Request)
    requires T.TableOk(t) && Answers(t, r, None)
    ensures Service(t, last, now, r, None, t, last).Intact?
  {
  }

  method Wrap(p: Packet) returns (ref: PacketRef)
    ensures fresh(ref) && ref.v == p
  {
    ref := new PacketRef();
    ref.v := p;
  }

  method ServeTransmitted(ref: PacketRef, ghost p: Packet, nodes: Link, now: u32, ghost last: u32, ghost v: View)
    returns (ghost c: Option<HeapCall>, ghost w: View)
    requires Check(v).Intact? && Order(v.t).Intact? && nodes == v.nodes
    requires ref.v == p && ref !in v.all
    modifies v.all, ref
    ensures Check(w).Intact? && w == View(w.t, v.nodes, v.essids, w.all) && fresh(w.all - v.all)
    ensures Service(v.t, last, now, Transmitted(p), c, w.t, last).Intact?
  {
    var n;
    n, w := HeapNodes.NodeUpdate(ref, nodes, now, v);
    c := None;
    if T.Sends(p) {
      c := Some(World.NodeUpdate(p, n));
      HeardServed(v.t, last, now, p, n);
    } else {
      IgnoredServed(v.t, last, now, Transmitted(p));
    }
  }

  method ServeReceived(ref: PacketRef, ghost p: Packet, nodes: Link, now: u32, ghost last: u32, ghost v: View)
    returns (ghost c: Option<HeapCall>, ghost w: View)
    requires Check(v).Intact? && Order(v.t).Intact? && nodes == v.nodes
    requires ref.v == p && ref !in v.all
    modifies v.all
    ensures Check(w).Intact? && w == View(w.t, v.nodes, v.essids, w.all) && fresh(w.all - v.all)
    ensures Service(v.t, last, now, Received(p), c, w.t, last).Intact?
  {
    var n;
    n, w := NodeUpdateReceiver(ref, nodes, now, v);
    c := None;
    if T.Receives(p) {
      c := Some(ReceiverUpdate(p, n));
      HeardOfServed(v.t, last, now, p, n);
    } else {
      IgnoredServed(v.t, last, now, Received(p));
    }
  }

  /** The node of an address. */
  method Find(mac: Mac, nodes: Link, ghost v: View) returns (n: Node?)
    requires Check(v).Intact? && Order(v.t).Intact? && nodes == v.nodes
    ensures if n == null then mac !in Addresses(v.t.info) else Owns(v.t, mac, n)
  {
    Searched(v.t, mac);
    n := FindNode(nodes, mac, v);
  }

  method ServeSeeking(mac: Mac, nodes: Link, ghost now: u32, ghost last: u32, ghost v: View)
    returns (ghost c: Option<HeapCall>, ghost w: View)
    requires Check(v).Intact? && Order(v.t).Intact? && nodes == v.nodes
    modifies v.all
    ensures Check(w).Intact? && w == v.(t := w.t)
    ensures Service(v.t, last, now, Seeking(mac), c, w.t, last).Intact?
  {
    var n := Find(mac, nodes, v);
    w, c := v, None;
    if n != null {
      SoughtServed(v.t, last, now, mac, n);
      w := HeapAps.FindAp(n, nodes, v);
      c := Some(World.FindAp(n));
    } else {
      IgnoredServed(v.t, last, now, Seeking(mac));
    }
  }

  method NameSender(n: Node?, ref: PacketRef, ghost p: Packet, ghost mac: Mac, essids: Link,
                    ghost now: u32, ghost last: u32, ghost v: View)
    returns (ghost c: Option<HeapCall>, ghost w: View)
    requires Check(v).Intact? && Order(v.t).Intact? && essids == v.essids && 0 in p.ie.essid
    requires if n == null then mac !in Addresses(v.t.info) else Owns(v.t, mac, n)
    requires ref.v == p && ref !in v.all
    modifies v.all
    ensures Check(w).Intact? && w == View(w.t, v.nodes, v.essids, w.all) && fresh(w.all - v.all)
    ensures Service(v.t, last, now, Naming(p, mac), c, w.t, last).Intact?
  {
    w := HeapEssids.EssidsUpdate(essids, ref, n, v);
    c := None;
    if n != null && T.Names(p) {
      ghost var m: Node, e: Essid := n, n.essid;
      c := Some(World.EssidsUpdate(p, Some(m), e));
      NamedServed(v.t, last, now, p, mac, m, e);
    } else {
      IgnoredServed(v.t, last, now, Naming(p, mac));
    }
  }

  method ServeNaming(ref: PacketRef, ghost p: Packet, mac: Mac, nodes: Link, essids: Link,
                     ghost now: u32, ghost last: u32, ghost v: View)
    returns (ghost c: Option<HeapCall>, ghost w: View)
    requires Check(v).Intact? && Order(v.t).Intact? && nodes == v.nodes && essids == v.essids && 0 in p.ie.essid
    requires ref.v == p && ref !in v.all
    modifies v.all
    ensures Check(w).Intact? && w == View(w.t, v.nodes, v.essids, w.all) && fresh(w.all - v.all)
    ensures Service(v.t, last, now, Naming(p, mac), c, w.t, last).Intact?
  {
    var n := Find(mac, nodes, v);
    c, w := NameSender(n, ref, p, mac, essids, now, last, v);
  }

  /** uwifi_essids_remove_node for a node of a table in order. */
  method Unname(n: Node, ghost v: View) returns (ghost w: View)
    requires Check(v).Intact? && T.TableOk(v.t) && n in v.t.info
    modifies v.all
    ensures Check(w).Intact? && w == v.(t := T.EssidsRemoveNode(v.t, n))
  {
    UnnamingReady(v.t, n);
    w := RemoveNode(n, v, v.t.info);
  }

  method ServeUnnaming(mac: Mac, nodes: Link, ghost now: u32, ghost last: u32, ghost v: View)
    returns (ghost c: Option<HeapCall>, ghost w: View)
    requires Check(v).Intact? && Order(v.t).Intact? && nodes == v.nodes
    modifies v.all
    ensures Check(w).Intact? && w == v.(t := w.t)
    ensures Service(v.t, last, now, Unnaming(mac), c, w.t, last).Intact?
  {
    var n := Find(mac, nodes, v);
    w, c := v, None;
    if n != null {
      UnnamedServed(v.t, last, now, mac, n);
      w := Unname(n, v);
      c := Some(EssidsRemoveNode(n));
    } else {
      IgnoredServed(v.t, last, now, Unnaming(mac));
    }
  }

  /** Requests that come with a packet. */
  method ServeFrame(r: Request, nodes: Link, essids: Link, now: u32, ghost last: u32, ghost v: View)
    returns (ghost c: Option<HeapCall>, ghost w: View)
    requires Check(v).Intact? && Order(v.t).Intact? && nodes == v.nodes && essids == v.essids
    requires (r.Transmitted? || r.Received? || r.Naming?) && (r.Naming? ==> 0 in r.p.ie.essid)
    modifies v.all
    ensures Check(w).Intact? && w == View(w.t, v.nodes, v.essids, w.all) && fresh(w.all - v.all)
    ensures Service(v.t, last, now, r, c, w.t, last).Intact?
  {
    var ref := Wrap(r.p);
    if r.Transmitted? {
      c, w := ServeTransmitted(ref, r.p, nodes, now, last, v);
    } else if r.Received? {
      c, w := ServeReceived(ref, r.p, nodes, now, last, v);
    } else {
      c, w := ServeNaming(ref, r.p, r.mac, nodes, essids, now, last, v);
    }
  }

  method ServeSweeping(sec: u32, nodes: Link, now: u32, last: u32, ghost v: View)
    returns (newLast: u32, ghost c: Option<HeapCall>, ghost w: View)
    requires Check(v).Intact? && Order(v.t).Intact? && nodes == v.nodes
    modifies v.all
    ensures Check(w).Intact? && w == v.(t := w.t)
    ensures Service(v.t, last, now, Sweeping(sec), c, w.t, newLast).Intact?
  {
    newLast, w := HeapTimeout.Timeout(nodes, sec, last, now, v);
    c := Some(World.Timeout(sec));
    ServedBy(v.t, last, now, Sweeping(sec), World.Timeout(sec));
  }

  method Serve(r: Request, nodes: Link, essids: Link, now: u32, last: u32, ghost v: View)
    returns (newLast: u32, ghost c: Option<HeapCall>, ghost w: View)
    requires Check(v).Intact? && Order(v.t).Intact? && nodes == v.nodes && essids == v.essids
    requires r.Naming? ==> 0 in r.p.ie.essid
    modifies v.all
    ensures Check(w).Intact? && w == View(w.t, v.nodes, v.essids, w.all) && fresh(w.all - v.all)
    ensures Service(v.t, last, now, r, c, w.t, newLast).Intact?
  {
    newLast := last;
    match r
    case Seeking(mac) => c, w := ServeSeeking(mac, nodes, now, last, v);
    case Unnaming(mac) => c, w := ServeUnnaming(mac, nodes, now, last, v);
    case Sweeping(sec) => newLast, c, w := ServeSweeping(sec, nodes, now, last, v);
    case _ => c, w := ServeFrame(r, nodes, essids, now, last, v);
  }

  // ----- runs -----

  lemma OneMoreTaken<X>(s: seq<X>, k: nat)
    requires k < |s|
    ensures s[..k + 1] == s[..k] + [s[k]]
  {
  }

  /** Fresh objects stay fresh, and more of them may join. */
  twostate lemma FreshTogether(new a: set<object>, new b: set<object>)
    requires fresh(a) && fresh(b - a)
    ensures fresh(b)
  {
  }

  /** One more request, after those that ran. */
  method ServeNext(r: Timed, nodes: Link, essids: Link, last: u32, ghost v: View,
                   ghost last0: u32, ghost clock: nat, ghost past: seq<Timed>, ghost calls: seq<Option<HeapCall>>)
    returns (newLast: u32, ghost c: Option<HeapCall>, ghost w: View)
    requires Check(v).Intact? && nodes == v.nodes && essids == v.essids
    requires Log(Start(last0, clock), past, calls, v.t, last).Intact?
    requires clock <= r.at && (past != [] ==> past[|past| - 1].at <= r.at) && (r.request.Naming? ==> 0 in r.request.p.ie.essid)
    modifies v.all
    ensures Check(w).Intact? && w == View(w.t, v.nodes, v.essids, w.all) && fresh(w.all - v.all)
    ensures Log(Start(last0, clock), past + [r], calls + [c], w.t, newLast).Intact?
  {
    LogKeepsTable(last0, clock, past, calls, v.t, last);
    newLast, c, w := Serve(r.request, nodes, essids, U32(r.at), last, v);
    LogMore(Start(last0, clock), past, calls, v.t, last, r, c, w.t, newLast);
  }

  /**
   * From empty lists, any requests in the order of their times: the heap ends up holding the table of the run of the calls
   * that answer them, and that table is in order.
   */
  method Drive(requests: seq<Timed>, last0: u32, ghost clock: nat)
    returns (nodes: Link, essids: Link, last: u32, ghost v: View, ghost calls: seq<Option<HeapCall>>)
    requires Fair(requests, clock)
    ensures Check(v).Intact? && T.TableOk(v.t) && v.nodes == nodes && v.essids == essids && fresh(v.all)
    ensures Ran(Start(last0, clock), requests, calls, v.t, last)
  {
    nodes, essids, v := EmptyLists();
    last, calls := last0, [];
    LogStart(last0, clock);
    var k := 0;
    while k < |requests|
      invariant 0 <= k <= |requests| && fresh(v.all) && Check(v).Intact? && v.nodes == nodes && v.essids == essids
      invariant Log(Start(last0, clock), requests[..k], calls, v.t, last).Intact?
    {
      ghost var c;
      ghost var all := v.all;
      last, c, v := ServeNext(requests[k], nodes, essids, last, v, last0, clock, requests[..k], calls);
      FreshTogether(all, v.all);
      OneMoreTaken(requests, k);
      calls := calls + [c];
      k := k + 1;
    }
    assert requests[..k] == requests;
    LogKeepsTable(last0, clock, requests, calls, v.t, last);
  }

  // ----- what runs mean for the nodes on the heap -----

  /** The fields of every live node describe the traffic of its address since the node's birth. */
  lemma HeapStatistics(v: View, last0: u32, clock: nat, steps: seq<Step<Node, Essid>>, n: Node) returns (b: nat)
    requires Check(v).Intact? && n in v.t.info && |steps| < 0x1_0000_0000
    requires Run(Start(last0, clock), steps).Some? && Run(Start(last0, clock), steps).value.t == v.t
    ensures b < |steps| && BornAt(Start(last0, clock), steps, b, n.id.src, Traffic(steps[b..], n.id.src))
    ensures Statistics(n.Record(), Traffic(steps[b..], n.id.src))
  {
    OwnLinks(v, n);
    b := RunsCount(last0, clock, steps, n);
  }

  /** With regular timeout calls, the age the sweep computes from a node's last_seen is its true age, and that is bounded. */
  lemma HeapAges(v: View, last0: u32, clock: nat, steps: seq<Step<Node, Essid>>, sec: u32, every: nat, now: nat, n: Node)
    requires Check(v).Intact? && n in v.t.info
    requires Run(Start(last0, clock), steps).Some? && Run(Start(last0, clock), steps).value.t == v.t
    requires steps != [] && Punctual(steps, sec, every) && Bounded(sec, every) && LastTimeout(steps).Some?
    requires Run(Start(last0, clock), steps).value.clock <= now <= LastTimeout(steps).value + every
    ensures var seen := Run(Start(last0, clock), steps).value.past.seen;
      n in seen && AgeTrue(n.Record(), seen[n], now, 2 * Micros(sec) + every)
  {
    OwnLinks(v, n);
    NobodyGoesStale(last0, clock, steps, sec, every, now);
  }

  // ----- a first frame -----

  lemma AddressesGrow<N>(info: map<N, Info>, n: N, i: Info)
    requires n in info ==> info[n].id.src == i.id.src
    ensures Addresses(info[n := i]) == Addresses(info) + {i.id.src}
  {
    var d := info[n := i];
    assert d[n].id.src in Addresses(d);
    forall m | m in info
      ensures info[m].id.src in Addresses(d)
    {
      assert d[m].id.src == info[m].id.src;
    }
  }

  /** An update that records a frame adds its address. */
  lemma RecordAddresses(t: Model, mac: Mac, sent: bool, p: Packet, now: u32, n: Node)
    requires T.TableOk(t) && T.Vacant(t, mac, n) && mac == if sent then p.addr.ta else p.addr.ra
    ensures Addresses(T.Record(t, mac, sent, p, now, n).info) == Addresses(t.info) + {mac}
  {
    var h := T.Heard(t, mac, n);
    var i := if h in t.info then t.info[h] else Fresh(sent);
    RecordInfo(t, mac, sent, p, now, n);
    T.AfterSrc(i, Frame(sent, p, now, T.ApChannel(t.aps, t.info, h)));
    HeardOwns(t, mac, n);
    AddressesGrow(t.info, h, After(i, Frame(sent, p, now, T.ApChannel(t.aps, t.info, h))));
  }

  lemma HeardOwns(t: Model, mac: Mac, n: Node)
    requires T.TableOk(t) && T.Vacant(t, mac, n)
    ensures T.Heard(t, mac, n) in t.info ==> t.info[T.Heard(t, mac, n)].id.src == mac
  {
    if T.FindMac(t.order, t.info, mac).None? {
      T.NotFoundIsNew(t, mac);
    }
  }

  method HearSender(p: PacketRef, nodes: Link, now: u32, ghost v: View) returns (ghost w: View)
    requires Check(v).Intact? && Order(v.t).Intact? && nodes == v.nodes && p !in v.all && T.Sends(p.v)
    modifies v.all, p
    ensures Check(w).Intact? && Order(w.t).Intact? && w == View(w.t, v.nodes, v.essids, w.all) && fresh(w.all - v.all)
    ensures Addresses(w.t.info) == Addresses(v.t.info) + {old(p.v.addr.ta)} && p.v.(retries := 0) == old(p.v).(retries := 0)
  {
    ghost var q := p.v;
    var n;
    n, w := HeapNodes.NodeUpdate(p, nodes, now, v);
    T.NodeUpdateKeeps(v.t, q, now, n);
    RecordAddresses(v.t, q.addr.ta, true, q, now, n);
  }

  method HearReceiver(p: PacketRef, nodes: Link, now: u32, ghost v: View) returns (ghost w: View)
    requires Check(v).Intact? && Order(v.t).Intact? && nodes == v.nodes && p !in v.all && T.Receives(p.v)
    modifies v.all
    ensures Check(w).Intact? && Order(w.t).Intact? && w == View(w.t, v.nodes, v.essids, w.all) && fresh(w.all - v.all)
    ensures Addresses(w.t.info) == Addresses(v.t.info) + {old(p.v.addr.ra)}
  {
    var n;
    n, w := NodeUpdateReceiver(p, nodes, now, v);
    T.ReceiverUpdateKeeps(v.t, p.v, now, n);
    RecordAddresses(v.t, p.v.addr.ra, false, p.v, now, n);
  }

  method HearBoth(p: PacketRef, nodes: Link, now: u32, ghost q: Packet, ghost v: View) returns (ghost w: View)
    requires Check(v).Intact? && Order(v.t).Intact? && nodes == v.nodes && p !in v.all
    requires p.v == q && T.Sends(q) && T.Receives(q)
    modifies v.all, p
    ensures Check(w).Intact? && Order(w.t).Intact? && w == View(w.t, v.nodes, v.essids, w.all) && fresh(w.all - v.all)
    ensures Addresses(w.t.info) == Addresses(v.t.info) + {q.addr.ta} + {q.addr.ra}
  {
    w := HearSender(p, nodes, now, v);
    w := HearReceiver(p, nodes, now, w);
  }

  lemma TwoAdded<X>(a: set<X>, b: set<X>, x: X, y: X)
    requires a == {} && b == a + {x} + {y}
    ensures b == {x, y}
  {
  }

  /** Two empty lists hold nobody. */
  method NewLists() returns (nodes: Link, essids: Link, ghost v: View)
    ensures Check(v).Intact? && Order(v.t).Intact? && v.nodes == nodes && v.essids == essids && fresh(v.all)
    ensures Addresses(v.t.info) == {}
  {
    nodes, essids, v := EmptyLists();
    T.EmptyOk<Node, Essid>();
  }

  /** The two updates for one frame, on empty lists: the lists are in order and hold its sender and its receiver. */
  method FirstFrame(p: PacketRef, now: u32) returns (nodes: Link, essids: Link, ghost v: View)
    requires T.Sends(p.v) && T.Receives(p.v)
    modifies p
    ensures Check(v).Intact? && Order(v.t).Intact? && v.nodes == nodes && v.essids == essids
    ensures Addresses(v.t.info) == {old(p.v.addr.ta), old(p.v.addr.ra)}
  {
    ghost var q := p.v;
    nodes, essids, v := NewLists();
    ghost var none := Addresses(v.t.info);
    v := HearBoth(p, nodes, now, q, v);
    TwoAdded(none, Addresses(v.t.info), q.addr.ta, q.addr.ra);
  }
}
