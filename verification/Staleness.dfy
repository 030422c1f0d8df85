/** Over whole runs with regular timeout calls, the 32-bit microsecond clock never misleads the sweep. */
module Staleness {
  import opened NodeInfo
  import opened Options
  import opened Wlan
  import opened World
  import T = Table

  /** The time of the last timeout call of a run. */
  function LastTimeout<N, E>(steps: seq<Step<N, E>>): Option<nat> {
    if steps == [] then None
    else if steps[|steps| - 1].call.Timeout? then Some(steps[|steps| - 1].at)
    else LastTimeout(steps[..|steps| - 1])
  }

  /** The run starts with a timeout call, all of them use the same limit, and nothing happens later than `every` after one. */
  ghost predicate Punctual<N, E>(steps: seq<Step<N, E>>, sec: u32, every: nat) {
    steps == [] ||
    var pre, step := steps[..|steps| - 1], steps[|steps| - 1];
    && Punctual(pre, sec, every)
    && (step.call.Timeout? ==> step.call.sec == sec)
    && (if LastTimeout(pre).None? then step.call.Timeout? else step.at <= LastTimeout(pre).value + every)
  }

  /** The limit in microseconds, on the unbounded clock. */
  function Micros(sec: u32): nat {
    sec * 1000000
  }

  /**
   * With the last timeout call at `call` and the last sweep at `sweep`, or at the true time *last_nodetimeout stands for
   * if there was none yet: the gate kept the call close to the sweep, and the sweep left nobody who was too old.
   */
  ghost predicate Timely<N, E>(s: State<N, E>, call: nat, sweep: int, sec: u32, every: nat) {
    && call <= s.clock <= call + every
    && sweep <= call && s.last == U32(sweep)
    && (call - sweep < Micros(sec) || call == sweep)
    && forall n :: n in s.past.seen ==> sweep - Micros(sec) <= s.past.seen[n]
  }

  /** Subtraction on the wrapped clock is exact for times less than 2^32 apart. */
  lemma WrapExact(now: int, then_: int)
    requires 0 <= now - then_ < 0x1_0000_0000
    ensures U32(U32(now) - U32(then_)) == now - then_
  {
  }

  ghost predicate Bounded(sec: u32, every: nat) {
    sec > 0 && 2 * Micros(sec) + every < 0x1_0000_0000
  }

  /** The gate, on the unbounded clock. */
  function SweepAt(at: nat, sweep: int, sec: u32): int {
    if at - sweep < Micros(sec) then sweep else at
  }

  /** Every live node's last_seen is its true time, wrapped. */
  ghost predicate Clocked<N>(info: map<N, Info>, seen: map<N, nat>, clock: nat) {
    seen.Keys == info.Keys && forall n :: n in info ==> info[n].seen.lastSeen == U32(seen[n]) && seen[n] <= clock
  }

  lemma RememberedIsClocked<N>(info: map<N, Info>, past: Past<N>, clock: nat)
    requires Remembered(info, past, clock)
    ensures Clocked(info, past.seen, clock)
  {
    forall n | n in info
      ensures info[n].seen.lastSeen == U32(past.seen[n]) && past.seen[n] <= clock
    {
      SeenLast(info[n], past.hist[n], past.seen[n], clock);
    }
  }

  lemma SeenLast(i: Info, h: seq<Frame>, seen: nat, clock: nat)
    requires Tracked(i, h, seen, clock)
    ensures i.seen.lastSeen == U32(seen)
  {
    FoldSeen(h);
  }

  /** At time `now`, the wrapped age of every node is its true age, and that is below the bound. */
  ghost predicate AgesTrue<N>(info: map<N, Info>, seen: map<N, nat>, now: nat, bound: nat) {
    seen.Keys == info.Keys && forall n :: n in info ==> AgeTrue(info[n], seen[n], now, bound)
  }

  predicate AgeTrue(i: Info, seen: nat, now: nat, bound: nat) {
    U32(U32(now) - i.seen.lastSeen) == now - seen < bound
  }

  /** The wrapped gate and ages are the true ones. */
  lemma TrueAges<N>(info: map<N, Info>, seen: map<N, nat>, clock: nat, call: nat, sweep: int, sec: u32, every: nat, at: nat)
    requires Clocked(info, seen, clock) && Bounded(sec, every)
    requires sweep <= call <= clock <= at <= call + every && (call - sweep < Micros(sec) || call == sweep)
    requires forall n :: n in seen ==> sweep - Micros(sec) <= seen[n]
    ensures U32(U32(at) - U32(sweep)) == at - sweep
    ensures AgesTrue(info, seen, at, 2 * Micros(sec) + every)
  {
    WrapExact(at, sweep);
    forall n | n in info
      ensures AgeTrue(info[n], seen[n], at, 2 * Micros(sec) + every)
    {
      WrapExact(at, seen[n]);
    }
  }

  /** Exactly the nodes that were last seen at most the limit ago stay, if the last sweep is at least the limit ago. */
  ghost predicate SweptAt<N>(info: map<N, Info>, live: map<N, Info>, seen: map<N, nat>, sweep: int, sec: u32, at: nat)
    requires seen.Keys == info.Keys
  {
    forall n :: n in info ==> (n in live <==> at - sweep < Micros(sec) || at - seen[n] <= Micros(sec))
  }

  lemma Survivors<N>(info: map<N, Info>, live: map<N, Info>, seen: map<N, nat>, sweep: int, sec: u32, at: nat, bound: nat)
    requires AgesTrue(info, seen, at, bound) && T.Limit(sec) == Micros(sec)
    requires live == info - if at - sweep < Micros(sec) then {} else set n | n in info && T.Stale(info[n], U32(at), T.Limit(sec))
    ensures SweptAt(info, live, seen, sweep, sec, at)
  {
  }

  /** A timeout call, on the unbounded clock: the gate and the ages of all nodes are what they would be without wrapping. */
  lemma TimeoutOnTrueTime<N, E>(s: State<N, E>, call: nat, sweep: int, sec: u32, every: nat, at: nat)
    requires T.TableOk(s.t) && Clocked(s.t.info, s.past.seen, s.clock)
    requires Timely(s, call, sweep, sec, every) && Bounded(sec, every) && s.clock <= at <= call + every
    ensures var r := T.Timeout(s.t, U32(at), sec, s.last);
      r.last == U32(SweepAt(at, sweep, sec)) && SweptAt(s.t.info, r.t.info, s.past.seen, sweep, sec, at)
  {
    TrueAges(s.t.info, s.past.seen, s.clock, call, sweep, sec, every, at);
    T.TimeoutSurvivors(s.t, U32(at), sec, s.last);
    LimitExact(sec);
    Survivors(s.t.info, T.Timeout(s.t, U32(at), sec, s.last).t.info, s.past.seen, sweep, sec, at, 2 * Micros(sec) + every);
  }

  lemma LimitExact(sec: u32)
    requires Micros(sec) < 0x1_0000_0000
    ensures T.Limit(sec) == Micros(sec)
  {
  }

  lemma FoldSeen(h: seq<Frame>)
    requires h != []
    ensures Fold(h).seen.lastSeen == NodeInfo.Last(h).now
  {
    AfterFrame(Before(h), NodeInfo.Last(h));
  }

  lemma StepTimely<N, E>(s: State<N, E>, call: nat, sweep: int, sec: u32, every: nat, step: Step<N, E>)
    requires Good(s) && Timely(s, call, sweep, sec, every) && Bounded(sec, every)
    requires Legal(s.t, step.call) && s.clock <= step.at <= call + every && (step.call.Timeout? ==> step.call.sec == sec)
    ensures Timely(Do(s, step), if step.call.Timeout? then step.at else call,
                   if step.call.Timeout? then SweepAt(step.at, sweep, sec) else sweep, sec, every)
  {
    if step.call.Timeout? {
      RememberedIsClocked(s.t.info, s.past, s.clock);
      TimeoutOnTrueTime(s, call, sweep, sec, every, step.at);
    }
  }

  /** A gate that is closed on an arbitrary `last` is as if there had been a sweep less than the limit ago. */
  lemma VirtualSweep(at: nat, last: u32, sec: u32)
    requires Micros(sec) < 0x1_0000_0000
    ensures var sweep := at - U32(at - last); U32(sweep) == last && U32(U32(at) - last) == at - sweep && T.Limit(sec) == Micros(sec)
  {
    WrapExact(at, at - U32(at - last));
  }

  /** The first timeout call of a run, on the empty table and an arbitrary *last_nodetimeout. */
  lemma FirstTimely<N, E>(last: u32, clock: nat, sec: u32, every: nat, at: nat)
    requires clock <= at && Bounded(sec, every)
    ensures T.TableOk(T.Empty<N, E>())
    ensures Timely(Do(Start<N, E>(last, clock), Step(at, Timeout(sec))), at, SweepAt(at, at - U32(at - last), sec), sec, every)
  {
    T.EmptyOk<N, E>();
    VirtualSweep(at, last, sec);
    T.TimeoutSurvivors(T.Empty<N, E>(), U32(at), sec, last);
  }

  lemma {:induction false} RunsTimely<N, E>(last: u32, clock: nat, steps: seq<Step<N, E>>, sec: u32, every: nat) returns (sweep: int)
    requires Run(Start(last, clock), steps).Some? && steps != [] && Punctual(steps, sec, every) && Bounded(sec, every)
    ensures LastTimeout(steps).Some?
    ensures Timely(Run(Start(last, clock), steps).value, LastTimeout(steps).value, sweep, sec, every)
  {
    var pre, step := steps[..|steps| - 1], steps[|steps| - 1];
    if pre == [] {
      FirstTimely<N, E>(last, clock, sec, every, step.at);
      sweep := SweepAt(step.at, step.at - U32(step.at - last), sec);
    } else {
      var before := RunsTimely(last, clock, pre, sec, every);
      RunsKeepTable(last, clock, pre);
      StepTimely(Run(Start<N, E>(last, clock), pre).value, LastTimeout(pre).value, before, sec, every, step);
      sweep := if step.call.Timeout? then SweepAt(step.at, before, sec) else before;
    }
  }

  lemma RunsClocked<N, E>(last: u32, clock: nat, steps: seq<Step<N, E>>)
    requires Run(Start(last, clock), steps).Some?
    ensures var s := Run(Start(last, clock), steps).value; Clocked(s.t.info, s.past.seen, s.clock)
  {
    RunsRemember(last, clock, steps);
    var s := Run(Start<N, E>(last, clock), steps).value;
    RememberedIsClocked(s.t.info, s.past, s.clock);
  }

  /**
   * With limit T and timeout calls at most D apart, 2T + D below 2^32 microseconds: at every moment until the next call is
   * due, the wrapped age of every node in the table is its true age, and that is less than 2T + D.
   */
  lemma NobodyGoesStale<N, E>(last: u32, clock: nat, steps: seq<Step<N, E>>, sec: u32, every: nat, now: nat)
    requires Run(Start(last, clock), steps).Some? && steps != [] && Punctual(steps, sec, every) && Bounded(sec, every)
    requires LastTimeout(steps).Some? && Run(Start(last, clock), steps).value.clock <= now <= LastTimeout(steps).value + every
    ensures var s := Run(Start(last, clock), steps).value; AgesTrue(s.t.info, s.past.seen, now, 2 * Micros(sec) + every)
  {
    RunsClocked(last, clock, steps);
    var sweep := RunsTimely(last, clock, steps, sec, every);
    var s := Run(Start<N, E>(last, clock), steps).value;
    TrueAges(s.t.info, s.past.seen, s.clock, LastTimeout(steps).value, sweep, sec, every, now);
  }
}
