/**
 The forwarding relay's bookkeeping (src/core/relay.rs, RelayRuntime, RelayStats
 and ActiveConnectionGuard) as small steps.

 Several `run` calls share one set of counters; each has its own semaphore and
 an accept loop that dispatches one connection at a time.  Every atomic access
 (a counter, the semaphore) is a step of its own and steps interleave freely.
 Counters are unbounded here and may go below zero unless proved otherwise.
 */
module Relay {
  import opened Wrappers
  import opened Sums

  type Ip = nat

  /** An empty allowlist lets everyone in; otherwise only listed addresses. */
  predicate Allows(allowed: seq<Ip>, peer: Option<Ip>) {
    allowed == [] || (peer.Some? && peer.value in allowed)
  }

  datatype Ending = Succeeded | Cancelled | Failed

  /** Where one accepted connection is. */
  datatype Phase =
    | Arrived                    // returned by the listener
    | Counted                    // record_accepted done
    | Admitted                   // the policy let the peer in
    | Refused                    // by the policy or for want of a permit
    | Rejected                   // record_rejected done: final
    | Spawned                    // holds a permit, task not started
    | Active                     // counted as active by its guard
    | Ended(ending: Ending)      // guard dropped
    | Completed(ending: Ending)  // completed_connections raised
    | Recorded(ending: Ending)   // failed_connections raised if needed
    | Released(ending: Ending)   // permit returned: final

  datatype Connection = Connection(run: nat, peer: Option<Ip>, phase: Phase)

  /** One call of `run`: its semaphore, and the connection its loop is dispatching. */
  datatype Loop = Loop(max: nat, free: int, dispatching: Option<nat>, stopped: bool)

  datatype Stats = Stats(accepted: int, rejected: int, active: int, completed: int, failed: int)

  datatype State = State(allowed: seq<Ip>, stats: Stats, loops: seq<Loop>, connections: seq<Connection>)

  datatype Event =
    | Start(max: nat)                     // another call of run
    | Accept(run: nat, peer: Option<Ip>)
    | Stop(run: nat)                      // the accept call failed or was cancelled
    | Advance(i: nat, ending: Ending)     // the next atomic step of connection i

  predicate Initial(s: State) {
    s.stats == Stats(0, 0, 0, 0, 0) && s.loops == [] && s.connections == []
  }

  predicate Dispatching(p: Phase) {
    p in {Arrived, Counted, Admitted, Refused}
  }

  predicate Final(p: Phase) {
    p == Rejected || p.Released?
  }

  predicate Enabled(s: State, e: Event) {
    match e
    case Start(max) => max > 0
    case Accept(run, _) => run < |s.loops| && !s.loops[run].stopped && s.loops[run].dispatching == None
    case Stop(run) => run < |s.loops| && !s.loops[run].stopped && s.loops[run].dispatching == None
    case Advance(i, _) =>
      i < |s.connections| && !Final(s.connections[i].phase) && s.connections[i].run < |s.loops|
  }

  /** The phase after the next atomic step of a connection. */
  function NextPhase(s: State, c: Connection, ending: Ending): Phase
    requires c.run < |s.loops|
  {
    match c.phase
    case Arrived => Counted
    case Counted => if Allows(s.allowed, c.peer) then Admitted else Refused
    case Admitted => if s.loops[c.run].free > 0 then Spawned else Refused
    case Refused => Rejected
    case Spawned => Active
    case Active => Ended(ending)
    case Ended(e) => Completed(e)
    case Completed(e) => Recorded(e)
    case Recorded(e) => Released(e)
    case Rejected => Rejected
    case Released(e) => Released(e)
  }

  function NextStats(stats: Stats, from: Phase): Stats {
    match from
    case Arrived => stats.(accepted := stats.accepted + 1)
    case Refused => stats.(rejected := stats.rejected + 1)
    case Spawned => stats.(active := stats.active + 1)
    case Active => stats.(active := stats.active - 1)
    case Ended(_) => stats.(completed := stats.completed + 1)
    case Completed(Failed) => stats.(failed := stats.failed + 1)
    case _ => stats
  }

  /** The semaphore and the loop's place after a connection moved. */
  function NextLoop(l: Loop, from: Phase, to: Phase): Loop {
    var free := if to == Spawned then l.free - 1 else if to.Released? then l.free + 1 else l.free;
    var dispatching := if Dispatching(from) && !Dispatching(to) then None else l.dispatching;
    l.(free := free, dispatching := dispatching)
  }

  function Step(s: State, e: Event): State
    requires Enabled(s, e)
  {
    match e
    case Start(max) => s.(loops := s.loops + [Loop(max, max, None, false)])
    case Accept(run, peer) =>
      s.(loops := s.loops[run := s.loops[run].(dispatching := Some(|s.connections|))],
         connections := s.connections + [Connection(run, peer, Arrived)])
    case Stop(run) => s.(loops := s.loops[run := s.loops[run].(stopped := true)])
    case Advance(i, ending) =>
      var c := s.connections[i];
      var phase := NextPhase(s, c, ending);
      s.(stats := NextStats(s.stats, c.phase),
         loops := s.loops[c.run := NextLoop(s.loops[c.run], c.phase, phase)],
         connections := s.connections[i := c.(phase := phase)])
  }

  // ----- counting connections by phase -----

  function One(b: bool): int {
    if b then 1 else 0
  }

  function WasCounted(c: Connection): int {
    One(c.phase != Arrived)
  }

  function WasRejected(c: Connection): int {
    One(c.phase == Rejected)
  }

  function IsActive(c: Connection): int {
    One(c.phase == Active)
  }

  function WasCompleted(c: Connection): int {
    One(c.phase.Completed? || c.phase.Recorded? || c.phase.Released?)
  }

  function HoldsPermit(p: Phase): bool {
    p == Spawned || p == Active || p.Ended? || p.Completed? || p.Recorded?
  }

  /** Past record_accepted and not yet rejected or completed. */
  function InFlight(c: Connection): int {
    One(c.phase in {Counted, Admitted, Refused, Spawned, Active} || c.phase.Ended?)
  }

  function Holding(run: nat): Connection -> int {
    (c: Connection) => One(c.run == run && HoldsPermit(c.phase))
  }

  function Capacity(l: Loop): int {
    l.max
  }

  function Taken(l: Loop): int {
    l.max - l.free
  }

  function WasFailed(c: Connection): int {
    One((c.phase.Recorded? || c.phase.Released?) && c.phase.ending == Failed)
  }

  predicate ConnectionOk(s: State, i: nat)
    requires i < |s.connections|
  {
    var c := s.connections[i];
    && c.run < |s.loops|
    && (Dispatching(c.phase) <==> s.loops[c.run].dispatching == Some(i))
    && (c.phase == Admitted || HoldsPermit(c.phase) || c.phase.Released? ==> Allows(s.allowed, c.peer))
  }

  ghost predicate LoopOk(s: State, run: nat)
    requires run < |s.loops|
  {
    var l := s.loops[run];
    && 0 <= l.free
    && l.free + Sum(s.connections, Holding(run)) == l.max
    && (l.dispatching.Some? ==>
          l.dispatching.value < |s.connections| && s.connections[l.dispatching.value].run == run)
  }

  ghost predicate StatsOk(s: State) {
    && s.stats.accepted == Sum(s.connections, WasCounted)
    && s.stats.rejected == Sum(s.connections, WasRejected)
    && s.stats.active == Sum(s.connections, IsActive)
    && s.stats.completed == Sum(s.connections, WasCompleted)
    && s.stats.failed == Sum(s.connections, WasFailed)
  }

  ghost predicate Inv(s: State) {
    && StatsOk(s)
    && (forall i :: 0 <= i < |s.connections| ==> ConnectionOk(s, i))
    && (forall run :: 0 <= run < |s.loops| ==> LoopOk(s, run))
  }

  // ----- every step keeps the accounts -----

  lemma SumsMove(s: State, i: nat, c: Connection)
    requires i < |s.connections| && s.connections[i].run == c.run
    ensures var before, after, was := s.connections, s.connections[i := c], s.connections[i];
      && Sum(after, WasCounted) == Sum(before, WasCounted) - WasCounted(was) + WasCounted(c)
      && Sum(after, WasRejected) == Sum(before, WasRejected) - WasRejected(was) + WasRejected(c)
      && Sum(after, IsActive) == Sum(before, IsActive) - IsActive(was) + IsActive(c)
      && Sum(after, WasCompleted) == Sum(before, WasCompleted) - WasCompleted(was) + WasCompleted(c)
      && Sum(after, WasFailed) == Sum(before, WasFailed) - WasFailed(was) + WasFailed(c)
  {
    SumUpdate(s.connections, i, c, WasCounted);
    SumUpdate(s.connections, i, c, WasRejected);
    SumUpdate(s.connections, i, c, IsActive);
    SumUpdate(s.connections, i, c, WasCompleted);
    SumUpdate(s.connections, i, c, WasFailed);
  }

  lemma LoopsAdvance(s: State, i: nat, ending: Ending, run: nat)
    requires Inv(s) && Enabled(s, Advance(i, ending)) && run < |s.loops|
    ensures LoopOk(Step(s, Advance(i, ending)), run)
  {
    var t := Step(s, Advance(i, ending));
    assert ConnectionOk(s, i) && LoopOk(s, run);
    SumUpdate(s.connections, i, t.connections[i], Holding(run));
  }

  lemma ConnectionsAdvance(s: State, i: nat, ending: Ending, k: nat)
    requires Inv(s) && Enabled(s, Advance(i, ending)) && k < |s.connections|
    ensures ConnectionOk(Step(s, Advance(i, ending)), k)
  {
    assert ConnectionOk(s, i) && ConnectionOk(s, k);
  }

  lemma StatsAdvance(s: State, i: nat, ending: Ending)
    requires Inv(s) && Enabled(s, Advance(i, ending))
    ensures StatsOk(Step(s, Advance(i, ending)))
  {
    SumsMove(s, i, Step(s, Advance(i, ending)).connections[i]);
  }

  lemma InvAdvance(s: State, i: nat, ending: Ending)
    requires Inv(s) && Enabled(s, Advance(i, ending))
    ensures Inv(Step(s, Advance(i, ending)))
  {
    var t := Step(s, Advance(i, ending));
    StatsAdvance(s, i, ending);
    forall run | 0 <= run < |t.loops| ensures LoopOk(t, run) {
      LoopsAdvance(s, i, ending, run);
    }
    forall k | 0 <= k < |t.connections| ensures ConnectionOk(t, k) {
      ConnectionsAdvance(s, i, ending, k);
    }
  }

  lemma InvAccept(s: State, run: nat, peer: Option<Ip>)
    requires Inv(s) && Enabled(s, Accept(run, peer))
    ensures Inv(Step(s, Accept(run, peer)))
  {
    var t, c := Step(s, Accept(run, peer)), Connection(run, peer, Arrived);
    SumAppend(s.connections, c, WasCounted);
    SumAppend(s.connections, c, WasRejected);
    SumAppend(s.connections, c, IsActive);
    SumAppend(s.connections, c, WasCompleted);
    SumAppend(s.connections, c, WasFailed);
    forall r | 0 <= r < |t.loops| ensures LoopOk(t, r) {
      assert LoopOk(s, r);
      SumAppend(s.connections, c, Holding(r));
    }
    forall k | 0 <= k < |t.connections| ensures ConnectionOk(t, k) {
      assert k < |s.connections| ==> ConnectionOk(s, k);
    }
  }

  lemma NoneHeld(s: State, run: nat)
    requires Inv(s) && run >= |s.loops|
    ensures Sum(s.connections, Holding(run)) == 0
  {
    forall c | c in s.connections ensures Holding(run)(c) == 0 {
      var i :| 0 <= i < |s.connections| && s.connections[i] == c;
      assert ConnectionOk(s, i);
    }
    SumConstant(s.connections, Holding(run), 0);
  }

  lemma InvStep(s: State, e: Event)
    requires Inv(s) && Enabled(s, e)
    ensures Inv(Step(s, e))
  {
    match e
    case Advance(i, ending) => InvAdvance(s, i, ending);
    case Accept(run, peer) => InvAccept(s, run, peer);
    case Start(_) =>
      var t := Step(s, e);
      NoneHeld(s, |s.loops|);
      forall r | 0 <= r < |t.loops| ensures LoopOk(t, r) {
        assert r < |s.loops| ==> LoopOk(s, r);
      }
      forall k | 0 <= k < |t.connections| ensures ConnectionOk(t, k) {
        assert ConnectionOk(s, k);
      }
    case Stop(_) =>
      var t := Step(s, e);
      forall r | 0 <= r < |t.loops| ensures LoopOk(t, r) {
        assert LoopOk(s, r);
      }
      forall k | 0 <= k < |t.connections| ensures ConnectionOk(t, k) {
        assert ConnectionOk(s, k);
      }
  }

  ghost predicate Follows(s: State, t: State) {
    exists e :: Enabled(s, e) && t == Step(s, e)
  }

  /** `path` is a run of the relay. */
  ghost predicate Run(path: seq<State>) {
    && path != [] && Initial(path[0])
    && forall k :: 0 <= k < |path| - 1 ==> Follows(path[k], path[k + 1])
  }

  lemma {:induction false} InvRun(path: seq<State>)
    requires Run(path)
    ensures Inv(path[|path| - 1])
    decreases |path|
  {
    var n := |path| - 1;
    if n > 0 {
      InvRun(path[..n]);
      assert Follows(path[n - 1], path[n - 1 + 1]);
      var e :| Enabled(path[n - 1], e) && path[n] == Step(path[n - 1], e);
      InvStep(path[n - 1], e);
    }
  }

  // ----- what the counters mean -----

  /** Every accepted connection is rejected, in flight or completed; failures are completions; nothing is negative. */
  lemma Accounting(path: seq<State>)
    requires Run(path)
    ensures var s := path[|path| - 1];
      && s.stats.accepted == s.stats.rejected + Sum(s.connections, InFlight) + s.stats.completed
      && 0 <= s.stats.failed <= s.stats.completed
      && 0 <= s.stats.active <= Sum(s.connections, InFlight)
      && 0 <= s.stats.rejected
  {
    var s := path[|path| - 1];
    InvRun(path);
    SumOfSums(s.connections, WasCounted, WasRejected, InFlightOrCompleted);
    SumOfSums(s.connections, InFlightOrCompleted, InFlight, WasCompleted);
    SumLess(s.connections, WasFailed, WasCompleted);
    SumLess(s.connections, IsActive, InFlight);
    SumNonNegative(s.connections, WasFailed);
    SumNonNegative(s.connections, IsActive);
    SumNonNegative(s.connections, WasRejected);
  }

  function InFlightOrCompleted(c: Connection): int {
    InFlight(c) + WasCompleted(c)
  }

  /** The guard's decrement never meets a zero counter. */
  lemma NoUnderflow(path: seq<State>, i: nat)
    requires Run(path) && i < |path[|path| - 1].connections|
    requires path[|path| - 1].connections[i].phase == Active
    ensures path[|path| - 1].stats.active >= 1
  {
    InvRun(path);
    SumBounds(path[|path| - 1].connections, i, IsActive);
  }

  function HeldBelow(k: nat): Connection -> int {
    (c: Connection) => One(c.run < k && HoldsPermit(c.phase))
  }

  lemma {:induction false} HeldByRuns(s: State, k: nat)
    requires Inv(s) && k <= |s.loops|
    ensures Sum(s.connections, HeldBelow(k)) == Sum(s.loops[..k], Taken)
  {
    if k == 0 {
      SumConstant(s.connections, HeldBelow(0), 0);
    } else {
      HeldByRuns(s, k - 1);
      SumOfSums(s.connections, HeldBelow(k), HeldBelow(k - 1), Holding(k - 1));
      assert LoopOk(s, k - 1);
      assert s.loops[..k][..k - 1] == s.loops[..k - 1];
    }
  }

  /** Permits: per run, free plus held is the limit; over all runs, active stays below the sum of the limits. */
  lemma PermitsBoundActive(path: seq<State>)
    requires Run(path)
    ensures var s := path[|path| - 1];
      && (forall run :: 0 <= run < |s.loops| ==>
            0 <= s.loops[run].free && s.loops[run].free + Sum(s.connections, Holding(run)) == s.loops[run].max)
      && s.stats.active <= Sum(s.loops, Capacity)
  {
    var s := path[|path| - 1];
    InvRun(path);
    forall run | 0 <= run < |s.loops|
      ensures 0 <= s.loops[run].free && s.loops[run].free + Sum(s.connections, Holding(run)) == s.loops[run].max
    {
      assert LoopOk(s, run);
    }
    forall c | c in s.connections ensures IsActive(c) <= HeldBelow(|s.loops|)(c) {
      var i :| 0 <= i < |s.connections| && s.connections[i] == c;
      assert ConnectionOk(s, i);
    }
    SumLess(s.connections, IsActive, HeldBelow(|s.loops|));
    HeldByRuns(s, |s.loops|);
    assert s.loops[..|s.loops|] == s.loops;
    forall l | l in s.loops ensures Taken(l) <= Capacity(l) {
      var run :| 0 <= run < |s.loops| && s.loops[run] == l;
      assert LoopOk(s, run);
    }
    SumLess(s.loops, Taken, Capacity);
  }

  /** A peer the policy rejects never holds a permit, and a run dispatches one connection at a time. */
  lemma PolicyAndDispatch(path: seq<State>, i: nat, j: nat)
    requires Run(path) && i < |path[|path| - 1].connections| && j < |path[|path| - 1].connections|
    ensures var s := path[|path| - 1]; var c, d := s.connections[i], s.connections[j];
      && (HoldsPermit(c.phase) || c.phase.Released? ==> Listed(s.allowed, c.peer))
      && (i != j && Dispatching(c.phase) && Dispatching(d.phase) ==> c.run != d.run)
  {
    InvRun(path);
    assert ConnectionOk(path[|path| - 1], i) && ConnectionOk(path[|path| - 1], j);
    AllowsListed(path[|path| - 1].allowed, path[|path| - 1].connections[i].peer);
  }

  /** The policy on the list itself: nobody is listed, or this very address is. */
  ghost predicate Listed(allowed: seq<Ip>, peer: Option<Ip>) {
    allowed == [] || exists k :: 0 <= k < |allowed| && peer == Some(allowed[k])
  }

  lemma AllowsListed(allowed: seq<Ip>, peer: Option<Ip>)
    ensures Allows(allowed, peer) <==> Listed(allowed, peer)
  {
    if peer.Some? && peer.value in allowed {
      var k :| 0 <= k < |allowed| && allowed[k] == peer.value;
      assert peer == Some(allowed[k]);
    }
  }

  /** All permits of this run are held by its connections. */
  ghost predicate Full(s: State, run: nat) {
    run < |s.loops| && Sum(s.connections, Holding(run)) >= s.loops[run].max
  }

  /**
   Admission in every reachable state: a counted peer is let in if and only if
   it is listed, and then gets a permit if and only if one of its run is not held.
   */
  lemma Admission(path: seq<State>, i: nat, ending: Ending)
    requires Run(path) && Enabled(path[|path| - 1], Advance(i, ending))
    ensures var s := path[|path| - 1]; var c, next := s.connections[i], Step(s, Advance(i, ending)).connections[i];
      && (c.phase == Counted ==> next.phase == if Listed(s.allowed, c.peer) then Admitted else Refused)
      && (c.phase == Admitted ==> next.phase == if Full(s, c.run) then Refused else Spawned)
  {
    var s := path[|path| - 1];
    InvRun(path);
    AllowsListed(s.allowed, s.connections[i].peer);
    assert LoopOk(s, s.connections[i].run);
  }

  /** A reason to refuse connection `i` somewhere on the path. */
  ghost predicate Cause(path: seq<State>, i: nat, k: nat) {
    && k < |path| && i < |path[k].connections|
    && path[k].connections[i].phase == Admitted && Full(path[k], path[k].connections[i].run)
  }

  /** Nobody is turned away without cause: the peer is not listed, or all permits were held when it asked for one. */
  lemma {:induction false} RefusedForCause(path: seq<State>, i: nat)
    requires Run(path) && i < |path[|path| - 1].connections|
    requires path[|path| - 1].connections[i].phase in {Refused, Rejected}
    ensures var s := path[|path| - 1];
      !Listed(s.allowed, s.connections[i].peer) || exists k :: Cause(path, i, k)
    decreases |path|
  {
    var n := |path| - 1;
    if n > 0 {
      var before := path[..n];
      assert Follows(path[n - 1], path[n - 1 + 1]);
      var e :| Enabled(path[n - 1], e) && path[n] == Step(path[n - 1], e);
      StepKeeps(path[n - 1], e);
      assert i < |path[n - 1].connections|;
      if path[n - 1].connections[i].phase in {Refused, Rejected} {
        RefusedForCause(before, i);
        if k :| Cause(before, i, k) {
          assert Cause(path, i, k);
        }
      } else {
        assert e == Advance(i, e.ending);
        Admission(before, i, e.ending);
        assert path[n - 1].connections[i].phase == Admitted ==> Cause(path, i, n - 1);
      }
    }
  }

  /** What no event touches, and what each of them brings. */
  lemma StepKeeps(s: State, e: Event)
    requires Enabled(s, e)
    ensures var t := Step(s, e);
      && t.allowed == s.allowed
      && |s.loops| <= |t.loops| && |s.connections| <= |t.connections|
      && (forall r :: 0 <= r < |s.loops| ==> t.loops[r].max == s.loops[r].max && (s.loops[r].stopped ==> t.loops[r].stopped))
      && (forall k :: 0 <= k < |s.connections| ==>
            t.connections[k].run == s.connections[k].run && t.connections[k].peer == s.connections[k].peer)
      && (forall k :: 0 <= k < |s.connections| && (e.Advance? ==> e.i != k) ==> t.connections[k] == s.connections[k])
      && (e.Start? ==> t.loops[|s.loops|..] == [Loop(e.max, e.max, None, false)] && t.connections == s.connections)
      && (e.Accept? ==> t.connections[|s.connections|..] == [Connection(e.run, e.peer, Arrived)] && !s.loops[e.run].stopped)
      && (e.Stop? ==> t.loops[e.run].stopped)
  {
  }

  /** How a connection ended is decided once and is what completion and the failure count see. */
  lemma EndingKept(s: State, i: nat, ending: Ending)
    requires Enabled(s, Advance(i, ending))
    ensures var p, q := s.connections[i].phase, Step(s, Advance(i, ending)).connections[i].phase;
      && (p == Active ==> q == Ended(ending))
      && (p.Ended? ==> q == Completed(p.ending))
      && (p.Completed? ==> q == Recorded(p.ending))
      && (p.Recorded? ==> q == Released(p.ending))
  {
  }

  /** How many atomic steps a connection still has before it. */
  function StepsLeft(p: Phase): nat {
    match p
    case Arrived => 8 case Counted => 7 case Admitted => 6 case Refused => 1 case Spawned => 5
    case Active => 4 case Ended(_) => 3 case Completed(_) => 2 case Recorded(_) => 1
    case Rejected => 0 case Released(_) => 0
  }

  /** No connection is ever stuck, and each is final after at most eight steps of its own; an idle loop can accept. */
  lemma Progress(path: seq<State>, i: nat, ending: Ending)
    requires Run(path)
    ensures var s := path[|path| - 1];
      && (i < |s.connections| && !Final(s.connections[i].phase) ==>
            && Enabled(s, Advance(i, ending))
            && StepsLeft(Step(s, Advance(i, ending)).connections[i].phase) < StepsLeft(s.connections[i].phase) <= 8)
      && (i < |s.loops| && !s.loops[i].stopped && s.loops[i].dispatching == None ==>
            forall peer :: Enabled(s, Accept(i, peer)))
  {
    InvRun(path);
    assert i < |path[|path| - 1].connections| ==> ConnectionOk(path[|path| - 1], i);
  }

  /** When every connection is final the books close: nothing active, all permits back. */
  lemma Quiescent(path: seq<State>)
    requires Run(path) && forall c :: c in path[|path| - 1].connections ==> Final(c.phase)
    ensures var s := path[|path| - 1];
      && s.stats.active == 0
      && s.stats.accepted == |s.connections| == s.stats.rejected + s.stats.completed
      && forall run :: 0 <= run < |s.loops| ==> s.loops[run].free == s.loops[run].max
  {
    var s := path[|path| - 1];
    InvRun(path);
    Accounting(path);
    SumConstant(s.connections, IsActive, 0);
    SumConstant(s.connections, InFlight, 0);
    SumConstant(s.connections, WasCounted, 1);
    forall run | 0 <= run < |s.loops| ensures s.loops[run].free == s.loops[run].max {
      assert LoopOk(s, run);
      SumConstant(s.connections, Holding(run), 0);
    }
  }

  /** A snapshot reads each counter at some instant; each monotone counter read later is no smaller. */
  lemma CountersGrow(path: seq<State>, i: nat, j: nat)
    requires Run(path) && i <= j < |path|
    ensures var early, late := path[i].stats, path[j].stats;
      && early.accepted <= late.accepted && early.rejected <= late.rejected
      && early.completed <= late.completed && early.failed <= late.failed
    decreases j
  {
    if i < j {
      CountersGrow(path, i, j - 1);
      assert Follows(path[j - 1], path[j - 1 + 1]);
    }
  }
}
