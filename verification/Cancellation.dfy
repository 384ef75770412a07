/**
 The cancellation token (src/core/operation.rs, CancellationToken): an atomic
 flag beside a tokio `Notify`.

 `Notify` is a generation counter.  A `Notified` future remembers the generation
 at which it was created and is ready once `notify_waiters` has raised it, as
 tokio promises even for futures not polled yet.  Each process is one call of
 `cancel` or of `cancelled`, and every atomic access is a step of its own.
 */
module Cancellation {
  import opened Sums

  datatype Canceller = Calling | Won | Finished

  datatype Pc =
    | Entering                // before the first check of the flag
    | Looping                 // about to create a `Notified`
    | Armed(generation: nat)  // created, flag not yet checked again
    | Awaiting(generation: nat)
    | Returned

  datatype Waiter = Waiter(pc: Pc, arms: nat)

  datatype State = State(cancelled: bool, generation: nat, cancellers: seq<Canceller>, waiters: seq<Waiter>)

  datatype Event = CancelStep(i: nat) | WaitStep(i: nat)

  predicate Initial(s: State) {
    && !s.cancelled && s.generation == 0
    && (forall c :: c in s.cancellers ==> c == Calling)
    && (forall w :: w in s.waiters ==> w == Waiter(Entering, 0))
  }

  predicate Blocked(s: State, w: Waiter) {
    w.pc.Awaiting? && s.generation <= w.pc.generation
  }

  predicate Enabled(s: State, e: Event) {
    match e
    case CancelStep(i) => i < |s.cancellers| && s.cancellers[i] != Finished
    case WaitStep(i) => i < |s.waiters| && s.waiters[i].pc != Returned && !Blocked(s, s.waiters[i])
  }

  ghost predicate Stuck(s: State) {
    forall e: Event :: !Enabled(s, e)
  }

  function WaiterStep(s: State, w: Waiter): Waiter {
    match w.pc
    case Entering => if s.cancelled then w.(pc := Returned) else w.(pc := Looping)
    case Looping => Waiter(Armed(s.generation), w.arms + 1)
    case Armed(g) => if s.cancelled then w.(pc := Returned) else w.(pc := Awaiting(g))
    case Awaiting(_) => w.(pc := Looping)
    case Returned => w
  }

  function Step(s: State, e: Event): State
    requires Enabled(s, e)
  {
    match e
    case CancelStep(i) =>
      if s.cancellers[i] == Won then
        s.(generation := s.generation + 1, cancellers := s.cancellers[i := Finished])
      else
        s.(cancelled := true, cancellers := s.cancellers[i := if s.cancelled then Finished else Won])
    case WaitStep(i) => s.(waiters := s.waiters[i := WaiterStep(s, s.waiters[i])])
  }

  /** `path` is a run: each state follows from the one before by an enabled event. */
  ghost predicate Run(path: seq<State>) {
    && path != [] && Initial(path[0])
    && forall k :: 0 <= k < |path| - 1 ==> Follows(path[k], path[k + 1])
  }

  ghost predicate Follows(s: State, t: State) {
    exists e :: Enabled(s, e) && t == Step(s, e)
  }

  function Winning(c: Canceller): int {
    if c == Won then 1 else 0
  }

  predicate WaiterOk(s: State, w: Waiter) {
    && w.arms <= 2
    && match w.pc
       case Entering => w.arms == 0
       case Looping => w.arms == 0 || (w.arms == 1 && s.cancelled)
       case Armed(g) => g <= s.generation && (w.arms == 1 || (w.arms == 2 && s.cancelled))
       case Awaiting(g) => g == 0 && w.arms == 1
       case Returned => s.cancelled
  }

  ghost predicate Inv(s: State) {
    && s.generation + Sum(s.cancellers, Winning) == (if s.cancelled then 1 else 0)
    && (forall c :: c in s.cancellers && c != Calling ==> s.cancelled)
    && (forall w :: w in s.waiters ==> WaiterOk(s, w))
  }

  // ----- every step keeps the invariant and uses up work -----

  function CancellerWork(c: Canceller): int {
    match c case Calling => 2 case Won => 1 case Finished => 0
  }

  function WaiterWork(w: Waiter): int {
    match w.pc
    case Entering => 6
    case Looping => if w.arms == 0 then 5 else 2
    case Armed(_) => if w.arms == 1 then 4 else 1
    case Awaiting(_) => 3
    case Returned => 0
  }

  function Work(s: State): int {
    Sum(s.cancellers, CancellerWork) + Sum(s.waiters, WaiterWork)
  }

  lemma InvInitially(s: State)
    requires Initial(s)
    ensures Inv(s) && Work(s) == 2 * |s.cancellers| + 6 * |s.waiters|
  {
    SumConstant(s.cancellers, Winning, 0);
    SumConstant(s.cancellers, CancellerWork, 2);
    SumConstant(s.waiters, WaiterWork, 6);
  }

  lemma InvCancelStep(s: State, i: nat)
    requires Inv(s) && Enabled(s, CancelStep(i))
    ensures Inv(Step(s, CancelStep(i))) && Work(Step(s, CancelStep(i))) < Work(s)
  {
    var t := Step(s, CancelStep(i));
    SumNonNegative(s.cancellers, Winning);
    SumBounds(s.cancellers, i, Winning);
    SumUpdate(s.cancellers, i, t.cancellers[i], Winning);
    SumUpdate(s.cancellers, i, t.cancellers[i], CancellerWork);
    assert forall w :: w in s.waiters && WaiterOk(s, w) ==> WaiterOk(t, w);
  }

  lemma InvWaitStep(s: State, i: nat)
    requires Inv(s) && Enabled(s, WaitStep(i))
    ensures Inv(Step(s, WaitStep(i))) && Work(Step(s, WaitStep(i))) < Work(s)
  {
    var t := Step(s, WaitStep(i));
    SumNonNegative(s.cancellers, Winning);
    SumUpdate(s.waiters, i, t.waiters[i], WaiterWork);
    assert s.waiters[i] in s.waiters;
    assert WaiterOk(t, t.waiters[i]);
    forall w | w in t.waiters ensures WaiterOk(t, w) {
      assert w in s.waiters || w == t.waiters[i];
    }
  }

  lemma InvStep(s: State, e: Event)
    requires Inv(s) && Enabled(s, e)
    ensures Inv(Step(s, e)) && Work(Step(s, e)) < Work(s)
  {
    match e
    case CancelStep(i) => InvCancelStep(s, i);
    case WaitStep(i) => InvWaitStep(s, i);
  }

  lemma {:induction false} InvRun(path: seq<State>)
    requires Run(path)
    ensures var last := path[|path| - 1];
      && Inv(last)
      && |last.cancellers| == |path[0].cancellers| && |last.waiters| == |path[0].waiters|
      && |path| - 1 + Work(last) <= 2 * |path[0].cancellers| + 6 * |path[0].waiters|
    decreases |path|
  {
    var n := |path| - 1;
    if n == 0 {
      InvInitially(path[0]);
    } else {
      InvRun(path[..n]);
      assert Follows(path[n - 1], path[n - 1 + 1]);
      var e :| Enabled(path[n - 1], e) && path[n] == Step(path[n - 1], e);
      InvStep(path[n - 1], e);
    }
  }

  // ----- what the token promises -----

  /** A waiter that returned saw the flag; one that is stuck is owed a wake-up or nobody cancelled. */
  lemma ReturnsAndBlocks(path: seq<State>, i: nat)
    requires Run(path) && i < |path[|path| - 1].waiters|
    ensures var s := path[|path| - 1]; var w := s.waiters[i];
      && (w.pc == Returned ==> s.cancelled)
      && (Blocked(s, w) ==> !s.cancelled || Won in s.cancellers)
      && w.arms <= 2 && s.generation <= 1
      && (s.generation == 1 ==> s.cancelled && Won !in s.cancellers)
  {
    var s := path[|path| - 1];
    InvRun(path);
    assert s.waiters[i] in s.waiters;
    if Won in s.cancellers {
      var k :| 0 <= k < |s.cancellers| && s.cancellers[k] == Won;
      SumBounds(s.cancellers, k, Winning);
    } else {
      SumConstant(s.cancellers, Winning, 0);
    }
    SumNonNegative(s.cancellers, Winning);
  }

  /** Whoever asks after the cancellation returns at once, without ever arming. */
  lemma {:induction false} LateWaiterReturns(path: seq<State>, k: nat, i: nat)
    requires Run(path) && k < |path| && i < |path[k].waiters|
    requires path[k].cancelled && path[k].waiters[i] == Waiter(Entering, 0)
    ensures path[|path| - 1].cancelled && i < |path[|path| - 1].waiters|
    ensures path[|path| - 1].waiters[i] in {Waiter(Entering, 0), Waiter(Returned, 0)}
    decreases |path|
  {
    var n := |path| - 1;
    if k < n {
      LateWaiterReturns(path[..n], k, i);
      assert Follows(path[n - 1], path[n - 1 + 1]);
    }
  }

  /** At most one canceller ever holds the duty to notify. */
  lemma OneWinner(path: seq<State>, i: nat, j: nat)
    requires Run(path) && i < j < |path[|path| - 1].cancellers|
    ensures !(path[|path| - 1].cancellers[i] == Won == path[|path| - 1].cancellers[j])
  {
    var cs := path[|path| - 1].cancellers;
    InvRun(path);
    if cs[i] == Won && cs[j] == Won {
      SumUpdate(cs, i, Finished, Winning);
      SumBounds(cs[i := Finished], j, Winning);
    }
  }

  /** No lost wake-up: when nothing can move any more and someone cancelled, every waiter has returned. */
  lemma NoLostWakeup(path: seq<State>)
    requires Run(path)
    requires Stuck(path[|path| - 1])
    requires path[0].cancellers != []
    ensures forall w :: w in path[|path| - 1].waiters ==> w.pc == Returned
  {
    var s := path[|path| - 1];
    InvRun(path);
    forall i | 0 <= i < |s.cancellers| ensures s.cancellers[i] == Finished {
      assert !Enabled(s, CancelStep(i));
    }
    SumConstant(s.cancellers, Winning, 0);
    assert s.cancellers[0] in s.cancellers;
    forall i | 0 <= i < |s.waiters| ensures s.waiters[i].pc == Returned {
      assert s.waiters[i] in s.waiters && !Enabled(s, WaitStep(i));
    }
  }

  /** Every run stops: two steps per `cancel` and six per `cancelled` are the most there can be. */
  lemma RunsAreShort(path: seq<State>)
    requires Run(path)
    ensures |path| - 1 <= 2 * |path[0].cancellers| + 6 * |path[0].waiters|
  {
    InvRun(path);
    var s := path[|path| - 1];
    SumNonNegative(s.cancellers, CancellerWork);
    SumNonNegative(s.waiters, WaiterWork);
  }
}
