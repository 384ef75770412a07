/**
 Deadlines under an ideal clock (src/core/operation.rs, OperationContext, and
 the contexts that src/core/session.rs and src/core/socks5.rs build with it).
 */
module Deadline {
  import opened Wrappers

  /** An instant.  The clock never runs backwards and steps take no time of their own. */
  type Time = nat

  datatype Context = Context(deadline: Option<Time>)

  function Min(a: Time, b: Time): Time {
    if a <= b then a else b
  }

  function Max(a: Time, b: Time): Time {
    if a >= b then a else b
  }

  function WithTimeoutFromNow(context: Context, now: Time, timeout: nat): Context {
    var deadline := now + timeout;
    match context.deadline
    case Some(existing) => Context(Some(Min(existing, deadline)))
    case None => Context(Some(deadline))
  }

  /** A timeout added at some instant. */
  datatype Timeout = Timeout(now: Time, length: nat)

  function Chain(context: Context, timeouts: seq<Timeout>): Context {
    if timeouts == [] then context else
      var last := timeouts[|timeouts| - 1];
      WithTimeoutFromNow(Chain(context, timeouts[..|timeouts| - 1]), last.now, last.length)
  }

  predicate Offers(context: Context, timeouts: seq<Timeout>, t: Time) {
    context.deadline == Some(t) || exists i :: 0 <= i < |timeouts| && timeouts[i].now + timeouts[i].length == t
  }

  /** However many timeouts are stacked, the deadline is the earliest one offered. */
  lemma {:induction false} ChainIsEarliest(context: Context, timeouts: seq<Timeout>)
    ensures match Chain(context, timeouts).deadline
      case None => forall t :: !Offers(context, timeouts, t)
      case Some(d) => Offers(context, timeouts, d) && forall t :: Offers(context, timeouts, t) ==> d <= t
    decreases |timeouts|
  {
    if timeouts != [] {
      var n := |timeouts| - 1;
      ChainIsEarliest(context, timeouts[..n]);
      assert forall t ::
          (Offers(context, timeouts, t)
           <==> Offers(context, timeouts[..n], t) || timeouts[n].now + timeouts[n].length == t);
    }
  }

  datatype Outcome = Finished(ok: bool) | TimedOut | Cancelled

  datatype Ending = Never | Ends(at: Time, outcome: Outcome)

  /**
   A piece of work: how long it needs by itself, if it ever finishes, whether
   it then succeeds, and how `select!` settles a tie with the cancellation.
   */
  datatype Work = Work(needs: Option<nat>, succeeds: bool, cancelFirst: bool)

  /** `run`: the first of cancellation, completion and deadline.  The timeout polls the work before the timer. */
  function Run(context: Context, start: Time, work: Work, cancel: Option<Time>): Ending {
    if cancel.Some? && cancel.value <= start then Ends(start, Cancelled) else
      var finish := if work.needs.Some? then Ends(start + work.needs.value, Finished(work.succeeds)) else Never;
      var timed := match context.deadline
        case None => finish
        case Some(d) => if finish.Ends? && finish.at <= Max(start, d) then finish else Ends(Max(start, d), TimedOut);
      if cancel.None? || (timed.Ends? && (timed.at < cancel.value || (timed.at == cancel.value && !work.cancelFirst)))
      then timed else Ends(cancel.value, Cancelled)
  }

  /** What could end an operation, each at its own instant: its work, the deadline, the cancellation. */
  predicate CouldEnd(context: Context, start: Time, work: Work, cancel: Option<Time>, e: Ending) {
    && e.Ends?
    && match e.outcome
       case Finished(ok) => work.needs.Some? && e.at == start + work.needs.value && ok == work.succeeds
       case TimedOut => context.deadline.Some? && e.at == Max(start, context.deadline.value)
       case Cancelled => cancel.Some? && e.at == Max(start, cancel.value)
  }

  /**
   Which of two events at the same instant is reported: a cancellation that is
   there before the start, otherwise work before deadline, and `cancelFirst`
   between these and a cancellation.
   */
  predicate Precedes(start: Time, work: Work, cancel: Option<Time>, a: Outcome, b: Outcome) {
    if a == Cancelled then cancel.Some? && (cancel.value <= start || work.cancelFirst)
    else if b == Cancelled then cancel.Some? && cancel.value > start && !work.cancelFirst
    else a.Finished?
  }

  /** An operation is ended by whatever could end it first, and runs for ever only if nothing can. */
  lemma EarliestWins(context: Context, start: Time, work: Work, cancel: Option<Time>)
    ensures var r := Run(context, start, work, cancel);
      && (r.Never? <==> forall e :: !CouldEnd(context, start, work, cancel, e))
      && (r.Ends? ==> CouldEnd(context, start, work, cancel, r))
      && (r.Ends? ==> forall e :: CouldEnd(context, start, work, cancel, e) && e != r ==>
            r.at < e.at || (r.at == e.at && Precedes(start, work, cancel, r.outcome, e.outcome)))
  {
    var r := Run(context, start, work, cancel);
    assert r.Ends? ==> CouldEnd(context, start, work, cancel, r);
  }

  /** Work that is done by the deadline and before any cancellation completes, when it is done and with its own result. */
  lemma InTimeCompletes(context: Context, start: Time, work: Work, cancel: Option<Time>)
    requires work.needs.Some?
    requires context.deadline.Some? ==> start + work.needs.value <= context.deadline.value
    requires cancel.Some? ==> start + work.needs.value < cancel.value
    ensures Run(context, start, work, cancel) == Ends(start + work.needs.value, Finished(work.succeeds))
  {
  }

  /** Without a tie: it times out if and only if the work needs longer than the deadline leaves and nobody cancelled before. */
  lemma TimesOutIff(context: Context, start: Time, work: Work, cancel: Option<Time>)
    requires context.deadline.Some? && start <= context.deadline.value && cancel != context.deadline
    ensures Run(context, start, work, cancel) == Ends(context.deadline.value, TimedOut)
       <==> && (work.needs.Some? ==> start + work.needs.value > context.deadline.value)
            && (cancel.Some? ==> cancel.value > context.deadline.value)
    ensures Run(context, start, work, cancel).outcome == TimedOut
       <==> Run(context, start, work, cancel) == Ends(context.deadline.value, TimedOut)
  {
  }

  /**
   The operations that were performed under one context, each starting where
   the one before ended, whatever it ended with: the caller may go on after a
   failure, as a handshake does to send its refusal.
   */
  function Endings(context: Context, start: Time, works: seq<Work>, cancel: Option<Time>): seq<Ending>
    decreases |works|
  {
    if works == [] then [] else
      var first := Run(context, start, works[0], cancel);
      [first] + if first.Never? then [] else Endings(context, first.at, works[1..], cancel)
  }

  function StartOf(start: Time, endings: seq<Ending>, k: nat): Time
    requires k < |endings|
  {
    if k > 0 && endings[k - 1].Ends? then endings[k - 1].at else start
  }

  /** One operation between `begin`, the first start, and a common deadline. */
  predicate InTime(begin: Time, deadline: Time, cancel: Option<Time>, start: Time, ending: Ending) {
    && ending.Ends?
    && begin <= start <= ending.at <= Max(begin, deadline)
    && match ending.outcome
       case Finished(_) => cancel.Some? ==> start < cancel.value && ending.at <= cancel.value
       case TimedOut => ending.at == Max(begin, deadline)
       case Cancelled => cancel.Some? && ending.at == Max(begin, cancel.value)
  }

  /** Nothing takes time after a timeout or a cancellation, and a cancellation is final. */
  predicate StopsTheClock(endings: seq<Ending>) {
    forall j, k :: 0 <= j < k < |endings| && endings[j].Ends? && !endings[j].outcome.Finished? ==> CutOff(endings[j], endings[k])
  }

  predicate CutOff(earlier: Ending, later: Ending)
    requires earlier.Ends?
  {
    later.Ends? && later.at == earlier.at && (earlier.outcome == Cancelled ==> later.outcome == Cancelled)
  }

  /** What `SharedDeadline` needs to know where a later operation starts. */
  predicate Reached(begin: Time, deadline: Time, cancel: Option<Time>, start: Time) {
    begin <= start <= Max(begin, deadline) && (cancel.Some? ==> start <= Max(begin, cancel.value))
  }

  lemma RunInTime(context: Context, begin: Time, start: Time, work: Work, cancel: Option<Time>)
    requires context.deadline.Some? && Reached(begin, context.deadline.value, cancel, start)
    ensures var first := Run(context, start, work, cancel);
      && InTime(begin, context.deadline.value, cancel, start, first)
      && Reached(begin, context.deadline.value, cancel, first.at)
      && (start == Max(begin, context.deadline.value) ==> first.at == start)
      && (cancel.Some? && cancel.value <= start ==> first == Ends(start, Cancelled))
  {
  }

  predicate AllInTime(begin: Time, deadline: Time, cancel: Option<Time>, start: Time, endings: seq<Ending>) {
    forall k :: 0 <= k < |endings| ==> InTime(begin, deadline, cancel, StartOf(start, endings, k), endings[k])
  }

  /** No time left, or the cancellation already signalled: nothing moves from here on. */
  predicate Frozen(begin: Time, deadline: Time, cancel: Option<Time>, start: Time, endings: seq<Ending>) {
    && (start == Max(begin, deadline) ==> forall k :: 0 <= k < |endings| ==> endings[k].Ends? && endings[k].at == start)
    && (cancel.Some? && cancel.value <= start ==> forall k :: 0 <= k < |endings| ==> endings[k] == Ends(start, Cancelled))
  }

  lemma OneMoreInTime(begin: Time, deadline: Time, cancel: Option<Time>, start: Time, first: Ending, rest: seq<Ending>)
    requires InTime(begin, deadline, cancel, start, first) && AllInTime(begin, deadline, cancel, first.at, rest)
    ensures AllInTime(begin, deadline, cancel, start, [first] + rest)
  {
    var endings := [first] + rest;
    forall k | 0 <= k < |endings|
      ensures InTime(begin, deadline, cancel, StartOf(start, endings, k), endings[k])
    {
      if k > 0 {
        assert endings[k] == rest[k - 1] && StartOf(start, endings, k) == StartOf(first.at, rest, k - 1);
      }
    }
  }

  /** The first operation that was cut off leaves nothing to the others. */
  lemma OneMoreStopped(begin: Time, deadline: Time, cancel: Option<Time>, start: Time, first: Ending, rest: seq<Ending>)
    requires InTime(begin, deadline, cancel, start, first) && Frozen(begin, deadline, cancel, first.at, rest)
    requires StopsTheClock(rest)
    ensures StopsTheClock([first] + rest)
  {
    forall k | 0 <= k < |rest| && !first.outcome.Finished? ensures CutOff(first, rest[k]) {
    }
    StopsPrepend(first, rest);
  }

  lemma StopsPrepend(first: Ending, rest: seq<Ending>)
    requires StopsTheClock(rest)
    requires first.Ends? && !first.outcome.Finished? ==> forall k :: 0 <= k < |rest| ==> CutOff(first, rest[k])
    ensures StopsTheClock([first] + rest)
  {
    var endings := [first] + rest;
    forall j, k | 0 <= j < k < |endings| && endings[j].Ends? && !endings[j].outcome.Finished?
      ensures CutOff(endings[j], endings[k])
    {
      assert endings[k] == rest[k - 1];
      if j > 0 {
        assert endings[j] == rest[j - 1];
      }
    }
  }

  lemma {:induction false} SharedFrom(context: Context, begin: Time, start: Time, works: seq<Work>, cancel: Option<Time>)
    requires context.deadline.Some? && Reached(begin, context.deadline.value, cancel, start)
    ensures var endings := Endings(context, start, works, cancel);
      && |endings| == |works|
      && AllInTime(begin, context.deadline.value, cancel, start, endings)
      && StopsTheClock(endings)
      && Frozen(begin, context.deadline.value, cancel, start, endings)
    decreases |works|
  {
    if works != [] {
      var first := Run(context, start, works[0], cancel);
      RunInTime(context, begin, start, works[0], cancel);
      SharedFrom(context, begin, first.at, works[1..], cancel);
      var rest := Endings(context, first.at, works[1..], cancel);
      OneMoreInTime(begin, context.deadline.value, cancel, start, first, rest);
      OneMoreStopped(begin, context.deadline.value, cancel, start, first, rest);
    }
  }

  /**
   Any operations under one context, continued after failures or not: each ends
   by the deadline, a timeout ends exactly there, a cancellation exactly when it
   was signalled, work completes only while nobody has cancelled, and after a
   timeout or a cancellation no time passes any more.
   */
  lemma SharedDeadline(context: Context, start: Time, works: seq<Work>, cancel: Option<Time>)
    requires context.deadline.Some?
    ensures var endings := Endings(context, start, works, cancel);
      && |endings| == |works|
      && AllInTime(start, context.deadline.value, cancel, start, endings)
      && StopsTheClock(endings)
  {
    SharedFrom(context, start, start, works, cancel);
  }

  /** All reads, writes and the open of a SOCKS5 handshake share one timeout under the connection's own context. */
  lemma HandshakeEnds(parent: Context, start: Time, handshakeTimeout: nat, works: seq<Work>, cancel: Option<Time>)
    ensures var endings := Endings(WithTimeoutFromNow(parent, start, handshakeTimeout), start, works, cancel);
      && |endings| == |works|
      && forall k :: 0 <= k < |endings| ==>
           && endings[k].Ends? && start <= endings[k].at <= start + handshakeTimeout
           && (parent.deadline.Some? ==> endings[k].at <= Max(start, parent.deadline.value))
  {
    var context := WithTimeoutFromNow(parent, start, handshakeTimeout);
    SharedDeadline(context, start, works, cancel);
    var endings := Endings(context, start, works, cancel);
    forall k | 0 <= k < |endings|
      ensures InTime(start, context.deadline.value, cancel, StartOf(start, endings, k), endings[k])
    {
    }
  }

  /** Every operation in a sequence is one `run` from where the one before ended. */
  lemma {:induction false} EndingsAreRuns(context: Context, start: Time, works: seq<Work>, cancel: Option<Time>)
    ensures var endings := Endings(context, start, works, cancel);
      && |endings| <= |works|
      && (|endings| < |works| ==> endings != [] && endings[|endings| - 1].Never?)
      && (forall k :: 0 <= k < |endings| - 1 ==> endings[k].Ends?)
      && forall k :: 0 <= k < |endings| ==> endings[k] == Run(context, StartOf(start, endings, k), works[k], cancel)
    decreases |works|
  {
    if works != [] {
      var first := Run(context, start, works[0], cancel);
      if first.Ends? {
        EndingsAreRuns(context, first.at, works[1..], cancel);
        var rest, endings := Endings(context, first.at, works[1..], cancel), Endings(context, start, works, cancel);
        forall k | 0 <= k < |endings|
          ensures endings[k] == Run(context, StartOf(start, endings, k), works[k], cancel)
        {
          if k > 0 {
            assert endings[k] == rest[k - 1] && works[k] == works[1..][k - 1];
            assert StartOf(start, endings, k) == StartOf(first.at, rest, k - 1);
          }
        }
      }
    }
  }

  /** The time a list of works needs, if all of them finish. */
  function Needs(works: seq<Work>): Option<nat> {
    if works == [] then Some(0) else
      var last := works[|works| - 1];
      var before := Needs(works[..|works| - 1]);
      if before.Some? && last.needs.Some? then Some(before.value + last.needs.value) else None
  }

  lemma NeedsOne(w: Work)
    ensures Needs([w]) == w.needs
  {
    assert [w][..0] == [];
  }

  lemma {:induction false} NeedsConcat(a: seq<Work>, b: seq<Work>)
    ensures Needs(a + b) == if Needs(a).Some? && Needs(b).Some? then Some(Needs(a).value + Needs(b).value) else None
    decreases |b|
  {
    if b == [] {
      assert a + b == a;
    } else {
      assert (a + b)[..|a + b| - 1] == a + b[..|b| - 1];
      NeedsConcat(a, b[..|b| - 1]);
    }
  }

  /** Nothing stops these operations: the time they need is there and no cancellation falls into it. */
  predicate Undisturbed(context: Context, start: Time, works: seq<Work>, cancel: Option<Time>) {
    && Needs(works).Some?
    && (context.deadline.Some? ==> start + Needs(works).value <= context.deadline.value)
    && (cancel.Some? ==> start + Needs(works).value < cancel.value)
  }

  lemma UndisturbedRest(context: Context, start: Time, works: seq<Work>, cancel: Option<Time>)
    requires works != [] && Undisturbed(context, start, works, cancel)
    ensures works[0].needs.Some?
    ensures var first := Run(context, start, works[0], cancel);
      && first == Ends(start + works[0].needs.value, Finished(works[0].succeeds))
      && Undisturbed(context, first.at, works[1..], cancel)
      && Needs(works).value == works[0].needs.value + Needs(works[1..]).value
  {
    assert works == works[..1] + works[1..] && works[..1] == [works[0]];
    NeedsOne(works[0]);
    NeedsConcat(works[..1], works[1..]);
    InTimeCompletes(context, start, works[0], cancel);
  }

  /** Operation `k` completes as long after the start as it and those before it need, with its own result. */
  predicate CompletesAt(start: Time, works: seq<Work>, k: nat, ending: Ending)
    requires k < |works|
  {
    Needs(works[..k + 1]).Some? && ending == Ends(start + Needs(works[..k + 1]).value, Finished(works[k].succeeds))
  }

  lemma CompletesLater(start: Time, first: Work, rest: seq<Work>, k: nat, ending: Ending)
    requires first.needs.Some? && k < |rest| && CompletesAt(start + first.needs.value, rest, k, ending)
    ensures CompletesAt(start, [first] + rest, k + 1, ending)
  {
    NeedsOne(first);
    NeedsConcat([first], rest[..k + 1]);
    assert ([first] + rest)[..k + 2] == [first] + rest[..k + 1];
  }

  /** Undisturbed operations all complete. */
  lemma {:induction false} UndisturbedComplete(context: Context, start: Time, works: seq<Work>, cancel: Option<Time>)
    requires Undisturbed(context, start, works, cancel)
    ensures var endings := Endings(context, start, works, cancel);
      && |endings| == |works|
      && forall k :: 0 <= k < |works| ==> CompletesAt(start, works, k, endings[k])
    decreases |works|
  {
    if works != [] {
      var first := Run(context, start, works[0], cancel);
      UndisturbedRest(context, start, works, cancel);
      UndisturbedComplete(context, first.at, works[1..], cancel);
      var rest, endings := Endings(context, first.at, works[1..], cancel), Endings(context, start, works, cancel);
      assert endings == [first] + rest && works == [works[0]] + works[1..];
      forall k | 0 <= k < |works| ensures CompletesAt(start, works, k, endings[k]) {
        if k == 0 {
          NeedsOne(works[0]);
          assert works[..0 + 1] == [works[0]];
        } else {
          CompletesLater(start, works[0], works[1..], k - 1, rest[k - 1]);
        }
      }
    }
  }

  /** One operation after another, each only when the one before succeeded. */
  function RunAll(context: Context, start: Time, works: seq<Work>, cancel: Option<Time>): Ending
    decreases |works|
  {
    if works == [] then Ends(start, Finished(true)) else
      var first := Run(context, start, works[0], cancel);
      if first.Ends? && first.outcome == Finished(true) then RunAll(context, first.at, works[1..], cancel) else first
  }

  lemma {:induction false} RunAllEnds(context: Context, start: Time, works: seq<Work>, cancel: Option<Time>)
    requires context.deadline.Some?
    ensures var r := RunAll(context, start, works, cancel); r.Ends? && start <= r.at <= Max(start, context.deadline.value)
    decreases |works|
  {
    if works != [] {
      var first := Run(context, start, works[0], cancel);
      if first.outcome == Finished(true) {
        RunAllEnds(context, first.at, works[1..], cancel);
      }
    }
  }

  /**
   `connect_with_context` is one transport operation, `connect_via_jump_with_context`
   a channel open and a transport operation, both before authentication.
   */
  function Connect(parent: Context, start: Time, connectTimeout: nat, authenticationTimeout: nat,
                   transport: seq<Work>, authentication: Work, cancel: Option<Time>): Ending
  {
    var connected := RunAll(WithTimeoutFromNow(parent, start, connectTimeout), start, transport, cancel);
    if connected.Ends? && connected.outcome == Finished(true)
    then Run(WithTimeoutFromNow(parent, connected.at, authenticationTimeout), connected.at, authentication, cancel)
    else connected
  }

  /** Connecting always ends, by the parent's deadline and within the two timeouts. */
  lemma ConnectEnds(parent: Context, start: Time, connectTimeout: nat, authenticationTimeout: nat,
                    transport: seq<Work>, authentication: Work, cancel: Option<Time>)
    ensures var r := Connect(parent, start, connectTimeout, authenticationTimeout, transport, authentication, cancel);
      && r.Ends?
      && start <= r.at <= start + connectTimeout + authenticationTimeout
      && (parent.deadline.Some? ==> r.at <= Max(start, parent.deadline.value))
  {
    RunAllEnds(WithTimeoutFromNow(parent, start, connectTimeout), start, transport, cancel);
  }

  predicate AllSucceed(works: seq<Work>) {
    forall w :: w in works ==> w.succeeds
  }

  lemma {:induction false} RunAllSucceeds(context: Context, start: Time, works: seq<Work>, cancel: Option<Time>)
    requires Undisturbed(context, start, works, cancel) && AllSucceed(works)
    ensures RunAll(context, start, works, cancel) == Ends(start + Needs(works).value, Finished(true))
    decreases |works|
  {
    if works != [] {
      UndisturbedRest(context, start, works, cancel);
      assert works[0] in works && forall w :: w in works[1..] ==> w in works;
      RunAllSucceeds(context, Run(context, start, works[0], cancel).at, works[1..], cancel);
    }
  }

  /** One of the operations, and it is the first that does not succeed, decides a sequence that stops there. */
  lemma {:induction false} RunAllStops(context: Context, start: Time, works: seq<Work>, cancel: Option<Time>, k: nat)
    requires var endings := Endings(context, start, works, cancel);
      && k < |endings|
      && (forall j :: 0 <= j < k ==> endings[j].Ends? && endings[j].outcome == Finished(true))
      && (endings[k].Ends? ==> endings[k].outcome != Finished(true))
    ensures RunAll(context, start, works, cancel) == Endings(context, start, works, cancel)[k]
    decreases |works|
  {
    if k > 0 {
      var first := Run(context, start, works[0], cancel);
      var rest, endings := Endings(context, first.at, works[1..], cancel), Endings(context, start, works, cancel);
      assert endings[0] == first && rest == endings[1..];
      RunAllStops(context, first.at, works[1..], cancel, k - 1);
    }
  }

  /**
   When the transport succeeds within its timeout and the authentication is done
   within its own, counted from then, the connection has the authentication's
   result as soon as both are done.
   */
  lemma ConnectCompletes(parent: Context, start: Time, connectTimeout: nat, authenticationTimeout: nat,
                         transport: seq<Work>, authentication: Work, cancel: Option<Time>)
    requires Needs(transport).Some? && AllSucceed(transport) && authentication.needs.Some?
    requires Needs(transport).value <= connectTimeout && authentication.needs.value <= authenticationTimeout
    requires var end := start + Needs(transport).value + authentication.needs.value;
      (parent.deadline.Some? ==> end <= parent.deadline.value) && (cancel.Some? ==> end < cancel.value)
    ensures Connect(parent, start, connectTimeout, authenticationTimeout, transport, authentication, cancel)
         == Ends(start + Needs(transport).value + authentication.needs.value, Finished(authentication.succeeds))
  {
    RunAllSucceeds(WithTimeoutFromNow(parent, start, connectTimeout), start, transport, cancel);
    var connected := start + Needs(transport).value;
    InTimeCompletes(WithTimeoutFromNow(parent, connected, authenticationTimeout), connected, authentication, cancel);
  }

  /** When a transport operation does not succeed, the connection ends with it and nothing is authenticated. */
  lemma ConnectStops(parent: Context, start: Time, connectTimeout: nat, authenticationTimeout: nat,
                     transport: seq<Work>, authentication: Work, cancel: Option<Time>, k: nat)
    requires var endings := Endings(WithTimeoutFromNow(parent, start, connectTimeout), start, transport, cancel);
      && k < |endings|
      && (forall j :: 0 <= j < k ==> endings[j].Ends? && endings[j].outcome == Finished(true))
      && (endings[k].Ends? ==> endings[k].outcome != Finished(true))
    ensures Connect(parent, start, connectTimeout, authenticationTimeout, transport, authentication, cancel)
         == Endings(WithTimeoutFromNow(parent, start, connectTimeout), start, transport, cancel)[k]
  {
    RunAllStops(WithTimeoutFromNow(parent, start, connectTimeout), start, transport, cancel, k);
  }
}
