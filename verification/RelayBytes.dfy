/**
 The relay's byte counters (src/core/relay.rs, CountingStream and relay_streams).

 `CountingStream` counts what each poll adds to the caller's buffer; the copy
 loop reads into a buffer per direction and writes from it.
 */
module RelayBytes {
  import opened Sums

  type Byte = n: int | 0 <= n < 256 witness 0

  datatype Direction = LocalToRemote | RemoteToLocal

  // ----- one counted poll -----

  /** What the inner stream does on a poll. */
  datatype Poll = Ready(bytes: seq<Byte>) | Pending | Failed

  class ReadBuf {
    var filled: seq<Byte>

    constructor ()
      ensures filled == []
    {
      filled := [];
    }
  }

  class ByteStats {
    var counters: map<Direction, nat>

    ghost predicate Valid()
      reads this
    {
      counters.Keys == {LocalToRemote, RemoteToLocal}
    }

    constructor ()
      ensures Valid() && counters == map[LocalToRemote := 0, RemoteToLocal := 0]
    {
      counters := map[LocalToRemote := 0, RemoteToLocal := 0];
    }

    method RecordRead(direction: Direction, bytes: nat)
      requires Valid()
      modifies this
      ensures Valid() && counters == old(counters)[direction := old(counters[direction]) + bytes]
    {
      counters := counters[direction := counters[direction] + bytes];
    }
  }

  class CountingStream {
    const stats: ByteStats
    const readDirection: Direction

    constructor (stats: ByteStats, readDirection: Direction)
      ensures this.stats == stats && this.readDirection == readDirection
    {
      this.stats, this.readDirection := stats, readDirection;
    }

    /** Exactly the bytes a poll delivers are counted, in this stream's own direction only. */
    method PollRead(buffer: ReadBuf, inner: Poll)
      requires stats.Valid()
      modifies buffer, stats
      ensures stats.Valid()
      ensures buffer.filled == old(buffer.filled) + if inner.Ready? then inner.bytes else []
      ensures forall d :: d in stats.counters ==>
        stats.counters[d] == old(stats.counters)[d] + if d == readDirection then |buffer.filled| - |old(buffer.filled)| else 0
    {
      var before := |buffer.filled|;
      if inner.Ready? {
        buffer.filled := buffer.filled + inner.bytes;
        var bytes := if |buffer.filled| >= before then |buffer.filled| - before else 0;
        stats.RecordRead(readDirection, bytes);
      }
    }
  }

  // ----- conservation over all connections -----

  /** One direction of one connection: bytes read so far, read but not yet written, written. */
  datatype Flow = Flow(direction: Direction, read: seq<Byte>, buffer: seq<Byte>, delivered: seq<Byte>)

  datatype State = State(localToRemote: nat, remoteToLocal: nat, flows: seq<Flow>)

  /** A relay that stops takes no more events; its buffers stay as they are. */
  datatype Event =
    | Open                            // a connection: one flow each way
    | Read(i: nat, bytes: seq<Byte>)  // a counted poll into the copy buffer
    | Write(i: nat, count: nat)       // a possibly short write from it

  predicate Enabled(s: State, e: Event) {
    match e
    case Open => true
    case Read(i, _) => i < |s.flows|
    case Write(i, count) => i < |s.flows| && count <= |s.flows[i].buffer|
  }

  function Step(s: State, e: Event): State
    requires Enabled(s, e)
  {
    match e
    case Open => s.(flows := s.flows + [Flow(LocalToRemote, [], [], [])] + [Flow(RemoteToLocal, [], [], [])])
    case Read(i, bytes) =>
      var f := s.flows[i];
      var moved := s.flows[i := f.(read := f.read + bytes, buffer := f.buffer + bytes)];
      if f.direction == LocalToRemote then s.(localToRemote := s.localToRemote + |bytes|, flows := moved)
      else s.(remoteToLocal := s.remoteToLocal + |bytes|, flows := moved)
    case Write(i, count) =>
      var f := s.flows[i];
      s.(flows := s.flows[i := f.(buffer := f.buffer[count..], delivered := f.delivered + f.buffer[..count])])
  }

  ghost predicate Follows(s: State, t: State) {
    exists e :: Enabled(s, e) && t == Step(s, e)
  }

  ghost predicate Run(path: seq<State>) {
    && path != [] && path[0] == State(0, 0, [])
    && forall k :: 0 <= k < |path| - 1 ==> Follows(path[k], path[k + 1])
  }

  function Counter(s: State, d: Direction): nat {
    if d == LocalToRemote then s.localToRemote else s.remoteToLocal
  }

  function BytesRead(d: Direction): Flow -> int {
    (f: Flow) => if f.direction == d then |f.read| else 0
  }

  function BytesDelivered(d: Direction): Flow -> int {
    (f: Flow) => if f.direction == d then |f.delivered| else 0
  }

  function BytesLeft(d: Direction): Flow -> int {
    (f: Flow) => if f.direction == d then |f.buffer| else 0
  }

  predicate InOrder(f: Flow) {
    f.read == f.delivered + f.buffer
  }

  ghost predicate Inv(s: State) {
    && (forall d :: Counter(s, d) == Sum(s.flows, BytesRead(d)))
    && (forall i :: 0 <= i < |s.flows| ==> InOrder(s.flows[i]))
  }

  lemma CountersStep(s: State, e: Event, d: Direction)
    requires Inv(s) && Enabled(s, e)
    ensures Counter(Step(s, e), d) == Sum(Step(s, e).flows, BytesRead(d))
  {
    var t := Step(s, e);
    if e.Open? {
      SumAppend(s.flows, Flow(LocalToRemote, [], [], []), BytesRead(d));
      SumAppend(s.flows + [Flow(LocalToRemote, [], [], [])], Flow(RemoteToLocal, [], [], []), BytesRead(d));
    } else {
      SumUpdate(s.flows, e.i, t.flows[e.i], BytesRead(d));
    }
  }

  lemma OrderStep(s: State, e: Event, i: nat)
    requires Inv(s) && Enabled(s, e) && i < |Step(s, e).flows|
    ensures InOrder(Step(s, e).flows[i])
  {
    if i < |s.flows| {
      var f := s.flows[i];
      assert InOrder(f);
      if e.Write? && e.i == i {
        assert f.buffer == f.buffer[..e.count] + f.buffer[e.count..];
      }
    }
  }

  lemma InvStep(s: State, e: Event)
    requires Inv(s) && Enabled(s, e)
    ensures Inv(Step(s, e))
  {
    forall d {
      CountersStep(s, e, d);
    }
    forall i | 0 <= i < |Step(s, e).flows| {
      OrderStep(s, e, i);
    }
  }

  lemma {:induction false} InvRun(path: seq<State>)
    requires Run(path)
    ensures Inv(path[|path| - 1])
    decreases |path|
  {
    var n := |path| - 1;
    if n > 0 {
      InvRun(path[..n]);
      assert Follows(path[n - 1], path[n - 1 + 1]);
      var e :| Enabled(path[n - 1], e) && path[n] == Step(path[n - 1], e);
      InvStep(path[n - 1], e);
    }
  }

  /**
   Each direction's counter is the sum over all connections of what was read on
   that side, which is what was delivered, in order, plus what is still
   buffered or was abandoned.
   */
  lemma BytesConserved(path: seq<State>, d: Direction)
    requires Run(path)
    ensures var s := path[|path| - 1];
      && Counter(s, d) == Sum(s.flows, BytesRead(d))
      && Counter(s, d) == Sum(s.flows, BytesDelivered(d)) + Sum(s.flows, BytesLeft(d))
      && forall i :: 0 <= i < |s.flows| ==> s.flows[i].delivered <= s.flows[i].read
  {
    var s := path[|path| - 1];
    InvRun(path);
    forall f | f in s.flows ensures BytesRead(d)(f) == BytesDelivered(d)(f) + BytesLeft(d)(f) {
      var i :| 0 <= i < |s.flows| && s.flows[i] == f;
      assert InOrder(s.flows[i]);
    }
    SumOfSums(s.flows, BytesRead(d), BytesDelivered(d), BytesLeft(d));
    forall i | 0 <= i < |s.flows| ensures s.flows[i].delivered <= s.flows[i].read {
      assert InOrder(s.flows[i]);
    }
  }

  // ----- which bytes -----

  /** The state after these events; an event that is not enabled does nothing. */
  function After(events: seq<Event>): State {
    if events == [] then State(0, 0, []) else
      var before, e := After(events[..|events| - 1]), events[|events| - 1];
      if Enabled(before, e) then Step(before, e) else before
  }

  ghost predicate Legal(events: seq<Event>) {
    forall k :: 0 <= k < |events| ==> Enabled(After(events[..k]), events[k])
  }

  /** The bytes that the polls of flow `i` delivered, in order. */
  function Polled(events: seq<Event>, i: nat): seq<Byte> {
    if events == [] then [] else
      var e := events[|events| - 1];
      Polled(events[..|events| - 1], i) + if e.Read? && e.i == i then e.bytes else []
  }

  /** How many bytes were written from flow `i`. */
  function Written(events: seq<Event>, i: nat): nat {
    if events == [] then 0 else
      var e := events[|events| - 1];
      Written(events[..|events| - 1], i) + if e.Write? && e.i == i then e.count else 0
  }

  function Opened(events: seq<Event>): nat {
    if events == [] then 0 else Opened(events[..|events| - 1]) + if events[|events| - 1].Open? then 1 else 0
  }

  lemma LegalBefore(events: seq<Event>)
    requires events != [] && Legal(events)
    ensures Legal(events[..|events| - 1]) && Enabled(After(events[..|events| - 1]), events[|events| - 1])
  {
    var before := events[..|events| - 1];
    forall k | 0 <= k < |before| ensures Enabled(After(before[..k]), before[k]) {
      assert before[..k] == events[..k] && before[k] == events[k];
    }
  }

  /** A flow that does not exist yet was neither polled nor written. */
  lemma {:induction false} NothingBefore(events: seq<Event>, i: nat)
    requires Legal(events) && i >= |After(events).flows|
    ensures Polled(events, i) == [] && Written(events, i) == 0
  {
    if events != [] {
      LegalBefore(events);
      NothingBefore(events[..|events| - 1], i);
    }
  }

  /** A flow after these bytes were polled and this many of them written. */
  predicate Carries(f: Flow, polled: seq<Byte>, written: nat) {
    && f.read == polled && written <= |polled|
    && f.delivered == polled[..written] && f.buffer == polled[written..]
  }

  lemma CarriesMore(s: State, e: Event, i: nat, polled: seq<Byte>, written: nat)
    requires Enabled(s, e) && i < |s.flows| && Carries(s.flows[i], polled, written)
    ensures Step(s, e).flows[i].direction == s.flows[i].direction
    ensures Carries(Step(s, e).flows[i],
                    polled + (if e.Read? && e.i == i then e.bytes else []),
                    written + if e.Write? && e.i == i then e.count else 0)
  {
    var f, g := s.flows[i], Step(s, e).flows[i];
    if e.Write? && e.i == i {
      assert g.delivered == polled[..written] + polled[written..][..e.count] == polled[..written + e.count];
      assert g.buffer == polled[written..][e.count..] == polled[written + e.count..];
      assert polled + [] == polled;
    } else if e.Read? && e.i == i {
      assert (polled + e.bytes)[..written] == polled[..written];
      assert (polled + e.bytes)[written..] == polled[written..] + e.bytes;
    } else {
      assert g == f && polled + [] == polled;
    }
  }

  lemma OpenedFlow(s: State, e: Event, i: nat)
    requires Enabled(s, e) && |s.flows| % 2 == 0 && |s.flows| <= i < |Step(s, e).flows|
    ensures Step(s, e).flows[i] == Flow(if i % 2 == 0 then LocalToRemote else RemoteToLocal, [], [], [])
  {
  }

  ghost predicate FlowOk(events: seq<Event>, i: nat)
    requires i < |After(events).flows|
  {
    && After(events).flows[i].direction == (if i % 2 == 0 then LocalToRemote else RemoteToLocal)
    && Carries(After(events).flows[i], Polled(events, i), Written(events, i))
  }

  lemma NewFlowOk(events: seq<Event>, i: nat)
    requires events != [] && Legal(events) && |After(events[..|events| - 1]).flows| <= i < |After(events).flows|
    ensures FlowOk(events, i)
  {
    var before := events[..|events| - 1];
    LegalBefore(events);
    FlowCount(before);
    NothingBefore(before, i);
    OpenedFlow(After(before), events[|events| - 1], i);
  }

  /**
   Every connection opens one flow each way; what a flow read is what its polls
   delivered, and what reached the other side are the first of these bytes, as
   many as were written.
   */
  lemma {:induction false} FlowsCarryPolls(events: seq<Event>, i: nat)
    requires Legal(events) && i < |After(events).flows|
    ensures |After(events).flows| == 2 * Opened(events)
    ensures After(events).flows[i].direction == if i % 2 == 0 then LocalToRemote else RemoteToLocal
    ensures Carries(After(events).flows[i], Polled(events, i), Written(events, i))
  {
    FlowCount(events);
    FlowsOk(events, i);
  }

  lemma {:induction false} FlowsOk(events: seq<Event>, i: nat)
    requires Legal(events) && i < |After(events).flows|
    ensures FlowOk(events, i)
  {
    if events != [] {
      var before := events[..|events| - 1];
      LegalBefore(events);
      if i < |After(before).flows| {
        FlowsOk(before, i);
        CarriesMore(After(before), events[|events| - 1], i, Polled(before, i), Written(before, i));
      } else {
        NewFlowOk(events, i);
      }
    }
  }

  lemma {:induction false} FlowCount(events: seq<Event>)
    requires Legal(events)
    ensures |After(events).flows| == 2 * Opened(events)
  {
    if events != [] {
      LegalBefore(events);
      FlowCount(events[..|events| - 1]);
    }
  }

  /** Legal events make a run, so the counters are those of `BytesConserved`. */
  lemma {:induction false} EventsRun(events: seq<Event>) returns (path: seq<State>)
    requires Legal(events)
    ensures Run(path) && path[|path| - 1] == After(events)
  {
    path := [State(0, 0, [])];
    if events != [] {
      var before := events[..|events| - 1];
      LegalBefore(events);
      var earlier := EventsRun(before);
      path := earlier + [After(events)];
      assert Follows(After(before), After(events));
      forall k | 0 <= k < |path| - 1 ensures Follows(path[k], path[k + 1]) {
      }
    }
  }
}
