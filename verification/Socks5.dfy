/**
 The server side of SOCKS5 (src/core/socks5.rs): sections 3, 4 and 6 of RFC 1928
 and section 2 of RFC 1929.
 */
module Socks5 {
  import opened Wrappers

  type Byte = n: int | 0 <= n < 256 witness 0

  type Bytes = seq<Byte>

  const VERSION: Byte := 5
  const NO_AUTH: Byte := 0
  const USER_PASSWORD: Byte := 2
  const NO_ACCEPTABLE_METHOD: Byte := 0xff
  const USER_PASSWORD_VERSION: Byte := 1
  const CONNECT: Byte := 1
  const ATYP_IPV4: Byte := 1
  const ATYP_DOMAIN: Byte := 3
  const ATYP_IPV6: Byte := 4

  const SUCCEEDED: Byte := 0
  const GENERAL_FAILURE: Byte := 1
  const COMMAND_NOT_SUPPORTED: Byte := 7
  const ADDRESS_TYPE_NOT_SUPPORTED: Byte := 8

  datatype Authentication = NoAuth | UsernamePassword(username: Bytes, password: Bytes)

  /** Targets keep their bytes; rendering an address as text is left to the standard library. */
  datatype Target = Ipv4(bytes: Bytes) | Domain(bytes: Bytes) | Ipv6(bytes: Bytes)

  datatype Request = Request(target: Target, port: nat, command: Byte)

  type Utf8 = Bytes -> bool

  predicate ValidTarget(utf8: Utf8, t: Target) {
    match t
    case Ipv4(b) => |b| == 4
    case Domain(b) => 1 <= |b| <= 255 && utf8(b)
    case Ipv6(b) => |b| == 16
  }

  predicate ValidRequest(utf8: Utf8, r: Request) {
    ValidTarget(utf8, r.target) && 1 <= r.port <= 65535
  }

  // ----- the wire -----

  /** What one read or write meets: it completes, or it breaks after some bytes (timeout, cancellation, I/O error). */
  datatype Luck = Completes | Breaks(after: nat)

  /** The luck of the n-th operation on a connection. */
  type Fate = nat -> Luck

  datatype Event =
    | Sent(bytes: Bytes)
    | Opened(target: Target, port: nat, accepted: bool)
    | Relaying(leftover: Bytes)

  /** One client connection: bytes still to come, what happened so far, operations done. */
  datatype Wire = Wire(input: Bytes, log: seq<Event>, operations: nat)

  function Least(a: nat, b: nat): (m: nat)
    ensures m <= a && m <= b && (m == a || m == b)
  {
    if a <= b then a else b
  }

  /** How many bytes an operation moves when `available` are there and it wants `wanted`. */
  function Moved(luck: Luck, wanted: nat): (n: nat)
    ensures n <= wanted
  {
    match luck
    case Completes => wanted
    case Breaks(after) => Least(after, wanted)
  }

  /** A read takes at most `n` bytes off the input, and exactly the first `n` when it succeeds. */
  ghost predicate ReadLaw(w: Wire, n: nat, r: (Option<Bytes>, Wire)) {
    && r.1.log == w.log
    && |w.input| - n <= |r.1.input| <= |w.input|
    && (r.0.Some? ==> |r.0.value| == n && w.input == r.0.value + r.1.input)
  }

  /** A write leaves the input alone and sends a prefix, the whole when it succeeds. */
  ghost predicate WriteLaw(w: Wire, bytes: Bytes, r: (bool, Wire)) {
    && r.1.input == w.input
    && |r.1.log| == |w.log| + 1 && r.1.log[..|w.log|] == w.log
    && r.1.log[|w.log|].Sent? && r.1.log[|w.log|].bytes <= bytes
    && (r.0 ==> r.1.log == w.log + [Sent(bytes)])
  }

  /** `read_exact`: all `n` bytes, or nothing usable when the stream ends or the operation breaks. */
  function Read(w: Wire, fate: Fate, n: nat): (r: (Option<Bytes>, Wire))
    ensures ReadLaw(w, n, r)
  {
    var luck := fate(w.operations);
    var taken := Least(Moved(luck, n), |w.input|);
    (if luck.Completes? && n <= |w.input| then Some(w.input[..n]) else None,
     Wire(w.input[taken..], w.log, w.operations + 1))
  }

  function Write(w: Wire, fate: Fate, bytes: Bytes): (r: (bool, Wire))
    ensures WriteLaw(w, bytes, r)
  {
    var luck := fate(w.operations);
    assert bytes[..|bytes|] == bytes;
    (luck.Completes?, Wire(w.input, w.log + [Sent(bytes[..Moved(luck, |bytes|)])], w.operations + 1))
  }

  /** How a connection reads and writes. */
  datatype Io = Io(read: (Wire, nat) -> (Option<Bytes>, Wire), write: (Wire, Bytes) -> (bool, Wire))

  function IoOf(fate: Fate): (io: Io)
    ensures Lawful(io)
  {
    Io((w, n) => Read(w, fate, n), (w, bytes) => Write(w, fate, bytes))
  }

  ghost predicate Lawful(io: Io) {
    && (forall w, n :: ReadLaw(w, n, io.read(w, n)))
    && (forall w, bytes :: WriteLaw(w, bytes, io.write(w, bytes)))
  }

  /** No operation breaks and the stream ends only where its input does. */
  ghost predicate Reliable(io: Io) {
    && (forall w: Wire, n: nat :: n <= |w.input| ==> io.read(w, n).0.Some?)
    && (forall w, bytes :: io.write(w, bytes).0)
  }

  lemma CalmIsReliable(fate: Fate)
    requires forall n :: fate(n) == Completes
    ensures Reliable(IoOf(fate))
  {
  }

  // ----- specification of the handshake -----

  function OfferedMethod(a: Authentication): Byte {
    if a.NoAuth? then NO_AUTH else USER_PASSWORD
  }

  function Authenticated(a: Authentication, w0: Wire, io: Io): (bool, Wire)
    requires Lawful(io)
  {
    var (header, w1) := io.read(w0, 2);
    if header.None? || header.value[0] != VERSION then (false, w1) else
    var (methods, w2) := io.read(w1, header.value[1]);
    if methods.None? then (false, w2) else
    if OfferedMethod(a) !in methods.value then (false, io.write(w2, [VERSION, NO_ACCEPTABLE_METHOD]).1) else
    var (selected, w3) := io.write(w2, [VERSION, OfferedMethod(a)]);
    if !selected || a.NoAuth? then (selected, w3) else CredentialsAccepted(a, w3, io)
  }

  function CredentialsAccepted(a: Authentication, w0: Wire, io: Io): (bool, Wire)
    requires Lawful(io) && a.UsernamePassword?
  {
    var (header, w1) := io.read(w0, 2);
    if header.None? || header.value[0] != USER_PASSWORD_VERSION then (false, w1) else
    var (username, w2) := io.read(w1, header.value[1]);
    if username.None? then (false, w2) else
    var (length, w3) := io.read(w2, 1);
    if length.None? then (false, w3) else
    var (password, w4) := io.read(w3, length.value[0]);
    if password.None? then (false, w4) else
    var accepted := username.value == a.username && password.value == a.password;
    var (written, w5) := io.write(w4, [USER_PASSWORD_VERSION, if accepted then 0 else 1]);
    (written && accepted, w5)
  }

  /** The parsed request, or the code of the reply that refuses it. */
  type Parsed = Result<Request, Byte>

  function RequestRead(utf8: Utf8, w0: Wire, io: Io): (Parsed, Wire)
    requires Lawful(io)
  {
    var (header, w1) := io.read(w0, 4);
    if header.None? || header.value[0] != VERSION || header.value[2] != 0 then (Err(GENERAL_FAILURE), w1) else
    var (target, w2) := TargetRead(utf8, header.value[3], w1, io);
    if target.Err? then (Err(target.error), w2) else
    var (port, w3) := io.read(w2, 2);
    if port.None? then (Err(GENERAL_FAILURE), w3) else
    var number := BigEndian(port.value);
    if number == 0 then (Err(GENERAL_FAILURE), w3) else
    (Ok(Request(target.value, number, header.value[1])), w3)
  }

  function BigEndian(bytes: Bytes): nat
    requires |bytes| == 2
  {
    bytes[0] as int * 256 + bytes[1] as int
  }

  function TargetRead(utf8: Utf8, kind: Byte, w0: Wire, io: Io): (Result<Target, Byte>, Wire)
    requires Lawful(io)
  {
    if kind == ATYP_IPV4 then
      var (bytes, w1) := io.read(w0, 4);
      (if bytes.Some? then Ok(Ipv4(bytes.value)) else Err(GENERAL_FAILURE), w1)
    else if kind == ATYP_DOMAIN then
      var (length, w1) := io.read(w0, 1);
      if length.None? || length.value[0] == 0 then (Err(GENERAL_FAILURE), w1) else
      var (bytes, w2) := io.read(w1, length.value[0]);
      (if bytes.Some? && utf8(bytes.value) then Ok(Domain(bytes.value)) else Err(GENERAL_FAILURE), w2)
    else if kind == ATYP_IPV6 then
      var (bytes, w1) := io.read(w0, 16);
      (if bytes.Some? then Ok(Ipv6(bytes.value)) else Err(GENERAL_FAILURE), w1)
    else
      (Err(ADDRESS_TYPE_NOT_SUPPORTED), w0)
  }

  function Reply(code: Byte): Bytes {
    [VERSION, code, 0, ATYP_IPV4, 0, 0, 0, 0, 0, 0]
  }

  /** Whether the SSH server accepts a direct-tcpip channel. */
  type Opener = (Target, nat) -> bool

  /** The part of a session after authentication. */
  function Served(utf8: Utf8, opener: Opener, w1: Wire, io: Io): Wire
    requires Lawful(io)
  {
    var (request, w2) := RequestRead(utf8, w1, io);
    if request.Err? then io.write(w2, Reply(request.error)).1 else
    if request.value.command != CONNECT then io.write(w2, Reply(COMMAND_NOT_SUPPORTED)).1 else
    var accepted := opener(request.value.target, request.value.port);
    var w3 := w2.(log := w2.log + [Opened(request.value.target, request.value.port, accepted)]);
    if !accepted then io.write(w3, Reply(GENERAL_FAILURE)).1 else
    var (written, w4) := io.write(w3, Reply(SUCCEEDED));
    if !written then w4 else w4.(log := w4.log + [Relaying(w4.input)])
  }

  function Session(utf8: Utf8, a: Authentication, opener: Opener, w0: Wire, io: Io): Wire
    requires Lawful(io)
  {
    var (authenticated, w1) := Authenticated(a, w0, io);
    if authenticated then Served(utf8, opener, w1, io) else w1
  }

  // ----- the code, over a stream that delivers fragments -----

  function Joined(chunks: seq<Bytes>): Bytes {
    if chunks == [] then [] else chunks[0] + Joined(chunks[1..])
  }

  /** The fragments left after taking some bytes of the first. */
  function Rest(chunks: seq<Bytes>, taken: nat): seq<Bytes>
    requires chunks != [] && taken <= |chunks[0]|
  {
    if taken == |chunks[0]| then chunks[1..] else [chunks[0][taken..]] + chunks[1..]
  }

  lemma PollKeepsBytes(buffer: Bytes, chunks: seq<Bytes>, taken: nat)
    requires chunks != [] && taken <= |chunks[0]| && forall c :: c in chunks ==> c != []
    ensures buffer + chunks[0][..taken] + Joined(Rest(chunks, taken)) == buffer + Joined(chunks)
    ensures forall c :: c in Rest(chunks, taken) ==> c != []
  {
    var chunk, rest := chunks[0], Rest(chunks, taken);
    assert chunk == chunk[..taken] + chunk[taken..];
    if taken < |chunk| {
      assert rest[0] == chunk[taken..] && rest[1..] == chunks[1..];
    }
    assert forall c :: c in chunks[1..] ==> c in chunks;
  }

  class ClientStream {
    /** Fragments in delivery order, none empty; the stream ends after the last. */
    var chunks: seq<Bytes>
    var log: seq<Event>
    var operations: nat
    const fate: Fate
    /** How `read_exact` and `write_all` behave on this stream. */
    ghost const io: Io := IoOf(fate)

    ghost predicate Valid()
      reads this
    {
      forall c :: c in chunks ==> c != []
    }

    ghost function View(): Wire
      reads this
    {
      Wire(Joined(chunks), log, operations)
    }

    constructor (chunks: seq<Bytes>, fate: Fate)
      requires forall c :: c in chunks ==> c != []
      ensures Valid() && View() == Wire(Joined(chunks), [], 0) && this.fate == fate
    {
      this.chunks, this.log, this.operations, this.fate := chunks, [], 0, fate;
    }

    /** Each turn of the loop is one poll: it takes what the current fragment has, up to what is missing. */
    method ReadExact(n: nat) returns (r: Option<Bytes>)
      requires Valid()
      modifies this
      ensures Valid() && (r, View()) == io.read(old(View()), n)
    {
      var luck := fate(operations);
      operations := operations + 1;
      var limit := Moved(luck, n);
      var buffer: Bytes := [];
      ghost var input := Joined(chunks);
      while |buffer| < limit && chunks != []
        invariant Valid() && |buffer| <= limit && buffer + Joined(chunks) == input
        invariant log == old(log) && operations == old(operations) + 1
        decreases |chunks|, if chunks != [] then |chunks[0]| else 0
      {
        var taken := Least(limit - |buffer|, |chunks[0]|);
        PollKeepsBytes(buffer, chunks, taken);
        buffer := buffer + chunks[0][..taken];
        chunks := Rest(chunks, taken);
      }
      assert chunks == [] ==> Joined(chunks) == [];
      assert |buffer| == Least(limit, |input|);
      assert buffer == input[..|buffer|] && Joined(chunks) == input[|buffer|..];
      return if luck.Completes? && |buffer| == n then Some(buffer) else None;
    }

    method WriteAll(bytes: Bytes) returns (ok: bool)
      requires Valid()
      modifies this
      ensures Valid() && (ok, View()) == io.write(old(View()), bytes)
    {
      var luck := fate(operations);
      operations := operations + 1;
      log := log + [Sent(bytes[..Moved(luck, |bytes|)])];
      return luck.Completes?;
    }
  }

  method Authenticate(stream: ClientStream, a: Authentication) returns (ok: bool)
    requires stream.Valid()
    modifies stream
    ensures stream.Valid() && (ok, stream.View()) == Authenticated(a, old(stream.View()), stream.io)
  {
    var header := stream.ReadExact(2);
    if header.None? || header.value[0] != VERSION {
      return false;
    }
    var methods := stream.ReadExact(header.value[1]);
    if methods.None? {
      return false;
    }
    match a
    case NoAuth =>
      if NO_AUTH !in methods.value {
        var _ := stream.WriteAll([VERSION, NO_ACCEPTABLE_METHOD]);
        return false;
      }
      ok := stream.WriteAll([VERSION, NO_AUTH]);
    case UsernamePassword(_, _) =>
      if USER_PASSWORD !in methods.value {
        var _ := stream.WriteAll([VERSION, NO_ACCEPTABLE_METHOD]);
        return false;
      }
      var selected := stream.WriteAll([VERSION, USER_PASSWORD]);
      if !selected {
        return false;
      }
      ok := CheckCredentials(stream, a);
  }

  /** The username/password sub-negotiation of `authenticate`. */
  method CheckCredentials(stream: ClientStream, a: Authentication) returns (ok: bool)
    requires stream.Valid() && a.UsernamePassword?
    modifies stream
    ensures stream.Valid() && (ok, stream.View()) == CredentialsAccepted(a, old(stream.View()), stream.io)
  {
    var authHeader := stream.ReadExact(2);
    if authHeader.None? || authHeader.value[0] != USER_PASSWORD_VERSION {
      return false;
    }
    var receivedUsername := stream.ReadExact(authHeader.value[1]);
    if receivedUsername.None? {
      return false;
    }
    var passwordLength := stream.ReadExact(1);
    if passwordLength.None? {
      return false;
    }
    var receivedPassword := stream.ReadExact(passwordLength.value[0]);
    if receivedPassword.None? {
      return false;
    }
    var accepted := receivedUsername.value == a.username && receivedPassword.value == a.password;
    var written := stream.WriteAll([USER_PASSWORD_VERSION, if accepted then 0 else 1]);
    ok := written && accepted;
  }

  /** The address part of `read_connect_request`. */
  method ReadTarget(utf8: Utf8, stream: ClientStream, kind: Byte) returns (r: Result<Target, Byte>)
    requires stream.Valid()
    modifies stream
    ensures stream.Valid() && (r, stream.View()) == TargetRead(utf8, kind, old(stream.View()), stream.io)
  {
    if kind == ATYP_IPV4 {
      var bytes := stream.ReadExact(4);
      return if bytes.Some? then Ok(Ipv4(bytes.value)) else Err(GENERAL_FAILURE);
    } else if kind == ATYP_DOMAIN {
      var length := stream.ReadExact(1);
      if length.None? || length.value[0] == 0 {
        return Err(GENERAL_FAILURE);
      }
      var bytes := stream.ReadExact(length.value[0]);
      return if bytes.Some? && utf8(bytes.value) then Ok(Domain(bytes.value)) else Err(GENERAL_FAILURE);
    } else if kind == ATYP_IPV6 {
      var bytes := stream.ReadExact(16);
      return if bytes.Some? then Ok(Ipv6(bytes.value)) else Err(GENERAL_FAILURE);
    } else {
      return Err(ADDRESS_TYPE_NOT_SUPPORTED);
    }
  }

  method ReadConnectRequest(utf8: Utf8, stream: ClientStream) returns (r: Parsed)
    requires stream.Valid()
    modifies stream
    ensures stream.Valid() && (r, stream.View()) == RequestRead(utf8, old(stream.View()), stream.io)
  {
    var header := stream.ReadExact(4);
    if header.None? || header.value[0] != VERSION || header.value[2] != 0 {
      return Err(GENERAL_FAILURE);
    }
    var target := ReadTarget(utf8, stream, header.value[3]);
    if target.Err? {
      return Err(target.error);
    }
    var port := stream.ReadExact(2);
    if port.None? {
      return Err(GENERAL_FAILURE);
    }
    var number := BigEndian(port.value);
    if number == 0 {
      return Err(GENERAL_FAILURE);
    }
    return Ok(Request(target.value, number, header.value[1]));
  }

  /** The outcome depends on the bytes the client sends, not on how they are cut into fragments. */
  method HandleConnection(utf8: Utf8, stream: ClientStream, a: Authentication, opener: Opener)
    requires stream.Valid()
    modifies stream
    ensures stream.Valid() && stream.View() == Session(utf8, a, opener, old(stream.View()), stream.io)
  {
    var authenticated := Authenticate(stream, a);
    if !authenticated {
      return;
    }
    var request := ReadConnectRequest(utf8, stream);
    if request.Err? {
      var _ := stream.WriteAll(Reply(request.error));
      return;
    }
    if request.value.command != CONNECT {
      var _ := stream.WriteAll(Reply(COMMAND_NOT_SUPPORTED));
      return;
    }
    var accepted := opener(request.value.target, request.value.port);
    stream.log := stream.log + [Opened(request.value.target, request.value.port, accepted)];
    if !accepted {
      var _ := stream.WriteAll(Reply(GENERAL_FAILURE));
      return;
    }
    var written := stream.WriteAll(Reply(SUCCEEDED));
    if written {
      stream.log := stream.log + [Relaying(Joined(stream.chunks))];
    }
  }
}
