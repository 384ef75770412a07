/** What a SOCKS5 client can make the server do (src/core/socks5.rs). */
module Socks5Session {
  import opened Wrappers
  import opened Socks5

  // ----- encodings -----

  /** DST.ADDR with its type, section 5 of RFC 1928. */
  function EncodeTarget(t: Target): Bytes
    requires t.Domain? ==> |t.bytes| <= 255
  {
    match t
    case Ipv4(b) => [1] + b
    case Domain(b) => [3, |b|] + b
    case Ipv6(b) => [4] + b
  }

  /** A request, section 4 of RFC 1928. */
  function EncodeRequest(utf8: Utf8, r: Request): Bytes
    requires ValidRequest(utf8, r)
  {
    [5, r.command, 0] + EncodeTarget(r.target) + [r.port / 256, r.port % 256]
  }

  /** The method selection message, section 3 of RFC 1928. */
  function Greeting(methods: Bytes): Bytes
    requires |methods| <= 255
  {
    [5, |methods|] + methods
  }

  /** The username/password request, section 2 of RFC 1929. */
  function Credentials(username: Bytes, password: Bytes): Bytes
    requires |username| <= 255 && |password| <= 255
  {
    [1, |username|] + username + [|password|] + password
  }

  predicate Acceptable(a: Authentication, methods: Bytes) {
    && |methods| <= 255 && (if a.NoAuth? then 0 else 2) in methods
    && (a.UsernamePassword? ==> |a.username| <= 255 && |a.password| <= 255)
  }

  /** Everything a client sends before its request when it authenticates. */
  function Prelude(a: Authentication, methods: Bytes): Bytes
    requires Acceptable(a, methods)
  {
    Greeting(methods) + if a.NoAuth? then [] else Credentials(a.username, a.password)
  }

  // ----- reading -----

  lemma ReadFirst(io: Io, w: Wire, first: Bytes, rest: Bytes)
    requires Lawful(io) && Reliable(io) && w.input == first + rest
    ensures io.read(w, |first|).0 == Some(first)
    ensures io.read(w, |first|).1.input == rest && io.read(w, |first|).1.log == w.log
  {
    var r := io.read(w, |first|);
    assert ReadLaw(w, |first|, r);
    assert w.input[..|first|] == first == r.0.value;
    assert w.input[|first|..] == rest == r.1.input;
  }

  lemma TargetConverse(utf8: Utf8, kind: Byte, w: Wire, io: Io)
    requires Lawful(io) && TargetRead(utf8, kind, w, io).0.Ok?
    ensures var (t, after) := TargetRead(utf8, kind, w, io);
      && ValidTarget(utf8, t.value)
      && [kind] + w.input == EncodeTarget(t.value) + after.input
  {
    var (t, after) := TargetRead(utf8, kind, w, io);
    if kind == ATYP_DOMAIN {
      var (length, w1) := io.read(w, 1);
      assert ReadLaw(w, 1, io.read(w, 1)) && ReadLaw(w1, length.value[0], io.read(w1, length.value[0]));
      assert length.value == [|t.value.bytes|];
      assert [kind] + w.input == [kind, |t.value.bytes|] + t.value.bytes + after.input;
    } else {
      var n := if kind == ATYP_IPV4 then 4 else 16;
      assert ReadLaw(w, n, io.read(w, n));
      assert [kind] + w.input == [kind] + t.value.bytes + after.input;
    }
  }

  lemma TargetForward(utf8: Utf8, t: Target, rest: Bytes, w: Wire, io: Io)
    requires Lawful(io) && Reliable(io) && ValidTarget(utf8, t) && w.input == EncodeTarget(t)[1..] + rest
    ensures var (r, after) := TargetRead(utf8, EncodeTarget(t)[0], w, io);
      r == Ok(t) && after.input == rest && after.log == w.log
  {
    match t
    case Domain(b) =>
      assert w.input == [|b|] + (b + rest);
      ReadFirst(io, w, [|b|], b + rest);
      ReadFirst(io, io.read(w, 1).1, b, rest);
    case Ipv4(b) =>
      assert w.input == b + rest;
      ReadFirst(io, w, b, rest);
    case Ipv6(b) =>
      assert w.input == b + rest;
      ReadFirst(io, w, b, rest);
  }

  lemma PortBytes(port: nat)
    requires 1 <= port <= 65535
    ensures BigEndian([port / 256, port % 256]) == port
  {
  }

  lemma PortDigits(bytes: Bytes)
    requires |bytes| == 2
    ensures BigEndian(bytes) <= 65535 && bytes == [BigEndian(bytes) / 256, BigEndian(bytes) % 256]
  {
    assert BigEndian(bytes) / 256 == bytes[0] && BigEndian(bytes) % 256 == bytes[1];
  }

  /** Every successful parse consumed exactly the encoding of its result, however the stream behaves. */
  lemma ParsedIsEncoded(utf8: Utf8, w: Wire, io: Io)
    requires Lawful(io) && RequestRead(utf8, w, io).0.Ok?
    ensures var (r, after) := RequestRead(utf8, w, io);
      ValidRequest(utf8, r.value) && w.input == EncodeRequest(utf8, r.value) + after.input
  {
    var (r, after) := RequestRead(utf8, w, io);
    var (header, w1) := io.read(w, 4);
    var kind := header.value[3];
    var (target, w2) := TargetRead(utf8, kind, w1, io);
    var (port, w3) := io.read(w2, 2);
    assert ReadLaw(w, 4, io.read(w, 4)) && ReadLaw(w2, 2, io.read(w2, 2));
    TargetConverse(utf8, kind, w1, io);
    PortDigits(port.value);
    assert header.value == [VERSION, r.value.command, 0] + [kind];
    assert w.input == [VERSION, r.value.command, 0] + ([kind] + w1.input);
    assert w.input == [VERSION, r.value.command, 0] + EncodeTarget(target.value) + port.value + w3.input;
  }

  /** CONNECT round trip: parsing an encoded request yields it and leaves exactly the rest. */
  lemma EncodedIsParsed(utf8: Utf8, r: Request, rest: Bytes, w: Wire, io: Io)
    requires Lawful(io) && Reliable(io) && ValidRequest(utf8, r) && w.input == EncodeRequest(utf8, r) + rest
    ensures var (parsed, after) := RequestRead(utf8, w, io);
      parsed == Ok(r) && after.input == rest && after.log == w.log
  {
    var target, port: Bytes := EncodeTarget(r.target), [r.port / 256, r.port % 256];
    var header := [VERSION, r.command, 0, target[0]];
    assert target == [target[0]] + target[1..];
    assert w.input == header + (target[1..] + (port + rest));
    ReadFirst(io, w, header, target[1..] + (port + rest));
    var w1 := io.read(w, 4).1;
    TargetForward(utf8, r.target, port + rest, w1, io);
    ReadFirst(io, TargetRead(utf8, target[0], w1, io).1, port, rest);
    PortBytes(r.port);
  }

  /** No encoding is a proper prefix of another, and encoding loses nothing. */
  lemma EncodingsPrefixFree(utf8: Utf8, r: Request, x: Bytes, s: Request, y: Bytes)
    requires ValidRequest(utf8, r) && ValidRequest(utf8, s)
    requires EncodeRequest(utf8, r) + x == EncodeRequest(utf8, s) + y
    ensures r == s && x == y
  {
    var io := IoOf(_ => Completes);
    CalmIsReliable(_ => Completes);
    var w := Wire(EncodeRequest(utf8, r) + x, [], 0);
    EncodedIsParsed(utf8, r, x, w, io);
    EncodedIsParsed(utf8, s, y, w, io);
  }

  // ----- authentication -----

  lemma CredentialsConverse(a: Authentication, w: Wire, io: Io)
    requires Lawful(io) && a.UsernamePassword? && CredentialsAccepted(a, w, io).0
    ensures |a.username| <= 255 && |a.password| <= 255
    ensures var after := CredentialsAccepted(a, w, io).1;
      && w.input == Credentials(a.username, a.password) + after.input
      && after.log == w.log + [Sent([USER_PASSWORD_VERSION, 0])]
  {
    var after := CredentialsAccepted(a, w, io).1;
    var (header, w1) := io.read(w, 2);
    var (username, w2) := io.read(w1, header.value[1]);
    var (length, w3) := io.read(w2, 1);
    var (password, w4) := io.read(w3, length.value[0]);
    var reply: Bytes := [USER_PASSWORD_VERSION, 0];
    assert ReadLaw(w, 2, io.read(w, 2)) && ReadLaw(w1, header.value[1], io.read(w1, header.value[1]));
    assert ReadLaw(w2, 1, io.read(w2, 1)) && ReadLaw(w3, length.value[0], io.read(w3, length.value[0]));
    assert WriteLaw(w4, reply, io.write(w4, reply));
    assert header.value == [USER_PASSWORD_VERSION, |a.username|] && length.value == [|a.password|];
    assert w.input == header.value + (a.username + (length.value + (a.password + after.input)));
    assert w.input == Credentials(a.username, a.password) + after.input;
  }

  /** A complete credential message is answered with 0 if it holds the configured credentials, and with 1 if not. */
  lemma CredentialsForward(a: Authentication, username: Bytes, password: Bytes, rest: Bytes, w: Wire, io: Io)
    requires Lawful(io) && Reliable(io) && a.UsernamePassword? && |username| <= 255 && |password| <= 255
    requires w.input == Credentials(username, password) + rest
    ensures var (accepted, after) := CredentialsAccepted(a, w, io);
      && accepted == (username == a.username && password == a.password)
      && after.input == rest && after.log == w.log + [Sent([1, if accepted then 0 else 1])]
  {
    var afterLength := password + rest;
    var afterName := [|password|] + afterLength;
    var afterHeader := username + afterName;
    var header: Bytes := [USER_PASSWORD_VERSION, |username|];
    assert w.input == header + afterHeader;
    ReadFirst(io, w, header, afterHeader);
    var w1 := io.read(w, 2).1;
    ReadFirst(io, w1, username, afterName);
    var w2 := io.read(w1, |username|).1;
    ReadFirst(io, w2, [|password|], afterLength);
    var w3 := io.read(w2, 1).1;
    ReadFirst(io, w3, password, rest);
    var w4 := io.read(w3, |password|).1;
    var reply: Bytes := [1, if username == a.username && password == a.password then 0 else 1];
    assert WriteLaw(w4, reply, io.write(w4, reply));
  }

  /** The replies of a successful negotiation, byte by byte. */
  function Welcome(a: Authentication): seq<Event> {
    if a.NoAuth? then [Sent([5, 0])] else [Sent([5, 2]), Sent([1, 0])]
  }

  /** Success means the client sent a greeting offering the method and, when required, exactly the configured credentials. */
  lemma AuthenticatedConverse(a: Authentication, w: Wire, io: Io) returns (methods: Bytes)
    requires Lawful(io) && Authenticated(a, w, io).0
    ensures Acceptable(a, methods)
    ensures var after := Authenticated(a, w, io).1;
      w.input == Prelude(a, methods) + after.input && after.log == w.log + Welcome(a)
  {
    var after := Authenticated(a, w, io).1;
    var (header, w1) := io.read(w, 2);
    var (offered, w2) := io.read(w1, header.value[1]);
    var reply: Bytes := [VERSION, OfferedMethod(a)];
    var w3 := io.write(w2, reply).1;
    assert ReadLaw(w, 2, io.read(w, 2)) && ReadLaw(w1, header.value[1], io.read(w1, header.value[1]));
    assert WriteLaw(w2, reply, io.write(w2, reply));
    methods := offered.value;
    assert header.value == [VERSION, |methods|];
    assert w.input == Greeting(methods) + w2.input;
    if a.UsernamePassword? {
      CredentialsConverse(a, w3, io);
      assert w.input == Greeting(methods) + Credentials(a.username, a.password) + after.input;
    }
  }

  /** After a greeting that offers the method it is selected; any other greeting is refused with 255. */
  lemma GreetingForward(a: Authentication, methods: Bytes, rest: Bytes, w: Wire, io: Io) returns (after: Wire)
    requires Lawful(io) && Reliable(io) && |methods| <= 255 && w.input == Greeting(methods) + rest
    ensures after.input == rest
    ensures (if a.NoAuth? then 0 else 2) !in methods ==>
      Authenticated(a, w, io) == (false, after) && after.log == w.log + [Sent([5, 255])]
    ensures (if a.NoAuth? then 0 else 2) in methods ==>
      && after.log == w.log + [Sent([5, if a.NoAuth? then 0 else 2])]
      && Authenticated(a, w, io) == if a.NoAuth? then (true, after) else CredentialsAccepted(a, after, io)
  {
    var header: Bytes := [VERSION, |methods|];
    assert w.input == header + (methods + rest);
    ReadFirst(io, w, header, methods + rest);
    var w1 := io.read(w, 2).1;
    ReadFirst(io, w1, methods, rest);
    var w2 := io.read(w1, |methods|).1;
    var reply: Bytes := [VERSION, if OfferedMethod(a) in methods then OfferedMethod(a) else NO_ACCEPTABLE_METHOD];
    assert WriteLaw(w2, reply, io.write(w2, reply));
    after := io.write(w2, reply).1;
  }

  lemma AuthenticatedForward(a: Authentication, methods: Bytes, rest: Bytes, w: Wire, io: Io)
    requires Lawful(io) && Reliable(io) && Acceptable(a, methods) && w.input == Prelude(a, methods) + rest
    ensures Authenticated(a, w, io).0 && Authenticated(a, w, io).1.input == rest
    ensures Authenticated(a, w, io).1.log == w.log + Welcome(a)
  {
    var afterGreeting := (if a.NoAuth? then [] else Credentials(a.username, a.password)) + rest;
    assert w.input == Greeting(methods) + afterGreeting;
    var w3 := GreetingForward(a, methods, afterGreeting, w, io);
    if a.UsernamePassword? {
      CredentialsForward(a, a.username, a.password, rest, w3, io);
    }
  }

  // ----- sessions -----

  /** The reply to a request, section 6 of RFC 1928, with an unspecified IPv4 address and port. */
  function ConnectReply(code: Byte): Bytes {
    [5, code, 0, 1, 0, 0, 0, 0, 0, 0]
  }

  predicate Opens(log: seq<Event>, t: Target, port: nat) {
    exists e :: e in log && e.Opened? && e.target == t && e.port == port
  }

  /** What may follow the welcome: a refusal, a failed open, or an open, the Succeeded reply and the relay, in that order. */
  predicate Outcome(tail: seq<Event>) {
    match |tail|
    case 0 => false
    case 1 => tail[0].Sent?
              && (|| tail[0].bytes <= ConnectReply(1) || tail[0].bytes <= ConnectReply(7)
                  || tail[0].bytes <= ConnectReply(8))
    case 2 => tail[0].Opened? && tail[1].Sent? && tail[1].bytes <= ConnectReply(if tail[0].accepted then 0 else 1)
    case 3 => tail[0].Opened? && tail[0].accepted && tail[1] == Sent(ConnectReply(0)) && tail[2].Relaying?
    case _ => false
  }

  /** A negotiation that stopped, possibly in the middle of a reply. */
  predicate Stopped(a: Authentication, log: seq<Event>) {
    match |log|
    case 0 => true
    case 1 => log[0].Sent? && (log[0].bytes <= [5, if a.NoAuth? then 0 else 2] || log[0].bytes <= [5, 255])
    case 2 => && a.UsernamePassword? && log[0] == Sent([5, 2]) && log[1].Sent?
              && (log[1].bytes <= [1, 0] || log[1].bytes <= [1, 1])
    case _ => false
  }

  lemma RequestRefusal(utf8: Utf8, w: Wire, io: Io)
    requires Lawful(io)
    ensures var (r, after) := RequestRead(utf8, w, io);
      after.log == w.log && (r.Err? ==> r.error in {GENERAL_FAILURE, ADDRESS_TYPE_NOT_SUPPORTED})
  {
  }

  lemma WriteLog(w: Wire, bytes: Bytes, io: Io) returns (sent: Bytes)
    requires Lawful(io)
    ensures var (ok, after) := io.write(w, bytes);
      after.input == w.input && after.log == w.log + [Sent(sent)] && sent <= bytes && (ok ==> sent == bytes)
  {
    var r := io.write(w, bytes);
    assert WriteLaw(w, bytes, r);
    sent := r.1.log[|w.log|].bytes;
    assert r.1.log == r.1.log[..|w.log|] + [Sent(sent)];
  }

  /** After authentication: the shape of the events, and what an open proves about the input. */
  lemma ServedLog(utf8: Utf8, opener: Opener, w: Wire, io: Io) returns (tail: seq<Event>)
    requires Lawful(io)
    ensures Served(utf8, opener, w, io).log == w.log + tail && Outcome(tail)
    ensures forall t, port :: Opens(tail, t, port) ==> RequestRead(utf8, w, io).0 == Ok(Request(t, port, 1))
    ensures forall e :: e in tail && e.Relaying? ==> e.leftover == RequestRead(utf8, w, io).1.input
  {
    var (request, w2) := RequestRead(utf8, w, io);
    RequestRefusal(utf8, w, io);
    if request.Err? || request.value.command != CONNECT {
      var sent := WriteLog(w2, Reply(if request.Err? then request.error else COMMAND_NOT_SUPPORTED), io);
      tail := [Sent(sent)];
    } else {
      var accepted := opener(request.value.target, request.value.port);
      var opening := Opened(request.value.target, request.value.port, accepted);
      var w3 := w2.(log := w2.log + [opening]);
      var sent := WriteLog(w3, Reply(if accepted then SUCCEEDED else GENERAL_FAILURE), io);
      tail := [opening, Sent(sent)];
      assert w.log + [opening] + [Sent(sent)] == w.log + tail;
      if accepted && io.write(w3, Reply(SUCCEEDED)).0 {
        tail := tail + [Relaying(w2.input)];
        assert w.log + [opening] + [Sent(sent)] + [Relaying(w2.input)] == w.log + tail;
      }
    }
  }

  lemma CredentialsStopped(a: Authentication, w: Wire, io: Io)
    requires Lawful(io) && a.UsernamePassword? && w.log == [Sent([VERSION, USER_PASSWORD])]
    requires !CredentialsAccepted(a, w, io).0
    ensures Stopped(a, CredentialsAccepted(a, w, io).1.log)
  {
  }

  lemma NegotiationStopped(a: Authentication, w: Wire, io: Io)
    requires Lawful(io) && w.log == [] && !Authenticated(a, w, io).0
    ensures Stopped(a, Authenticated(a, w, io).1.log)
  {
    var (header, w1) := io.read(w, 2);
    if header.Some? && header.value[0] == VERSION {
      var (methods, w2) := io.read(w1, header.value[1]);
      if methods.Some? {
        var offered := OfferedMethod(a) in methods.value;
        var reply: Bytes := [VERSION, if offered then OfferedMethod(a) else NO_ACCEPTABLE_METHOD];
        var sent := WriteLog(w2, reply, io);
        if offered && io.write(w2, reply).0 {
          CredentialsStopped(a, io.write(w2, reply).1, io);
        }
      }
    }
  }

  /** Every session either stops while negotiating or continues the welcome with one outcome. */
  lemma SessionTranscript(utf8: Utf8, a: Authentication, opener: Opener, w: Wire, io: Io)
    requires Lawful(io) && w.log == []
    ensures var log := Session(utf8, a, opener, w, io).log;
      Stopped(a, log) || (Welcome(a) <= log && Outcome(log[|Welcome(a)|..]))
  {
    var (ok, w1) := Authenticated(a, w, io);
    if ok {
      var methods := AuthenticatedConverse(a, w, io);
      var tail := ServedLog(utf8, opener, w1, io);
      assert w1.log == Welcome(a);
      assert (Welcome(a) + tail)[|Welcome(a)|..] == tail;
    } else {
      NegotiationStopped(a, w, io);
    }
  }

  function Output(log: seq<Event>): Bytes {
    if log == [] then [] else (if log[0].Sent? then log[0].bytes else []) + Output(log[1..])
  }

  /** Method reply, credential reply if one is required, connect reply; a refusal is the last one. */
  function Replies(a: Authentication, choice: Byte, verdict: Byte, code: Byte): Bytes {
    [5, choice]
    + if choice == 255 then []
      else if a.NoAuth? then ConnectReply(code)
      else [1, verdict] + if verdict != 0 then [] else ConnectReply(code)
  }

  lemma {:induction false} OutputAppend(x: seq<Event>, y: seq<Event>)
    ensures Output(x + y) == Output(x) + Output(y)
  {
    if x == [] {
      assert x + y == y;
    } else {
      assert (x + y)[1..] == x[1..] + y;
      OutputAppend(x[1..], y);
    }
  }

  lemma OutputOne(e: Event)
    ensures Output([e]) == if e.Sent? then e.bytes else []
  {
    assert [e][1..] == [];
  }

  lemma OutcomeOutput(tail: seq<Event>) returns (code: Byte)
    requires Outcome(tail)
    ensures code in {0, 1, 7, 8}
    ensures Output(tail) <= ConnectReply(code)
  {
    if |tail| == 1 {
      code := if tail[0].bytes <= ConnectReply(1) then 1
              else if tail[0].bytes <= ConnectReply(7) then 7
              else 8;
      OutputOne(tail[0]);
      assert tail == [tail[0]];
    } else {
      code := if tail[0].accepted then 0 else 1;
      OutputOne(tail[0]);
      OutputOne(tail[1]);
      OutputAppend([tail[0]], [tail[1]]);
      if |tail| == 3 {
        OutputOne(tail[2]);
        OutputAppend([tail[0]] + [tail[1]], [tail[2]]);
        assert tail == [tail[0]] + [tail[1]] + [tail[2]];
      } else {
        assert tail == [tail[0]] + [tail[1]];
      }
    }
  }

  lemma StoppedOutput(a: Authentication, log: seq<Event>) returns (choice: Byte, verdict: Byte)
    requires Stopped(a, log)
    ensures choice in {if a.NoAuth? then 0 else 2, 255} && verdict in {0, 1}
    ensures Output(log) <= Replies(a, choice, verdict, 0)
  {
    choice, verdict := OfferedMethod(a), 0;
    if |log| == 1 {
      if !(log[0].bytes <= [5, choice]) {
        choice := 255;
      }
      OutputOne(log[0]);
      assert log == [log[0]];
    } else if |log| == 2 {
      if !(log[1].bytes <= [1, 0]) {
        verdict := 1;
      }
      OutputOne(log[0]);
      OutputOne(log[1]);
      OutputAppend([log[0]], [log[1]]);
      assert log == [log[0]] + [log[1]];
    }
  }

  lemma WelcomeOutput(a: Authentication, code: Byte)
    ensures Output(Welcome(a)) + ConnectReply(code) == Replies(a, OfferedMethod(a), 0, code)
  {
    var chosen, checked := Sent([5, OfferedMethod(a)]), Sent([1, 0]);
    OutputOne(chosen);
    OutputOne(checked);
    OutputAppend([chosen], [checked]);
    assert [chosen] + [] == [chosen];
  }

  lemma TranscriptOutput(a: Authentication, log: seq<Event>) returns (choice: Byte, verdict: Byte, code: Byte)
    requires Stopped(a, log) || (Welcome(a) <= log && Outcome(log[|Welcome(a)|..]))
    ensures choice in {if a.NoAuth? then 0 else 2, 255} && verdict in {0, 1}
    ensures code in {0, 1, 7, 8}
    ensures Output(log) <= Replies(a, choice, verdict, code)
  {
    if Stopped(a, log) {
      choice, verdict := StoppedOutput(a, log);
      code := 0;
    } else {
      var tail := log[|Welcome(a)|..];
      choice, verdict := OfferedMethod(a), 0;
      code := OutcomeOutput(tail);
      assert log == Welcome(a) + tail;
      OutputAppend(Welcome(a), tail);
      WelcomeOutput(a, code);
    }
  }

  /** The bytes written are always a prefix of one sequence of replies, which ends with the first refusal. */
  lemma OutputIsPrefix(utf8: Utf8, a: Authentication, opener: Opener, w: Wire, io: Io)
    returns (choice: Byte, verdict: Byte, code: Byte)
    requires Lawful(io) && w.log == []
    ensures choice in {if a.NoAuth? then 0 else 2, 255} && verdict in {0, 1}
    ensures code in {0, 1, 7, 8}
    ensures Output(Session(utf8, a, opener, w, io).log) <= Replies(a, choice, verdict, code)
  {
    SessionTranscript(utf8, a, opener, w, io);
    choice, verdict, code := TranscriptOutput(a, Session(utf8, a, opener, w, io).log);
  }

  /** The client authenticated and asked to CONNECT to exactly this target; `rest` follows. */
  ghost predicate Asked(utf8: Utf8, a: Authentication, input: Bytes, methods: Bytes, t: Target, port: nat, rest: Bytes) {
    && ValidRequest(utf8, Request(t, port, 1)) && Acceptable(a, methods)
    && input == Prelude(a, methods) + (EncodeRequest(utf8, Request(t, port, 1)) + rest)
  }

  /** Whatever breaks on the way, a channel is opened only for an authenticated client that asked for it, and the relay gets the unread rest. */
  lemma OpensOnlyWhenAsked(utf8: Utf8, a: Authentication, opener: Opener, w: Wire, io: Io, t: Target, port: nat)
    returns (methods: Bytes, rest: Bytes)
    requires Lawful(io) && w.log == [] && Opens(Session(utf8, a, opener, w, io).log, t, port)
    ensures Asked(utf8, a, w.input, methods, t, port, rest)
    ensures forall e :: e in Session(utf8, a, opener, w, io).log && e.Relaying? ==> e.leftover == rest
  {
    var (ok, w1) := Authenticated(a, w, io);
    if !ok {
      NegotiationStopped(a, w, io);
    }
    methods := AuthenticatedConverse(a, w, io);
    var tail := ServedLog(utf8, opener, w1, io);
    assert Opens(tail, t, port);
    ParsedIsEncoded(utf8, w1, io);
    rest := RequestRead(utf8, w1, io).1.input;
  }

  /** After authentication, on a stream that does not break, everything follows from the parsed request. */
  lemma ServedAnswers(utf8: Utf8, opener: Opener, w: Wire, io: Io)
    requires Lawful(io) && Reliable(io)
    ensures var (r, after) := RequestRead(utf8, w, io);
      Served(utf8, opener, w, io).log == w.log +
        if r.Err? then [Sent(ConnectReply(r.error))]
        else if r.value.command != 1 then [Sent(ConnectReply(7))]
        else if opener(r.value.target, r.value.port)
        then [Opened(r.value.target, r.value.port, true), Sent(ConnectReply(0)), Relaying(after.input)]
        else [Opened(r.value.target, r.value.port, false), Sent(ConnectReply(1))]
  {
    var (r, after) := RequestRead(utf8, w, io);
    RequestRefusal(utf8, w, io);
    if r.Err? || r.value.command != 1 {
      var _ := WriteLog(after, ConnectReply(if r.Err? then r.error else 7), io);
    } else {
      var accepted := opener(r.value.target, r.value.port);
      var opening := Opened(r.value.target, r.value.port, accepted);
      var reply := ConnectReply(if accepted then 0 else 1);
      var w3 := after.(log := after.log + [opening]);
      var _ := WriteLog(w3, reply, io);
      assert io.write(w3, reply).0;
      assert w.log + [opening] + [Sent(reply)] == w.log + [opening, Sent(reply)];
      assert w.log + [opening, Sent(reply)] + [Relaying(after.input)] == w.log + [opening, Sent(reply), Relaying(after.input)];
    }
  }

  lemma SessionAnswers(utf8: Utf8, a: Authentication, opener: Opener, w: Wire, io: Io, methods: Bytes, request: Bytes)
    returns (w1: Wire)
    requires Lawful(io) && Reliable(io) && w.log == [] && Acceptable(a, methods) && w.input == Prelude(a, methods) + request
    ensures w1.input == request && w1.log == Welcome(a)
    ensures Session(utf8, a, opener, w, io) == Served(utf8, opener, w1, io)
  {
    AuthenticatedForward(a, methods, request, w, io);
    w1 := Authenticated(a, w, io).1;
  }

  /** On a stream that does not break, an authenticated CONNECT is always attempted and answered as the server decides. */
  lemma OpensWhenAsked(utf8: Utf8, a: Authentication, opener: Opener, w: Wire, io: Io,
                       methods: Bytes, t: Target, port: nat, rest: Bytes)
    requires Lawful(io) && Reliable(io) && w.log == [] && Asked(utf8, a, w.input, methods, t, port, rest)
    ensures Session(utf8, a, opener, w, io).log
         == Welcome(a) + if opener(t, port) then [Opened(t, port, true), Sent([5, 0, 0, 1, 0, 0, 0, 0, 0, 0]), Relaying(rest)]
                         else [Opened(t, port, false), Sent([5, 1, 0, 1, 0, 0, 0, 0, 0, 0])]
  {
    var request := Request(t, port, 1);
    var w1 := SessionAnswers(utf8, a, opener, w, io, methods, EncodeRequest(utf8, request) + rest);
    EncodedIsParsed(utf8, request, rest, w1, io);
    ServedAnswers(utf8, opener, w1, io);
  }

  // ----- refusals, byte by byte -----

  /** No acceptable method: exactly one reply. */
  lemma MethodRefused(utf8: Utf8, a: Authentication, opener: Opener, w: Wire, io: Io, methods: Bytes, rest: Bytes)
    requires Lawful(io) && Reliable(io) && w.log == [] && |methods| <= 255 && w.input == [5, |methods|] + methods + rest
    requires (if a.NoAuth? then 0 else 2) !in methods
    ensures Session(utf8, a, opener, w, io).log == [Sent([5, 255])]
  {
    var _ := GreetingForward(a, methods, rest, w, io);
  }

  /** Any credentials but the configured ones are refused with status 1, and nothing follows. */
  lemma CredentialsRefused(utf8: Utf8, a: Authentication, opener: Opener, w: Wire, io: Io,
                           methods: Bytes, username: Bytes, password: Bytes, rest: Bytes)
    requires Lawful(io) && Reliable(io) && w.log == [] && a.UsernamePassword?
    requires |methods| <= 255 && 2 in methods && |username| <= 255 && |password| <= 255
    requires w.input == [5, |methods|] + methods + ([1, |username|] + username + [|password|] + password + rest)
    requires username != a.username || password != a.password
    ensures Session(utf8, a, opener, w, io).log == [Sent([5, 2]), Sent([1, 1])]
  {
    var afterGreeting := Credentials(username, password) + rest;
    assert w.input == Greeting(methods) + afterGreeting;
    var w3 := GreetingForward(a, methods, afterGreeting, w, io);
    CredentialsForward(a, username, password, rest, w3, io);
  }

  /** A message of another version is not answered at all. */
  lemma VersionRefused(utf8: Utf8, a: Authentication, opener: Opener, w: Wire, io: Io)
    requires Lawful(io) && Reliable(io) && w.log == [] && |w.input| >= 2 && w.input[0] != 5
    ensures Session(utf8, a, opener, w, io).log == []
  {
    assert w.input == w.input[..2] + w.input[2..];
    ReadFirst(io, w, w.input[..2], w.input[2..]);
  }

  lemma CredentialVersionRefused(utf8: Utf8, a: Authentication, opener: Opener, w: Wire, io: Io, methods: Bytes, rest: Bytes)
    requires Lawful(io) && Reliable(io) && w.log == [] && a.UsernamePassword? && |methods| <= 255 && 2 in methods
    requires w.input == [5, |methods|] + methods + rest && |rest| >= 2 && rest[0] != 1
    ensures Session(utf8, a, opener, w, io).log == [Sent([5, 2])]
  {
    var w3 := GreetingForward(a, methods, rest, w, io);
    assert rest == rest[..2] + rest[2..];
    ReadFirst(io, w3, rest[..2], rest[2..]);
  }

  /** A well-formed request header whose address type is none of the three. */
  predicate OtherAddressType(request: Bytes) {
    |request| >= 4 && request[0] == 5 && request[2] == 0 && request[3] !in {1, 3, 4}
  }

  ghost predicate Encodes(utf8: Utf8, input: Bytes, r: Request, rest: Bytes) {
    ValidRequest(utf8, r) && input == EncodeRequest(utf8, r) + rest
  }

  lemma RequestCodes(utf8: Utf8, w: Wire, io: Io)
    requires Lawful(io) && Reliable(io)
    ensures var r := RequestRead(utf8, w, io).0;
      && (OtherAddressType(w.input) ==> r == Err(8))
      && (r.Err? && !OtherAddressType(w.input) ==> r == Err(1))
  {
    var r := io.read(w, 4);
    assert ReadLaw(w, 4, r);
    if r.0.Some? {
      assert w.input[..4] == r.0.value;
    }
  }

  /**
   What an authenticated client gets for whatever it sends, other than a
   CONNECT: code 7 for a request with another command, 8 for another address
   type, and 1 for everything that is not the beginning of any request.
   */
  lemma RequestRefused(utf8: Utf8, a: Authentication, opener: Opener, w: Wire, io: Io, methods: Bytes, request: Bytes)
    requires Lawful(io) && Reliable(io) && w.log == [] && Acceptable(a, methods) && w.input == Prelude(a, methods) + request
    ensures var log := Session(utf8, a, opener, w, io).log;
      && (forall r, rest :: Encodes(utf8, request, r, rest) && r.command != 1 ==>
            log == Welcome(a) + [Sent([5, 7, 0, 1, 0, 0, 0, 0, 0, 0])])
      && (OtherAddressType(request) ==> log == Welcome(a) + [Sent([5, 8, 0, 1, 0, 0, 0, 0, 0, 0])])
      && (!OtherAddressType(request) && (forall r, rest :: !Encodes(utf8, request, r, rest)) ==>
            log == Welcome(a) + [Sent([5, 1, 0, 1, 0, 0, 0, 0, 0, 0])])
  {
    var w1 := SessionAnswers(utf8, a, opener, w, io, methods, request);
    ServedAnswers(utf8, opener, w1, io);
    RequestCodes(utf8, w1, io);
    var (parsed, after) := RequestRead(utf8, w1, io);
    if parsed.Ok? {
      ParsedIsEncoded(utf8, w1, io);
      assert Encodes(utf8, request, parsed.value, after.input);
    }
    forall r, rest | Encodes(utf8, request, r, rest) ensures parsed == Ok(r) {
      EncodedIsParsed(utf8, r, rest, w1, io);
    }
  }

  const MAX_GREETING := 257
  const MAX_CREDENTIALS := 513
  const MAX_REQUEST := 262

  lemma CredentialsBounded(a: Authentication, w: Wire, io: Io)
    requires Lawful(io) && a.UsernamePassword?
    ensures |w.input| - MAX_CREDENTIALS <= |CredentialsAccepted(a, w, io).1.input|
  {
    var (header, w1) := io.read(w, 2);
    assert ReadLaw(w, 2, io.read(w, 2));
    if header.Some? && header.value[0] == USER_PASSWORD_VERSION {
      var (username, w2) := io.read(w1, header.value[1]);
      assert ReadLaw(w1, header.value[1], io.read(w1, header.value[1]));
      if username.Some? {
        var (length, w3) := io.read(w2, 1);
        assert ReadLaw(w2, 1, io.read(w2, 1));
        if length.Some? {
          var (password, w4) := io.read(w3, length.value[0]);
          assert ReadLaw(w3, length.value[0], io.read(w3, length.value[0]));
        }
      }
    }
  }

  lemma AuthenticatedBounded(a: Authentication, w: Wire, io: Io)
    requires Lawful(io)
    ensures |w.input| - MAX_GREETING - MAX_CREDENTIALS <= |Authenticated(a, w, io).1.input|
  {
    var (header, w1) := io.read(w, 2);
    assert ReadLaw(w, 2, io.read(w, 2));
    if header.Some? && header.value[0] == VERSION {
      var (methods, w2) := io.read(w1, header.value[1]);
      assert ReadLaw(w1, header.value[1], io.read(w1, header.value[1]));
      if methods.Some? && OfferedMethod(a) in methods.value {
        var (selected, w3) := io.write(w2, [VERSION, OfferedMethod(a)]);
        if selected && a.UsernamePassword? {
          CredentialsBounded(a, w3, io);
        }
      }
    }
  }

  lemma TargetBounded(utf8: Utf8, kind: Byte, w: Wire, io: Io)
    requires Lawful(io)
    ensures |w.input| - 256 <= |TargetRead(utf8, kind, w, io).1.input|
  {
    if kind == ATYP_DOMAIN {
      var (length, w1) := io.read(w, 1);
      assert ReadLaw(w, 1, io.read(w, 1));
      if length.Some? && length.value[0] != 0 {
        assert ReadLaw(w1, length.value[0], io.read(w1, length.value[0]));
      }
    }
  }

  lemma RequestBounded(utf8: Utf8, w: Wire, io: Io)
    requires Lawful(io)
    ensures |w.input| - MAX_REQUEST <= |RequestRead(utf8, w, io).1.input|
  {
    var (header, w1) := io.read(w, 4);
    assert ReadLaw(w, 4, io.read(w, 4));
    if header.Some? {
      TargetBounded(utf8, header.value[3], w1, io);
    }
  }

  /** The handshake never consumes more than the longest greeting, credentials and request: 1032 bytes. */
  lemma HandshakeBounded(utf8: Utf8, a: Authentication, opener: Opener, w: Wire, io: Io)
    requires Lawful(io)
    ensures |w.input| - 1032 <= |Session(utf8, a, opener, w, io).input|
  {
    var (ok, w1) := Authenticated(a, w, io);
    AuthenticatedBounded(a, w, io);
    RequestBounded(utf8, w1, io);
  }
}
