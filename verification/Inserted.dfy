/**
 A store built by `insert` and `insert_key` behaves as a map from endpoints to
 fingerprints (src/core/host_key.rs, KnownHostKeyVerifier).
 */
module Inserted {
  import opened Wrappers
  import opened HostPattern
  import opened HostKeys
  import opened Trust

  datatype Insertion = Insertion(host: string, port: nat, fingerprint: string, publicKey: string) {
    function Token(): string {
      HostToken(host, port)
    }
  }

  /** The entries after a sequence of insertions into an empty store, each as `Insert` and `InsertKey` ensure. */
  function Built(ops: seq<Insertion>): seq<Entry> {
    if ops == [] then [] else
      var op := ops[|ops| - 1];
      Retained(Built(ops[..|ops| - 1]), op.Token()) + [Entry(op.Token(), Unmarked, op.fingerprint, op.publicKey, 0)]
  }

  function TokenMap(ops: seq<Insertion>): map<string, string> {
    if ops == [] then map[] else
      var op := ops[|ops| - 1];
      TokenMap(ops[..|ops| - 1])[op.Token() := op.fingerprint]
  }

  function EndpointMap(ops: seq<Insertion>): map<(string, nat), string> {
    if ops == [] then map[] else
      var op := ops[|ops| - 1];
      EndpointMap(ops[..|ops| - 1])[(StripBrackets(op.host), op.port) := op.fingerprint]
  }

  lemma {:induction false} BuiltRefinesTokenMap(ops: seq<Insertion>, token: string)
    ensures var entries, m := Built(ops), TokenMap(ops);
      && (forall e :: e in entries ==> e.marker == Unmarked && e.hostPatterns in m && m[e.hostPatterns] == e.fingerprint)
      && (token in m <==> exists e :: e in entries && e.hostPatterns == token)
    decreases |ops|
  {
    if ops != [] {
      var before, op := ops[..|ops| - 1], ops[|ops| - 1];
      BuiltRefinesTokenMap(before, token);
      var added := Entry(op.Token(), Unmarked, op.fingerprint, op.publicKey, 0);
      assert forall e :: e in Built(ops) <==> e in Retained(Built(before), op.Token()) || e == added;
      if token in TokenMap(before) && token != op.Token() {
        var e :| e in Built(before) && e.hostPatterns == token;
        assert e in Built(ops);
      }
    }
  }

  lemma {:induction false} RecordedRetained(entries: seq<Entry>, gone: string, token: string)
    ensures Recorded(Retained(entries, gone), token) == if gone == token then 0 else Recorded(entries, token)
  {
    if entries != [] {
      var first, kept := [entries[0]], Retained(entries[1..], gone);
      RecordedRetained(entries[1..], gone, token);
      RecordedAppend(first, entries[1..], token);
      RecordedAppend(first, kept, token);
      assert entries == first + entries[1..];
      assert Retained(entries, gone) == if Survives(entries[0], gone) then first + kept else kept;
      assert first[..0] == [];
    }
  }

  lemma {:induction false} RecordedAppend(a: seq<Entry>, b: seq<Entry>, token: string)
    ensures Recorded(a + b, token) == Recorded(a, token) + Recorded(b, token)
    decreases |b|
  {
    if b == [] {
      assert a + b == a;
    } else {
      assert (a + b)[..|a + b| - 1] == a + b[..|b| - 1];
      RecordedAppend(a, b[..|b| - 1], token);
    }
  }

  /** Replacement keeps at most one unmarked entry per token. */
  lemma {:induction false} AtMostOneEntry(ops: seq<Insertion>, token: string)
    ensures Recorded(Built(ops), token) == if token in TokenMap(ops) then 1 else 0
    decreases |ops|
  {
    if ops != [] {
      var before, op := ops[..|ops| - 1], ops[|ops| - 1];
      AtMostOneEntry(before, token);
      RecordedRetained(Built(before), op.Token(), token);
      assert Built(ops)[..|Built(ops)| - 1] == Retained(Built(before), op.Token());
    }
  }

  ghost function Lookup<K>(m: map<K, string>, key: K, fingerprint: string): Decision {
    if key !in m then Unknown else if m[key] == fingerprint then Trusted else Changed
  }

  ghost predicate PlainHosts(ops: seq<Insertion>) {
    forall op :: op in ops ==> Pinnable(op.Token())
  }

  lemma {:induction false} BuiltTokens(ops: seq<Insertion>)
    requires PlainHosts(ops)
    ensures forall e :: e in Built(ops) ==> Pinnable(e.hostPatterns)
    decreases |ops|
  {
    if ops != [] {
      BuiltTokens(ops[..|ops| - 1]);
    }
  }

  lemma BuiltEntry(mac: Mac, ops: seq<Insertion>, e: Entry, candidate: string, fingerprint: string)
    requires PlainHosts(ops) && e in Built(ops)
    ensures !Revokes(mac, e, candidate, fingerprint)
    ensures Trusts(mac, e, candidate, fingerprint) <==> e.hostPatterns == candidate && e.fingerprint == fingerprint
    ensures Constrains(mac, e, candidate) <==> e.hostPatterns == candidate
    ensures e.hostPatterns in TokenMap(ops) && TokenMap(ops)[e.hostPatterns] == e.fingerprint
  {
    BuiltTokens(ops);
    BuiltRefinesTokenMap(ops, candidate);
    PlainMatches(mac, e.hostPatterns, candidate);
  }

  /** On plain hosts every candidate is decided by map lookup of its token. */
  lemma CheckIsLookup(mac: Mac, ops: seq<Insertion>, candidate: string, fingerprint: string)
    requires PlainHosts(ops)
    ensures Decide(mac, Built(ops), candidate, fingerprint) == Lookup(TokenMap(ops), candidate, fingerprint)
  {
    SeenDecides(mac, Built(ops), candidate, fingerprint);
    SeenAre(mac, Built(ops), candidate, fingerprint);
    if e :| e in Built(ops) && Revokes(mac, e, candidate, fingerprint) {
      BuiltEntry(mac, ops, e, candidate, fingerprint);
    }
    if e :| e in Built(ops) && Trusts(mac, e, candidate, fingerprint) {
      BuiltEntry(mac, ops, e, candidate, fingerprint);
    }
    if e :| e in Built(ops) && Constrains(mac, e, candidate) {
      BuiltEntry(mac, ops, e, candidate, fingerprint);
    }
    BuiltRefinesTokenMap(ops, candidate);
    if candidate in TokenMap(ops) {
      var e :| e in Built(ops) && e.hostPatterns == candidate;
      BuiltEntry(mac, ops, e, candidate, fingerprint);
    }
  }

  lemma {:induction false} FirstTrustedFound(mac: Mac, entries: seq<Entry>, candidate: string)
    ensures match FirstTrusted(mac, entries, candidate)
      case Some(f) => exists e :: e in entries && Trusts(mac, e, candidate, f)
      case None => forall e :: e in entries && e.marker == Unmarked ==> !PatternsMatch(mac, e.hostPatterns, candidate)
  {
    if entries != [] {
      var first := entries[0];
      if first.marker == Unmarked && PatternsMatch(mac, first.hostPatterns, candidate) {
        assert first in entries && Trusts(mac, first, candidate, first.fingerprint);
      } else {
        FirstTrustedFound(mac, entries[1..], candidate);
        assert forall e :: e in entries <==> e == first || e in entries[1..];
      }
    }
  }

  /** `expected_fingerprint` is the same lookup. */
  lemma ExpectedIsLookup(mac: Mac, ops: seq<Insertion>, candidate: string)
    requires PlainHosts(ops)
    ensures FirstTrusted(mac, Built(ops), candidate)
         == if candidate in TokenMap(ops) then Some(TokenMap(ops)[candidate]) else None
  {
    BuiltTokens(ops);
    BuiltRefinesTokenMap(ops, candidate);
    FirstTrustedFound(mac, Built(ops), candidate);
    match FirstTrusted(mac, Built(ops), candidate)
    case Some(f) =>
      var e :| e in Built(ops) && Trusts(mac, e, candidate, f);
      BuiltEntry(mac, ops, e, candidate, f);
    case None =>
      if candidate in TokenMap(ops) {
        var e :| e in Built(ops) && e.hostPatterns == candidate;
        BuiltEntry(mac, ops, e, candidate, e.fingerprint);
      }
  }

  /** Token lookup is endpoint lookup when no host has brackets left inside. */
  lemma {:induction false} TokenMapIsEndpointMap(ops: seq<Insertion>, host: string, port: nat)
    requires '[' !in StripBrackets(host) && forall op :: op in ops ==> '[' !in StripBrackets(op.host)
    ensures var token, endpoint := HostToken(host, port), (StripBrackets(host), port);
      && (token in TokenMap(ops) <==> endpoint in EndpointMap(ops))
      && (token in TokenMap(ops) ==> TokenMap(ops)[token] == EndpointMap(ops)[endpoint])
    decreases |ops|
  {
    if ops != [] {
      var op := ops[|ops| - 1];
      TokenMapIsEndpointMap(ops[..|ops| - 1], host, port);
      HostTokenInjective(host, port, op.host, op.port);
    }
  }

  /** The store refines a map from (host without brackets, port) to fingerprint. */
  lemma ListRefinesMap(mac: Mac, ops: seq<Insertion>, host: string, port: nat, fingerprint: string)
    requires PlainHosts(ops)
    requires '[' !in StripBrackets(host) && forall op :: op in ops ==> '[' !in StripBrackets(op.host)
    ensures var endpoint := (StripBrackets(host), port);
      && Decide(mac, Built(ops), HostToken(host, port), fingerprint) == Lookup(EndpointMap(ops), endpoint, fingerprint)
      && FirstTrusted(mac, Built(ops), HostToken(host, port))
         == if endpoint in EndpointMap(ops) then Some(EndpointMap(ops)[endpoint]) else None
  {
    CheckIsLookup(mac, ops, HostToken(host, port), fingerprint);
    ExpectedIsLookup(mac, ops, HostToken(host, port));
    TokenMapIsEndpointMap(ops, host, port);
  }
}
