/**
 Trust on first use over whole runs (src/core/host_key.rs, TofuHostKeyVerifier).

 `verify` holds the write lock from its check to its append, so any interleaving
 of threads is one sequence of calls; the theorems below quantify over every
 such sequence and every starting store.
 */
module Trust {
  import opened Wrappers
  import opened HostPattern
  import opened HostKeys

  /** One call of `verify`, reduced to what it depends on. */
  datatype Call = Call(token: string, key: PublicKey)

  ghost function DecideCall(mac: Mac, store: seq<Entry>, call: Call): Decision {
    Decide(mac, store, call.token, call.key.fingerprint)
  }

  ghost function VerifyStep(mac: Mac, store: seq<Entry>, call: Call): (seq<Entry>, Decision) {
    var decision := DecideCall(mac, store, call);
    if decision == Unknown then (store + [Accepted(call.token, call.key)], Trusted) else (store, decision)
  }

  ghost function StoreAfter(mac: Mac, store: seq<Entry>, calls: seq<Call>): seq<Entry> {
    if calls == [] then store
    else VerifyStep(mac, StoreAfter(mac, store, calls[..|calls| - 1]), calls[|calls| - 1]).0
  }

  ghost function Answer(mac: Mac, store: seq<Entry>, calls: seq<Call>, i: nat): Decision
    requires i < |calls|
  {
    VerifyStep(mac, StoreAfter(mac, store, calls[..i]), calls[i]).1
  }

  class TofuHostKeyVerifier {
    const inner: KnownHostKeyVerifier

    constructor (verifier: KnownHostKeyVerifier)
      ensures inner == verifier
    {
      inner := verifier;
    }

    method Verify(host: string, port: nat, key: PublicKey) returns (decision: Decision)
      modifies inner.knownHosts
      ensures (inner.knownHosts.entries, decision)
           == VerifyStep(inner.mac, old(inner.knownHosts.entries), Call(HostToken(host, port), key))
    {
      var observation := inner.Check(host, port, key);
      if observation.decision == Unknown {
        inner.AcceptKey(host, port, key);
        return Trusted;
      }
      return observation.decision;
    }

    method Check(host: string, port: nat, key: PublicKey) returns (observation: Observation)
      ensures
        var entries, candidate := inner.knownHosts.entries, HostToken(host, port);
        observation == Observation(host, port, Decide(inner.mac, entries, candidate, key.fingerprint), key.fingerprint,
          ExpectedFingerprints(inner.mac, entries, candidate), MatchedLines(inner.mac, entries, candidate))
    {
      observation := inner.Check(host, port, key);
    }
  }

  type Error = string

  /**
   The policy an application hands to a connection: the strict verifier, trust
   on first use, or its own, of which only the outcomes of one `verify` and one
   `check` are known.
   */
  datatype Verifier =
    | Strict(known: KnownHostKeyVerifier)
    | FirstUse(tofu: TofuHostKeyVerifier)
    | Custom(verify: (string, nat, PublicKey) -> Result<Decision, Error>,
             check: (string, nat, PublicKey) -> Result<Observation, Error>)

  datatype Refusal = VerifierFailed(error: Error) | Refused(observation: Observation)

  function StoreOf(verifier: Verifier): set<KnownHosts> {
    match verifier
    case Strict(known) => {known.knownHosts}
    case FirstUse(tofu) => {tofu.inner.knownHosts}
    case Custom(_, _) => {}
  }

  /** All that a store has to say about a key. */
  ghost function Explanation(mac: Mac, store: seq<Entry>, host: string, port: nat, key: PublicKey): Observation {
    Observation(host, port, Decide(mac, store, HostToken(host, port), key.fingerprint), key.fingerprint,
      ExpectedFingerprints(mac, store, HostToken(host, port)), MatchedLines(mac, store, HostToken(host, port)))
  }

  method VerifyWith(verifier: Verifier, host: string, port: nat, key: PublicKey) returns (r: Result<Decision, Error>)
    modifies StoreOf(verifier)
    ensures match verifier
      case Strict(known) =>
        && known.knownHosts.entries == old(known.knownHosts.entries)
        && r == Ok(Decide(known.mac, known.knownHosts.entries, HostToken(host, port), key.fingerprint))
      case FirstUse(tofu) =>
        var (after, decision) := VerifyStep(tofu.inner.mac, old(tofu.inner.knownHosts.entries), Call(HostToken(host, port), key));
        tofu.inner.knownHosts.entries == after && r == Ok(decision)
      case Custom(verify, _) => r == verify(host, port, key)
  {
    match verifier
    case Strict(known) =>
      var observation := known.Check(host, port, key);
      return Ok(observation.decision);
    case FirstUse(tofu) =>
      var decision := tofu.Verify(host, port, key);
      return Ok(decision);
    case Custom(verify, _) =>
      return verify(host, port, key);
  }

  method CheckWith(verifier: Verifier, host: string, port: nat, key: PublicKey) returns (r: Result<Observation, Error>)
    ensures match verifier
      case Strict(known) => r == Ok(Explanation(known.mac, known.knownHosts.entries, host, port, key))
      case FirstUse(tofu) => r == Ok(Explanation(tofu.inner.mac, tofu.inner.knownHosts.entries, host, port, key))
      case Custom(_, check) => r == check(host, port, key)
  {
    match verifier
    case Strict(known) =>
      var observation := known.Check(host, port, key);
      return Ok(observation);
    case FirstUse(tofu) =>
      var observation := tofu.Check(host, port, key);
      return Ok(observation);
    case Custom(_, check) =>
      return check(host, port, key);
  }

  /** The host-key callback of a connection (src/core/session.rs, ClientHandler). */
  class ClientHandler {
    const host: string
    const port: nat
    const verifier: Verifier

    constructor (host: string, port: nat, verifier: Verifier)
      ensures this.host == host && this.port == port && this.verifier == verifier
    {
      this.host, this.port, this.verifier := host, port, verifier;
    }

    /**
     The connection goes on exactly for a key the policy trusts.  The strict
     policy refuses every other key and never changes the store; trust on first
     use also accepts and records an unknown one; a refusal is the store's whole
     explanation and leaves the store as it was.
     */
    method CheckServerKey(key: PublicKey) returns (r: Result<(), Refusal>)
      modifies StoreOf(verifier)
      ensures match verifier
        case Strict(known) =>
          var before := old(known.knownHosts.entries);
          var why := Explanation(known.mac, before, host, port, key);
          && known.knownHosts.entries == before
          && r == if why.decision == Trusted then Ok(()) else Err(Refused(why))
        case FirstUse(tofu) =>
          var before := old(tofu.inner.knownHosts.entries);
          var why := Explanation(tofu.inner.mac, before, host, port, key);
          && tofu.inner.knownHosts.entries
             == before + (if why.decision == Unknown then [Accepted(HostToken(host, port), key)] else [])
          && r == if why.decision in {Trusted, Unknown} then Ok(()) else Err(Refused(why))
        case Custom(verify, check) =>
          var verified, checked := verify(host, port, key), check(host, port, key);
          r == if verified.Err? then Err(VerifierFailed(verified.error))
               else if verified.value == Trusted then Ok(())
               else if checked.Err? then Err(VerifierFailed(checked.error))
               else Err(Refused(checked.value.(decision := verified.value)))
    {
      var verified := VerifyWith(verifier, host, port, key);
      if verified.Err? {
        return Err(VerifierFailed(verified.error));
      }
      var decision := verified.value;
      if decision == Trusted {
        return Ok(());
      }
      var checked := CheckWith(verifier, host, port, key);
      if checked.Err? {
        return Err(VerifierFailed(checked.error));
      }
      return Err(Refused(checked.value.(decision := decision)));
    }
  }

  lemma AfterOne(mac: Mac, store: seq<Entry>, calls: seq<Call>, n: nat)
    requires 0 < n <= |calls|
    ensures StoreAfter(mac, store, calls[..n]) == VerifyStep(mac, StoreAfter(mac, store, calls[..n - 1]), calls[n - 1]).0
  {
    assert calls[..n][..n - 1] == calls[..n - 1];
  }

  // ----- one more entry -----

  lemma DecideAppended(mac: Mac, store: seq<Entry>, e: Entry, candidate: string, fingerprint: string)
    ensures var before, after := Decide(mac, store, candidate, fingerprint), Decide(mac, store + [e], candidate, fingerprint);
      && (e.marker == Unmarked && !PatternsMatch(mac, e.hostPatterns, candidate) ==> after == before)
      && (e.marker == Unmarked && PatternsMatch(mac, e.hostPatterns, candidate) ==>
            after == if before == Revoked then Revoked
                     else if before == Trusted || e.fingerprint == fingerprint then Trusted else Changed)
  {
    var longer := store + [e];
    assert longer[..|longer| - 1] == store;
    SeenDecides(mac, store, candidate, fingerprint);
    SeenDecides(mac, longer, candidate, fingerprint);
  }

  /** Both branches of one call at a glance. */
  lemma VerifyNeverUnknown(mac: Mac, store: seq<Entry>, call: Call)
    ensures var (after, answer) := VerifyStep(mac, store, call);
      && answer != Unknown
      && (after == store || after == store + [Accepted(call.token, call.key)])
      && (after != store <==> DecideCall(mac, store, call) == Unknown)
  {
    assert |store + [Accepted(call.token, call.key)]| == |store| + 1;
  }

  /** First use pins the key exactly when the recorded token matches itself. */
  lemma FirstUsePins(mac: Mac, store: seq<Entry>, call: Call)
    requires DecideCall(mac, store, call) == Unknown
    ensures var after := VerifyStep(mac, store, call).0;
      && (SelfMatching(mac, call.token) ==>
            forall f :: Decide(mac, after, call.token, f) == if f == call.key.fingerprint then Trusted else Changed)
      && (!SelfMatching(mac, call.token) ==>
            forall f :: Decide(mac, after, call.token, f) == Unknown)
  {
    var e := Accepted(call.token, call.key);
    forall f
      ensures Decide(mac, store + [e], call.token, f)
           == if !SelfMatching(mac, call.token) then Unknown else if f == call.key.fingerprint then Trusted else Changed
    {
      ObservationExplainsDecision(mac, store, call.token, call.key.fingerprint);
      ObservationExplainsDecision(mac, store, call.token, f);
      DecideAppended(mac, store, e, call.token, f);
    }
  }

  // ----- pinning over runs -----

  /** The store answers for this token as if it held exactly one key. */
  ghost predicate Pinned(mac: Mac, store: seq<Entry>, token: string, fingerprint: string) {
    forall f :: Decide(mac, store, token, f) == if f == fingerprint then Trusted else Changed
  }

  lemma PinnedStep(mac: Mac, store: seq<Entry>, token: string, fingerprint: string, call: Call)
    requires Pinned(mac, store, token, fingerprint) && Plain(call.token)
    ensures Pinned(mac, VerifyStep(mac, store, call).0, token, fingerprint)
  {
    PlainMatches(mac, call.token, token);
    forall f {
      DecideAppended(mac, store, Accepted(call.token, call.key), token, f);
    }
  }

  lemma {:induction false} PinnedRun(mac: Mac, store: seq<Entry>, calls: seq<Call>, i: nat, j: nat, token: string, fingerprint: string)
    requires i <= j <= |calls| && forall k :: i <= k < j ==> Plain(calls[k].token)
    requires Pinned(mac, StoreAfter(mac, store, calls[..i]), token, fingerprint)
    ensures Pinned(mac, StoreAfter(mac, store, calls[..j]), token, fingerprint)
    decreases j
  {
    if i < j {
      PinnedRun(mac, store, calls, i, j - 1, token, fingerprint);
      PinnedStep(mac, StoreAfter(mac, store, calls[..j - 1]), token, fingerprint, calls[j - 1]);
      AfterOne(mac, store, calls, j);
    }
  }

  /**
   Pinning: once call `i` was accepted on first use, every later call `j` for
   its token is answered by comparing fingerprints, provided the calls between
   use plain host tokens.  The starting store is arbitrary.
   */
  lemma TofuPinning(mac: Mac, store: seq<Entry>, calls: seq<Call>, i: nat, j: nat)
    requires i < j < |calls| && calls[i].token == calls[j].token
    requires DecideCall(mac, StoreAfter(mac, store, calls[..i]), calls[i]) == Unknown
    requires SelfMatching(mac, calls[i].token)
    requires forall k :: i < k < j ==> Plain(calls[k].token)
    ensures Answer(mac, store, calls, i) == Trusted
    ensures Answer(mac, store, calls, j)
         == if calls[j].key.fingerprint == calls[i].key.fingerprint then Trusted else Changed
  {
    FirstUsePins(mac, StoreAfter(mac, store, calls[..i]), calls[i]);
    assert calls[..i + 1][..i] == calls[..i];
    PinnedRun(mac, store, calls, i + 1, j, calls[i].token, calls[i].key.fingerprint);
  }

  /** Without self-matching a token is never pinned: each call trusts and appends again. */
  lemma {:induction false} NeverPinned(mac: Mac, store: seq<Entry>, calls: seq<Call>, token: string)
    requires !SelfMatching(mac, token) && forall i :: 0 <= i < |calls| ==> calls[i].token == token
    requires forall f :: Decide(mac, store, token, f) == Unknown
    ensures forall f :: Decide(mac, StoreAfter(mac, store, calls), token, f) == Unknown
    ensures |StoreAfter(mac, store, calls)| == |store| + |calls|
    decreases |calls|
  {
    if calls != [] {
      var n := |calls| - 1;
      NeverPinned(mac, store, calls[..n], token);
      FirstUsePins(mac, StoreAfter(mac, store, calls[..n]), calls[n]);
    }
  }

  // ----- entries per token -----

  function Recorded(entries: seq<Entry>, token: string): nat {
    if entries == [] then 0 else
      Recorded(entries[..|entries| - 1], token)
      + if entries[|entries| - 1].marker == Unmarked && entries[|entries| - 1].hostPatterns == token then 1 else 0
  }

  lemma {:induction false} RecordedIn(entries: seq<Entry>, token: string)
    requires Recorded(entries, token) > 0
    ensures exists e :: e in entries && e.marker == Unmarked && e.hostPatterns == token
  {
    var n := |entries| - 1;
    if Recorded(entries[..n], token) > 0 {
      RecordedIn(entries[..n], token);
    } else {
      assert entries[n] in entries;
    }
  }

  lemma OneEntryStep(mac: Mac, before: seq<Entry>, call: Call, token: string)
    requires SelfMatching(mac, token)
    ensures var after := Recorded(VerifyStep(mac, before, call).0, token);
      after == Recorded(before, token) || (Recorded(before, token) == 0 && after == 1)
  {
    var e := Accepted(call.token, call.key);
    assert (before + [e])[..|before|] == before;
    if call.token == token && Recorded(before, token) > 0 {
      RecordedIn(before, token);
      var recorded :| recorded in before && recorded.marker == Unmarked && recorded.hostPatterns == token;
      assert Constrains(mac, recorded, token);
    }
  }

  /** However many keys race for a self-matching token, at most one entry is added for it. */
  lemma {:induction false} OneEntryPerToken(mac: Mac, store: seq<Entry>, calls: seq<Call>, token: string)
    requires SelfMatching(mac, token)
    ensures var after := Recorded(StoreAfter(mac, store, calls), token);
      after == Recorded(store, token) || (Recorded(store, token) == 0 && after == 1)
    decreases |calls|
  {
    if calls != [] {
      var n := |calls| - 1;
      OneEntryPerToken(mac, store, calls[..n], token);
      OneEntryStep(mac, StoreAfter(mac, store, calls[..n]), calls[n], token);
    }
  }

  // ----- verdicts that last -----

  /** A run only appends unmarked entries that record its own calls, and no call is answered Unknown. */
  lemma {:induction false} RunsOnlyAppend(mac: Mac, store: seq<Entry>, calls: seq<Call>)
    ensures var after := StoreAfter(mac, store, calls);
      && store <= after
      && forall e :: e in after[|store|..] ==> exists c :: c in calls && e == Accepted(c.token, c.key)
    ensures forall i :: 0 <= i < |calls| ==> Answer(mac, store, calls, i) != Unknown
    decreases |calls|
  {
    if calls != [] {
      var n := |calls| - 1;
      RunsOnlyAppend(mac, store, calls[..n]);
      VerifyNeverUnknown(mac, StoreAfter(mac, store, calls[..n]), calls[n]);
      var before, after := StoreAfter(mac, store, calls[..n]), StoreAfter(mac, store, calls);
      forall e | e in after[|store|..]
        ensures exists c :: c in calls && e == Accepted(c.token, c.key)
      {
        if e in before[|store|..] {
          var c :| c in calls[..n] && e == Accepted(c.token, c.key);
          assert c in calls;
        } else {
          assert after == before + [Accepted(calls[n].token, calls[n].key)];
          assert e == Accepted(calls[n].token, calls[n].key) && calls[n] in calls;
        }
      }
    }
  }

  /** Trusted and Revoked verdicts survive every run, on any host names. */
  lemma {:induction false} TrustedAndRevokedLast(mac: Mac, store: seq<Entry>, calls: seq<Call>, token: string, fingerprint: string)
    requires Decide(mac, store, token, fingerprint) in {Trusted, Revoked}
    ensures Decide(mac, StoreAfter(mac, store, calls), token, fingerprint) == Decide(mac, store, token, fingerprint)
    decreases |calls|
  {
    if calls != [] {
      var n := |calls| - 1;
      TrustedAndRevokedLast(mac, store, calls[..n], token, fingerprint);
      DecideAppended(mac, StoreAfter(mac, store, calls[..n]), Accepted(calls[n].token, calls[n].key), token, fingerprint);
    }
  }

  lemma ChangedFlipsOnce(mac: Mac, store: seq<Entry>, call: Call, token: string, fingerprint: string)
    requires Decide(mac, store, token, fingerprint) == Changed
    ensures Decide(mac, VerifyStep(mac, store, call).0, token, fingerprint)
         == if Vouches(mac, store, call, token, fingerprint) then Trusted else Changed
  {
    DecideAppended(mac, store, Accepted(call.token, call.key), token, fingerprint);
  }

  /** The call is accepted on first use, with this key, under a pattern that covers the token. */
  ghost predicate Vouches(mac: Mac, store: seq<Entry>, call: Call, token: string, fingerprint: string) {
    DecideCall(mac, store, call) == Unknown && call.key.fingerprint == fingerprint && PatternsMatch(mac, call.token, token)
  }

  /** Some call of the run vouches for the key in the store it meets. */
  ghost predicate Vouched(mac: Mac, store: seq<Entry>, calls: seq<Call>, token: string, fingerprint: string) {
    exists i :: 0 <= i < |calls| && VouchesAt(mac, store, calls, i, token, fingerprint)
  }

  ghost predicate VouchesAt(mac: Mac, store: seq<Entry>, calls: seq<Call>, i: nat, token: string, fingerprint: string)
    requires i < |calls|
  {
    Vouches(mac, StoreAfter(mac, store, calls[..i]), calls[i], token, fingerprint)
  }

  lemma VouchedAppend(mac: Mac, store: seq<Entry>, calls: seq<Call>, token: string, fingerprint: string)
    requires calls != []
    ensures var n := |calls| - 1;
      Vouched(mac, store, calls, token, fingerprint)
      <==> Vouched(mac, store, calls[..n], token, fingerprint) || VouchesAt(mac, store, calls, n, token, fingerprint)
  {
    var n := |calls| - 1;
    forall i: nat | i < n
      ensures VouchesAt(mac, store, calls[..n], i, token, fingerprint) == VouchesAt(mac, store, calls, i, token, fingerprint)
    {
      assert calls[..n][..i] == calls[..i] && calls[..n][i] == calls[i];
    }
  }

  /** A run turns Changed into Trusted exactly when one of its calls vouches for the key. */
  lemma {:induction false} ChangedFlips(mac: Mac, store: seq<Entry>, calls: seq<Call>, token: string, fingerprint: string)
    requires Decide(mac, store, token, fingerprint) == Changed
    ensures Decide(mac, StoreAfter(mac, store, calls), token, fingerprint)
         == if Vouched(mac, store, calls, token, fingerprint) then Trusted else Changed
    decreases |calls|
  {
    if calls != [] {
      var n := |calls| - 1;
      var before := StoreAfter(mac, store, calls[..n]);
      ChangedFlips(mac, store, calls[..n], token, fingerprint);
      VouchedAppend(mac, store, calls, token, fingerprint);
      if Decide(mac, before, token, fingerprint) == Changed {
        ChangedFlipsOnce(mac, before, calls[n], token, fingerprint);
      } else {
        TrustedStays(mac, before, calls[n], token, fingerprint);
      }
    }
  }

  lemma TrustedStays(mac: Mac, store: seq<Entry>, call: Call, token: string, fingerprint: string)
    requires Decide(mac, store, token, fingerprint) == Trusted
    ensures Decide(mac, VerifyStep(mac, store, call).0, token, fingerprint) == Trusted
  {
    DecideAppended(mac, store, Accepted(call.token, call.key), token, fingerprint);
  }

  /** With plain host tokens in between, Changed survives too. */
  lemma ChangedLasts(mac: Mac, store: seq<Entry>, calls: seq<Call>, token: string, fingerprint: string)
    requires Decide(mac, store, token, fingerprint) == Changed
    requires forall i :: 0 <= i < |calls| ==> Plain(calls[i].token)
    ensures Decide(mac, StoreAfter(mac, store, calls), token, fingerprint) == Changed
  {
    ChangedFlips(mac, store, calls, token, fingerprint);
    forall i | 0 <= i < |calls|
      ensures !VouchesAt(mac, store, calls, i, token, fingerprint)
    {
      var before := StoreAfter(mac, store, calls[..i]);
      ChangedFlips(mac, store, calls[..i], token, fingerprint);
      PlainMatches(mac, calls[i].token, token);
      ObservationExplainsDecision(mac, before, token, fingerprint);
    }
  }

  lemma OneTrusted(mac: Mac, token: string, key: PublicKey, candidate: string, fingerprint: string)
    requires Pinnable(token)
    ensures Decide(mac, [Accepted(token, key)], candidate, fingerprint)
         == if token != candidate then Unknown else if key.fingerprint == fingerprint then Trusted else Changed
  {
    PlainMatches(mac, token, candidate);
    DecideAppended(mac, [], Accepted(token, key), candidate, fingerprint);
    assert [] + [Accepted(token, key)] == [Accepted(token, key)];
  }

  lemma StarCovers(mac: Mac, candidate: string)
    ensures PatternsMatch(mac, "*", candidate)
  {
    SinglePiece("*");
    StarMatches(candidate);
    assert ["*"][0] in ["*"];
  }

  /** A wildcard host recorded in between can make a Changed key Trusted. */
  lemma WildcardUnpins(mac: Mac)
    ensures var store := [Accepted("a", PublicKey("A", "a-print"))];
      && Decide(mac, store, "a", "b-print") == Changed
      && Decide(mac, VerifyStep(mac, store, Call("*", PublicKey("B", "b-print"))).0, "a", "b-print") == Trusted
  {
    var key := PublicKey("A", "a-print");
    assert "a"[..1] == "a";
    OneTrusted(mac, "a", key, "a", "b-print");
    OneTrusted(mac, "a", key, "*", "b-print");
    StarCovers(mac, "a");
    ChangedFlipsOnce(mac, [Accepted("a", key)], Call("*", PublicKey("B", "b-print")), "a", "b-print");
  }

  /**
   `check_server_key` (src/core/session.rs) releases the lock between `verify`
   and the `check` that fills its error.  The refusal it reports is still the
   store's verdict after any plain calls in between.
   */
  lemma RefusalStillHolds(mac: Mac, store: seq<Entry>, call: Call, between: seq<Call>)
    requires VerifyStep(mac, store, call).1 != Trusted
    requires VerifyStep(mac, store, call).1 == Changed ==> forall i :: 0 <= i < |between| ==> Plain(between[i].token)
    ensures VerifyStep(mac, store, call).0 == store
    ensures DecideCall(mac, StoreAfter(mac, store, between), call) == VerifyStep(mac, store, call).1
  {
    if DecideCall(mac, store, call) == Changed {
      ChangedLasts(mac, store, between, call.token, call.key.fingerprint);
    } else {
      TrustedAndRevokedLast(mac, store, between, call.token, call.key.fingerprint);
    }
  }
}
