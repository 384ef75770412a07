/**
 Known-hosts entries, the decision over them and the two ways of adding to a
 store (src/core/host_key.rs).
 */
module HostKeys {
  import opened Wrappers
  import opened HostPattern

  /** What the model keeps of a key: its OpenSSH text and its SHA-256 fingerprint. */
  datatype PublicKey = PublicKey(openssh: string, fingerprint: string)

  /** The optional marker field of an entry. */
  datatype Marker = Unmarked | CertificateAuthority | RevokedKey

  datatype Entry = Entry(
    hostPatterns: string,
    marker: Marker,
    fingerprint: string,
    publicKey: string,
    line: nat)

  datatype Decision = Trusted | Unknown | Changed | Revoked

  datatype Observation = Observation(
    host: string,
    port: nat,
    decision: Decision,
    presentedFingerprint: string,
    expectedFingerprints: seq<string>,
    matchedLines: seq<nat>)

  /** A host key is on record for the candidate, whatever the presented key is. */
  ghost predicate Constrains(mac: Mac, e: Entry, candidate: string) {
    e.marker != CertificateAuthority && PatternsMatch(mac, e.hostPatterns, candidate)
  }

  ghost predicate Revokes(mac: Mac, e: Entry, candidate: string, fingerprint: string) {
    e.marker == RevokedKey && e.fingerprint == fingerprint && PatternsMatch(mac, e.hostPatterns, candidate)
  }

  ghost predicate Trusts(mac: Mac, e: Entry, candidate: string, fingerprint: string) {
    e.marker == Unmarked && e.fingerprint == fingerprint && PatternsMatch(mac, e.hostPatterns, candidate)
  }

  /** The verdict: revocation first, then trust, then whether any key is on record. */
  ghost function Decide(mac: Mac, entries: seq<Entry>, candidate: string, fingerprint: string): Decision {
    if exists e :: e in entries && Revokes(mac, e, candidate, fingerprint) then Revoked
    else if exists e :: e in entries && Trusts(mac, e, candidate, fingerprint) then Trusted
    else if exists e :: e in entries && Constrains(mac, e, candidate) then Changed
    else Unknown
  }

  ghost function ExpectedFingerprints(mac: Mac, entries: seq<Entry>, candidate: string): seq<string> {
    if entries == [] then [] else
      var e := entries[|entries| - 1];
      ExpectedFingerprints(mac, entries[..|entries| - 1], candidate)
      + if Constrains(mac, e, candidate) then [e.fingerprint] else []
  }

  ghost function MatchedLines(mac: Mac, entries: seq<Entry>, candidate: string): seq<nat> {
    if entries == [] then [] else
      var e := entries[|entries| - 1];
      MatchedLines(mac, entries[..|entries| - 1], candidate)
      + if PatternsMatch(mac, e.hostPatterns, candidate) && e.line != 0 then [e.line] else []
  }

  /** What the check loop remembers of the entries it has passed. */
  datatype Flags = Flags(revoked: bool, trusted: bool, constrained: bool)

  ghost function Seen(mac: Mac, entries: seq<Entry>, candidate: string, fingerprint: string): Flags {
    if entries == [] then Flags(false, false, false) else
      var before, e := Seen(mac, entries[..|entries| - 1], candidate, fingerprint), entries[|entries| - 1];
      Flags(before.revoked || Revokes(mac, e, candidate, fingerprint),
            before.trusted || Trusts(mac, e, candidate, fingerprint),
            before.constrained || Constrains(mac, e, candidate))
  }

  lemma {:induction false} SeenAre(mac: Mac, entries: seq<Entry>, candidate: string, fingerprint: string)
    ensures var seen := Seen(mac, entries, candidate, fingerprint);
      && (seen.revoked <==> exists e :: e in entries && Revokes(mac, e, candidate, fingerprint))
      && (seen.trusted <==> exists e :: e in entries && Trusts(mac, e, candidate, fingerprint))
      && (seen.constrained <==> exists e :: e in entries && Constrains(mac, e, candidate))
  {
    if entries != [] {
      var before, last := entries[..|entries| - 1], entries[|entries| - 1];
      SeenAre(mac, before, candidate, fingerprint);
      assert forall e :: e in entries <==> e in before || e == last;
    }
  }

  /** What one more entry adds to everything the loop keeps. */
  lemma OneMoreEntry(mac: Mac, entries: seq<Entry>, i: nat, candidate: string, fingerprint: string)
    requires i < |entries|
    ensures var before, now, e := entries[..i], entries[..i + 1], entries[i];
      var covered := PatternsMatch(mac, e.hostPatterns, candidate);
      && Seen(mac, now, candidate, fingerprint)
         == Flags(Seen(mac, before, candidate, fingerprint).revoked || (covered && e.marker == RevokedKey && e.fingerprint == fingerprint),
                  Seen(mac, before, candidate, fingerprint).trusted || (covered && e.marker == Unmarked && e.fingerprint == fingerprint),
                  Seen(mac, before, candidate, fingerprint).constrained || (covered && e.marker != CertificateAuthority))
      && ExpectedFingerprints(mac, now, candidate)
         == ExpectedFingerprints(mac, before, candidate) + (if covered && e.marker != CertificateAuthority then [e.fingerprint] else [])
      && MatchedLines(mac, now, candidate)
         == MatchedLines(mac, before, candidate) + (if covered && e.line != 0 then [e.line] else [])
  {
    assert entries[..i + 1][..i] == entries[..i];
  }

  lemma SeenDecides(mac: Mac, entries: seq<Entry>, candidate: string, fingerprint: string)
    ensures var seen := Seen(mac, entries, candidate, fingerprint);
      Decide(mac, entries, candidate, fingerprint) ==
      if seen.revoked then Revoked else if seen.trusted then Trusted else if seen.constrained then Changed else Unknown
  {
    SeenAre(mac, entries, candidate, fingerprint);
  }

  /** The fingerprints shown to the user always explain the decision. */
  lemma ObservationExplainsDecision(mac: Mac, entries: seq<Entry>, candidate: string, fingerprint: string)
    ensures var decision, expected := Decide(mac, entries, candidate, fingerprint), ExpectedFingerprints(mac, entries, candidate);
      && (decision == Unknown <==> expected == [])
      && (decision in {Trusted, Revoked} <==> fingerprint in expected)
      && (decision == Changed <==> expected != [] && fingerprint !in expected)
  {
    SeenDecides(mac, entries, candidate, fingerprint);
    SeenExplained(mac, entries, candidate, fingerprint);
  }

  lemma {:induction false} SeenExplained(mac: Mac, entries: seq<Entry>, candidate: string, fingerprint: string)
    ensures var seen, expected := Seen(mac, entries, candidate, fingerprint), ExpectedFingerprints(mac, entries, candidate);
      && (seen.constrained <==> expected != [])
      && (seen.revoked || seen.trusted <==> fingerprint in expected)
  {
    if entries != [] {
      var last := entries[|entries| - 1];
      SeenExplained(mac, entries[..|entries| - 1], candidate, fingerprint);
      assert Constrains(mac, last, candidate) && last.fingerprint == fingerprint
        <==> Revokes(mac, last, candidate, fingerprint) || Trusts(mac, last, candidate, fingerprint);
    }
  }

  /** The reported lines are those of the matching entries, markers included, except entries without a line. */
  lemma {:induction false} MatchedLinesAre(mac: Mac, entries: seq<Entry>, candidate: string, line: nat)
    ensures line in MatchedLines(mac, entries, candidate)
       <==> line != 0 && exists e :: e in entries && e.line == line && PatternsMatch(mac, e.hostPatterns, candidate)
  {
    if entries != [] {
      var before, last := entries[..|entries| - 1], entries[|entries| - 1];
      MatchedLinesAre(mac, before, candidate, line);
      assert forall e :: e in entries <==> e in before || e == last;
    }
  }

  lemma DecisionOrderIrrelevant(mac: Mac, entries: seq<Entry>, permuted: seq<Entry>, candidate: string, fingerprint: string)
    requires multiset(entries) == multiset(permuted)
    ensures Decide(mac, entries, candidate, fingerprint) == Decide(mac, permuted, candidate, fingerprint)
  {
    assert forall e :: e in entries <==> e in multiset(entries);
    assert forall e :: e in permuted <==> e in multiset(permuted);
  }

  /** What one entry says by itself. */
  lemma OneEntry(mac: Mac, e: Entry, candidate: string, fingerprint: string)
    ensures var covered := PatternsMatch(mac, e.hostPatterns, candidate);
      && Decide(mac, [e], candidate, fingerprint)
         == (if !covered || e.marker == CertificateAuthority then Unknown
             else if e.fingerprint != fingerprint then Changed
             else if e.marker == RevokedKey then Revoked
             else Trusted)
      && ExpectedFingerprints(mac, [e], candidate) == (if covered && e.marker != CertificateAuthority then [e.fingerprint] else [])
      && MatchedLines(mac, [e], candidate) == (if covered && e.line != 0 then [e.line] else [])
  {
    OneMoreEntry(mac, [e], 0, candidate, fingerprint);
    SeenDecides(mac, [e], candidate, fingerprint);
    assert [e][..1] == [e] && [e][..0] == [];
  }

  /** How strongly a verdict speaks. */
  function Strength(d: Decision): nat {
    match d case Unknown => 0 case Changed => 1 case Trusted => 2 case Revoked => 3
  }

  /** The verdict of two stores together is the stronger of theirs. */
  lemma StrongestVerdict(mac: Mac, a: seq<Entry>, b: seq<Entry>, candidate: string, fingerprint: string)
    ensures var left, right := Decide(mac, a, candidate, fingerprint), Decide(mac, b, candidate, fingerprint);
      Decide(mac, a + b, candidate, fingerprint) == if Strength(left) >= Strength(right) then left else right
  {
    SeenConcat(mac, a, b, candidate, fingerprint);
    SeenDecides(mac, a, candidate, fingerprint);
    SeenDecides(mac, b, candidate, fingerprint);
    SeenDecides(mac, a + b, candidate, fingerprint);
  }

  lemma {:induction false} SeenConcat(mac: Mac, a: seq<Entry>, b: seq<Entry>, candidate: string, fingerprint: string)
    ensures var left, right := Seen(mac, a, candidate, fingerprint), Seen(mac, b, candidate, fingerprint);
      Seen(mac, a + b, candidate, fingerprint)
      == Flags(left.revoked || right.revoked, left.trusted || right.trusted, left.constrained || right.constrained)
    decreases |b|
  {
    if b == [] {
      assert a + b == a;
    } else {
      assert (a + b)[..|a + b| - 1] == a + b[..|b| - 1];
      SeenConcat(mac, a, b[..|b| - 1], candidate, fingerprint);
    }
  }

  /** Fingerprints and lines are reported entry by entry, in the order of the store. */
  lemma {:induction false} ReportsConcat(mac: Mac, a: seq<Entry>, b: seq<Entry>, candidate: string)
    ensures ExpectedFingerprints(mac, a + b, candidate)
         == ExpectedFingerprints(mac, a, candidate) + ExpectedFingerprints(mac, b, candidate)
    ensures MatchedLines(mac, a + b, candidate) == MatchedLines(mac, a, candidate) + MatchedLines(mac, b, candidate)
    decreases |b|
  {
    if b == [] {
      assert a + b == a;
    } else {
      assert (a + b)[..|a + b| - 1] == a + b[..|b| - 1];
      ReportsConcat(mac, a, b[..|b| - 1], candidate);
    }
  }

  function Accepted(token: string, key: PublicKey): Entry {
    Entry(token, Unmarked, key.fingerprint, key.openssh, 0)
  }

  predicate Survives(e: Entry, patterns: string) {
    e.marker != Unmarked || e.hostPatterns != patterns
  }

  /** `retain`: unmarked entries with exactly these patterns go, the rest keep their order. */
  function Retained(entries: seq<Entry>, patterns: string): (kept: seq<Entry>)
    ensures forall e :: e in kept <==> e in entries && Survives(e, patterns)
  {
    if entries == [] then [] else
      (if Survives(entries[0], patterns) then [entries[0]] else []) + Retained(entries[1..], patterns)
  }

  /** Each entry stays or goes by itself, and those that stay keep their order. */
  lemma {:induction false} RetainedConcat(a: seq<Entry>, b: seq<Entry>, patterns: string)
    ensures Retained(a + b, patterns) == Retained(a, patterns) + Retained(b, patterns)
    ensures forall e :: Retained([e], patterns) == if e.marker == Unmarked && e.hostPatterns == patterns then [] else [e]
  {
    forall e ensures Retained([e], patterns) == if e.marker == Unmarked && e.hostPatterns == patterns then [] else [e] {
      assert [e][1..] == [];
    }
    if a == [] {
      assert a + b == b;
    } else {
      assert (a + b)[1..] == a[1..] + b;
      RetainedConcat(a[1..], b, patterns);
    }
  }

  class KnownHosts {
    var entries: seq<Entry>

    constructor ()
      ensures entries == []
    {
      entries := [];
    }

    method PushKey(host: string, port: nat, key: PublicKey)
      modifies this
      ensures entries == old(entries) + [Entry(HostToken(host, port), Unmarked, key.fingerprint, key.openssh, 0)]
    {
      entries := entries + [Entry(HostToken(host, port), Unmarked, key.fingerprint, key.openssh, 0)];
    }

    method ReplaceEntry(entry: Entry)
      modifies this
      ensures entries == Retained(old(entries), entry.hostPatterns) + [entry]
    {
      entries := Retained(entries, entry.hostPatterns);
      entries := entries + [entry];
    }
  }

  class KnownHostKeyVerifier {
    const mac: Mac
    const knownHosts: KnownHosts

    constructor (mac: Mac)
      ensures this.mac == mac && fresh(knownHosts) && knownHosts.entries == []
    {
      this.mac := mac;
      knownHosts := new KnownHosts();
    }

    method Insert(host: string, port: nat, fingerprint: string)
      modifies knownHosts
      ensures knownHosts.entries ==
        Retained(old(knownHosts.entries), HostToken(host, port)) + [Entry(HostToken(host, port), Unmarked, fingerprint, "", 0)]
    {
      knownHosts.ReplaceEntry(Entry(HostToken(host, port), Unmarked, fingerprint, "", 0));
    }

    method InsertKey(host: string, port: nat, key: PublicKey)
      modifies knownHosts
      ensures knownHosts.entries ==
        Retained(old(knownHosts.entries), HostToken(host, port)) + [Accepted(HostToken(host, port), key)]
    {
      knownHosts.ReplaceEntry(Entry(HostToken(host, port), Unmarked, key.fingerprint, key.openssh, 0));
    }

    method AcceptKey(host: string, port: nat, key: PublicKey)
      modifies knownHosts
      ensures knownHosts.entries == old(knownHosts.entries) + [Accepted(HostToken(host, port), key)]
    {
      knownHosts.PushKey(host, port, key);
    }

    /** The fingerprint of the first unmarked entry that matches. */
    method ExpectedFingerprint(host: string, port: nat) returns (found: Option<string>)
      ensures found == FirstTrusted(mac, knownHosts.entries, HostToken(host, port))
    {
      var entries := knownHosts.entries;
      for i := 0 to |entries|
        invariant FirstTrusted(mac, entries[i..], HostToken(host, port)) == FirstTrusted(mac, entries, HostToken(host, port))
      {
        assert entries[i..][1..] == entries[i + 1..];
        if entries[i].marker == Unmarked {
          var matched := HostPatternsMatch(mac, entries[i].hostPatterns, host, port);
          if matched {
            return Some(entries[i].fingerprint);
          }
        }
      }
      return None;
    }

    method Check(host: string, port: nat, key: PublicKey) returns (observation: Observation)
      ensures
        var entries, candidate := knownHosts.entries, HostToken(host, port);
        observation == Observation(host, port, Decide(mac, entries, candidate, key.fingerprint), key.fingerprint,
          ExpectedFingerprints(mac, entries, candidate), MatchedLines(mac, entries, candidate))
    {
      var presented := key.fingerprint;
      observation := Observation(host, port, Unknown, presented, [], []);
      var hasExpectedKey, trusted := false, false;
      var entries := knownHosts.entries;
      ghost var candidate := HostToken(host, port);
      for i := 0 to |entries|
        invariant observation == Observation(host, port, observation.decision, presented,
                                             ExpectedFingerprints(mac, entries[..i], candidate),
                                             MatchedLines(mac, entries[..i], candidate))
        invariant observation.decision == (if Seen(mac, entries[..i], candidate, presented).revoked then Revoked else Unknown)
        invariant trusted == Seen(mac, entries[..i], candidate, presented).trusted
        invariant hasExpectedKey == Seen(mac, entries[..i], candidate, presented).constrained
      {
        var entry := entries[i];
        OneMoreEntry(mac, entries, i, candidate, presented);
        var matched := HostPatternsMatch(mac, entry.hostPatterns, host, port);
        if !matched {
          continue;
        }
        if entry.line != 0 {
          observation := observation.(matchedLines := observation.matchedLines + [entry.line]);
        }
        if entry.marker == RevokedKey {
          hasExpectedKey := true;
          observation := observation.(expectedFingerprints := observation.expectedFingerprints + [entry.fingerprint]);
          if entry.fingerprint == presented {
            observation := observation.(decision := Revoked);
          }
          continue;
        }
        if entry.marker == CertificateAuthority {
          continue;
        }
        hasExpectedKey := true;
        observation := observation.(expectedFingerprints := observation.expectedFingerprints + [entry.fingerprint]);
        if entry.fingerprint == presented {
          trusted := true;
        }
      }
      assert entries[..|entries|] == entries;
      SeenDecides(mac, entries, candidate, presented);
      if observation.decision == Revoked {
        return;
      }
      observation := observation.(decision := if trusted then Trusted else if hasExpectedKey then Changed else Unknown);
    }
  }

  ghost function FirstTrusted(mac: Mac, entries: seq<Entry>, candidate: string): Option<string> {
    if entries == [] then None
    else if entries[0].marker == Unmarked && PatternsMatch(mac, entries[0].hostPatterns, candidate) then Some(entries[0].fingerprint)
    else FirstTrusted(mac, entries[1..], candidate)
  }

  /** The expected fingerprint is that of the first unmarked entry that matches, and there is one whenever any does. */
  lemma {:induction false} FirstTrustedIsFirst(mac: Mac, entries: seq<Entry>, candidate: string, k: nat)
    requires k < |entries| && entries[k].marker == Unmarked && PatternsMatch(mac, entries[k].hostPatterns, candidate)
    requires forall j :: 0 <= j < k ==> entries[j].marker != Unmarked || !PatternsMatch(mac, entries[j].hostPatterns, candidate)
    ensures FirstTrusted(mac, entries, candidate) == Some(entries[k].fingerprint)
    decreases |entries|
  {
    if k > 0 {
      FirstTrustedIsFirst(mac, entries[1..], candidate, k - 1);
    }
  }

  lemma {:induction false} NoneTrusted(mac: Mac, entries: seq<Entry>, candidate: string)
    ensures FirstTrusted(mac, entries, candidate) == None
       <==> forall e :: e in entries ==> e.marker != Unmarked || !PatternsMatch(mac, e.hostPatterns, candidate)
    decreases |entries|
  {
    if entries != [] {
      NoneTrusted(mac, entries[1..], candidate);
      assert forall e :: e in entries <==> e == entries[0] || e in entries[1..];
    }
  }
}
