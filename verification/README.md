# Verified model of an SSH client library

This project models the parts of the Rust crate `xssh-rust-lib` that hold its own
algorithms and state, and proves what they promise.

- **Known hosts** (`Glob`, `HostPattern`, `HostKeys`, `Trust`, `Inserted`, `KnownHostsText`; `Text` holds the
  string functions they need). The glob table, the pattern list, the host token, the verdict over the entries,
  trust on first use over whole runs, the store as a map, and the known-hosts text format. Keys are reduced to
  their OpenSSH text and fingerprint; the HMAC of hashed hosts and the body of an entry line are parameters.
- **Cancellation and deadlines** (`Cancellation`, `Deadline`). The flag-and-`Notify` token as an interleaving of
  atomic steps of any number of callers, and deadlines under an ideal clock.
- **Forwarding relay** (`Relay`, `RelayBytes`; `Sums` counts processes by phase). Counters, permits and byte
  totals over arbitrarily many connections and concurrent `run` calls.
- **SOCKS5 server** (`Socks5`, `Socks5Session`). Sections 3, 4 and 6 of RFC 1928 and section 2 of RFC 1929 over a
  stream that delivers any fragments and may break in the middle of any operation.
- **Authentication plan** (`Auth`, `AuthRuns`). The plan, key, agent and keyboard-interactive loops against every
  server script.

Where the source changes state the model does too: `GlobMatch` fills an `array2`, the stores, streams, handles and
observations are classes, and every such method is proved equal to a function whose meaning is then proved by
lemmas. Concurrent protocols are state machines whose runs are arbitrary sequences of enabled steps. `verify` of the
trust-on-first-use verifier holds one lock throughout, so any interleaving of threads is one sequence of calls, and
its theorems quantify over all of them.

Three properties one would expect are false of the code, and are stated with their exact condition.

- A host token does not identify an endpoint: host `[a]:80` on port 22 and host `a` on port 80 share one
  (`HostTokenCollision`). `HostTokensEqual` says exactly when two endpoints do.
- The repository's README (lines 140-142) says a changed key is refused after the first use. This holds if and only
  if the recorded token, read back as a pattern list, matches itself (`FirstUsePins`); otherwise every key is trusted
  and recorded again (`NeverPinned`). `SelfMatchingCommaFree` and `SelfMatchingList` decide this for every token: one
  without a comma fails when it is empty, starts with `!`, or has the form of a hashed host that is not its own; one
  with a comma holds only if some piece with a `*`, or a hashed one, covers the whole list and no such negated piece
  does. So a list without `*` and `|` is never pinned (`SelfMatchingStarless`), while `!a,*` is (`StarListCoversItself`).
- A `Changed` verdict is not permanent when a wildcard is used as a host name (`WildcardUnpins`); `ChangedFlips` says
  exactly which runs change it, and `ChangedLasts` that plain host tokens never do.

## Model

| member | source | states |
|---|---|---|
| Glob.GlobMatch | src/core/host_key.rs:471-494 | the table algorithm returns true exactly when the candidate splits into one fitting piece per pattern character, for all patterns and candidates |
| Glob.PeelsIsMatches | src/core/host_key.rs:476-492 | the relation a table cell stands for is the declarative meaning of the pattern |
| Glob.RowsStep | src/core/host_key.rs:477-491 | how each row of the table determines the next, for `*`, `?` and literal characters |
| Glob.LiteralMatches | src/core/host_key.rs:486-489 | a pattern without wildcards matches exactly itself |
| Glob.StarlessLength | src/core/host_key.rs:486-490 | a pattern without `*` matches only candidates of its own length |
| Glob.SelfMatches | src/core/host_key.rs:471-494 | every string matches itself as a pattern |
| Text.SplitIsInverseOfJoin | src/core/host_key.rs:433 | splitting at a separator is the unique separator-free cutting that joins back to the string |
| Text.DecimalInjective | src/core/host_key.rs:426 | the decimal rendering of a port determines the port |
| Text.DecimalEvaluates | src/core/host_key.rs:426 | the rendering of a port evaluates back to it and has no leading zero |
| Text.TrimTakesEnds | src/core/host_key.rs:116-119 | trimming removes white space at both ends and nothing else |
| Text.LineEnds | src/core/host_key.rs:114 | a line ends at a line feed, which is not part of it |
| Text.ReturnEnds | src/core/host_key.rs:114 | a carriage return before the line feed is not part of the line either |
| HostPattern.HostTokensEqual | src/core/host_key.rs:418-428 | two endpoints have the same token exactly when they agree on port and stripped host, or one on port 22 has a stripped host spelled `[host]:port` for the other |
| HostPattern.HostTokenForm | src/core/host_key.rs:418-428 | brackets around a host mean nothing; the token is the host on port 22 and `[host]:port` on every other |
| HostPattern.HostTokenInjective | src/core/host_key.rs:418-428 | without inner brackets the token identifies the stripped host and the port |
| HostPattern.HostTokenCollision | src/core/host_key.rs:418-428 | two different endpoints with the same token |
| HostPattern.SingleHostPatternMatches | src/core/host_key.rs:450-465 | a hashed pattern of salt, bar and digest matches if and only if the HMAC keyed with the salt gives the digest, and never globs; any other pattern is a glob |
| HostPattern.HashedPattern | src/core/host_key.rs:450-465 | the part before the bar is the salt, the part after it the digest |
| HostPattern.HashedWithoutDigest | src/core/host_key.rs:454-456 | a hashed pattern without a digest matches nothing |
| HostPattern.HashedHost | src/core/host_key.rs:430-465 | a list of one hashed host matches exactly the hosts its HMAC verifies |
| HostPattern.HostPatternsMatch | src/core/host_key.rs:430-448 | true exactly when some positive pattern matches the token and no negated one does |
| HostPattern.PatternList | src/core/host_key.rs:433-447 | on the pieces: some non-empty one without `!` matches and no text behind a `!` does |
| HostPattern.PatternOrderIrrelevant | src/core/host_key.rs:433-447 | permuting the comma-separated patterns never changes the answer, despite the early return |
| HostPattern.PlainMatches | src/core/host_key.rs:430-448 | a plain token used as a pattern matches its own candidate and nothing else, or nothing at all if empty or negated |
| HostPattern.SelfMatchingCommaFree | src/core/host_key.rs:430-465 | which comma-free tokens match themselves, wildcards and hashed forms included |
| HostPattern.SelfMatchingList | src/core/host_key.rs:430-465 | a token with a comma, whatever else it holds, matches itself exactly when some `*` or hashed piece covers it and no negated one does |
| HostPattern.SelfMatchingStarless | src/core/host_key.rs:430-448 | for tokens without `*` and hashes, self-matching means non-empty, comma-free and not negated |
| HostPattern.StarListCoversItself | src/core/host_key.rs:430-448 | a list that starts with a negated piece and still matches itself |
| HostKeys.KnownHosts.PushKey | src/core/host_key.rs:165-177 | appends one unmarked entry for the token and changes nothing else |
| HostKeys.KnownHosts.ReplaceEntry | src/core/host_key.rs:179-184 | drops the unmarked entries with the same patterns, keeps the rest in order, appends the new one |
| HostKeys.RetainedConcat | src/core/host_key.rs:180-182 | each entry stays or goes by itself, marked ones always stay, and the order is kept |
| HostKeys.KnownHostKeyVerifier.Insert | src/core/host_key.rs:250-259 | the store after recording a fingerprint without a key |
| HostKeys.KnownHostKeyVerifier.InsertKey | src/core/host_key.rs:261-272 | the store after recording a key |
| HostKeys.KnownHostKeyVerifier.AcceptKey | src/core/host_key.rs:276-278 | the store after accepting a first-seen key |
| HostKeys.KnownHostKeyVerifier.ExpectedFingerprint | src/core/host_key.rs:280-288 | the fingerprint of the first matching unmarked entry, or none |
| HostKeys.FirstTrustedIsFirst | src/core/host_key.rs:280-288 | of several matching unmarked entries the first one counts |
| HostKeys.NoneTrusted | src/core/host_key.rs:280-288 | there is none exactly when no unmarked entry matches |
| HostKeys.KnownHostKeyVerifier.Check | src/core/host_key.rs:290-341 | the loop's verdict is the declarative one (revoked, else trusted, else changed, else unknown) and its lists are those of the matching entries in order |
| HostKeys.OneEntry | src/core/host_key.rs:301-328 | verdict, fingerprints and lines for a store of one entry, by marker and fingerprint |
| HostKeys.StrongestVerdict | src/core/host_key.rs:290-341 | the verdict of two stores together is the stronger one, in the order revoked, trusted, changed, unknown |
| HostKeys.ReportsConcat | src/core/host_key.rs:301-328 | fingerprints and lines are reported entry by entry in store order |
| HostKeys.SeenDecides | src/core/host_key.rs:330-339 | the flags kept by the loop give the quantified verdict over all entries |
| HostKeys.ObservationExplainsDecision | src/core/host_key.rs:301-340 | the listed fingerprints always explain the verdict: unknown means none, trusted or revoked means the presented one is listed, changed means others only |
| HostKeys.MatchedLinesAre | src/core/host_key.rs:305-307 | the reported lines are exactly those of matching entries that came from text |
| HostKeys.DecisionOrderIrrelevant | src/core/host_key.rs:290-341 | permuting the entries never changes the verdict |
| Trust.TofuHostKeyVerifier.Verify | src/core/host_key.rs:391-403 | one locked step: an unknown key is recorded and trusted, any other verdict is returned with the store unchanged |
| Trust.TofuHostKeyVerifier.Check | src/core/host_key.rs:405-415 | the read-locked check reports the store's verdict |
| Trust.ClientHandler.CheckServerKey | src/core/session.rs:31-72 | for the strict, the trust-on-first-use and any other verifier: the connection goes on exactly for keys the policy trusts, only first use changes the store, and a refusal carries the whole observation of the unchanged store |
| Trust.FirstUsePins | src/core/host_key.rs:391-403 | after first use the host is pinned to that key if and only if its token matches itself; otherwise it stays unknown for every key |
| Trust.TofuPinning | src/core/host_key.rs:391-403 | in every run from every store, all later calls for a token accepted on first use are Trusted for the same fingerprint and Changed for any other |
| Trust.NeverPinned | src/core/host_key.rs:391-403 | without self-matching every call for the token records another entry and the host stays unknown |
| Trust.OneEntryPerToken | src/core/host_key.rs:391-403 | racing calls with any keys add at most one entry per self-matching token |
| Trust.RunsOnlyAppend | src/core/host_key.rs:391-403 | a run keeps the starting entries, only appends unmarked entries of its own calls, and never answers Unknown |
| Trust.TrustedAndRevokedLast | src/core/host_key.rs:391-403 | Trusted and Revoked verdicts survive every run, on any host names |
| Trust.ChangedFlips | src/core/host_key.rs:391-403 | a run turns Changed into Trusted exactly when one of its calls is accepted on first use with that key under a pattern covering the token, and into nothing else |
| Trust.ChangedLasts | src/core/host_key.rs:391-403 | Changed survives every run over plain host tokens |
| Trust.WildcardUnpins | src/core/host_key.rs:391-403 | a wildcard host name that makes a changed key trusted |
| Trust.RefusalStillHolds | src/core/session.rs:35-45 | calls made between the two locks do not change the refusal being reported |
| Inserted.AtMostOneEntry | src/core/host_key.rs:179-184 | any sequence of insertions leaves exactly one unmarked entry per inserted token |
| Inserted.CheckIsLookup | src/core/host_key.rs:290-341 | on a store of plain insertions every candidate is decided by map lookup |
| Inserted.ExpectedIsLookup | src/core/host_key.rs:280-288 | `expected_fingerprint` is the same lookup |
| Inserted.ListRefinesMap | src/core/host_key.rs:250-341 | the entry list refines a map from (host without brackets, port) to the fingerprint inserted last |
| KnownHostsText.Parse | src/core/host_key.rs:112-150 | fails with the number of the first line that is neither blank nor an entry, exactly when there is one; otherwise every other line yields its own entry, in order, with its number |
| KnownHostsText.ParseMeaning | src/core/host_key.rs:112-150 | the same of the specification the round trips use |
| KnownHostsText.SplitIsMarks | src/core/host_key.rs:130-134 | only `@cert-authority` and `@revoked` are markers, and a line that starts with `@` must have one |
| KnownHostsText.ContentBefore | src/core/host_key.rs:116-119 | a comment starts at the first `#` |
| KnownHostsText.PrintedLine | src/core/host_key.rs:85-98 | the printed text of an entry, character by character |
| KnownHostsText.PrintedTogether | src/core/host_key.rs:187-198 | a store prints as its entries one after another |
| KnownHostsText.LineReadBack | src/core/host_key.rs:85-98 | a printed line gives back its marker, patterns, key and fingerprint |
| KnownHostsText.PrintedIsReadBack | src/core/host_key.rs:187-198 | printing then parsing any printable store yields its keyed entries in order, renumbered from 1: fingerprint-only entries are exactly what is lost |
| KnownHostsText.ParsePrintParse | src/core/host_key.rs:112-198 | parse, print, parse gives the same entries, renumbered from 1, for every accepted text |
| KnownHostsText.DecideIgnoresLines | src/core/host_key.rs:301-340 | line numbers never influence a verdict |
| KnownHostsText.SavedRunKeepsVerdicts | src/core/host_key.rs:382-403 | a trust-on-first-use session saved as text and loaded again gives every later verdict as before |
| Cancellation.InvStep | src/core/operation.rs:39-62 | every atomic step of `cancel` or `cancelled` keeps the protocol invariant and uses up work |
| Cancellation.ReturnsAndBlocks | src/core/operation.rs:50-62 | a waiter that returned saw the flag; a blocked one means no cancellation yet or a winner about to notify; at most two arms and one notification |
| Cancellation.LateWaiterReturns | src/core/operation.rs:50-53 | whoever starts waiting after the cancellation returns without arming |
| Cancellation.OneWinner | src/core/operation.rs:39-43 | at most one caller of `cancel` ever has to notify |
| Cancellation.NoLostWakeup | src/core/operation.rs:39-62 | in every interleaving, when nothing can move and someone cancelled, every waiter has returned |
| Cancellation.RunsAreShort | src/core/operation.rs:39-62 | two steps per `cancel` and six per `cancelled` bound every run |
| Deadline.ChainIsEarliest | src/core/operation.rs:106-113 | stacked timeouts give the earliest deadline offered, and none only if none was |
| Deadline.EarliestWins | src/core/operation.rs:129-167 | an operation is ended by whatever comes first of its work, the deadline and the cancellation, ties included, and runs for ever only when there is none |
| Deadline.InTimeCompletes | src/core/operation.rs:146-162 | work done by the deadline and before a cancellation completes when it is done, with its own result |
| Deadline.TimesOutIff | src/core/operation.rs:146-153 | it times out if and only if the work needs longer than the deadline leaves and nobody cancelled before |
| Deadline.UndisturbedComplete | src/core/socks5.rs:255-287 | operations that fit before the deadline and the cancellation all complete, each after the time it and those before it need |
| Deadline.EndingsAreRuns | src/core/socks5.rs:255-287 | each operation is one `run` from where the one before ended |
| Deadline.SharedDeadline | src/core/operation.rs:129-167 | any number of operations under one context, gone on with after failures or not, end by its deadline; a timeout ends exactly there, a cancellation when it was signalled, work completes only before that, and afterwards no time passes |
| Deadline.HandshakeEnds | src/core/socks5.rs:255-287 | every read, write and open of a handshake, replies after a failure included, ends within the handshake timeout and by the deadline of the connection |
| Deadline.ConnectEnds | src/core/session.rs:162-184 | connecting, directly or through a jump, ends by the parent deadline and within the two timeouts |
| Deadline.ConnectCompletes | src/core/session.rs:162-184 | when the transport and then the authentication fit into their timeouts, connecting ends as soon as both are done, with the authentication's result |
| Deadline.ConnectStops | src/core/session.rs:247-281 | the first transport operation that does not succeed ends the connection, without authentication |
| Relay.InvStep | src/core/relay.rs:405-450 | every atomic step of every connection and loop keeps the accounts |
| Relay.Accounting | src/core/relay.rs:220-243 | in every reachable state accepted = rejected + in flight + completed, failures are completions and no counter is negative |
| Relay.NoUnderflow | src/core/relay.rs:457-463 | the guard's decrement never meets zero |
| Relay.PermitsBoundActive | src/core/relay.rs:428-447 | per run free permits plus holders equal the limit, and the active counter stays below the sum of the limits of all runs |
| Relay.PolicyAndDispatch | src/core/relay.rs:113-116 | a peer refused by the policy never held a permit, and a run dispatches one connection at a time |
| Relay.Admission | src/core/relay.rs:414-434 | in every reachable state a counted peer is let in if and only if it is listed, and then gets a permit if and only if one is free |
| Relay.RefusedForCause | src/core/relay.rs:414-434 | on every run a rejected peer was not listed or met all permits held |
| Relay.StepKeeps | src/core/relay.rs:405-450 | limits, peers and other connections are untouched by every step, and new runs and connections start as given |
| Relay.EndingKept | src/core/relay.rs:228-243 | how a connection ended is what its completion and the failure count see |
| Relay.Progress | src/core/relay.rs:405-450 | no connection is ever stuck and each is final after at most eight steps of its own |
| Relay.Quiescent | src/core/relay.rs:441-449 | when all connections are final nothing is active, all permits are back and accepted = rejected + completed |
| Relay.CountersGrow | src/core/relay.rs:207-218 | the monotone counters never decrease between two reads |
| RelayBytes.ByteStats.RecordRead | src/core/relay.rs:245-251 | adds to the counter of one direction only |
| RelayBytes.CountingStream.PollRead | src/core/relay.rs:637-649 | exactly the bytes a poll delivered are counted, in the stream's own direction; pending and failed polls count nothing |
| RelayBytes.BytesConserved | src/core/relay.rs:572-649 | over all connections each direction's counter equals bytes read, which equals bytes delivered in order plus bytes still buffered |
| RelayBytes.FlowsCarryPolls | src/core/relay.rs:572-649 | every connection has one flow each way; it read exactly what its polls delivered and passed on the first of these bytes, as many as were written |
| Socks5.ClientStream.ReadExact | src/core/socks5.rs:511-531 | the result and what is consumed depend on the bytes and not on their fragmentation, also when the operation breaks |
| Socks5.ClientStream.WriteAll | src/core/socks5.rs:533-549 | sends the whole buffer, or a prefix when it breaks |
| Socks5.Authenticate | src/core/socks5.rs:313-422 | the negotiation refines its specification on the joined bytes, whose replies the rows on refusals and `AuthenticatedConverse` give byte by byte |
| Socks5.ReadConnectRequest | src/core/socks5.rs:424-479 | the parser refines its specification, including which failures are answered with which code |
| Socks5.HandleConnection | src/core/socks5.rs:249-311 | everything the session does is a function of the joined client bytes, however they are cut |
| Socks5Session.EncodedIsParsed | src/core/socks5.rs:424-479 | every valid request parses back from its encoding and leaves exactly the bytes after it |
| Socks5Session.ParsedIsEncoded | src/core/socks5.rs:424-479 | every successful parse consumed exactly the encoding of its result |
| Socks5Session.EncodingsPrefixFree | src/core/socks5.rs:424-479 | no request encoding is a prefix of another's |
| Socks5Session.AuthenticatedConverse | src/core/socks5.rs:313-422 | authentication succeeds only after a greeting offering the method and exactly the configured credentials |
| Socks5Session.SessionTranscript | src/core/socks5.rs:249-311 | every session stops while negotiating or continues the welcome with a refusal, a failed open, or an open, one Succeeded reply and the relay, in that order |
| Socks5Session.OutputIsPrefix | src/core/socks5.rs:334-419 | the bytes written are a prefix of method reply, credential reply if required, connect reply with one of four codes, and end with the first refusal |
| Socks5Session.OpensOnlyWhenAsked | src/core/socks5.rs:258-289 | a channel is opened only for an authenticated client that asked to CONNECT to exactly that target, and the relay gets exactly the unread bytes |
| Socks5Session.OpensWhenAsked | src/core/socks5.rs:258-289 | on a stream that does not break such a client always gets its channel attempted and the matching replies |
| Socks5Session.MethodRefused | src/core/socks5.rs:334-365 | a greeting without the required method is answered by exactly the bytes 5, 255 |
| Socks5Session.CredentialsRefused | src/core/socks5.rs:369-419 | any complete credentials but the configured ones are answered by exactly 5, 2 and 1, 1 |
| Socks5Session.VersionRefused | src/core/socks5.rs:321-327 | another version is not answered |
| Socks5Session.CredentialVersionRefused | src/core/socks5.rs:376-383 | another credential version is not answered after the method |
| Socks5Session.RequestRefused | src/core/socks5.rs:260-279 | an authenticated client gets exactly code 7 for another command, 8 for another address type and 1 for anything that starts no request |
| Socks5Session.HandshakeBounded | src/core/socks5.rs:321-469 | the handshake never consumes more than 1032 bytes |
| Auth.AuthenticationObservation.RecordFailure | src/core/auth.rs:332-347 | the observation takes the rejection's methods and flag and one more attempt |
| Auth.AuthenticationObservation.RecordError | src/core/auth.rs:349-357 | an error adds an attempt and leaves the methods and flag alone |
| AuthRuns.HashesOffered | src/core/session.rs:646-670 | the server is asked once, and only for automatic selection of an RSA key; a hash is offered if and only if the selection or the server's answer calls for it, SHA-512 first; it fails exactly when the question is not answered |
| AuthRuns.CandidatesUnique | src/core/session.rs:646-670 | the condition above leaves no choice of the list of hashes |
| Auth.AuthenticatePrivateKey | src/core/session.rs:598-623 | refines the specification of one key under its hashes |
| Auth.AuthenticateAgent | src/core/session.rs:761-799 | refines the specification of the nested identity and hash loops |
| Auth.AuthenticateKeyboardInteractive | src/core/session.rs:672-735 | refines the specification of the challenge loop |
| Auth.Authenticate | src/core/session.rs:506-539 | refines the specification of the plan, whose meaning on replies is `PlanOnReplies`; an empty plan sends nothing |
| AuthRuns.AttemptReads | src/core/session.rs:548-816 | for each of the five methods: which requests it makes, that replies come in script order, and that the last reply alone (or the local failure) decides: success accepts, failure rejects with its methods and flag |
| AuthRuns.PlanOnReplies | src/core/session.rs:506-539 | over all exchanges the plan succeeds if and only if the last reply is the server's success; otherwise every attempt is recorded with what its replies said |
| AuthRuns.LastFailureSeen | src/core/session.rs:517-538 | after a last reply of failure the observation has its methods and flag, unless an agent without identities was tried later, which clears them |
| AuthRuns.PlanOutcome | src/core/session.rs:517-538 | success exactly when the last attempt is accepted; otherwise the attempts are the tried prefix of the plan, complete unless an error closed the connection, with the last attempt's own error and the last rejection's methods |
| AuthRuns.VerdictRejection | src/core/auth.rs:331-358 | the methods and flag come from the last rejection, untouched by later errors |
| AuthRuns.HashesInOrder | src/core/session.rs:609-622 | one request per hash in order until the first answer that is not a rejection, which is the result |
| AuthRuns.KeyInOrder | src/core/session.rs:598-623 | a key that cannot be unlocked sends nothing; otherwise the exchanges are the question if due and then at least one request in hash order, unless the question failed, and the last one's answer or error is the result |
| AuthRuns.AgentInOrder | src/core/session.rs:782-797 | the exchanges are one such turn per identity, in order and without gaps, up to the first acceptance or error; its answer, or the last rejection, or the default without identities, is the result; at most two requests per identity |
| AuthRuns.InteractiveAlternates | src/core/session.rs:682-734 | response k answers challenge k prompt by prompt, nothing is sent after the reply or handler failure that ends the loop, and that decides the result |
| AuthRuns.EndlessScript | src/core/session.rs:682-734 | over an endless script, a run that ends by itself ends in the same way over every longer part, and until then all parts send the same responses |

## Left out

- KnownHostsText.Parse: the part of a line after the marker is read by the ssh-key library, represented by a codec of
  which only `Inverse` is assumed (it can print what it read and read that again); the marker words follow sshd(8).
- HostPattern.SingleHostPatternMatches: base64 and HMAC-SHA1 are one uninterpreted relation of salt, digest and candidate.
- Auth.AuthenticateKeyboardInteractive: the method runs over finite scripts that end with a lost connection; that
  endless ones behave like their finite parts is `EndlessScript`, a statement about its specification.
- Trust.ClientHandler.CheckServerKey: a verifier written by the application is known only by the outcomes of its calls.
- Auth.AuthenticateMethod: decryption, certificate checks, agent access and transport replies are given outcomes; a
  reply of a shape the request cannot have counts as a transport error.
- Socks5.ReadConnectRequest: addresses stay bytes and UTF-8 validity is a predicate; their text form is the standard library's.
- Relay.Accounting: counters are unbounded integers; their 64-bit wrap-around is not modelled.
- Relay.CountersGrow: relations between fields of one snapshot are not stated, because its fields are loaded one at a time.
- RelayBytes.BytesConserved: `copy_bidirectional` is tokio's; it is any interleaving of buffered reads and short writes.
- Deadline.ConnectEnds: the clock is ideal and scheduling takes no time; operations already past the deadline end at once.
- Cancellation.NoLostWakeup: `Notify` is the generation counter that tokio's documentation describes; memory is sequentially consistent.
- Lock poisoning, task panics and runtime shutdown.
- File access, sockets, error wording, secret handling and debug output.
- The terminal, SFTP, channel, configuration and error modules: wrappers and single-branch validation.
- The accept loop of the SOCKS5 proxy: the permit discipline is the relay's without counters.
