/** What an authentication plan does against every server script (src/core/session.rs). */
module AuthRuns {
  import opened Wrappers
  import opened Auth

  // ----- the plan -----

  /** The answers of the methods that are attempted: up to an acceptance or an error that closed the connection. */
  function Tried(attempt: Attempter, l: Link, plan: seq<AuthMethod>, closed: Closed, n: nat): seq<Answer>
    decreases |plan|
  {
    if plan == [] then [] else
      var (answer, after) := attempt(l, plan[0]);
      if Accepts(answer) || (answer.Err? && closed(n)) then [answer]
      else [answer] + Tried(attempt, after, plan[1..], closed, n + 1)
  }

  function Records(plan: seq<AuthMethod>, tried: seq<Answer>): seq<Record>
    requires |tried| <= |plan|
  {
    seq(|tried|, k requires 0 <= k < |tried| => RecordOf(KindOf(plan[k]), tried[k]))
  }

  predicate Rejects(a: Answer) {
    a.Ok? && !a.value.accepted
  }

  /** The remaining methods and partial-success flag are those of the last rejection, or of `o` without one. */
  ghost predicate FromLastRejection(tried: seq<Answer>, o: Observation, seen: Observation) {
    || (&& (forall k :: 0 <= k < |tried| ==> tried[k].Err?)
        && seen.remaining == o.remaining && seen.partial == o.partial)
    || exists k :: 0 <= k < |tried| && IsLastRejection(tried, k, seen)
  }

  predicate IsLastRejection(tried: seq<Answer>, k: nat, seen: Observation)
    requires k < |tried|
  {
    && Rejects(tried[k]) && seen.remaining == tried[k].value.remaining && seen.partial == tried[k].value.partial
    && forall j :: k < j < |tried| ==> tried[j].Err?
  }

  lemma RejectionBefore(first: Answer, rest: seq<Answer>, kind: Kind, o: Observation, seen: Observation)
    requires !Accepts(first) && FromLastRejection(rest, Observed(o, kind, first), seen)
    ensures FromLastRejection([first] + rest, o, seen)
  {
    var tried := [first] + rest;
    if k :| 0 <= k < |rest| && IsLastRejection(rest, k, seen) {
      assert tried[k + 1] == rest[k];
      assert IsLastRejection(tried, k + 1, seen);
    } else if Rejects(first) {
      assert IsLastRejection(tried, 0, seen);
    }
  }

  /** Every attempt but the last was followed by another: no acceptance, and no error with the connection closed. */
  predicate WentOn(tried: seq<Answer>, closed: Closed, n: nat) {
    forall k :: 0 <= k < |tried| - 1 ==> !Accepts(tried[k]) && (tried[k].Err? ==> !closed(n + k))
  }

  lemma WentOnBefore(first: Answer, rest: seq<Answer>, closed: Closed, n: nat)
    requires !Accepts(first) && (first.Err? ==> !closed(n)) && WentOn(rest, closed, n + 1)
    ensures WentOn([first] + rest, closed, n)
  {
    forall k | 0 <= k < |rest|
      ensures !Accepts(([first] + rest)[k]) && (([first] + rest)[k].Err? ==> !closed(n + k))
    {
      if k > 0 {
        assert ([first] + rest)[k] == rest[k - 1] && n + k == n + 1 + (k - 1);
      }
    }
  }

  /** The methods attempted: all before the last went on to the next one, and the last ended the plan unless it was exhausted. */
  lemma {:induction false} TriedShape(attempt: Attempter, l: Link, plan: seq<AuthMethod>, closed: Closed, n: nat)
    ensures var tried := Tried(attempt, l, plan, closed, n); var last := |tried| - 1;
      && |tried| <= |plan| && (plan != [] ==> tried != []) && WentOn(tried, closed, n)
      && (|tried| < |plan| ==> Accepts(tried[last]) || (tried[last].Err? && closed(n + last)))
    decreases |plan|
  {
    if plan != [] {
      var (answer, after) := attempt(l, plan[0]);
      if !Accepts(answer) && (answer.Err? ==> !closed(n)) {
        TriedShape(attempt, after, plan[1..], closed, n + 1);
        var rest := Tried(attempt, after, plan[1..], closed, n + 1);
        WentOnBefore(answer, rest, closed, n);
      }
    }
  }

  /** The plan's result read off the answers alone. */
  function Verdict(plan: seq<AuthMethod>, tried: seq<Answer>, o: Observation, lastError: Option<Error>): Result<(), Refusal>
    requires |tried| <= |plan|
    decreases |tried|
  {
    if tried == [] then Err(Refusal(if lastError.Some? then lastError.value else AUTHENTICATION_FAILED, o))
    else if Accepts(tried[0]) then Ok(())
    else Verdict(plan[1..], tried[1..], Observed(o, KindOf(plan[0]), tried[0]),
                 if tried[0].Ok? then None else Some(tried[0].error))
  }

  lemma {:induction false} RunIsVerdict(attempt: Attempter, l: Link, plan: seq<AuthMethod>, closed: Closed, n: nat, o: Observation, lastError: Option<Error>)
    requires |Tried(attempt, l, plan, closed, n)| <= |plan|
    ensures RunPlan(attempt, l, plan, closed, n, o, lastError).0 == Verdict(plan, Tried(attempt, l, plan, closed, n), o, lastError)
    decreases |plan|
  {
    if plan != [] {
      var (answer, after) := attempt(l, plan[0]);
      var error := if answer.Ok? then None else Some(answer.error);
      var rest := Tried(attempt, after, plan[1..], closed, n + 1);
      if Accepts(answer) || (answer.Err? && closed(n)) {
        assert [answer][1..] == [];
      } else {
        assert Tried(attempt, l, plan, closed, n) == [answer] + rest;
        assert ([answer] + rest)[1..] == rest;
        RunIsVerdict(attempt, after, plan[1..], closed, n + 1, Observed(o, KindOf(plan[0]), answer), error);
      }
    }
  }

  lemma {:induction false} VerdictMeaning(plan: seq<AuthMethod>, tried: seq<Answer>, o: Observation, lastError: Option<Error>)
    requires |tried| <= |plan|
    requires forall k :: 0 <= k < |tried| - 1 ==> !Accepts(tried[k])
    ensures var r := Verdict(plan, tried, o, lastError);
      && (r.Ok? <==> tried != [] && Accepts(tried[|tried| - 1]))
      && (r.Err? ==> r.error.error == LastError(tried, lastError))
      && (r.Err? ==> r.error.observation.attempts == o.attempts + Records(plan, tried))
    decreases |tried|
  {
    if tried == [] {
      assert o.attempts + [] == o.attempts;
    } else if !Accepts(tried[0]) {
      var first, rest := tried[0], tried[1..];
      var seen := Observed(o, KindOf(plan[0]), first);
      VerdictMeaning(plan[1..], rest, seen, if first.Ok? then None else Some(first.error));
      assert Records(plan, tried) == [RecordOf(KindOf(plan[0]), first)] + Records(plan[1..], rest);
      assert o.attempts + Records(plan, tried) == seen.attempts + Records(plan[1..], rest);
    }
  }

  lemma {:induction false} VerdictRejection(plan: seq<AuthMethod>, tried: seq<Answer>, o: Observation, lastError: Option<Error>)
    requires |tried| <= |plan|
    ensures var r := Verdict(plan, tried, o, lastError); r.Err? ==> FromLastRejection(tried, o, r.error.observation)
    decreases |tried|
  {
    if tried != [] && !Accepts(tried[0]) {
      var first, rest := tried[0], tried[1..];
      var error := if first.Ok? then None else Some(first.error);
      var seen := Observed(o, KindOf(plan[0]), first);
      VerdictRejection(plan[1..], rest, seen, error);
      assert tried == [first] + rest;
      var r := Verdict(plan[1..], rest, seen, error);
      if r.Err? {
        RejectionBefore(first, rest, KindOf(plan[0]), o, r.error.observation);
      }
    }
  }

  /** The last attempt's own error, or the general one if that attempt was a rejection. */
  function LastError(tried: seq<Answer>, lastError: Option<Error>): Error {
    if tried == [] then (if lastError.Some? then lastError.value else AUTHENTICATION_FAILED)
    else match tried[|tried| - 1] case Err(error) => error case Ok(_) => AUTHENTICATION_FAILED
  }

  /** The whole plan, over every server script and every way its methods can go. */
  lemma PlanOutcome(attempt: Attempter, l: Link, plan: seq<AuthMethod>, closed: Closed)
    requires plan != []
    ensures var r, tried := RunPlan(attempt, l, plan, closed, 0, NOTHING_OBSERVED, None).0, Tried(attempt, l, plan, closed, 0);
      var last := |tried| - 1;
      && 0 < |tried| <= |plan|
      && WentOn(tried, closed, 0)
      && (r.Ok? <==> Accepts(tried[last]))
      && (r.Err? ==>
            && (|tried| == |plan| || (tried[last].Err? && closed(last)))
            && r.error.observation.attempts == Records(plan, tried)
            && r.error.error == LastError(tried, None)
            && FromLastRejection(tried, NOTHING_OBSERVED, r.error.observation))
  {
    var tried := Tried(attempt, l, plan, closed, 0);
    TriedShape(attempt, l, plan, closed, 0);
    RunIsVerdict(attempt, l, plan, closed, 0, NOTHING_OBSERVED, None);
    VerdictMeaning(plan, tried, NOTHING_OBSERVED, None);
    VerdictRejection(plan, tried, NOTHING_OBSERVED, None);
    assert [] + Records(plan, tried) == Records(plan, tried);
  }

  // ----- the server's script -----

  /** The n-th reply still to come. */
  function NextReply(script: seq<Reply>, n: nat): Reply {
    if n < |script| then script[n] else Broken(CONNECTION_LOST)
  }

  /** Between two links exactly these exchanges took place, answered in script order. */
  predicate Exchanged(l: Link, added: seq<Exchange>, after: Link) {
    && after.log == l.log + added
    && after.script == (if |added| <= |l.script| then l.script[|added|..] else [])
    && forall k :: 0 <= k < |added| ==> added[k].reply == NextReply(l.script, k)
  }

  lemma ExchangedNone(l: Link)
    ensures Exchanged(l, [], l)
  {
    assert l.log + [] == l.log;
  }

  lemma ExchangedOne(l: Link, request: Request)
    ensures Exchanged(l, [Exchange(request, Ask(l, request).0)], Ask(l, request).1)
  {
  }

  lemma ExchangedJoin(l: Link, a: seq<Exchange>, middle: Link, b: seq<Exchange>, after: Link)
    requires Exchanged(l, a, middle) && Exchanged(middle, b, after)
    ensures Exchanged(l, a + b, after)
  {
    assert l.log + a + b == l.log + (a + b);
    forall k | |a| <= k < |a + b| ensures (a + b)[k].reply == NextReply(l.script, k) {
      assert (a + b)[k] == b[k - |a|];
    }
  }

  // ----- which hashes -----

  /** Only automatic selection for an RSA key asks the server, and once. */
  predicate Question(isRsa: bool, choice: RsaChoice, query: seq<Exchange>) {
    if isRsa && choice == Auto then |query| == 1 && query[0].request == HashQuery else query == []
  }

  predicate Said(query: seq<Exchange>, reply: Reply) {
    query != [] && query[0].reply == reply
  }

  /** Whether a key is offered under this hash, given what the server said; `None` is SHA-1 for an RSA key. */
  predicate Offered(isRsa: bool, choice: RsaChoice, query: seq<Exchange>, hash: Option<Hash>) {
    match hash
    case None => !isRsa || choice == LegacySha1 || Said(query, BestHash(Some(None)))
    case Some(Sha256) => isRsa && (choice == Always256 || Said(query, BestHash(Some(hash))) || Said(query, BestHash(None)))
    case Some(Sha512) => isRsa && (choice == Always512 || Said(query, BestHash(Some(hash))) || Said(query, BestHash(None)))
  }

  /** The hashes offered are these, the stronger one first; together with the order this determines the list. */
  ghost predicate Candidates(isRsa: bool, choice: RsaChoice, query: seq<Exchange>, hashes: seq<Option<Hash>>) {
    && (forall hash :: hash in hashes <==> Offered(isRsa, choice, query, hash))
    && (|hashes| == 1 || hashes == [Some(Sha512), Some(Sha256)])
  }

  /** The server was asked and did not answer the question. */
  predicate Unanswered(query: seq<Exchange>) {
    query != [] && !query[0].reply.BestHash?
  }

  function QueryError(reply: Reply): Error {
    if reply.Broken? then reply.error else UNEXPECTED
  }

  /**
   When the server is asked, and what its answer decides: a hash is offered if
   and only if the selection or the server calls for it, and finding candidates
   fails if and only if the question was asked and not answered.
   */
  lemma HashesOffered(l: Link, isRsa: bool, choice: RsaChoice) returns (query: seq<Exchange>)
    ensures var (candidates, after) := HashCandidates(l, isRsa, choice);
      && Exchanged(l, query, after) && Question(isRsa, choice, query)
      && (if Unanswered(query) then candidates == Err(QueryError(query[0].reply))
          else candidates.Ok? && Candidates(isRsa, choice, query, candidates.value))
  {
    query := [];
    ExchangedNone(l);
    ExchangedOne(l, HashQuery);
    if isRsa && choice == Auto {
      query := [Exchange(HashQuery, Ask(l, HashQuery).0)];
    }
  }

  lemma TwoCandidates(isRsa: bool, choice: RsaChoice, query: seq<Exchange>, hashes: seq<Option<Hash>>)
    requires Candidates(isRsa, choice, query, hashes)
    ensures |hashes| == 2 <==> Offered(isRsa, choice, query, Some(Sha512)) && Offered(isRsa, choice, query, Some(Sha256))
  {
    assert Offered(isRsa, choice, query, Some(Sha512)) <==> Some(Sha512) in hashes;
    assert Offered(isRsa, choice, query, Some(Sha256)) <==> Some(Sha256) in hashes;
  }

  /** `Candidates` leaves no choice of the list. */
  lemma CandidatesUnique(isRsa: bool, choice: RsaChoice, query: seq<Exchange>, a: seq<Option<Hash>>, b: seq<Option<Hash>>)
    requires Candidates(isRsa, choice, query, a) && Candidates(isRsa, choice, query, b)
    ensures a == b
  {
    TwoCandidates(isRsa, choice, query, a);
    TwoCandidates(isRsa, choice, query, b);
    if |a| == 1 {
      assert a[0] in a && a[0] in b;
    }
  }

  // ----- keys -----

  /** The requests of one key, hash by hash. */
  function OneIdentity(identity: nat, hashes: seq<Option<Hash>>): seq<Request> {
    seq(|hashes|, k requires 0 <= k < |hashes| => KeyRequest(identity, hashes[k]))
  }

  /** The requests are a prefix of the schedule, and every one but the last was rejected. */
  predicate Follow(keys: seq<Exchange>, schedule: seq<Request>) {
    && |keys| <= |schedule|
    && (forall k :: 0 <= k < |keys| ==> keys[k].request == schedule[k])
    && (forall k :: 0 <= k < |keys| - 1 ==> Rejects(AnswerOf(keys[k].reply)))
  }

  /** What answering with `last` before any exchange means after these exchanges. */
  function LastAnswer(keys: seq<Exchange>, last: Outcome): Answer {
    if keys == [] then Ok(last) else AnswerOf(keys[|keys| - 1].reply)
  }

  predicate HashRun(identity: nat, hashes: seq<Option<Hash>>, last: Outcome, answer: Answer, keys: seq<Exchange>) {
    && Follow(keys, OneIdentity(identity, hashes))
    && answer == LastAnswer(keys, last)
    && (|keys| < |hashes| ==> keys != [] && !Rejects(answer))
  }

  lemma HashRunMore(identity: nat, hashes: seq<Option<Hash>>, last: Outcome, reply: Reply, answer: Answer, rest: seq<Exchange>)
    requires hashes != [] && Rejects(AnswerOf(reply))
    requires HashRun(identity, hashes[1..], AnswerOf(reply).value, answer, rest)
    ensures HashRun(identity, hashes, last, answer, [Exchange(KeyRequest(identity, hashes[0]), reply)] + rest)
  {
    var keys, schedule := [Exchange(KeyRequest(identity, hashes[0]), reply)] + rest, OneIdentity(identity, hashes);
    forall k | 0 <= k < |keys| ensures keys[k].request == schedule[k] {
      if k > 0 {
        assert keys[k] == rest[k - 1] && schedule[k] == OneIdentity(identity, hashes[1..])[k - 1];
      }
    }
    forall k | 0 <= k < |keys| - 1 ensures Rejects(AnswerOf(keys[k].reply)) {
      if k > 0 {
        assert keys[k] == rest[k - 1];
      }
    }
  }

  /** One key: a request per hash until one is not rejected, and the last answer is the result. */
  lemma {:induction false} HashesInOrder(l: Link, identity: nat, hashes: seq<Option<Hash>>, last: Outcome)
    returns (keys: seq<Exchange>)
    ensures var (answer, after) := TryHashes(l, identity, hashes, last);
      Exchanged(l, keys, after) && HashRun(identity, hashes, last, answer, keys)
    decreases |hashes|
  {
    keys := [];
    ExchangedNone(l);
    if hashes != [] {
      var request := KeyRequest(identity, hashes[0]);
      var (reply, after) := Ask(l, request);
      keys := [Exchange(request, reply)];
      ExchangedOne(l, request);
      if Rejects(AnswerOf(reply)) {
        var (answer, end) := TryHashes(after, identity, hashes[1..], AnswerOf(reply).value);
        var rest := HashesInOrder(after, identity, hashes[1..], AnswerOf(reply).value);
        HashRunMore(identity, hashes, last, reply, answer, rest);
        ExchangedJoin(l, keys, after, rest, end);
        keys := keys + rest;
      }
    }
  }

  /** What one key makes the client exchange: perhaps a question about hashes, then its requests. */
  datatype Turn = Turn(query: seq<Exchange>, hashes: seq<Option<Hash>>, keys: seq<Exchange>, answer: Answer)

  /**
   A turn ends with the failed question, or makes at least one request, under the
   hashes the selection and the server call for, and takes the answer of its last.
   */
  ghost predicate TurnRun(isRsa: bool, choice: RsaChoice, identity: nat, turn: Turn) {
    && Question(isRsa, choice, turn.query)
    && if Unanswered(turn.query) then turn.hashes == [] && turn.keys == [] && turn.answer == Err(QueryError(turn.query[0].reply))
       else && Candidates(isRsa, choice, turn.query, turn.hashes)
            && turn.keys != []
            && HashRun(identity, turn.hashes, NOT_TRIED, turn.answer, turn.keys)
  }

  lemma OneTurn(l: Link, identity: nat, isRsa: bool, choice: RsaChoice, last: Outcome) returns (turn: Turn)
    ensures var (answer, after) := TryKey(l, identity, isRsa, choice, last);
      Exchanged(l, turn.query + turn.keys, after) && turn.answer == answer && TurnRun(isRsa, choice, identity, turn)
  {
    var (candidates, middle) := HashCandidates(l, isRsa, choice);
    var (answer, after) := TryCandidates(middle, identity, candidates, last);
    var query := HashesOffered(l, isRsa, choice);
    turn := Turn(query, [], [], answer);
    if candidates.Ok? {
      var keys := HashesInOrder(middle, identity, candidates.value, last);
      turn := Turn(query, candidates.value, keys, answer);
      ExchangedJoin(l, query, middle, keys, after);
    } else {
      assert query + [] == query;
    }
  }

  /** A private key is one turn; a key that cannot be unlocked sends nothing. */
  lemma KeyInOrder(l: Link, locked: Option<Error>, isRsa: bool, choice: RsaChoice) returns (turn: Turn)
    ensures var (answer, after) := Attempt(l, PrivateKey(locked, isRsa, choice));
      if locked.Some? then answer == Err(locked.value) && after == l
      else Exchanged(l, turn.query + turn.keys, after) && turn.answer == answer && TurnRun(isRsa, choice, 0, turn)
  {
    turn := OneTurn(l, 0, isRsa, choice, NOT_TRIED);
  }

  function TurnsLog(turns: seq<Turn>): seq<Exchange> {
    if turns == [] then [] else turns[0].query + turns[0].keys + TurnsLog(turns[1..])
  }

  /**
   One turn per identity, in order and without gaps.  Every turn but the last
   ended in a rejection, the last turn's answer is the result, and identities
   are left untried only after an acceptance or an error.
   */
  ghost predicate AgentRun(identities: seq<bool>, from: nat, choice: RsaChoice, last: Outcome, answer: Answer, turns: seq<Turn>)
    requires from <= |identities|
  {
    && |turns| <= |identities| - from
    && (forall k :: 0 <= k < |turns| ==> TurnRun(identities[from + k], choice, from + k, turns[k]))
    && (forall k :: 0 <= k < |turns| - 1 ==> Rejects(turns[k].answer))
    && answer == (if turns == [] then Ok(last) else turns[|turns| - 1].answer)
    && (|turns| < |identities| - from ==> turns != [] && !Rejects(answer))
  }

  lemma AgentRunMore(identities: seq<bool>, from: nat, choice: RsaChoice, last: Outcome, answer: Answer, turn: Turn, rest: seq<Turn>)
    requires from < |identities| && TurnRun(identities[from], choice, from, turn) && Rejects(turn.answer)
    requires AgentRun(identities, from + 1, choice, turn.answer.value, answer, rest)
    ensures AgentRun(identities, from, choice, last, answer, [turn] + rest)
  {
    var turns := [turn] + rest;
    forall k | 0 <= k < |turns| ensures TurnRun(identities[from + k], choice, from + k, turns[k]) {
      if k > 0 {
        assert turns[k] == rest[k - 1] && from + k == from + 1 + (k - 1);
      }
    }
    forall k | 0 <= k < |turns| - 1 ensures Rejects(turns[k].answer) {
      if k > 0 {
        assert turns[k] == rest[k - 1];
      }
    }
  }

  lemma AgentRunOne(identities: seq<bool>, from: nat, choice: RsaChoice, last: Outcome, turn: Turn)
    requires from < |identities| && TurnRun(identities[from], choice, from, turn) && !Rejects(turn.answer)
    ensures AgentRun(identities, from, choice, last, turn.answer, [turn])
  {
  }

  lemma TurnsLogMore(l: Link, turn: Turn, middle: Link, rest: seq<Turn>, after: Link)
    requires Exchanged(l, turn.query + turn.keys, middle) && Exchanged(middle, TurnsLog(rest), after)
    ensures Exchanged(l, TurnsLog([turn] + rest), after)
  {
    assert ([turn] + rest)[1..] == rest;
    ExchangedJoin(l, turn.query + turn.keys, middle, TurnsLog(rest), after);
  }

  ghost predicate IdentitiesRun(l: Link, identities: seq<bool>, from: nat, choice: RsaChoice, last: Outcome,
                                result: (Answer, Link), turns: seq<Turn>)
    requires from <= |identities|
  {
    Exchanged(l, TurnsLog(turns), result.1) && AgentRun(identities, from, choice, last, result.0, turns)
  }

  lemma IdentitiesMore(l: Link, identities: seq<bool>, from: nat, choice: RsaChoice, last: Outcome, turn: Turn, middle: Link,
                       result: (Answer, Link), rest: seq<Turn>)
    requires from < |identities| && TurnRun(identities[from], choice, from, turn) && Exchanged(l, turn.query + turn.keys, middle)
    requires Rejects(turn.answer) && IdentitiesRun(middle, identities, from + 1, choice, turn.answer.value, result, rest)
    ensures IdentitiesRun(l, identities, from, choice, last, result, [turn] + rest)
  {
    AgentRunMore(identities, from, choice, last, result.0, turn, rest);
    TurnsLogMore(l, turn, middle, rest, result.1);
  }

  lemma IdentitiesOne(l: Link, identities: seq<bool>, from: nat, choice: RsaChoice, last: Outcome, turn: Turn, middle: Link)
    requires from < |identities| && TurnRun(identities[from], choice, from, turn) && Exchanged(l, turn.query + turn.keys, middle)
    requires !Rejects(turn.answer)
    ensures IdentitiesRun(l, identities, from, choice, last, (turn.answer, middle), [turn])
  {
    AgentRunOne(identities, from, choice, last, turn);
    ExchangedNone(middle);
    TurnsLogMore(l, turn, middle, [], middle);
    assert [turn] + [] == [turn];
  }

  /** One identity before those after it, whose turns are only needed when it is rejected. */
  lemma IdentitiesStep(l: Link, identities: seq<bool>, from: nat, choice: RsaChoice, last: Outcome, rest: seq<Turn>)
    returns (turns: seq<Turn>)
    requires from < |identities|
    requires var (first, middle) := TryKey(l, from, identities[from], choice, last);
      Rejects(first) ==>
        IdentitiesRun(middle, identities, from + 1, choice, first.value, TryIdentities(middle, identities, from + 1, choice, first.value), rest)
    ensures IdentitiesRun(l, identities, from, choice, last, TryIdentities(l, identities, from, choice, last), turns)
  {
    var (first, middle) := TryKey(l, from, identities[from], choice, last);
    var turn := OneTurn(l, from, identities[from], choice, last);
    if Rejects(first) {
      turns := [turn] + rest;
      IdentitiesMore(l, identities, from, choice, last, turn, middle,
                     TryIdentities(middle, identities, from + 1, choice, first.value), rest);
    } else {
      turns := [turn];
      IdentitiesOne(l, identities, from, choice, last, turn, middle);
    }
  }

  lemma {:induction false} IdentitiesInOrder(l: Link, identities: seq<bool>, from: nat, choice: RsaChoice, last: Outcome)
    returns (turns: seq<Turn>)
    requires from <= |identities|
    ensures IdentitiesRun(l, identities, from, choice, last, TryIdentities(l, identities, from, choice, last), turns)
    decreases |identities| - from
  {
    turns := [];
    if from == |identities| {
      ExchangedNone(l);
    } else {
      var (first, middle) := TryKey(l, from, identities[from], choice, last);
      if Rejects(first) {
        turns := IdentitiesInOrder(middle, identities, from + 1, choice, first.value);
      }
      turns := IdentitiesStep(l, identities, from, choice, last, turns);
    }
  }

  function KeyRequests(log: seq<Exchange>): nat {
    if log == [] then 0 else (if log[0].request.KeyRequest? then 1 else 0) + KeyRequests(log[1..])
  }

  lemma {:induction false} KeyRequestsAppend(a: seq<Exchange>, b: seq<Exchange>)
    ensures KeyRequests(a + b) == KeyRequests(a) + KeyRequests(b)
  {
    if a == [] {
      assert a + b == b;
    } else {
      assert (a + b)[1..] == a[1..] + b;
      KeyRequestsAppend(a[1..], b);
    }
  }

  lemma {:induction false} KeyRequestsAtMost(log: seq<Exchange>)
    ensures KeyRequests(log) <= |log|
  {
    if log != [] {
      KeyRequestsAtMost(log[1..]);
    }
  }

  lemma TwoInTurn(isRsa: bool, choice: RsaChoice, identity: nat, turn: Turn)
    requires TurnRun(isRsa, choice, identity, turn)
    ensures KeyRequests(turn.query + turn.keys) <= 2
  {
    KeyRequestsAppend(turn.query, turn.keys);
    KeyRequestsAtMost(turn.keys);
    if turn.query != [] {
      assert turn.query[1..] == [];
    }
  }

  lemma {:induction false} TwoPerTurn(identities: seq<bool>, from: nat, choice: RsaChoice, turns: seq<Turn>)
    requires |turns| <= |identities| - from
    requires forall k :: 0 <= k < |turns| ==> TurnRun(identities[from + k], choice, from + k, turns[k])
    ensures KeyRequests(TurnsLog(turns)) <= 2 * |turns|
    decreases |turns|
  {
    if turns != [] {
      assert TurnRun(identities[from + 0], choice, from + 0, turns[0]);
      TwoInTurn(identities[from], choice, from, turns[0]);
      forall k | 0 <= k < |turns[1..]| ensures TurnRun(identities[from + 1 + k], choice, from + 1 + k, turns[1..][k]) {
        assert TurnRun(identities[from + (k + 1)], choice, from + (k + 1), turns[k + 1]);
      }
      TwoPerTurn(identities, from + 1, choice, turns[1..]);
      KeyRequestsAppend(turns[0].query + turns[0].keys, TurnsLog(turns[1..]));
    }
  }

  /**
   Agent fallback: the exchanges are one turn per identity in order, up to the
   first turn that is not a rejection, and that turn's answer, or the last
   rejection, is the result; at most two requests are made per identity.
   */
  lemma AgentInOrder(l: Link, identities: Result<seq<bool>, Error>, choice: RsaChoice) returns (turns: seq<Turn>)
    ensures var (answer, after) := Attempt(l, Agent(identities, choice));
      if identities.Err? then answer == Err(identities.error) && after == l
      else && Exchanged(l, TurnsLog(turns), after)
           && AgentRun(identities.value, 0, choice, NOT_TRIED, answer, turns)
           && KeyRequests(TurnsLog(turns)) <= 2 * |identities.value|
  {
    turns := [];
    if identities.Ok? {
      turns := IdentitiesInOrder(l, identities.value, 0, choice, NOT_TRIED);
      TwoPerTurn(identities.value, 0, choice, turns);
    }
  }

  // ----- keyboard-interactive -----

  /** The replies the loop may see: the first one, then one per response. */
  function Replies(l: Link, reply: Reply): seq<Reply> {
    [reply] + l.script + [Broken(CONNECTION_LOST)]
  }

  /** The n-th challenge was answered in full by the handler. */
  predicate Answered(handler: Handler, round: nat, reply: Reply, answers: seq<string>) {
    reply.InfoRequest? && handler(round, reply.prompts) == Ok(answers) && |answers| == |reply.prompts|
  }

  /** Why the loop stopped at this reply. */
  predicate StopsWith(handler: Handler, round: nat, reply: Reply, answer: Answer) {
    if !reply.InfoRequest? then answer == AnswerOf(reply) else
      match handler(round, reply.prompts)
      case Err(error) => answer == Err(error)
      case Ok(answers) => |answers| != |reply.prompts| && answer == Err(WRONG_ANSWER_COUNT)
  }

  predicate AllAnswered(handler: Handler, round: nat, replies: seq<Reply>, responses: seq<seq<string>>)
    requires |responses| < |replies|
  {
    forall k :: 0 <= k < |responses| ==> Answered(handler, round + k, replies[k], responses[k])
  }

  /** Each response is followed by the reply that comes next. */
  function Transcript(replies: seq<Reply>, responses: seq<seq<string>>): seq<Exchange>
    requires |responses| < |replies|
  {
    seq(|responses|, k requires 0 <= k < |responses| => Exchange(InteractiveResponse(responses[k]), replies[k + 1]))
  }

  lemma OneMoreRound(handler: Handler, round: nat, reply: Reply, answers: seq<string>, replies: seq<Reply>, rest: seq<seq<string>>)
    requires |rest| < |replies| && Answered(handler, round, reply, answers) && AllAnswered(handler, round + 1, replies, rest)
    ensures AllAnswered(handler, round, [reply] + replies, [answers] + rest)
    ensures Transcript([reply] + replies, [answers] + rest)
         == [Exchange(InteractiveResponse(answers), replies[0])] + Transcript(replies, rest)
  {
    var more, all := [reply] + replies, [answers] + rest;
    forall k | 0 <= k < |all| ensures Answered(handler, round + k, more[k], all[k]) {
      if k > 0 {
        assert Answered(handler, round + 1 + (k - 1), replies[k - 1], rest[k - 1]);
      }
    }
  }

  /** The responses sent so far, the replies they met, and why the loop ended there. */
  ghost predicate InteractiveRun(l: Link, reply: Reply, handler: Handler, round: nat, responses: seq<seq<string>>, answer: Answer, log: seq<Exchange>) {
    var replies, n := Replies(l, reply), |responses|;
    && n < |replies|
    && AllAnswered(handler, round, replies, responses)
    && StopsWith(handler, round + n, replies[n], answer)
    && log == l.log + Transcript(replies, responses)
  }

  lemma InteractiveMore(l: Link, reply: Reply, handler: Handler, round: nat, answers: seq<string>,
                        rest: seq<seq<string>>, answer: Answer, log: seq<Exchange>)
    requires l.script != [] && Answered(handler, round, reply, answers)
    requires var (next, after) := Ask(l, InteractiveResponse(answers));
      InteractiveRun(after, next, handler, round + 1, rest, answer, log)
    ensures InteractiveRun(l, reply, handler, round, [answers] + rest, answer, log)
  {
    var (next, after) := Ask(l, InteractiveResponse(answers));
    var replies := Replies(after, next);
    assert replies == l.script + [Broken(CONNECTION_LOST)];
    assert Replies(l, reply) == [reply] + replies;
    OneMoreRound(handler, round, reply, answers, replies, rest);
    var exchange := [Exchange(InteractiveResponse(answers), next)];
    assert l.log + exchange + Transcript(replies, rest) == l.log + (exchange + Transcript(replies, rest));
  }

  lemma InteractiveLast(l: Link, reply: Reply, handler: Handler, round: nat, answers: seq<string>)
    requires l.script == [] && Answered(handler, round, reply, answers)
    ensures var (next, after) := Ask(l, InteractiveResponse(answers));
      InteractiveRun(l, reply, handler, round, [answers], AnswerOf(next), after.log)
  {
    var (next, after) := Ask(l, InteractiveResponse(answers));
    OneMoreRound(handler, round, reply, answers, [next], []);
    assert Replies(l, reply) == [reply] + [next];
    assert [answers] + [] == [answers];
  }

  /**
   Challenges and responses alternate: response k answers challenge k prompt by
   prompt, nothing is sent after the reply that ended the loop, and that reply
   (or the handler) decides the result.
   */
  lemma {:induction false} InteractiveAlternates(l: Link, reply: Reply, handler: Handler, round: nat)
    returns (responses: seq<seq<string>>)
    ensures var (answer, after) := Interact(l, reply, handler, round);
      InteractiveRun(l, reply, handler, round, responses, answer, after.log)
    decreases |l.script|
  {
    responses := [];
    assert l.log + [] == l.log;
    if reply.InfoRequest? && handler(round, reply.prompts).Ok? {
      var answers := handler(round, reply.prompts).value;
      if |answers| == |reply.prompts| {
        if l.script == [] {
          responses := [answers];
          InteractiveLast(l, reply, handler, round, answers);
        } else {
          var (next, after) := Ask(l, InteractiveResponse(answers));
          var rest := InteractiveAlternates(after, next, handler, round + 1);
          var (answer, end) := Interact(after, next, handler, round + 1);
          responses := [answers] + rest;
          InteractiveMore(l, reply, handler, round, answers, rest, answer, end.log);
        }
      }
    }
  }

  /**
   How the run over a script relates to the run over a longer one: the same run
   if the shorter script was long enough, and otherwise the same up to the reply
   that was missing.
   */
  predicate SameUntilCut(log: seq<Exchange>, replies: nat, short: (Answer, Link), long: (Answer, Link)) {
    var cut := |log| + replies;
    && log <= short.1.log && log <= long.1.log
    && if |short.1.log| <= cut then long.0 == short.0 && long.1.log == short.1.log
       else && |short.1.log| == cut + 1 <= |long.1.log|
            && long.1.log[..cut] == short.1.log[..cut]
            && long.1.log[cut].request == short.1.log[cut].request
            && short.1.log[cut].reply == Broken(CONNECTION_LOST) && short.0 == Err(CONNECTION_LOST)
  }

  lemma SameAfterRound(log: seq<Exchange>, e: Exchange, replies: nat, short: (Answer, Link), long: (Answer, Link))
    requires SameUntilCut(log + [e], replies, short, long)
    ensures SameUntilCut(log, replies + 1, short, long)
  {
    assert |log + [e]| == |log| + 1;
    assert log == (log + [e])[..|log|];
  }

  lemma InteractiveGrows(l: Link, reply: Reply, handler: Handler, round: nat)
    ensures l.log <= Interact(l, reply, handler, round).1.log
  {
    var responses := InteractiveAlternates(l, reply, handler, round);
  }

  lemma {:induction false} InteractiveExtends(l: Link, more: seq<Reply>, reply: Reply, handler: Handler, round: nat)
    ensures SameUntilCut(l.log, |l.script|, Interact(l, reply, handler, round),
                         Interact(l.(script := l.script + more), reply, handler, round))
    decreases |l.script|
  {
    if reply.InfoRequest? && handler(round, reply.prompts).Ok? {
      var answers := handler(round, reply.prompts).value;
      if |answers| == |reply.prompts| {
        var (next, after) := Ask(l, InteractiveResponse(answers));
        var longer := l.(script := l.script + more);
        var (found, beyond) := Ask(longer, InteractiveResponse(answers));
        if l.script == [] {
          assert l.script + more == more;
          InteractiveGrows(beyond, found, handler, round + 1);
        } else {
          assert longer.script[1..] == l.script[1..] + more;
          InteractiveExtends(after, more, next, handler, round + 1);
          SameAfterRound(l.log, Exchange(InteractiveResponse(answers), next), |after.script|,
                         Interact(l, reply, handler, round), Interact(longer, reply, handler, round));
        }
      }
    }
  }

  /** The first replies of an endless script. */
  function Cut(script: nat -> Reply, n: nat): seq<Reply> {
    seq(n, k requires 0 <= k < n => script(k))
  }

  /**
   Endless scripts: once a run over the first `m` replies ends by itself, it is
   the run over every longer part; while none does, all of them send the same
   responses, one more with each reply, for ever.
   */
  lemma EndlessScript(log: seq<Exchange>, script: nat -> Reply, reply: Reply, handler: Handler, m: nat, n: nat)
    requires m <= n
    ensures SameUntilCut(log, m, Interact(Link(Cut(script, m), log), reply, handler, 0),
                         Interact(Link(Cut(script, n), log), reply, handler, 0))
  {
    var more := Cut(script, n)[m..];
    assert Cut(script, m) + more == Cut(script, n);
    InteractiveExtends(Link(Cut(script, m), log), more, reply, handler, 0);
  }

  // ----- the plan on the server's replies -----

  /** What the reply that ends an attempt means, constructor by constructor. */
  predicate Means(reply: Reply, answer: Answer) {
    match reply
    case Success => answer.Ok? && answer.value.accepted
    case Failure(remaining, partial) => answer == Ok(Outcome(false, remaining, partial))
    case Broken(error) => answer == Err(error)
    case InfoRequest(_) => answer.Err?
    case BestHash(_) => answer.Err?
  }

  predicate NoIdentities(m: AuthMethod) {
    m.Agent? && m.identities == Ok([])
  }

  /** The answer to an attempt that sends nothing. */
  predicate MeansSilent(m: AuthMethod, answer: Answer) {
    match m
    case PrivateKey(locked, _, _) => locked.Some? && answer == Err(locked.value)
    case OpenSshCertificate(problem) => problem.Some? && answer == Err(problem.value)
    case Agent(Err(error), _) => answer == Err(error)
    case Agent(Ok(identities), _) => identities == [] && answer == Ok(Outcome(false, [], false))
    case _ => false
  }

  /** What the exchanges of one attempt make of it: the last reply decides, and an unanswered question is an error. */
  predicate Reads(m: AuthMethod, added: seq<Exchange>, answer: Answer) {
    if added == [] then MeansSilent(m, answer) else
      var last := added[|added| - 1];
      if last.request == HashQuery then answer.Err? && (last.reply.Broken? ==> answer.error == last.reply.error)
      else Means(last.reply, answer)
  }

  /** Which requests each method makes. */
  predicate Sends(m: AuthMethod, added: seq<Exchange>) {
    match m
    case Password => |added| == 1 && added[0].request == PasswordRequest
    case OpenSshCertificate(problem) => problem.None? ==> |added| == 1 && added[0].request == CertificateRequest
    case KeyboardInteractive(_) =>
      && added != [] && added[0].request == InteractiveStart
      && forall e :: e in added[1..] ==> e.request.InteractiveResponse?
    case PrivateKey(_, _, _) => forall e :: e in added ==> e.request == HashQuery || (e.request.KeyRequest? && e.request.identity == 0)
    case Agent(_, _) => forall e :: e in added ==> e.request == HashQuery || e.request.KeyRequest?
  }

  lemma {:induction false} InteractReads(l: Link, reply: Reply, handler: Handler, round: nat) returns (added: seq<Exchange>)
    ensures var (answer, after) := Interact(l, reply, handler, round);
      && Exchanged(l, added, after)
      && (forall e :: e in added ==> e.request.InteractiveResponse?)
      && Means(if added == [] then reply else added[|added| - 1].reply, answer)
    decreases |l.script|
  {
    added := [];
    ExchangedNone(l);
    if reply.InfoRequest? && handler(round, reply.prompts).Ok? {
      var answers := handler(round, reply.prompts).value;
      if |answers| == |reply.prompts| {
        var (next, after) := Ask(l, InteractiveResponse(answers));
        ExchangedOne(l, InteractiveResponse(answers));
        added := [Exchange(InteractiveResponse(answers), next)];
        if l.script != [] {
          var rest := InteractReads(after, next, handler, round + 1);
          ExchangedJoin(l, added, after, rest, Interact(after, next, handler, round + 1).1);
          added := added + rest;
        }
      }
    }
  }

  /** Key requests and questions about hashes, of which the last reply decides. */
  predicate KeysRead(added: seq<Exchange>, answer: Answer) {
    && added != []
    && (forall e :: e in added ==> e.request == HashQuery || e.request.KeyRequest?)
    && var last := added[|added| - 1];
       if last.request == HashQuery then answer.Err? && (last.reply.Broken? ==> answer.error == last.reply.error)
       else Means(last.reply, answer)
  }

  lemma TurnReads(isRsa: bool, choice: RsaChoice, identity: nat, turn: Turn)
    requires TurnRun(isRsa, choice, identity, turn)
    ensures KeysRead(turn.query + turn.keys, turn.answer)
    ensures forall e :: e in turn.query + turn.keys && e.request.KeyRequest? ==> e.request.identity == identity
  {
    var added := turn.query + turn.keys;
    forall e | e in turn.keys ensures e.request.KeyRequest? && e.request.identity == identity {
      var k :| 0 <= k < |turn.keys| && turn.keys[k] == e;
      assert e.request == OneIdentity(identity, turn.hashes)[k];
    }
    if turn.keys != [] {
      assert added[|added| - 1] == turn.keys[|turn.keys| - 1];
      assert turn.keys[|turn.keys| - 1] in turn.keys;
    }
  }

  lemma AgentRunRest(identities: seq<bool>, from: nat, choice: RsaChoice, last: Outcome, answer: Answer, turns: seq<Turn>)
    requires from <= |identities| && AgentRun(identities, from, choice, last, answer, turns) && |turns| > 1
    ensures TurnRun(identities[from], choice, from, turns[0]) && Rejects(turns[0].answer)
    ensures AgentRun(identities, from + 1, choice, turns[0].answer.value, answer, turns[1..])
  {
    var rest := turns[1..];
    assert TurnRun(identities[from + 0], choice, from + 0, turns[0]);
    forall k | 0 <= k < |rest| ensures TurnRun(identities[from + 1 + k], choice, from + 1 + k, rest[k]) {
      assert TurnRun(identities[from + (k + 1)], choice, from + (k + 1), turns[k + 1]);
    }
    forall k | 0 <= k < |rest| - 1 ensures Rejects(rest[k].answer) {
      assert Rejects(turns[k + 1].answer);
    }
  }

  lemma KeysReadMore(before: seq<Exchange>, first: Answer, added: seq<Exchange>, answer: Answer)
    requires KeysRead(before, first) && KeysRead(added, answer)
    ensures KeysRead(before + added, answer)
  {
    assert (before + added)[|before + added| - 1] == added[|added| - 1];
  }

  lemma OneTurnRead(identities: seq<bool>, from: nat, choice: RsaChoice, last: Outcome, answer: Answer, turns: seq<Turn>)
    requires from <= |identities| && AgentRun(identities, from, choice, last, answer, turns) && |turns| == 1
    ensures KeysRead(TurnsLog(turns), answer)
  {
    assert TurnRun(identities[from + 0], choice, from + 0, turns[0]);
    TurnReads(identities[from], choice, from, turns[0]);
    assert turns == [turns[0]] && turns[1..] == [];
    assert turns[0].query + turns[0].keys + [] == turns[0].query + turns[0].keys;
  }

  lemma {:induction false} TurnsRead(identities: seq<bool>, from: nat, choice: RsaChoice, last: Outcome, answer: Answer, turns: seq<Turn>)
    requires from <= |identities| && AgentRun(identities, from, choice, last, answer, turns) && turns != []
    ensures KeysRead(TurnsLog(turns), answer)
    decreases |turns|
  {
    if |turns| == 1 {
      OneTurnRead(identities, from, choice, last, answer, turns);
    } else {
      AgentRunRest(identities, from, choice, last, answer, turns);
      TurnReads(identities[from], choice, from, turns[0]);
      TurnsRead(identities, from + 1, choice, turns[0].answer.value, answer, turns[1..]);
      KeysReadMore(turns[0].query + turns[0].keys, turns[0].answer, TurnsLog(turns[1..]), answer);
    }
  }

  /** One attempt, whatever its method. */
  lemma AttemptReads(l: Link, m: AuthMethod) returns (added: seq<Exchange>)
    ensures var (answer, after) := Attempt(l, m);
      Exchanged(l, added, after) && Reads(m, added, answer) && Sends(m, added)
  {
    added := [];
    ExchangedNone(l);
    match m
    case Password =>
      ExchangedOne(l, PasswordRequest);
      added := [Exchange(PasswordRequest, Ask(l, PasswordRequest).0)];
    case OpenSshCertificate(problem) =>
      if problem.None? {
        ExchangedOne(l, CertificateRequest);
        added := [Exchange(CertificateRequest, Ask(l, CertificateRequest).0)];
      }
    case KeyboardInteractive(handler) =>
      var (reply, after) := Ask(l, InteractiveStart);
      ExchangedOne(l, InteractiveStart);
      var rest := InteractReads(after, reply, handler, 0);
      var start := [Exchange(InteractiveStart, reply)];
      added := start + rest;
      ExchangedJoin(l, start, after, rest, Interact(after, reply, handler, 0).1);
      assert added[1..] == rest;
    case PrivateKey(locked, isRsa, choice) =>
      if locked.None? {
        var turn := KeyInOrder(l, locked, isRsa, choice);
        TurnReads(isRsa, choice, 0, turn);
        added := turn.query + turn.keys;
      }
    case Agent(identities, choice) =>
      if identities.Ok? {
        var turns := AgentInOrder(l, identities, choice);
        added := TurnsLog(turns);
        if turns != [] {
          TurnsRead(identities.value, 0, choice, NOT_TRIED, Attempt(l, m).0, turns);
        }
      }
  }

  function Joined(steps: seq<seq<Exchange>>): seq<Exchange> {
    if steps == [] then [] else steps[0] + Joined(steps[1..])
  }

  /** Step `k` holds the exchanges of attempt `k`. */
  predicate AllRead(plan: seq<AuthMethod>, steps: seq<seq<Exchange>>, tried: seq<Answer>)
    requires |steps| == |tried| <= |plan|
  {
    forall k :: 0 <= k < |steps| ==> Reads(plan[k], steps[k], tried[k]) && Sends(plan[k], steps[k])
  }

  lemma AllReadMore(plan: seq<AuthMethod>, added: seq<Exchange>, answer: Answer, steps: seq<seq<Exchange>>, tried: seq<Answer>)
    requires plan != [] && |steps| == |tried| <= |plan[1..]|
    requires Reads(plan[0], added, answer) && Sends(plan[0], added) && AllRead(plan[1..], steps, tried)
    ensures AllRead(plan, [added] + steps, [answer] + tried)
  {
    var all, answers := [added] + steps, [answer] + tried;
    forall k | 0 <= k < |all| ensures Reads(plan[k], all[k], answers[k]) && Sends(plan[k], all[k]) {
      if k > 0 {
        assert plan[k] == plan[1..][k - 1] && all[k] == steps[k - 1] && answers[k] == tried[k - 1];
      }
    }
  }

  lemma JoinedMore(l: Link, added: seq<Exchange>, middle: Link, steps: seq<seq<Exchange>>, after: Link)
    requires Exchanged(l, added, middle) && Exchanged(middle, Joined(steps), after)
    ensures Exchanged(l, Joined([added] + steps), after)
  {
    assert ([added] + steps)[1..] == steps;
    ExchangedJoin(l, added, middle, Joined(steps), after);
  }

  lemma {:induction false} PlanSteps(l: Link, plan: seq<AuthMethod>, closed: Closed, n: nat, o: Observation, lastError: Option<Error>)
    returns (steps: seq<seq<Exchange>>)
    ensures var tried := Tried(Attempt, l, plan, closed, n);
      && |steps| == |tried| <= |plan| && AllRead(plan, steps, tried)
      && Exchanged(l, Joined(steps), RunPlan(Attempt, l, plan, closed, n, o, lastError).1)
    decreases |plan|
  {
    steps := [];
    ExchangedNone(l);
    if plan != [] {
      var (answer, after) := Attempt(l, plan[0]);
      var added := AttemptReads(l, plan[0]);
      var seen, error := Observed(o, KindOf(plan[0]), answer), if answer.Ok? then None else Some(answer.error);
      var rest, tried := [], [];
      ExchangedNone(after);
      if !Accepts(answer) && (answer.Err? ==> !closed(n)) {
        rest := PlanSteps(after, plan[1..], closed, n + 1, seen, error);
        tried := Tried(Attempt, after, plan[1..], closed, n + 1);
      }
      AllReadMore(plan, added, answer, rest, tried);
      JoinedMore(l, added, after, rest, RunPlan(Attempt, l, plan, closed, n, o, lastError).1);
      steps := [added] + rest;
    }
  }

  /** The last step that exchanged anything. */
  lemma {:induction false} JoinedLast(steps: seq<seq<Exchange>>) returns (k: nat)
    requires Joined(steps) != []
    ensures k < |steps| && steps[k] != [] && (forall j :: k < j < |steps| ==> steps[j] == [])
    ensures Joined(steps)[|Joined(steps)| - 1] == steps[k][|steps[k]| - 1]
  {
    if Joined(steps[1..]) == [] {
      k := 0;
      JoinedEmpty(steps[1..]);
      forall j | 0 < j < |steps| ensures steps[j] == [] {
        assert steps[j] == steps[1..][j - 1];
      }
    } else {
      var later := JoinedLast(steps[1..]);
      k := later + 1;
      forall j | k < j < |steps| ensures steps[j] == [] {
        assert steps[j] == steps[1..][j - 1];
      }
    }
  }

  lemma {:induction false} JoinedEmpty(steps: seq<seq<Exchange>>)
    requires Joined(steps) == []
    ensures forall j :: 0 <= j < |steps| ==> steps[j] == []
  {
    if steps != [] {
      JoinedEmpty(steps[1..]);
      forall j | 0 < j < |steps| ensures steps[j] == [] {
        assert steps[j] == steps[1..][j - 1];
      }
    }
  }

  /** The last exchange is the server's acceptance. */
  predicate EndsInSuccess(added: seq<Exchange>) {
    added != [] && added[|added| - 1].reply == Success && added[|added| - 1].request != HashQuery
  }

  predicate EndsInFailure(added: seq<Exchange>) {
    added != [] && added[|added| - 1].reply.Failure? && added[|added| - 1].request != HashQuery
  }

  predicate IsKind(m: AuthMethod, kind: Kind) {
    match kind
    case PasswordKind => m.Password?
    case PrivateKeyKind => m.PrivateKey?
    case CertificateKind => m.OpenSshCertificate?
    case InteractiveKind => m.KeyboardInteractive?
    case AgentKind => m.Agent?
  }

  /** What is recorded of an attempt that was not accepted. */
  predicate RecordReads(m: AuthMethod, added: seq<Exchange>, record: Record) {
    && IsKind(m, record.kind) && !record.accepted
    && if EndsInFailure(added) then
         var reply := added[|added| - 1].reply;
         record.error == None && record.remaining == reply.remaining && record.partial == reply.partial
       else record.remaining == [] && !record.partial && (record.error == None <==> added == [] && NoIdentities(m))
  }

  lemma RecordOfReads(m: AuthMethod, added: seq<Exchange>, answer: Answer)
    requires Reads(m, added, answer) && !Accepts(answer)
    ensures RecordReads(m, added, RecordOf(KindOf(m), answer))
  {
  }

  /** The observation's own fields are those of the last attempt that was rejected, or untouched without one. */
  ghost predicate FollowsRecords(o: Observation) {
    || ((forall k :: 0 <= k < |o.attempts| ==> o.attempts[k].error.Some?) && o.remaining == [] && !o.partial)
    || exists k :: 0 <= k < |o.attempts| && LastRejected(o, k)
  }

  predicate LastRejected(o: Observation, k: nat)
    requires k < |o.attempts|
  {
    && o.attempts[k].error == None && o.remaining == o.attempts[k].remaining && o.partial == o.attempts[k].partial
    && forall j :: k < j < |o.attempts| ==> o.attempts[j].error.Some?
  }

  lemma RejectionRecords(plan: seq<AuthMethod>, tried: seq<Answer>, o: Observation)
    requires |tried| <= |plan| && o.attempts == Records(plan, tried) && FromLastRejection(tried, NOTHING_OBSERVED, o)
    ensures FollowsRecords(o)
  {
    forall k | 0 <= k < |tried| ensures o.attempts[k].error.Some? <==> tried[k].Err? {
    }
    if k :| 0 <= k < |tried| && IsLastRejection(tried, k, o) {
      assert LastRejected(o, k);
    }
  }

  /** What a refused plan reports, attempt by attempt, against what was exchanged. */
  ghost predicate Reported(plan: seq<AuthMethod>, steps: seq<seq<Exchange>>, refusal: Refusal)
    requires 0 < |steps| <= |plan|
  {
    var o, last := refusal.observation, |steps| - 1;
    && |o.attempts| == |steps|
    && (forall k :: 0 <= k < |steps| ==> RecordReads(plan[k], steps[k], o.attempts[k]))
    && FollowsRecords(o)
    && refusal.error == if o.attempts[last].error.Some? then o.attempts[last].error.value else "SSH authentication failed"
  }

  lemma RecordsReported(plan: seq<AuthMethod>, steps: seq<seq<Exchange>>, tried: seq<Answer>, refusal: Refusal)
    requires 0 < |steps| == |tried| <= |plan| && AllRead(plan, steps, tried)
    requires forall k :: 0 <= k < |tried| ==> !Accepts(tried[k])
    requires refusal.observation.attempts == Records(plan, tried)
    requires refusal.error == LastError(tried, None)
    requires FromLastRejection(tried, NOTHING_OBSERVED, refusal.observation)
    ensures Reported(plan, steps, refusal)
  {
    RejectionRecords(plan, tried, refusal.observation);
    forall k | 0 <= k < |steps| ensures RecordReads(plan[k], steps[k], refusal.observation.attempts[k]) {
      RecordOfReads(plan[k], steps[k], tried[k]);
    }
  }

  lemma SuccessIsAccepted(plan: seq<AuthMethod>, steps: seq<seq<Exchange>>, tried: seq<Answer>, closed: Closed)
    requires 0 < |steps| == |tried| <= |plan| && AllRead(plan, steps, tried) && WentOn(tried, closed, 0)
    ensures EndsInSuccess(Joined(steps)) <==> Accepts(tried[|tried| - 1])
  {
    var last := |steps| - 1;
    assert Reads(plan[last], steps[last], tried[last]);
    if Joined(steps) != [] {
      var k := JoinedLast(steps);
      assert Reads(plan[k], steps[k], tried[k]);
    } else {
      JoinedEmpty(steps);
    }
  }

  /**
   The whole plan against every server script, on the requests and replies
   themselves: it succeeds if and only if the last reply is the server's
   success, and otherwise reports what the replies said.
   */
  lemma PlanOnReplies(l: Link, plan: seq<AuthMethod>, closed: Closed) returns (steps: seq<seq<Exchange>>)
    requires plan != []
    ensures 0 < |steps| <= |plan|
    ensures var (r, after) := RunPlan(Attempt, l, plan, closed, 0, NOTHING_OBSERVED, None);
      && Exchanged(l, Joined(steps), after)
      && (forall k :: 0 <= k < |steps| ==> Sends(plan[k], steps[k]))
      && (r.Ok? <==> EndsInSuccess(Joined(steps)))
      && (r.Err? ==> Reported(plan, steps, r.error))
  {
    var tried := Tried(Attempt, l, plan, closed, 0);
    var r := RunPlan(Attempt, l, plan, closed, 0, NOTHING_OBSERVED, None).0;
    steps := PlanSteps(l, plan, closed, 0, NOTHING_OBSERVED, None);
    PlanOutcome(Attempt, l, plan, closed);
    SuccessIsAccepted(plan, steps, tried, closed);
    if r.Err? {
      RecordsReported(plan, steps, tried, r.error);
    }
  }

  /**
   After a last reply `Failure` the observation shows its methods and flag, unless
   an agent without identities was tried after it, which clears both.
   */
  lemma LastFailureSeen(plan: seq<AuthMethod>, steps: seq<seq<Exchange>>, refusal: Refusal) returns (k: nat)
    requires 0 < |steps| <= |plan| && Reported(plan, steps, refusal) && EndsInFailure(Joined(steps))
    ensures k < |steps| && EndsInFailure(steps[k]) && forall j :: k < j < |steps| ==> steps[j] == []
    ensures var reply, o := Joined(steps)[|Joined(steps)| - 1].reply, refusal.observation;
      (o.remaining, o.partial)
      == if exists j :: k < j < |steps| && NoIdentities(plan[j]) then ([], false) else (reply.remaining, reply.partial)
  {
    k := JoinedLast(steps);
    var o := refusal.observation;
    assert RecordReads(plan[k], steps[k], o.attempts[k]);
    var i :| 0 <= i < |o.attempts| && LastRejected(o, i);
    assert RecordReads(plan[i], steps[i], o.attempts[i]);
    forall j | k < j < |steps| ensures o.attempts[j].error == None <==> NoIdentities(plan[j]) {
      assert RecordReads(plan[j], steps[j], o.attempts[j]);
    }
  }
}
