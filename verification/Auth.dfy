/**
 Running an authentication plan (src/core/session.rs, authenticate and the
 methods it calls; src/core/auth.rs, AuthenticationObservation).

 The server is an arbitrary script: each request takes the next reply, and when
 the script is over the connection is lost.
 */
module Auth {
  import opened Wrappers

  datatype ServerMethod = NoMethod | PasswordMethod | PublicKeyMethod | HostBasedMethod | InteractiveMethod

  datatype Hash = Sha256 | Sha512

  datatype RsaChoice = Auto | Always256 | Always512 | LegacySha1

  datatype Prompt = Prompt(text: string, echo: bool)

  type Error = string

  const CONNECTION_LOST: Error := "connection lost"
  const UNEXPECTED: Error := "unexpected reply"
  const WRONG_ANSWER_COUNT: Error := "keyboard-interactive handler returned the wrong number of responses"
  const EMPTY_PLAN: Error := "SSH authentication plan must contain at least one method"
  const AUTHENTICATION_FAILED: Error := "SSH authentication failed"

  datatype Reply =
    | Success
    | Failure(remaining: seq<ServerMethod>, partial: bool)
    | InfoRequest(prompts: seq<Prompt>)
    | BestHash(supported: Option<Option<Hash>>)
    | Broken(error: Error)

  datatype Request =
    | PasswordRequest
    | KeyRequest(identity: nat, hash: Option<Hash>)
    | CertificateRequest
    | InteractiveStart
    | InteractiveResponse(answers: seq<string>)
    | HashQuery

  datatype Exchange = Exchange(request: Request, reply: Reply)

  /** The transport: replies still to come, and every exchange so far. */
  datatype Link = Link(script: seq<Reply>, log: seq<Exchange>)

  function Ask(l: Link, request: Request): (Reply, Link) {
    var reply := if l.script == [] then Broken(CONNECTION_LOST) else l.script[0];
    (reply, Link(if l.script == [] then [] else l.script[1..], l.log + [Exchange(request, reply)]))
  }

  datatype Outcome = Outcome(accepted: bool, remaining: seq<ServerMethod>, partial: bool)

  const NOT_TRIED := Outcome(false, [], false)

  type Answer = Result<Outcome, Error>

  /** `auth_outcome`, with a reply of another shape read as a transport error. */
  function AnswerOf(reply: Reply): Answer {
    match reply
    case Success => Ok(Outcome(true, [], false))
    case Failure(remaining, partial) => Ok(Outcome(false, remaining, partial))
    case Broken(error) => Err(error)
    case _ => Err(UNEXPECTED)
  }

  predicate Accepts(a: Answer) {
    a.Ok? && a.value.accepted
  }

  /** The handler's answers to the n-th challenge. */
  type Handler = (nat, seq<Prompt>) -> Result<seq<string>, Error>

  /** What a method needs; local failures (decryption, certificate checks, the agent) are given. */
  datatype AuthMethod =
    | Password
    | PrivateKey(locked: Option<Error>, isRsa: bool, choice: RsaChoice)
    | OpenSshCertificate(problem: Option<Error>)
    | KeyboardInteractive(handler: Handler)
    | Agent(identities: Result<seq<bool>, Error>, agentChoice: RsaChoice)  // per identity: is it RSA

  datatype Kind = PasswordKind | PrivateKeyKind | CertificateKind | InteractiveKind | AgentKind

  function KindOf(m: AuthMethod): Kind {
    match m
    case Password => PasswordKind
    case PrivateKey(_, _, _) => PrivateKeyKind
    case OpenSshCertificate(_) => CertificateKind
    case KeyboardInteractive(_) => InteractiveKind
    case Agent(_, _) => AgentKind
  }

  // ----- specification of one method -----

  function HashCandidates(l: Link, isRsa: bool, choice: RsaChoice): (Result<seq<Option<Hash>>, Error>, Link) {
    if !isRsa then (Ok([None]), l) else
      match choice
      case Always256 => (Ok([Some(Sha256)]), l)
      case Always512 => (Ok([Some(Sha512)]), l)
      case LegacySha1 => (Ok([None]), l)
      case Auto =>
        var (reply, after) := Ask(l, HashQuery);
        (match reply
         case BestHash(Some(hash)) => Ok([hash])
         case BestHash(None) => Ok([Some(Sha512), Some(Sha256)])
         case Broken(error) => Err(error)
         case _ => Err(UNEXPECTED),
         after)
  }

  /** One key under each hash in turn, until acceptance or an error. */
  function TryHashes(l: Link, identity: nat, hashes: seq<Option<Hash>>, last: Outcome): (Answer, Link)
    decreases |hashes|
  {
    if hashes == [] then (Ok(last), l) else
      var (reply, after) := Ask(l, KeyRequest(identity, hashes[0]));
      var answer := AnswerOf(reply);
      if answer.Err? || answer.value.accepted then (answer, after)
      else TryHashes(after, identity, hashes[1..], answer.value)
  }

  function TryKey(l: Link, identity: nat, isRsa: bool, choice: RsaChoice, last: Outcome): (Answer, Link) {
    var (hashes, after) := HashCandidates(l, isRsa, choice);
    TryCandidates(after, identity, hashes, last)
  }

  function TryCandidates(l: Link, identity: nat, hashes: Result<seq<Option<Hash>>, Error>, last: Outcome): (Answer, Link) {
    if hashes.Err? then (Err(hashes.error), l) else TryHashes(l, identity, hashes.value, last)
  }

  function TryIdentities(l: Link, identities: seq<bool>, from: nat, choice: RsaChoice, last: Outcome): (Answer, Link)
    requires from <= |identities|
    decreases |identities| - from
  {
    if from == |identities| then (Ok(last), l) else
      var (answer, after) := TryKey(l, from, identities[from], choice, last);
      if answer.Err? || answer.value.accepted then (answer, after)
      else TryIdentities(after, identities, from + 1, choice, answer.value)
  }

  /** The challenge loop from a reply of the server on. */
  function Interact(l: Link, reply: Reply, handler: Handler, round: nat): (Answer, Link)
    decreases |l.script|
  {
    if !reply.InfoRequest? then (AnswerOf(reply), l) else
      match handler(round, reply.prompts)
      case Err(error) => (Err(error), l)
      case Ok(answers) =>
        if |answers| != |reply.prompts| then (Err(WRONG_ANSWER_COUNT), l) else
          var (next, after) := Ask(l, InteractiveResponse(answers));
          if l.script == [] then (AnswerOf(next), after) else Interact(after, next, handler, round + 1)
  }

  function Attempt(l: Link, m: AuthMethod): (Answer, Link) {
    match m
    case Password => var (reply, after) := Ask(l, PasswordRequest); (AnswerOf(reply), after)
    case PrivateKey(locked, isRsa, choice) =>
      if locked.Some? then (Err(locked.value), l) else TryKey(l, 0, isRsa, choice, NOT_TRIED)
    case OpenSshCertificate(problem) =>
      if problem.Some? then (Err(problem.value), l)
      else var (reply, after) := Ask(l, CertificateRequest); (AnswerOf(reply), after)
    case KeyboardInteractive(handler) =>
      var (reply, after) := Ask(l, InteractiveStart);
      Interact(after, reply, handler, 0)
    case Agent(identities, choice) =>
      if identities.Err? then (Err(identities.error), l) else TryIdentities(l, identities.value, 0, choice, NOT_TRIED)
  }

  // ----- specification of the plan -----

  datatype Record = Record(kind: Kind, accepted: bool, partial: bool, remaining: seq<ServerMethod>, error: Option<Error>)

  datatype Observation = Observation(attempts: seq<Record>, remaining: seq<ServerMethod>, partial: bool)

  const NOTHING_OBSERVED := Observation([], [], false)

  function RecordOf(kind: Kind, answer: Answer): Record {
    match answer
    case Ok(o) => Record(kind, false, o.partial, o.remaining, None)
    case Err(error) => Record(kind, false, false, [], Some(error))
  }

  function Observed(o: Observation, kind: Kind, answer: Answer): Observation {
    var attempts := o.attempts + [RecordOf(kind, answer)];
    if answer.Ok? then Observation(attempts, answer.value.remaining, answer.value.partial) else o.(attempts := attempts)
  }

  datatype Refusal = Refusal(error: Error, observation: Observation)

  /** Whether the handle reports a closed connection when asked after the n-th attempt. */
  type Closed = nat -> bool

  /** How one method goes on a given link. */
  type Attempter = (Link, AuthMethod) -> (Answer, Link)

  function RunPlan(attempt: Attempter, l: Link, plan: seq<AuthMethod>, closed: Closed, n: nat, o: Observation, lastError: Option<Error>)
    : (Result<(), Refusal>, Link)
    decreases |plan|
  {
    var error := if lastError.Some? then lastError.value else AUTHENTICATION_FAILED;
    if plan == [] then (Err(Refusal(error, o)), l) else
      var (answer, after) := attempt(l, plan[0]);
      var seen := Observed(o, KindOf(plan[0]), answer);
      if Accepts(answer) then (Ok(()), after)
      else if answer.Ok? then RunPlan(attempt, after, plan[1..], closed, n + 1, seen, None)
      else if closed(n) then (Err(Refusal(answer.error, seen)), after)
      else RunPlan(attempt, after, plan[1..], closed, n + 1, seen, Some(answer.error))
  }

  // ----- the code -----

  class AuthenticationObservation {
    var attempts: seq<Record>
    var remainingMethods: seq<ServerMethod>
    var partialSuccess: bool

    ghost function View(): Observation
      reads this
    {
      Observation(attempts, remainingMethods, partialSuccess)
    }

    constructor ()
      ensures View() == NOTHING_OBSERVED
    {
      attempts, remainingMethods, partialSuccess := [], [], false;
    }

    method RecordFailure(kind: Kind, remaining: seq<ServerMethod>, partial: bool)
      modifies this
      ensures View() == Observed(old(View()), kind, Ok(Outcome(false, remaining, partial)))
      ensures attempts == old(attempts) + [Record(kind, false, partial, remaining, None)]
      ensures remainingMethods == remaining && partialSuccess == partial
    {
      remainingMethods := remaining;
      partialSuccess := partial;
      attempts := attempts + [Record(kind, false, partial, remaining, None)];
    }

    method RecordError(kind: Kind, error: Error)
      modifies this
      ensures View() == Observed(old(View()), kind, Err(error))
      ensures attempts == old(attempts) + [Record(kind, false, false, [], Some(error))]
      ensures remainingMethods == old(remainingMethods) && partialSuccess == old(partialSuccess)
    {
      attempts := attempts + [Record(kind, false, false, [], Some(error))];
    }
  }

  class Handle {
    var script: seq<Reply>
    var log: seq<Exchange>
    const closed: Closed

    ghost function View(): Link
      reads this
    {
      Link(script, log)
    }

    constructor (script: seq<Reply>, closed: Closed)
      ensures View() == Link(script, []) && this.closed == closed
    {
      this.script, this.log, this.closed := script, [], closed;
    }

    method Send(request: Request) returns (reply: Reply)
      modifies this
      ensures (reply, View()) == Ask(old(View()), request)
    {
      if script == [] {
        reply := Broken(CONNECTION_LOST);
      } else {
        reply, script := script[0], script[1..];
      }
      log := log + [Exchange(request, reply)];
    }
  }

  method RsaHashCandidates(handle: Handle, isRsa: bool, choice: RsaChoice) returns (r: Result<seq<Option<Hash>>, Error>)
    modifies handle
    ensures (r, handle.View()) == HashCandidates(old(handle.View()), isRsa, choice)
  {
    if !isRsa {
      return Ok([None]);
    }
    match choice
    case Always256 => return Ok([Some(Sha256)]);
    case Always512 => return Ok([Some(Sha512)]);
    case LegacySha1 => return Ok([None]);
    case Auto =>
      var reply := handle.Send(HashQuery);
      match reply
      case BestHash(Some(hash)) => return Ok([hash]);
      case BestHash(None) => return Ok([Some(Sha512), Some(Sha256)]);
      case Broken(error) => return Err(error);
      case _ => return Err(UNEXPECTED);
  }

  /** The loop over hash algorithms shared by private keys and agent identities. */
  method OfferKey(handle: Handle, identity: nat, hashes: seq<Option<Hash>>, last: Outcome) returns (r: Answer)
    modifies handle
    ensures (r, handle.View()) == TryHashes(old(handle.View()), identity, hashes, last)
  {
    var lastOutcome := last;
    for i := 0 to |hashes|
      invariant TryHashes(handle.View(), identity, hashes[i..], lastOutcome) == TryHashes(old(handle.View()), identity, hashes, last)
    {
      assert hashes[i..][1..] == hashes[i + 1..];
      var reply := handle.Send(KeyRequest(identity, hashes[i]));
      var answer := AnswerOf(reply);
      if answer.Err? {
        return answer;
      }
      lastOutcome := answer.value;
      if lastOutcome.accepted {
        return Ok(lastOutcome);
      }
    }
    return Ok(lastOutcome);
  }

  method AuthenticatePrivateKey(handle: Handle, locked: Option<Error>, isRsa: bool, choice: RsaChoice) returns (r: Answer)
    modifies handle
    ensures (r, handle.View()) == Attempt(old(handle.View()), PrivateKey(locked, isRsa, choice))
  {
    if locked.Some? {
      return Err(locked.value);
    }
    var hashes := RsaHashCandidates(handle, isRsa, choice);
    if hashes.Err? {
      return Err(hashes.error);
    }
    r := OfferKey(handle, 0, hashes.value, NOT_TRIED);
  }

  method AuthenticateAgent(handle: Handle, identities: Result<seq<bool>, Error>, choice: RsaChoice) returns (r: Answer)
    modifies handle
    ensures (r, handle.View()) == Attempt(old(handle.View()), Agent(identities, choice))
  {
    if identities.Err? {
      return Err(identities.error);
    }
    var keys := identities.value;
    var lastOutcome := NOT_TRIED;
    for i := 0 to |keys|
      invariant TryIdentities(handle.View(), keys, i, choice, lastOutcome)
             == TryIdentities(old(handle.View()), keys, 0, choice, NOT_TRIED)
    {
      var hashes := RsaHashCandidates(handle, keys[i], choice);
      if hashes.Err? {
        return Err(hashes.error);
      }
      var answer := OfferKey(handle, i, hashes.value, lastOutcome);
      if answer.Err? || answer.value.accepted {
        return answer;
      }
      lastOutcome := answer.value;
    }
    return Ok(lastOutcome);
  }

  method AuthenticateKeyboardInteractive(handle: Handle, handler: Handler) returns (r: Answer)
    modifies handle
    ensures (r, handle.View()) == Attempt(old(handle.View()), KeyboardInteractive(handler))
  {
    var response := handle.Send(InteractiveStart);
    var round := 0;
    while response.InfoRequest?
      invariant Interact(handle.View(), response, handler, round) == Attempt(old(handle.View()), KeyboardInteractive(handler))
      decreases |handle.script|, if response.InfoRequest? then 1 else 0
    {
      var responses := handler(round, response.prompts);
      if responses.Err? {
        return Err(responses.error);
      }
      if |responses.value| != |response.prompts| {
        return Err(WRONG_ANSWER_COUNT);
      }
      response := handle.Send(InteractiveResponse(responses.value));
      round := round + 1;
    }
    return AnswerOf(response);
  }

  method AuthenticateMethod(handle: Handle, m: AuthMethod) returns (r: Answer)
    modifies handle
    ensures (r, handle.View()) == Attempt(old(handle.View()), m)
  {
    match m
    case Password =>
      var reply := handle.Send(PasswordRequest);
      r := AnswerOf(reply);
    case PrivateKey(locked, isRsa, choice) =>
      r := AuthenticatePrivateKey(handle, locked, isRsa, choice);
    case OpenSshCertificate(problem) =>
      if problem.Some? {
        return Err(problem.value);
      }
      var reply := handle.Send(CertificateRequest);
      r := AnswerOf(reply);
    case KeyboardInteractive(handler) =>
      r := AuthenticateKeyboardInteractive(handle, handler);
    case Agent(identities, choice) =>
      r := AuthenticateAgent(handle, identities, choice);
  }

  method Authenticate(handle: Handle, plan: seq<AuthMethod>) returns (r: Result<(), Refusal>)
    modifies handle
    ensures plan == [] ==> r == Err(Refusal(EMPTY_PLAN, NOTHING_OBSERVED)) && handle.View() == old(handle.View())
    ensures plan != [] ==>
      (r, handle.View()) == RunPlan(Attempt, old(handle.View()), plan, handle.closed, 0, NOTHING_OBSERVED, None)
  {
    if plan == [] {
      return Err(Refusal(EMPTY_PLAN, NOTHING_OBSERVED));
    }
    var observation := new AuthenticationObservation();
    var lastError: Option<Error> := None;
    for i := 0 to |plan|
      invariant fresh(observation)
      invariant RunPlan(Attempt, handle.View(), plan[i..], handle.closed, i, observation.View(), lastError)
             == RunPlan(Attempt, old(handle.View()), plan, handle.closed, 0, NOTHING_OBSERVED, None)
    {
      assert plan[i..][1..] == plan[i + 1..];
      var kind := KindOf(plan[i]);
      var answer := AuthenticateMethod(handle, plan[i]);
      match answer
      case Ok(outcome) =>
        if outcome.accepted {
          return Ok(());
        }
        lastError := None;
        observation.RecordFailure(kind, outcome.remaining, outcome.partial);
      case Err(error) =>
        observation.RecordError(kind, error);
        lastError := Some(error);
        if handle.closed(i) {
          var seen := Observation(observation.attempts, observation.remainingMethods, observation.partialSuccess);
          return Err(Refusal(error, seen));
        }
    }
    var error := if lastError.Some? then lastError.value else AUTHENTICATION_FAILED;
    var seen := Observation(observation.attempts, observation.remainingMethods, observation.partialSuccess);
    return Err(Refusal(error, seen));
  }
}
