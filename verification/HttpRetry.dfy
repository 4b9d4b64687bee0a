/** The shared retry loop of the Python services (services/terrapod/http_retry.py). */
module HttpRetry {
  import opened Text
  import opened Folding
  import opened Network
  import RetryClient

  const IDEMPOTENT_METHODS := {"GET", "HEAD", "OPTIONS", "PUT", "DELETE"}

  const DEFAULT_RETRIES := 3
  const DEFAULT_BASE_DELAY := 1.0
  const DEFAULT_MAX_DELAY := 8.0

  /** httpx transport errors: the three classes raised before anything is delivered, and all others. */
  datatype TransportFailure = ConnectError | ConnectTimeout | PoolTimeout | OtherRequestError

  predicate IsConnectClass(e: TransportFailure) {
    !e.OtherRequestError?
  }

  /** One send: it fails in transport, perhaps after the server handled it, or a response comes back. */
  datatype Attempt = Raises(error: TransportFailure, handled: Option<Handling>) | Responds(handling: Handling)

  /** Connect-class errors mean "not delivered"; a fault of the server answers with a 5xx. */
  predicate Truthful(a: Attempt) {
    match a
    case Raises(e, handled) => IsConnectClass(e) ==> handled == None
    case Responds(how) => how.Fault? ==> how.status >= 500
  }

  ghost predicate TruthfulNetwork(net: nat -> Attempt) {
    forall i: nat {:trigger Truthful(net(i))} :: Truthful(net(i))
  }

  datatype Result = Returned(status: int) | Raised(error: TransportFailure) | AssertionFailed

  datatype Call<S> = Call(server: S, result: Result, sends: nat, received: nat, applied: nat, slept: real)

  function IsIdempotent(method_: string, flag: Option<bool>): bool {
    if flag.Some? then flag.value else RetryClient.Upper(method_) in IDEMPOTENT_METHODS
  }

  /** `_should_retry`, given what `_is_idempotent` says of the call. */
  function ShouldRetry(idempotent: bool, error: Option<TransportFailure>, status: Option<int>): bool {
    if error.Some? then IsConnectClass(error.value) || idempotent
    else if status.Some? && status.value >= 500 then idempotent
    else false
  }

  function BackoffSeconds(attempt: nat, base: real, cap: real): real {
    var d := base * Pow2(attempt) as real;
    if d < cap then d else cap
  }

  function Sum(delay: nat -> real, n: nat): real {
    if n == 0 then 0.0 else Sum(delay, n - 1) + delay(n - 1)
  }

  /** The time slept over the first n retries. */
  function Slept(n: nat, base: real, cap: real): real {
    Sum((k: nat) => BackoffSeconds(k, base, cap), n)
  }

  function HandledBy(a: Attempt): Option<Handling> {
    if a.Raises? then a.handled else Some(a.handling)
  }

  function After<S>(a: Attempt, h: Handler<S>, s: S): S {
    if HandledBy(a).Some? then Serve(h, HandledBy(a).value, s).0 else s
  }

  function DeliveredBy(net: nat -> Attempt): Deliveries {
    (i: nat) => HandledBy(net(i))
  }

  /** The server state before attempt n, and how many of the attempts before n it received and applied. */
  function StateBefore<S>(net: nat -> Attempt, h: Handler<S>, s: S, n: nat): S {
    Network.StateBefore(DeliveredBy(net), h, s, n)
  }

  function Received(net: nat -> Attempt, n: nat): nat {
    Network.Received(DeliveredBy(net), n)
  }

  function Applied(net: nat -> Attempt, n: nat): nat {
    Network.Applied(DeliveredBy(net), n)
  }

  /** Whether an attempt, made when the server was in state s, leads to another one, given budget. */
  function Retries<S>(idempotent: bool, a: Attempt, h: Handler<S>, s: S): bool {
    match a
    case Raises(e, _) => ShouldRetry(idempotent, Some(e), None)
    case Responds(how) =>
      var status := Serve(h, how, s).1;
      status >= 500 && ShouldRetry(idempotent, None, Some(status))
  }

  function ResultOf<S>(a: Attempt, h: Handler<S>, s: S): Result {
    match a
    case Raises(e, _) => Raised(e)
    case Responds(how) => Returned(Serve(h, how, s).1)
  }

  /** The first n attempts were all to be retried. */
  predicate AllRetry<S>(idempotent: bool, net: nat -> Attempt, h: Handler<S>, s: S, n: nat) {
    n == 0 ||
    (AllRetry(idempotent, net, h, s, n - 1) && Retries(idempotent, net(n - 1), h, StateBefore(net, h, s, n - 1)))
  }

  /** A call ends at its first attempt that is not to be retried, or when the budget of retries + 1 sends is spent. */
  predicate EndedRightly<S>(idempotent: bool, retries: nat, net: nat -> Attempt, h: Handler<S>, s: S,
                                        sends: nat, result: Result) {
    && 1 <= sends <= retries + 1
    && AllRetry(idempotent, net, h, s, sends - 1)
    && (sends <= retries ==> !Retries(idempotent, net(sends - 1), h, StateBefore(net, h, s, sends - 1)))
    && result == ResultOf(net(sends - 1), h, StateBefore(net, h, s, sends - 1))
  }

  // ── Which attempts are repeated, attempt by attempt ─────────────────────────

  /** The flag says so, or there is no flag and the method is one of the five, in any letter case. */
  predicate Replayable(method_: string, flag: Option<bool>) {
    flag == Some(true) || (flag == None && RetryClient.Replayable(method_))
  }

  function Answer<S>(how: Handling, h: Handler<S>, s: S): int {
    match how
    case Normal => h.status(s)
    case Fault(status, _) => status
  }

  /** Nothing was delivered, or the operation may be replayed and what happened was no definitive answer. */
  predicate WorthRepeating<S>(replayable: bool, a: Attempt, h: Handler<S>, s: S) {
    match a
    case Raises(e, _) => e in {ConnectError, ConnectTimeout, PoolTimeout} || replayable
    case Responds(how) => Answer(how, h, s) >= 500 && replayable
  }

  function OutcomeOf<S>(a: Attempt, h: Handler<S>, s: S): Result {
    match a
    case Raises(e, _) => Raised(e)
    case Responds(how) => Returned(Answer(how, h, s))
  }

  /** Attempt i is followed by another one exactly if there is budget and it is worth it; the last one is the result. */
  predicate RepeatedRightly<S>(replayable: bool, retries: nat, net: nat -> Attempt, h: Handler<S>, s: S, sends: nat,
                               result: Result, i: nat) {
    var before := StateBefore(net, h, s, i);
    && (i + 1 < sends <==> i < retries && WorthRepeating(replayable, net(i), h, before))
    && (i + 1 == sends ==> result == OutcomeOf(net(i), h, before))
  }

  /** `_should_retry`: connect-class errors always; other errors and 5xx what may be replayed; nothing else. */
  lemma ShouldRetryExactly(idempotent: bool, e: TransportFailure, status: int)
    ensures ShouldRetry(idempotent, Some(e), None) <==> e in {ConnectError, ConnectTimeout, PoolTimeout} || idempotent
    ensures ShouldRetry(idempotent, None, Some(status)) <==> status >= 500 && idempotent
    ensures !ShouldRetry(idempotent, None, None)
  {
  }

  lemma {:induction false} RetryAt<S>(idempotent: bool, net: nat -> Attempt, h: Handler<S>, s: S, n: nat, i: nat)
    requires AllRetry(idempotent, net, h, s, n) && i < n
    ensures Retries(idempotent, net(i), h, StateBefore(net, h, s, i))
  {
    if i < n - 1 { RetryAt(idempotent, net, h, s, n - 1, i); }
  }

  lemma RetriesExactly<S>(method_: string, flag: Option<bool>, a: Attempt, h: Handler<S>, s: S)
    ensures Retries(IsIdempotent(method_, flag), a, h, s) <==> WorthRepeating(Replayable(method_, flag), a, h, s)
    ensures ResultOf(a, h, s) == OutcomeOf(a, h, s)
  {
    IdempotentExactly(method_, flag);
  }

  lemma IdempotentExactly(method_: string, flag: Option<bool>)
    ensures IsIdempotent(method_, flag) <==> Replayable(method_, flag)
  {
    RetryClient.MethodClasses(method_);
  }

  lemma AttemptExactly<S>(method_: string, flag: Option<bool>, retries: nat, net: nat -> Attempt, h: Handler<S>, s: S,
                          sends: nat, result: Result, i: nat)
    requires EndedRightly(IsIdempotent(method_, flag), retries, net, h, s, sends, result) && i < sends
    ensures RepeatedRightly(Replayable(method_, flag), retries, net, h, s, sends, result, i)
  {
    RetriesExactly(method_, flag, net(i), h, StateBefore(net, h, s, i));
    if i + 1 < sends {
      RetryAt(IsIdempotent(method_, flag), net, h, s, sends - 1, i);
    }
  }

  function WasHandled(net: nat -> Attempt): nat -> bool {
    (i: nat) => net(i).Responds? || net(i).handled.Some?
  }

  function TookEffect(net: nat -> Attempt): nat -> bool {
    (i: nat) =>
      match net(i)
      case Responds(how) => how == Normal || (how.Fault? && how.applied)
      case Raises(_, None) => false
      case Raises(_, Some(how)) => how == Normal || (how.Fault? && how.applied)
  }

  lemma EffectsAreExact<S>(net: nat -> Attempt, h: Handler<S>, s: S, n: nat)
    ensures Received(net, n) == |Those(WasHandled(net), n)| && Applied(net, n) == |Those(TookEffect(net), n)|
    ensures StateBefore(net, h, s, n) == Repeated(h.effect, |Those(TookEffect(net), n)|, s)
  {
    CountsAreExact(DeliveredBy(net), n);
    StateIsRepeated(DeliveredBy(net), h, s, n);
    assert Those(WasHandled(net), n) == Those(Reaches(DeliveredBy(net)), n);
    assert Those(TookEffect(net), n) == Those(TakesEffect(DeliveredBy(net)), n);
  }

  /** What a finished call did, on the attempts themselves. */
  ghost predicate DoneRightly<S>(method_: string, flag: Option<bool>, retries: nat, net: nat -> Attempt, h: Handler<S>,
                                 s: S, c: Call<S>) {
    && (forall i: nat :: i < c.sends ==>
          RepeatedRightly(Replayable(method_, flag), retries, net, h, s, c.sends, c.result, i))
    && c.received == |Those(WasHandled(net), c.sends)| && c.applied == |Those(TookEffect(net), c.sends)|
    && c.server == Repeated(h.effect, c.applied, s)
    && (TruthfulNetwork(net) && !Replayable(method_, flag) ==> c.received <= 1 && c.applied <= 1)
  }

  lemma CallIsDone<S>(method_: string, flag: Option<bool>, retries: nat, net: nat -> Attempt, h: Handler<S>, s: S,
                      c: Call<S>)
    requires EndedRightly(IsIdempotent(method_, flag), retries, net, h, s, c.sends, c.result)
    requires c.server == StateBefore(net, h, s, c.sends)
    requires c.received == Received(net, c.sends) && c.applied == Applied(net, c.sends)
    ensures DoneRightly(method_, flag, retries, net, h, s, c)
  {
    forall i: nat | i < c.sends
      ensures RepeatedRightly(Replayable(method_, flag), retries, net, h, s, c.sends, c.result, i)
    {
      AttemptExactly(method_, flag, retries, net, h, s, c.sends, c.result, i);
    }
    EffectsAreExact(net, h, s, c.sends);
    IdempotentExactly(method_, flag);
    if TruthfulNetwork(net) && !Replayable(method_, flag) {
      AtMostOnce(method_, flag, retries, net, h, s, c.sends, c.result);
    }
  }

  /**
   * Both request functions: the synchronous one and the asynchronous one run this loop, and differ in how they wait.
   * What a call did is stated on the attempts it made, of which it made `c.sends`.
   */
  method RequestWithRetry<S>(net: nat -> Attempt, h: Handler<S>, s: S, method_: string, flag: Option<bool>,
                             retries: int, base: real, cap: real)
    returns (c: Call<S>)
    ensures retries < 0 <==> c.result == AssertionFailed
    ensures retries < 0 ==> c.sends == 0
    ensures retries >= 0 ==> EndedRightly(IsIdempotent(method_, flag), retries, net, h, s, c.sends, c.result)
    ensures c.server == StateBefore(net, h, s, c.sends)
    ensures c.received == Received(net, c.sends) && c.applied == Applied(net, c.sends)
    ensures c.slept == Slept(if c.sends == 0 then 0 else c.sends - 1, base, cap)
    ensures retries >= 0 ==> DoneRightly(method_, flag, retries, net, h, s, c)
  {
    var idempotent := IsIdempotent(method_, flag);
    var server, slept := s, 0.0;
    var received, applied := 0, 0;
    var attempt := 0;
    while attempt < retries + 1
      invariant 0 <= attempt && (retries >= 0 ==> attempt <= retries)
      invariant server == StateBefore(net, h, s, attempt) && slept == Slept(attempt, base, cap)
      invariant received == Received(net, attempt) && applied == Applied(net, attempt)
      invariant AllRetry(idempotent, net, h, s, attempt)
      invariant retries < 0 ==> attempt == 0
      decreases retries + 1 - attempt
    {
      var a := net(attempt);
      var before := server;
      if HandledBy(a).Some? {
        received := received + 1;
        applied := applied + if Applies(HandledBy(a).value) then 1 else 0;
      }
      server := After(a, h, server);
      match a {
        case Raises(e, _) =>
          if !(attempt < retries && ShouldRetry(idempotent, Some(e), None)) {
            c := Call(server, Raised(e), attempt + 1, received, applied, slept);
            CallIsDone(method_, flag, retries, net, h, s, c);
            return;
          }
        case Responds(how) =>
          var status := Serve(h, how, before).1;
          if !(status >= 500 && attempt < retries && ShouldRetry(idempotent, None, Some(status))) {
            c := Call(server, Returned(status), attempt + 1, received, applied, slept);
            CallIsDone(method_, flag, retries, net, h, s, c);
            return;
          }
      }
      slept := slept + BackoffSeconds(attempt, base, cap);
      attempt := attempt + 1;
    }
    return Call(server, AssertionFailed, 0, 0, 0, 0.0);
  }

  lemma DeliveredOnce<S>(retries: nat, net: nat -> Attempt, h: Handler<S>, s: S, sends: nat, result: Result)
    requires TruthfulNetwork(net) && EndedRightly(false, retries, net, h, s, sends, result)
    ensures Received(net, sends - 1) == 0 && Received(net, sends) <= 1 && Applied(net, sends) <= 1
  {
    NothingDelivered(net, h, s, sends - 1);
    assert Received(net, sends) <= Received(net, sends - 1) + 1 && Applied(net, sends) <= Applied(net, sends - 1) + 1;
  }

  /**
   * At most once: for an operation that may not be replayed - no flag says so, and the method is none of the five -
   * over every network on which connect-class errors mean "not delivered", the attempts of one call reach the server at
   * most once, and only the last of them does.
   */
  lemma AtMostOnce<S>(method_: string, flag: Option<bool>, retries: nat, net: nat -> Attempt, h: Handler<S>, s: S,
                      sends: nat, result: Result)
    requires TruthfulNetwork(net) && !Replayable(method_, flag)
    requires EndedRightly(IsIdempotent(method_, flag), retries, net, h, s, sends, result)
    ensures |Those(WasHandled(net), sends - 1)| == 0 && |Those(WasHandled(net), sends)| <= 1
    ensures |Those(TookEffect(net), sends)| <= 1
  {
    IdempotentExactly(method_, flag);
    DeliveredOnce(retries, net, h, s, sends, result);
    EffectsAreExact(net, h, s, sends);
    EffectsAreExact(net, h, s, sends - 1);
  }

  lemma {:induction false} NothingDelivered<S>(net: nat -> Attempt, h: Handler<S>, s: S, n: nat)
    requires TruthfulNetwork(net) && AllRetry(false, net, h, s, n)
    ensures Received(net, n) == 0 && Applied(net, n) == 0
  {
    if n > 0 {
      NothingDelivered(net, h, s, n - 1);
      assert Truthful(net(n - 1));
      assert HandledBy(net(n - 1)) == None;
    }
  }

  /**
   * Idempotent retry refines a single call: when the last attempt of a call returned a response below 500, the server
   * is exactly as one application of the handler leaves it, whatever happened to the attempts before.
   */
  lemma ResponseMeansApplied<S(!new)>(net: nat -> Attempt, h: Handler<S>, s: S, sends: nat)
    requires Idempotent(h) && sends > 0 && TruthfulNetwork(net)
    requires var last := ResultOf(net(sends - 1), h, StateBefore(net, h, s, sends - 1));
             last.Returned? && last.status < 500
    ensures StateBefore(net, h, s, sends) == h.effect(s) && Applied(net, sends) > 0
  {
    assert Truthful(net(sends - 1));
    ReplayIsOnce(DeliveredBy(net), h, s, sends);
  }

  /** A response below 500, a 4xx among them, is the result of its call: no attempt follows it, whatever the method. */
  lemma {:induction false} DefinitiveAnswersAreFinal<S>(idempotent: bool, net: nat -> Attempt, h: Handler<S>, s: S,
                                                        n: nat, i: nat)
    requires AllRetry(idempotent, net, h, s, n) && i < n
    ensures var r := ResultOf(net(i), h, StateBefore(net, h, s, i)); r.Returned? ==> r.status >= 500
  {
    if i < n - 1 {
      DefinitiveAnswersAreFinal(idempotent, net, h, s, n - 1, i);
    }
  }

  lemma {:induction false} SumGrows(delay: nat -> real, n: nat, m: nat)
    requires n <= m && forall k: nat :: delay(k) >= 0.0
    ensures 0.0 <= Sum(delay, n) <= Sum(delay, m)
    decreases m
  {
    if n < m {
      SumGrows(delay, n, m - 1);
    } else if n > 0 {
      SumGrows(delay, n - 1, n - 1);
    }
  }

  /** The sleeping budget: with no negative delay, no call sleeps longer than the full ladder of its retries. */
  lemma SleepBudget(n: nat, retries: nat, base: real, cap: real)
    requires n <= retries && base >= 0.0 && cap >= 0.0
    ensures 0.0 <= Slept(n, base, cap) <= Slept(retries, base, cap)
  {
    var delay := (k: nat) => BackoffSeconds(k, base, cap);
    forall k: nat ensures delay(k) >= 0.0 {
      BackoffInRange(k, base, cap);
    }
    SumGrows(delay, n, retries);
  }

  lemma BackoffInRange(k: nat, base: real, cap: real)
    requires base >= 0.0 && cap >= 0.0
    ensures 0.0 <= BackoffSeconds(k, base, cap) <= cap
  {
  }

  /** The default ladder: 1 s, 2 s, 4 s, so a call with default settings sleeps at most 7 s; from then on 8 s each. */
  lemma DefaultLadder(k: nat)
    ensures Slept(DEFAULT_RETRIES, DEFAULT_BASE_DELAY, DEFAULT_MAX_DELAY) == 7.0
    ensures k >= 3 ==> BackoffSeconds(k, DEFAULT_BASE_DELAY, DEFAULT_MAX_DELAY) == 8.0
  {
    if k >= 3 { AtLeast8(k); }
  }

  lemma {:induction false} AtLeast8(k: nat)
    requires k >= 3
    ensures Pow2(k) >= 8
  {
    if k > 3 { AtLeast8(k - 1); }
  }
}
