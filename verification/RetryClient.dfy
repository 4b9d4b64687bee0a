/** The Go SDK's request loop (go-terrapod/client.go) and the typed errors built from its outcome. */
module RetryClient {
  import opened Text
  import opened Folding
  import opened Network

  function UpperChar(c: char): char {
    if 'a' <= c <= 'z' then c - 'a' + 'A' else c
  }

  function Upper(s: string): string {
    seq(|s|, i requires 0 <= i < |s| => UpperChar(s[i]))
  }

  predicate IsIdempotent(method_: string) {
    Upper(method_) in {"GET", "HEAD", "OPTIONS", "PUT", "DELETE"}
  }

  /** Replayed are the methods that RFC 7231, section 4.2.2, calls idempotent, TRACE aside, in any letter case. */
  lemma MethodClasses(m: string)
    ensures IsIdempotent("GET") && IsIdempotent("HEAD") && IsIdempotent("OPTIONS") && IsIdempotent("PUT")
            && IsIdempotent("DELETE")
    ensures !IsIdempotent("POST") && !IsIdempotent("PATCH") && !IsIdempotent("TRACE") && !IsIdempotent("CONNECT")
    ensures IsIdempotent(m) <==> EqualFold(m, "GET") || EqualFold(m, "HEAD") || EqualFold(m, "OPTIONS")
                                 || EqualFold(m, "PUT") || EqualFold(m, "DELETE")
  {
    assert Upper("DELETE") == "DELETE" && Upper("PUT") == "PUT" && Upper("GET") == "GET";
    assert Upper("HEAD") == "HEAD" && Upper("OPTIONS") == "OPTIONS";
    assert Upper("POST") == "POST" && Upper("PATCH") == "PATCH" && Upper("TRACE") == "TRACE";
    assert Upper("CONNECT") == "CONNECT";
    assert "POST"[1] == 'O' && "PATCH"[1] == 'A' && "PUT"[1] == 'U' && "TRACE"[0] == 'T' && "CONNECT"[0] == 'C';
    SameUpper(m, "GET");
    SameUpper(m, "HEAD");
    SameUpper(m, "OPTIONS");
    SameUpper(m, "PUT");
    SameUpper(m, "DELETE");
  }

  /** A text of capital letters is the upper-casing of exactly the texts that differ from it in letter case only. */
  lemma SameUpper(m: string, t: string)
    requires forall i :: 0 <= i < |t| ==> 'A' <= t[i] <= 'Z'
    ensures Upper(m) == t <==> EqualFold(m, t)
  {
    if |m| == |t| {
      assert forall i :: 0 <= i < |t| ==> (UpperChar(m[i]) == t[i] <==> LowerChar(m[i]) == LowerChar(t[i]));
      if Upper(m) == t {
        forall i | 0 <= i < |t| ensures Lower(m)[i] == Lower(t)[i] { assert Upper(m)[i] == t[i]; }
      }
      if EqualFold(m, t) {
        forall i | 0 <= i < |t| ensures Upper(m)[i] == t[i] { assert Lower(m)[i] == Lower(t)[i]; }
      }
    }
  }

  /** What `errors.Is` / `errors.As` learn of a transport error; `timeout` is None for an error that is no net.Error. */
  datatype TransportError = TransportError(deadlineExceeded: bool, timeout: Option<bool>)

  predicate IsTransient(e: TransportError) {
    e.deadlineExceeded || e.timeout == Some(true)
  }

  /** The answer's way back; `Killed` is the client process dying before it acts on the answer. */
  datatype Return = Arrives | BodyUnreadable | Lost(error: TransportError) | Killed

  datatype Attempt = Unsent(error: TransportError) | UnsentKilled | Sent(handling: Handling, back: Return)

  datatype Outcome =
    | Response(status: int)
    | Failed            // the transport error of a final attempt, or an unreadable body
    | ContextDone
    | Exhausted
    | Dead

  /** The server state an exchange leaves behind, what the caller gets, and what it cost. */
  datatype Exchange<S> = Exchange(server: S, outcome: Outcome, sends: nat, received: nat, applied: nat, slept: nat)

  predicate RetryableStatus(status: int) {
    status == 429 || status >= 500
  }

  /** Whether the loop goes on to another attempt after this one, when the server was in state s. */
  predicate GoesOn<S>(idempotent: bool, a: Attempt, h: Handler<S>, s: S) {
    idempotent &&
    match a
    case Unsent(e) => IsTransient(e)
    case UnsentKilled => false
    case Sent(how, Arrives) => RetryableStatus(Serve(h, how, s).1)
    case Sent(_, Lost(e)) => IsTransient(e)
    case Sent(_, _) => false
  }

  function After<S>(a: Attempt, h: Handler<S>, s: S): S {
    if a.Sent? then Serve(h, a.handling, s).0 else s
  }

  function FinalOutcome<S>(a: Attempt, h: Handler<S>, s: S): Outcome {
    match a
    case Unsent(_) => Failed
    case UnsentKilled => Dead
    case Sent(how, Arrives) => Response(Serve(h, how, s).1)
    case Sent(_, Killed) => Dead
    case Sent(_, _) => Failed
  }

  function DeliveredBy(net: nat -> Attempt): Deliveries {
    (i: nat) => if net(i).Sent? then Some(net(i).handling) else None
  }

  /**
   * The server state before attempt n, and how many of the attempts before n it received and applied,
   * when all of them are made.
   */
  function StateBefore<S>(net: nat -> Attempt, h: Handler<S>, s: S, n: nat): S {
    Network.StateBefore(DeliveredBy(net), h, s, n)
  }

  function Received(net: nat -> Attempt, n: nat): nat {
    Network.Received(DeliveredBy(net), n)
  }

  function Applied(net: nat -> Attempt, n: nat): nat {
    Network.Applied(DeliveredBy(net), n)
  }

  /**
   * One call of the loop from attempt n on. `cancelled(n)` says whether the context ends the wait before attempt n;
   * the wait before attempt n > 0 is 2^(n-1) seconds.
   */
  function ExchangeFrom<S>(maxRetries: int, idempotent: bool, net: nat -> Attempt, cancelled: nat -> bool,
                           h: Handler<S>, s: S, n: nat): Exchange<S>
    decreases maxRetries + 1 - n
  {
    var here := StateBefore(net, h, s, n);
    var slept := if n == 0 then 0 else Pow2(n - 1) - 1;
    if n > maxRetries then
      Exchange(here, Exhausted, n, Received(net, n), Applied(net, n), slept)
    else if n > 0 && cancelled(n) then
      Exchange(here, ContextDone, n, Received(net, n), Applied(net, n), slept)
    else if GoesOn(idempotent, net(n), h, here) then
      ExchangeFrom(maxRetries, idempotent, net, cancelled, h, s, n + 1)
    else
      Exchange(StateBefore(net, h, s, n + 1), FinalOutcome(net(n), h, here),
               n + 1, Received(net, n + 1), Applied(net, n + 1), Pow2(n) - 1)
  }

  function Call<S>(maxRetries: int, idempotent: bool, net: nat -> Attempt, cancelled: nat -> bool,
                   h: Handler<S>, s: S): Exchange<S> {
    ExchangeFrom(maxRetries, idempotent, net, cancelled, h, s, 0)
  }

  /** The loop itself; `server` is the remote state, threaded through. */
  method Do<S>(maxRetries: int, method_: string, net: nat -> Attempt, cancelled: nat -> bool, h: Handler<S>, s: S)
    returns (x: Exchange<S>)
    ensures x == Call(maxRetries, IsIdempotent(method_), net, cancelled, h, s)
  {
    var server, slept := s, 0;
    var received, applied := 0, 0;
    var attempt := 0;
    while attempt <= maxRetries
      invariant 0 <= attempt && (maxRetries >= 0 ==> attempt <= maxRetries + 1)
      invariant server == StateBefore(net, h, s, attempt)
      invariant received == Received(net, attempt) && applied == Applied(net, attempt)
      invariant slept == if attempt == 0 then 0 else Pow2(attempt - 1) - 1
      invariant Call(maxRetries, IsIdempotent(method_), net, cancelled, h, s)
             == ExchangeFrom(maxRetries, IsIdempotent(method_), net, cancelled, h, s, attempt)
    {
      if attempt > 0 {
        if cancelled(attempt) {
          return Exchange(server, ContextDone, attempt, received, applied, slept);
        }
        slept := slept + Pow2(attempt - 1);
      }
      match net(attempt) {
        case UnsentKilled =>
          return Exchange(server, Dead, attempt + 1, received, applied, slept);
        case Unsent(e) =>
          if !(IsTransient(e) && IsIdempotent(method_)) {
            return Exchange(server, Failed, attempt + 1, received, applied, slept);
          }
        case Sent(how, back) =>
          var (server', status) := Serve(h, how, server);
          server, received := server', received + 1;
          applied := applied + if Applies(how) then 1 else 0;
          match back {
            case Killed => return Exchange(server, Dead, attempt + 1, received, applied, slept);
            case BodyUnreadable => return Exchange(server, Failed, attempt + 1, received, applied, slept);
            case Lost(e) =>
              if !(IsTransient(e) && IsIdempotent(method_)) {
                return Exchange(server, Failed, attempt + 1, received, applied, slept);
              }
            case Arrives =>
              if !(RetryableStatus(status) && IsIdempotent(method_)) {
                return Exchange(server, Response(status), attempt + 1, received, applied, slept);
              }
          }
      }
      attempt := attempt + 1;
    }
    return Exchange(server, Exhausted, attempt, received, applied, slept);
  }

  /**
   * The budget: at most MaxRetries + 1 sends; after k completed backoffs the call has waited exactly 2^k - 1 seconds;
   * and the server has seen exactly the attempts that were sent.
   */
  lemma {:induction false} CallBudget<S(!new)>(maxRetries: int, idempotent: bool, net: nat -> Attempt,
                                               cancelled: nat -> bool, h: Handler<S>, s: S, n: nat)
    requires maxRetries >= 0 && n <= maxRetries + 1
    ensures var x := ExchangeFrom(maxRetries, idempotent, net, cancelled, h, s, n);
            && x.sends <= maxRetries + 1
            && x.slept == (if x.sends == 0 then 0 else Pow2(x.sends - 1) - 1)
            && x.server == StateBefore(net, h, s, x.sends)
            && x.received == Received(net, x.sends) && x.applied == Applied(net, x.sends)
    decreases maxRetries + 1 - n
  {
    if n <= maxRetries && !(n > 0 && cancelled(n)) && GoesOn(idempotent, net(n), h, StateBefore(net, h, s, n)) {
      CallBudget(maxRetries, idempotent, net, cancelled, h, s, n + 1);
    }
  }

  ghost predicate AllGoOn<S(!new)>(idempotent: bool, net: nat -> Attempt, cancelled: nat -> bool, h: Handler<S>, s: S,
                                   n: nat) {
    forall i: nat :: i < n ==> Passed(idempotent, net, cancelled, h, s, i)
  }

  /** The wait before attempt i was not cut short, and the loop goes on after it. */
  predicate Passed<S>(idempotent: bool, net: nat -> Attempt, cancelled: nat -> bool, h: Handler<S>, s: S, i: nat) {
    GoesOn(idempotent, net(i), h, StateBefore(net, h, s, i)) && (i > 0 ==> !cancelled(i))
  }

  /** Why a call ended where it did, stated without the loop. */
  ghost predicate EndedRightly<S(!new)>(maxRetries: int, idempotent: bool, net: nat -> Attempt, cancelled: nat -> bool,
                                        h: Handler<S>, s: S, x: Exchange<S>) {
    match x.outcome
    case Exhausted => x.sends == maxRetries + 1 && AllGoOn(idempotent, net, cancelled, h, s, x.sends)
    case ContextDone =>
      0 < x.sends <= maxRetries && cancelled(x.sends) && AllGoOn(idempotent, net, cancelled, h, s, x.sends)
    case _ =>
      && x.sends > 0 && AllGoOn(idempotent, net, cancelled, h, s, x.sends - 1)
      && (x.sends > 1 ==> !cancelled(x.sends - 1))
      && var before := StateBefore(net, h, s, x.sends - 1);
      && !GoesOn(idempotent, net(x.sends - 1), h, before)
      && x.outcome == FinalOutcome(net(x.sends - 1), h, before)
  }

  /**
   * Every attempt before the last one was retryable and its backoff uncancelled; the last one is the first that was
   * not, or the budget or the context ended the call.
   */
  lemma {:induction false} CallEndsRightly<S(!new)>(maxRetries: int, idempotent: bool, net: nat -> Attempt,
                                                    cancelled: nat -> bool, h: Handler<S>, s: S, n: nat)
    requires maxRetries >= 0 && n <= maxRetries + 1
    requires AllGoOn(idempotent, net, cancelled, h, s, n)
    ensures EndedRightly(maxRetries, idempotent, net, cancelled, h, s,
                         ExchangeFrom(maxRetries, idempotent, net, cancelled, h, s, n))
    decreases maxRetries + 1 - n
  {
    if n <= maxRetries && !(n > 0 && cancelled(n)) {
      var here := StateBefore(net, h, s, n);
      if GoesOn(idempotent, net(n), h, here) {
        CallEndsRightly(maxRetries, idempotent, net, cancelled, h, s, n + 1);
      } else {
        EndsHere(maxRetries, idempotent, net, cancelled, h, s, n);
      }
    }
  }

  lemma EndsHere<S(!new)>(maxRetries: int, idempotent: bool, net: nat -> Attempt, cancelled: nat -> bool,
                          h: Handler<S>, s: S, n: nat)
    requires n <= maxRetries && !(n > 0 && cancelled(n)) && AllGoOn(idempotent, net, cancelled, h, s, n)
    requires !GoesOn(idempotent, net(n), h, StateBefore(net, h, s, n))
    ensures EndedRightly(maxRetries, idempotent, net, cancelled, h, s,
                         ExchangeFrom(maxRetries, idempotent, net, cancelled, h, s, n))
  {
  }

  // ── Which attempts are repeated, attempt by attempt ─────────────────────────

  /** The five methods, in any letter case. */
  predicate Replayable(method_: string) {
    || EqualFold(method_, "GET") || EqualFold(method_, "HEAD") || EqualFold(method_, "OPTIONS")
    || EqualFold(method_, "PUT") || EqualFold(method_, "DELETE")
  }

  /** The status that the server answers with in state s. */
  function Answer<S>(how: Handling, h: Handler<S>, s: S): int {
    match how
    case Normal => h.status(s)
    case Fault(status, _) => status
  }

  /** 429, 5xx and transient transport errors; a refused connection or an unresolved host is not transient. */
  predicate WorthRepeating<S>(a: Attempt, h: Handler<S>, s: S) {
    match a
    case Unsent(e) => e.deadlineExceeded || e.timeout == Some(true)
    case Sent(_, Lost(e)) => e.deadlineExceeded || e.timeout == Some(true)
    case Sent(how, Arrives) => Answer(how, h, s) == 429 || Answer(how, h, s) >= 500
    case _ => false
  }

  /** What the caller gets of a call that ends with this attempt; `spent` is the budget being used up. */
  function OutcomeOf<S>(replayable: bool, a: Attempt, h: Handler<S>, s: S, spent: bool): Outcome {
    if replayable && WorthRepeating(a, h, s) then (if spent then Exhausted else ContextDone) else
    match a
    case UnsentKilled => Dead
    case Sent(_, Killed) => Dead
    case Sent(how, Arrives) => Response(Answer(how, h, s))
    case _ => Failed
  }

  /**
   * Of every attempt of every call: another one follows it if and only if there is budget, the context does not end the
   * wait, the method is one of the five, and what happened is worth repeating; the last one decides the outcome.
   */
  lemma RepeatedExactly<S(!new)>(maxRetries: nat, method_: string, net: nat -> Attempt, cancelled: nat -> bool,
                                 h: Handler<S>, s: S, i: nat)
    requires i < Call(maxRetries, IsIdempotent(method_), net, cancelled, h, s).sends
    ensures var x := Call(maxRetries, IsIdempotent(method_), net, cancelled, h, s);
            var before := StateBefore(net, h, s, i);
            && (i + 1 < x.sends <==> i < maxRetries && !cancelled(i + 1) && Replayable(method_)
                                     && WorthRepeating(net(i), h, before))
            && (i + 1 == x.sends ==> x.outcome == OutcomeOf(Replayable(method_), net(i), h, before, i == maxRetries))
  {
    MethodClasses(method_);
    CallBudget(maxRetries, IsIdempotent(method_), net, cancelled, h, s, 0);
    CallEndsRightly(maxRetries, IsIdempotent(method_), net, cancelled, h, s, 0);
    AttemptExactly(maxRetries, IsIdempotent(method_), net, cancelled, h, s, i,
                   Call(maxRetries, IsIdempotent(method_), net, cancelled, h, s));
  }

  lemma AttemptExactly<S(!new)>(maxRetries: nat, idempotent: bool, net: nat -> Attempt, cancelled: nat -> bool,
                                h: Handler<S>, s: S, i: nat, x: Exchange<S>)
    requires EndedRightly(maxRetries, idempotent, net, cancelled, h, s, x) && i < x.sends <= maxRetries + 1
    ensures var before := StateBefore(net, h, s, i);
            && (i + 1 < x.sends <==> i < maxRetries && !cancelled(i + 1) && idempotent
                                     && WorthRepeating(net(i), h, before))
            && (i + 1 == x.sends ==> x.outcome == OutcomeOf(idempotent, net(i), h, before, i == maxRetries))
  {
    GoesOnExactly(idempotent, net(i), h, StateBefore(net, h, s, i), i == maxRetries);
    if i + 1 < x.sends {
      GoneOn(maxRetries, idempotent, net, cancelled, h, s, i, x);
    } else if x.outcome in {Exhausted, ContextDone} {
      assert Passed(idempotent, net, cancelled, h, s, i);
    }
  }

  lemma GoneOn<S(!new)>(maxRetries: nat, idempotent: bool, net: nat -> Attempt, cancelled: nat -> bool,
                        h: Handler<S>, s: S, i: nat, x: Exchange<S>)
    requires EndedRightly(maxRetries, idempotent, net, cancelled, h, s, x) && i + 1 < x.sends <= maxRetries + 1
    ensures GoesOn(idempotent, net(i), h, StateBefore(net, h, s, i)) && !cancelled(i + 1)
  {
    assert Passed(idempotent, net, cancelled, h, s, i);
    if i + 2 < x.sends || x.outcome in {Exhausted, ContextDone} {
      assert Passed(idempotent, net, cancelled, h, s, i + 1);
    }
  }

  lemma GoesOnExactly<S>(idempotent: bool, a: Attempt, h: Handler<S>, s: S, spent: bool)
    ensures GoesOn(idempotent, a, h, s) <==> idempotent && WorthRepeating(a, h, s)
    ensures !GoesOn(idempotent, a, h, s) ==> FinalOutcome(a, h, s) == OutcomeOf(idempotent, a, h, s, spent)
  {
  }

  lemma {:induction false} Pow2UpTo4(k: nat)
    ensures Pow2(k) <= 4 <==> k <= 2
  {
    if k > 3 { Pow2UpTo4(k - 1); }
    assert Pow2(0) == 1 && Pow2(1) == 2 && Pow2(2) == 4 && Pow2(3) == 8;
  }

  /** The wait before attempt n, if the call makes that attempt, is at most 4 s. */
  predicate WaitCapped<S>(maxRetries: int, net: nat -> Attempt, cancelled: nat -> bool, h: Handler<S>, s: S, n: nat) {
    0 < n < Call(maxRetries, true, net, cancelled, h, s).sends ==> Pow2(n - 1) <= 4
  }

  ghost predicate CappedAt4<S(!new)>(maxRetries: int, h: Handler<S>, s: S) {
    forall net: nat -> Attempt, cancelled: nat -> bool, n: nat :: WaitCapped(maxRetries, net, cancelled, h, s, n)
  }

  /** "Exponential backoff capped at 4s" holds of every wait of every call if and only if MaxRetries is at most 3. */
  lemma BackoffCap<S(!new)>(maxRetries: int, h: Handler<S>, s: S)
    ensures CappedAt4(maxRetries, h, s) <==> maxRetries <= 3
  {
    if maxRetries <= 3 {
      forall net: nat -> Attempt, cancelled: nat -> bool, n: nat
        ensures WaitCapped(maxRetries, net, cancelled, h, s, n)
      {
        if maxRetries >= 0 { CallBudget(maxRetries, true, net, cancelled, h, s, 0); }
        if n > 0 { Pow2UpTo4(n - 1); }
      }
    } else {
      var net := (i: nat) => Unsent(TransportError(true, None));
      AllTimeOut(maxRetries, net, h, s, 0);
      Pow2UpTo4(3);
      assert !WaitCapped(maxRetries, net, NeverCancelled(), h, s, 4);
    }
  }

  /** On a network where every attempt times out, all attempts are made. */
  lemma {:induction false} AllTimeOut<S(!new)>(maxRetries: int, net: nat -> Attempt, h: Handler<S>, s: S, n: nat)
    requires maxRetries >= 0 && n <= maxRetries + 1
    requires forall i :: net(i) == Unsent(TransportError(true, None))
    ensures ExchangeFrom(maxRetries, true, net, NeverCancelled(), h, s, n).sends == maxRetries + 1
    decreases maxRetries + 1 - n
  {
    if n <= maxRetries { AllTimeOut(maxRetries, net, h, s, n + 1); }
  }

  /** A call by any other method is sent at most once, and reaches the server at most once. */
  lemma NonIdempotentAtMostOnce<S(!new)>(maxRetries: int, method_: string, net: nat -> Attempt, cancelled: nat -> bool,
                                         h: Handler<S>, s: S)
    requires !Replayable(method_)
    ensures var x := Call(maxRetries, IsIdempotent(method_), net, cancelled, h, s);
            x.sends <= 1 && x.received <= 1 && x.applied <= 1
  {
    MethodClasses(method_);
  }

  function WasSent(net: nat -> Attempt): nat -> bool {
    (i: nat) => net(i).Sent?
  }

  function TookEffect(net: nat -> Attempt): nat -> bool {
    (i: nat) => net(i).Sent? && (net(i).handling == Normal || (net(i).handling.Fault? && net(i).handling.applied))
  }

  /** The server received the attempts that were sent, and is as its handler leaves it when applied by those applied. */
  lemma CallEffects<S(!new)>(maxRetries: nat, idempotent: bool, net: nat -> Attempt, cancelled: nat -> bool,
                             h: Handler<S>, s: S)
    ensures var x := Call(maxRetries, idempotent, net, cancelled, h, s);
            && x.received == |Those(WasSent(net), x.sends)| && x.applied == |Those(TookEffect(net), x.sends)|
            && x.server == Repeated(h.effect, x.applied, s)
  {
    var x := Call(maxRetries, idempotent, net, cancelled, h, s);
    CallBudget(maxRetries, idempotent, net, cancelled, h, s, 0);
    CountsAreExact(DeliveredBy(net), x.sends);
    StateIsRepeated(DeliveredBy(net), h, s, x.sends);
    assert Those(WasSent(net), x.sends) == Those(Reaches(DeliveredBy(net)), x.sends);
    assert Those(TookEffect(net), x.sends) == Those(TakesEffect(DeliveredBy(net)), x.sends);
  }

  /** An idempotent call that returns a response never returns 429 or a 5xx. */
  lemma {:induction false} IdempotentResponseIsFinal<S(!new)>(maxRetries: int, net: nat -> Attempt,
                                                              cancelled: nat -> bool, h: Handler<S>, s: S, n: nat)
    ensures var x := ExchangeFrom(maxRetries, true, net, cancelled, h, s, n);
            x.outcome.Response? ==> x.outcome.status != 429 && x.outcome.status < 500
    decreases maxRetries + 1 - n
  {
    if n <= maxRetries {
      IdempotentResponseIsFinal(maxRetries, net, cancelled, h, s, n + 1);
    }
  }

  /** Faults answer with a status the handler itself never uses for having done the work. */
  ghost predicate Honest(net: nat -> Attempt, done: int -> bool) {
    forall i: nat :: net(i).Sent? && net(i).handling.Fault? ==> !done(net(i).handling.status)
  }

  /**
   * Idempotent retry refines a single call: if the caller is given a status that only the handler answers, the server
   * is in exactly the state one application leaves, whatever was lost or repeated on the way.
   */
  lemma {:induction false} DoneMeansApplied<S(!new)>(maxRetries: int, idempotent: bool, net: nat -> Attempt,
                                                     cancelled: nat -> bool, h: Handler<S>, s: S, done: int -> bool)
    requires Idempotent(h) && Honest(net, done)
    ensures var x := Call(maxRetries, idempotent, net, cancelled, h, s);
            && (x.server == s || x.server == h.effect(s))
            && (x.outcome.Response? && done(x.outcome.status) ==> x.applied > 0 && x.server == h.effect(s))
  {
    if maxRetries >= 0 {
      CallBudget(maxRetries, idempotent, net, cancelled, h, s, 0);
      CallEndsRightly(maxRetries, idempotent, net, cancelled, h, s, 0);
      var x := Call(maxRetries, idempotent, net, cancelled, h, s);
      ReplayIsOnce(DeliveredBy(net), h, s, x.sends);
      if x.outcome.Response? && done(x.outcome.status) {
        assert net(x.sends - 1).handling.Normal?;
      }
    }
  }

  // ── Typed errors and DELETE ─────────────────────────────────────────────────

  datatype ApiError = Authentication | Authorization | NotFound | Conflict | Validation | Api(status: int)

  function ClassifyError(status: int): ApiError {
    match status
    case 401 => Authentication
    case 403 => Authorization
    case 404 => NotFound
    case 409 => Conflict
    case 422 => Validation
    case _ => Api(status)
  }

  predicate Success(status: int) {
    200 <= status < 300
  }

  /** The result of a verb method: nil, a typed error, some other error, or no result because the process died. */
  datatype Result = Nil | TypedError(error: ApiError) | OtherError | Died

  function ResultOf(o: Outcome): Result {
    match o
    case Response(status) => if Success(status) then Nil else TypedError(ClassifyError(status))
    case Dead => Died
    case _ => OtherError
  }

  /** What the caller is told of a status that is returned, and of the outcomes that are none. */
  lemma ResultsAreTyped(status: int)
    ensures ResultOf(Response(status)) == Nil <==> 200 <= status <= 299
    ensures ResultOf(Response(401)) == TypedError(Authentication)
    ensures ResultOf(Response(403)) == TypedError(Authorization)
    ensures ResultOf(Response(404)) == TypedError(NotFound) && ResultOf(Response(409)) == TypedError(Conflict)
    ensures ResultOf(Response(422)) == TypedError(Validation)
    ensures !(200 <= status <= 299) && status !in {401, 403, 404, 409, 422}
            <==> ResultOf(Response(status)) == TypedError(Api(status))
    ensures ResultOf(Failed) == ResultOf(ContextDone) == ResultOf(Exhausted) == OtherError && ResultOf(Dead) == Died
  {
  }

  /**
   * An answer that is not repeated ends its call at once, and its status decides what the caller is told: 429 and 5xx
   * are repeated, for the five methods, and every other status is not.
   */
  lemma AnswerReachesCaller<S(!new)>(maxRetries: nat, method_: string, net: nat -> Attempt, cancelled: nat -> bool,
                                     h: Handler<S>, s: S, i: nat)
    requires i < Call(maxRetries, IsIdempotent(method_), net, cancelled, h, s).sends
    requires net(i).Sent? && net(i).back == Arrives
    ensures var x := Call(maxRetries, IsIdempotent(method_), net, cancelled, h, s);
            var status := Answer(net(i).handling, h, StateBefore(net, h, s, i));
            !(Replayable(method_) && (status == 429 || status >= 500)) ==>
              && x.sends == i + 1 && x.outcome == Response(status)
              && ResultOf(x.outcome) == if 200 <= status <= 299 then Nil
                                        else if status == 401 then TypedError(Authentication)
                                        else if status == 403 then TypedError(Authorization)
                                        else if status == 404 then TypedError(NotFound)
                                        else if status == 409 then TypedError(Conflict)
                                        else if status == 422 then TypedError(Validation)
                                        else TypedError(Api(status))
  {
    RepeatedExactly(maxRetries, method_, net, cancelled, h, s, i);
    ResultsAreTyped(Answer(net(i).handling, h, StateBefore(net, h, s, i)));
  }

  /**
   * A success status at the end of an idempotent call was answered by the handler, in the state before the call or in
   * the state one application leaves; and that application was made.
   */
  lemma DoneByHandler<S(!new)>(maxRetries: nat, net: nat -> Attempt, cancelled: nat -> bool, h: Handler<S>, s: S)
    requires Idempotent(h) && Honest(net, Success)
    ensures var x := Call(maxRetries, true, net, cancelled, h, s);
            && (x.server == s || x.server == h.effect(s))
            && (ResultOf(x.outcome) == Nil ==>
                  x.server == h.effect(s) && (Success(h.status(s)) || Success(h.status(h.effect(s)))))
  {
    DoneMeansApplied(maxRetries, true, net, cancelled, h, s, Success);
    CallEndsRightly(maxRetries, true, net, cancelled, h, s, 0);
    var x := Call(maxRetries, true, net, cancelled, h, s);
    if ResultOf(x.outcome) == Nil {
      ReplayIsOnce(DeliveredBy(net), h, s, x.sends - 1);
      assert net(x.sends - 1).handling.Normal?;
    }
  }

  predicate GoneStatus(status: int) {
    Success(status) || status == 404
  }

  /**
   * The server's DELETE handler: the resource goes, and with it whatever is attached to it by a foreign key with
   * ON DELETE CASCADE.
   */
  function DeleteHandler<R(==)>(r: R, attached: R -> set<R>): Handler<set<R>> {
    Handler((live: set<R>) => if r in live then live - {r} - attached(r) else live,
            (live: set<R>) => if r in live then 204 else 404)
  }

  function NeverCancelled(): nat -> bool {
    (n: nat) => false
  }

  /** `Client.Delete` under a background context. */
  function Delete<R(==)>(maxRetries: int, net: nat -> Attempt, live: set<R>, r: R, attached: R -> set<R>)
    : (set<R>, Result)
  {
    var x := Call(maxRetries, true, net, NeverCancelled(), DeleteHandler(r, attached), live);
    (x.server, ResultOf(x.outcome))
  }

  /** A DELETE whose first answer arrives: nil if the resource was there, which goes, and else NotFoundError. */
  lemma DeleteAnswered<R(!new)>(maxRetries: nat, net: nat -> Attempt, live: set<R>, r: R, attached: R -> set<R>)
    requires net(0) == Sent(Normal, Arrives)
    ensures Delete(maxRetries, net, live, r, attached)
         == if r in live then (live - {r} - attached(r), Nil) else (live, TypedError(NotFound))
    ensures Call(maxRetries, true, net, NeverCancelled(), DeleteHandler(r, attached), live).outcome
         == Response(if r in live then 204 else 404)
  {
  }

  /**
   * A DELETE that ends in nil or NotFoundError leaves the resource absent, even when the answer that counts came from
   * a replay; whatever it ends in, it removes nothing but the resource and what is attached to it.
   */
  lemma DeleteMeansGone<R(!new)>(maxRetries: int, net: nat -> Attempt, live: set<R>, r: R, attached: R -> set<R>)
    requires Honest(net, GoneStatus)
    ensures var (live', result) := Delete(maxRetries, net, live, r, attached);
            && (live' == live || live' == live - {r} - attached(r))
            && (result == Nil || result == TypedError(NotFound) ==> r !in live')
  {
    var h := DeleteHandler(r, attached);
    assert Idempotent(h) by {
      forall s: set<R> ensures h.effect(h.effect(s)) == h.effect(s) {
        assert r !in s - {r} - attached(r);
      }
    }
    DoneMeansApplied(maxRetries, true, net, NeverCancelled(), h, live, GoneStatus);
  }
}
