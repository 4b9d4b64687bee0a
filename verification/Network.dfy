/** A server behind a lossy network, as one client sees it: what an attempt did and what came back. */
module Network {
  import opened Text
  import opened Folding

  /** How the server treats a request it receives: as its handler says, or with a fault that may have been applied. */
  datatype Handling = Normal | Fault(status: int, applied: bool)

  /** A request handler: its effect on the server state and the status it answers. */
  datatype Handler<!S> = Handler(effect: S -> S, status: S -> int)

  function Serve<S>(h: Handler<S>, how: Handling, s: S): (S, int) {
    match how
    case Normal => (h.effect(s), h.status(s))
    case Fault(status, applied) => (if applied then h.effect(s) else s, status)
  }

  predicate Applies(how: Handling) {
    how.Normal? || how.applied
  }

  ghost predicate Idempotent<S(!new)>(h: Handler<S>) {
    forall s :: h.effect(h.effect(s)) == h.effect(s)
  }

  /** Applying an idempotent effect on top of "applied at least once or not at all". */
  function Once<S>(h: Handler<S>, applied: nat, s: S): S {
    if applied == 0 then s else h.effect(s)
  }

  /** What the server did with each attempt of one client: nothing, if it did not arrive. */
  type Deliveries = nat -> Option<Handling>

  /** The server state before attempt n. */
  function StateBefore<S>(d: Deliveries, h: Handler<S>, s: S, n: nat): S {
    if n == 0 then s else
    var before := StateBefore(d, h, s, n - 1);
    if d(n - 1).Some? then Serve(h, d(n - 1).value, before).0 else before
  }

  /** How many of the attempts before n the server received, and how many it applied. */
  function Received(d: Deliveries, n: nat): nat {
    if n == 0 then 0 else Received(d, n - 1) + if d(n - 1).Some? then 1 else 0
  }

  function Applied(d: Deliveries, n: nat): nat {
    if n == 0 then 0 else Applied(d, n - 1) + if d(n - 1).Some? && Applies(d(n - 1).value) then 1 else 0
  }

  /** However often an idempotent request is replayed, the server is as if it had been applied once, or never. */
  lemma {:induction false} ReplayIsOnce<S(!new)>(d: Deliveries, h: Handler<S>, s: S, n: nat)
    requires Idempotent(h)
    ensures StateBefore(d, h, s, n) == Once(h, Applied(d, n), s)
  {
    if n > 0 {
      ReplayIsOnce(d, h, s, n - 1);
      assert h.effect(h.effect(s)) == h.effect(s);
    }
  }

  /** The effect, n times over. */
  function Repeated<S>(effect: S -> S, n: nat, s: S): S {
    if n == 0 then s else effect(Repeated(effect, n - 1, s))
  }

  /** The attempts that reached the server, and those that it applied. */
  function Reaches(d: Deliveries): nat -> bool {
    (i: nat) => d(i).Some?
  }

  function TakesEffect(d: Deliveries): nat -> bool {
    (i: nat) => d(i).Some? && (d(i).value == Normal || (d(i).value.Fault? && d(i).value.applied))
  }

  /** The counts are those of the attempts. */
  lemma {:induction false} CountsAreExact(d: Deliveries, n: nat)
    ensures Received(d, n) == |Those(Reaches(d), n)| && Applied(d, n) == |Those(TakesEffect(d), n)|
  {
    if n > 0 {
      CountsAreExact(d, n - 1);
      OneMore(Reaches(d), n - 1);
      OneMore(TakesEffect(d), n - 1);
    } else {
      assert Those(Reaches(d), 0) == {} && Those(TakesEffect(d), 0) == {};
    }
  }

  /** The server is as the effect leaves it when applied that many times. */
  lemma {:induction false} StateIsRepeated<S>(d: Deliveries, h: Handler<S>, s: S, n: nat)
    ensures StateBefore(d, h, s, n) == Repeated(h.effect, |Those(TakesEffect(d), n)|, s)
  {
    CountsAreExact(d, n);
    if n > 0 {
      StateIsRepeated(d, h, s, n - 1);
      CountsAreExact(d, n - 1);
    }
  }

  function Pow2(n: nat): (p: nat)
    ensures p > n
  {
    if n == 0 then 1 else 2 * Pow2(n - 1)
  }
}
