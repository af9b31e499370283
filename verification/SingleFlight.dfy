/**
 The promise slot behind `_asRefreshPromise` and `_refreshSessionPromise`: a caller joins the
 promise in the slot or puts a new one there, and the promise's `finally` empties the slot. Code
 between two awaits runs as one step of the event loop.
 */
module SingleFlight {
  import opened Common

  /** A promise: running, settled with its `finally` still to run, or settled and out of the slot. */
  datatype Flight<R> = InFlight(startedAt: int) | Settled(result: R) | Cleared(result: R)

  /** A caller waits for a promise or has its answer, from a promise or without one. */
  datatype Caller<R> = Waiting(flight: nat) | Answered(via: Option<nat>, result: R)

  datatype Core<R> = Core(slot: Option<nat>, flights: map<nat, Flight<R>>, callers: map<nat, Caller<R>>)

  function Empty<R>(): Core<R> {
    Core(None, map[], map[])
  }

  predicate Active<R>(f: Flight<R>) {
    f.InFlight? || f.Settled?
  }

  /** The promise in the slot is the one that is not through, and there is no other. */
  ghost predicate CoreInv<R(!new)>(s: Core<R>) {
    && (s.slot.Some? ==> s.slot.value in s.flights)
    && (forall f | f in s.flights :: Active(s.flights[f]) <==> s.slot == Some(f))
    && (forall c | c in s.callers :: CallerOk(s, c))
  }

  ghost predicate CallerOk<R>(s: Core<R>, c: nat)
    requires c in s.callers
  {
    match s.callers[c]
    case Waiting(f) => f in s.flights
    case Answered(None, _) => true
    case Answered(Some(f), r) => f in s.flights && s.flights[f] == Cleared(r)
  }

  /** Answered on the spot. */
  function AnswerNow<R>(s: Core<R>, c: nat, r: R): Core<R> {
    s.(callers := s.callers[c := Answered(None, r)])
  }

  /** Joins the promise in the slot, or puts a new one there. */
  function Enter<R>(s: Core<R>, c: nat, newId: nat, promise: Flight<R>): Core<R> {
    if s.slot.Some? then s.(callers := s.callers[c := Waiting(s.slot.value)])
    else Core(Some(newId), s.flights[newId := promise], s.callers[c := Waiting(newId)])
  }

  function Settle<R>(s: Core<R>, f: nat, r: R): Core<R>
    requires f in s.flights
  {
    s.(flights := s.flights[f := Settled(r)])
  }

  /** The callback of `finally`: the slot is emptied. */
  function Clear<R>(s: Core<R>, f: nat): Core<R>
    requires f in s.flights && s.flights[f].Settled?
  {
    s.(slot := None, flights := s.flights[f := Cleared(s.flights[f].result)])
  }

  /** The await of a caller ends. */
  function Deliver<R>(s: Core<R>, c: nat): Core<R>
    requires c in s.callers && s.callers[c].Waiting?
    requires s.callers[c].flight in s.flights && s.flights[s.callers[c].flight].Cleared?
  {
    var f := s.callers[c].flight;
    s.(callers := s.callers[c := Answered(Some(f), s.flights[f].result)])
  }

  /** Whoever is told by the same promise is told the same. */
  lemma SameAnswer<R(!new)>(s: Core<R>, c: nat, d: nat)
    requires CoreInv(s)
    requires c in s.callers && d in s.callers && s.callers[c].Answered? && s.callers[d].Answered?
    requires s.callers[c].via.Some? && s.callers[c].via == s.callers[d].via
    ensures s.callers[c].result == s.callers[d].result
  {
    assert CallerOk(s, c) && CallerOk(s, d);
  }

  lemma AtMostOneInFlight<R(!new)>(s: Core<R>, f: nat, g: nat)
    requires CoreInv(s)
    requires f in s.flights && g in s.flights && s.flights[f].InFlight? && s.flights[g].InFlight?
    ensures f == g && s.slot == Some(f)
  {
    assert Active(s.flights[f]) && Active(s.flights[g]);
  }
}
