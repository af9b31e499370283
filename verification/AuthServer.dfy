/** getAuthServer and doDiscovery: the cached discovery document and its single-flight refresh. */
module AuthServer {
  import opened Common
  import opened SingleFlight

  const AS_TTL_MS: int := 3_600_000

  /** A discovery document, or the error that was thrown. */
  type Answer = Result<int, ()>

  datatype State = State(
    now: int,              // Date.now()
    server: Option<int>,   // _as
    timestamp: int,        // _asTimestamp
    core: Core<Answer>,    // _asRefreshPromise and the promises that were in it
    successes: seq<int>)   // when discoveries succeeded

  datatype Event =
    | Tick(ms: nat)
    | Call(c: nat, newId: nat, configured: bool)  // getAuthServer up to its first await
    | Succeed(f: nat, document: int)              // the discovery response has been processed
    | Fail(f: nat)                                // the request or its processing threw
    | Finally(f: nat)
    | Deliver(c: nat)

  function Init(): State {
    State(0, None, 0, Empty(), [])
  }

  predicate Fresh(s: State) {
    s.server.Some? && s.now - s.timestamp < AS_TTL_MS
  }

  predicate Enabled(s: State, e: Event) {
    match e
    case Tick(_) => true
    case Call(c, newId, _) => c !in s.core.callers && newId !in s.core.flights
    case Succeed(f, _) => f in s.core.flights && s.core.flights[f].InFlight?
    case Fail(f) => f in s.core.flights && s.core.flights[f].InFlight?
    case Finally(f) => f in s.core.flights && s.core.flights[f].Settled?
    case Deliver(c) =>
      && c in s.core.callers && s.core.callers[c].Waiting?
      && s.core.callers[c].flight in s.core.flights && s.core.flights[s.core.callers[c].flight].Cleared?
  }

  function Next(s: State, e: Event): State
    requires Enabled(s, e)
  {
    match e
    case Tick(ms) => s.(now := s.now + ms)
    case Call(c, newId, configured) =>
      if Fresh(s) then s.(core := AnswerNow(s.core, c, Ok(s.server.value)))
      // without an issuer the promise is rejected before the first await, outside the try block
      else s.(core := Enter(s.core, c, newId, if configured then InFlight(s.now) else Settled(Err(()))))
    case Succeed(f, document) =>
      s.(server := Some(document), timestamp := s.now, core := Settle(s.core, f, Ok(document)),
         successes := s.successes + [s.now])
    case Fail(f) =>
      // stale-while-revalidate
      s.(core := Settle(s.core, f, if s.server.Some? then Ok(s.server.value) else Err(())))
    case Finally(f) => s.(core := Clear(s.core, f))
    case Deliver(c) => s.(core := SingleFlight.Deliver(s.core, c))
  }

  predicate Legal(s: State, es: seq<Event>)
    decreases |es|
  {
    es == [] || (Enabled(s, es[0]) && Legal(Next(s, es[0]), es[1..]))
  }

  function Exec(s: State, es: seq<Event>): State
    requires Legal(s, es)
    decreases |es|
  {
    if es == [] then s else Exec(Next(s, es[0]), es[1..])
  }

  ghost predicate SpacedOut(times: seq<int>) {
    forall i, j | 0 <= i < j < |times| :: times[j] - times[i] >= AS_TTL_MS
  }

  ghost predicate Inv(s: State) {
    && CoreInv(s.core)
    && SpacedOut(s.successes)
    && (s.successes == [] <==> s.server.None?)
    && (s.successes != [] ==> s.timestamp == s.successes[|s.successes| - 1] && s.timestamp <= s.now)
    && (forall f | f in s.core.flights && s.core.flights[f].InFlight? :: Due(s, f))
  }

  /** A discovery that is running was started when the cached document had run out. */
  ghost predicate Due(s: State, f: nat)
    requires f in s.core.flights && s.core.flights[f].InFlight?
  {
    && s.core.flights[f].startedAt <= s.now
    && (s.successes != [] ==> s.core.flights[f].startedAt - s.timestamp >= AS_TTL_MS)
  }

  lemma CoreStep(s: State, e: Event)
    requires CoreInv(s.core) && Enabled(s, e)
    ensures CoreInv(Next(s, e).core)
  {
    var s' := Next(s, e);
    forall c | c in s'.core.callers
      ensures CallerOk(s'.core, c)
    {
      if c in s.core.callers {
        assert CallerOk(s.core, c);
      }
    }
  }

  lemma InvStep(s: State, e: Event)
    requires Inv(s) && Enabled(s, e)
    ensures Inv(Next(s, e))
    ensures s.server.Some? ==> Next(s, e).server.Some?
  {
    CoreStep(s, e);
    var s' := Next(s, e);
    if e.Succeed? {
      assert Due(s, e.f);
      forall i, j | 0 <= i < j < |s'.successes|
        ensures s'.successes[j] - s'.successes[i] >= AS_TTL_MS
      {
        if j == |s.successes| {
          assert i == |s.successes| - 1 || s.successes[|s.successes| - 1] - s.successes[i] >= AS_TTL_MS;
        }
      }
      assert forall f | f in s.core.flights :: Active(s.core.flights[f]) ==> f == e.f;
    } else {
      forall f | f in s'.core.flights && s'.core.flights[f].InFlight?
        ensures Due(s', f)
      {
        if f in s.core.flights && s.core.flights[f].InFlight? {
          assert Due(s, f);
        }
      }
    }
  }

  lemma {:induction false} InvRun(s: State, es: seq<Event>)
    requires Inv(s) && Legal(s, es)
    ensures Inv(Exec(s, es))
    ensures s.server.Some? ==> Exec(s, es).server.Some?
    decreases |es|
  {
    if es != [] {
      InvStep(s, es[0]);
      InvRun(Next(s, es[0]), es[1..]);
    }
  }

  /** In every reachable state at most one discovery runs, and while it runs its promise is in the slot. */
  lemma OneDiscoveryAtATime(es: seq<Event>, f: nat, g: nat)
    requires Legal(Init(), es)
    requires var s := Exec(Init(), es);
             f in s.core.flights && g in s.core.flights && s.core.flights[f].InFlight? && s.core.flights[g].InFlight?
    ensures f == g && Exec(Init(), es).core.slot == Some(f)
  {
    InvRun(Init(), es);
    AtMostOneInFlight(Exec(Init(), es).core, f, g);
  }

  /** All callers that were answered by one discovery got the same answer. */
  lemma WaitersAgree(es: seq<Event>, c: nat, d: nat)
    requires Legal(Init(), es)
    requires var s := Exec(Init(), es);
             && c in s.core.callers && d in s.core.callers
             && s.core.callers[c].Answered? && s.core.callers[d].Answered?
             && s.core.callers[c].via.Some? && s.core.callers[c].via == s.core.callers[d].via
    ensures var s := Exec(Init(), es); s.core.callers[c].result == s.core.callers[d].result
  {
    InvRun(Init(), es);
    SameAnswer(Exec(Init(), es).core, c, d);
  }

  /** With a clock that does not go back, two successful discoveries are at least an hour apart. */
  lemma SuccessesSpacedOut(es: seq<Event>)
    requires Legal(Init(), es)
    ensures var times := Exec(Init(), es).successes;
            forall i, j | 0 <= i < j < |times| :: times[j] - times[i] >= 3_600_000
  {
    InvRun(Init(), es);
  }

  /**
   Once a document is there, there is always one, and a discovery that fails is answered with it. (A
   call that needs a new discovery and finds the module unconfigured still gets an error.)
   */
  lemma NeverForgotten(s: State, e: Event, es: seq<Event>)
    requires Inv(s) && s.server.Some?
    requires Enabled(s, e) && Legal(Next(s, e), es)
    ensures Exec(Next(s, e), es).server.Some?
    ensures e.Fail? ==> Next(s, e).core.flights[e.f] == Settled(Ok(s.server.value))
  {
    InvStep(s, e);
    InvRun(Next(s, e), es);
  }

  /** An hour, in milliseconds, decides: a younger document is answered at once, an older one is asked for again. */
  lemma OldDocumentIsAskedForAgain(s: State, c: nat, newId: nat, configured: bool)
    requires Inv(s) && Enabled(s, Call(c, newId, configured))
    ensures var s' := Next(s, Call(c, newId, configured));
            if s.server.Some? && s.now - s.timestamp < 3_600_000 then
              s'.core.callers[c] == Answered(None, Ok(s.server.value)) && s'.core.flights == s.core.flights
            else
              && s'.core.slot.Some? && s'.core.callers[c] == Waiting(s'.core.slot.value)
              && (s.core.slot.Some? ==> s'.core.slot == s.core.slot && s'.core.flights == s.core.flights)
              && (s.core.slot.None? && configured ==>
                    s'.core.slot == Some(newId) && s'.core.flights[newId] == InFlight(s.now))
              && (s.core.slot.None? && !configured ==>
                    s'.core.slot == Some(newId) && s'.core.flights[newId] == Settled(Err(())))
  {
  }

  /** A failed discovery gives its error to its waiters, if there is no document to fall back on. */
  lemma FailureIsPassedOn(s: State, f: nat)
    requires Enabled(s, Fail(f)) && s.server.None?
    ensures Next(s, Fail(f)).core.flights[f] == Settled(Err(())) && Next(s, Fail(f)).server.None?
  {
  }

  /** What a settled promise holds, it holds for ever. */
  lemma {:induction false} ResultStays(s: State, es: seq<Event>, f: nat, r: Answer)
    requires Inv(s) && Legal(s, es)
    requires f in s.core.flights && s.core.flights[f] in {Settled(r), Cleared(r)}
    ensures f in Exec(s, es).core.flights && Exec(s, es).core.flights[f] in {Settled(r), Cleared(r)}
    decreases |es|
  {
    if es != [] {
      InvStep(s, es[0]);
      ResultStepStays(s, es[0], f, r);
      ResultStays(Next(s, es[0]), es[1..], f, r);
    }
  }

  lemma ResultStepStays(s: State, e: Event, f: nat, r: Answer)
    requires Enabled(s, e)
    requires f in s.core.flights && s.core.flights[f] in {Settled(r), Cleared(r)}
    ensures f in Next(s, e).core.flights && Next(s, e).core.flights[f] in {Settled(r), Cleared(r)}
  {
  }

  /** When a discovery succeeds, its document is what everybody gets who waits for it, now or later, however late. */
  lemma WaitersGetDocument(s: State, f: nat, document: int, es: seq<Event>, c: nat)
    requires Inv(s) && Enabled(s, Succeed(f, document)) && Legal(Next(s, Succeed(f, document)), es)
    requires var s' := Exec(Next(s, Succeed(f, document)), es);
             c in s'.core.callers && s'.core.callers[c].Answered? && s'.core.callers[c].via == Some(f)
    ensures Exec(Next(s, Succeed(f, document)), es).core.callers[c].result == Ok(document)
    ensures var s' := Next(s, Succeed(f, document)); s'.server == Some(document) && s'.timestamp == s.now
  {
    var s1 := Next(s, Succeed(f, document));
    InvStep(s, Succeed(f, document));
    InvRun(s1, es);
    ResultStays(s1, es, f, Ok(document));
    assert CallerOk(Exec(s1, es).core, c);
  }

  /** A failed discovery does not block the next: once its `finally` has run, the slot is free again. */
  lemma SlotFreedAfterFlight(s: State, f: nat)
    requires Inv(s) && Enabled(s, Finally(f))
    ensures s.core.slot == Some(f) && Next(s, Finally(f)).core.slot == None
  {
    assert Active(s.core.flights[f]);
  }

  // ---------- the module variables ----------

  /** The module's variables; each method is the code between two awaits. */
  class AuthServerModule {
    var server: Option<int>
    var timestamp: int
    var slot: Option<nat>
    var flights: map<nat, Flight<Answer>>
    ghost var now: int
    ghost var callers: map<nat, Caller<Answer>>
    ghost var successes: seq<int>

    constructor ()
      ensures Abstract() == Init()
    {
      server, timestamp, slot, flights := None, 0, None, map[];
      now, callers, successes := 0, map[], [];
    }

    ghost function Abstract(): State
      reads this
    {
      State(now, server, timestamp, Core(slot, flights, callers), successes)
    }

    /** getAuthServer; Err is returned for a caller that has to await the promise in the slot. */
    method GetAuthServer(clock: int, ghost c: nat, newId: nat, configured: bool) returns (r: Result<int, nat>)
      requires clock == now && Enabled(Abstract(), Call(c, newId, configured))
      modifies this
      ensures Abstract() == Next(old(Abstract()), Call(c, newId, configured))
      ensures r.Ok? <==> old(server).Some? && clock - old(timestamp) < 3_600_000
      ensures r.Ok? ==> server == Some(r.value)
      ensures r.Err? ==> slot == Some(r.error)
    {
      if server.Some? {
        if clock - timestamp < AS_TTL_MS {
          callers := callers[c := Answered(None, Ok(server.value))];
          return Ok(server.value);
        }
      }
      if slot.Some? {
        callers := callers[c := Waiting(slot.value)];
        return Err(slot.value);
      }
      flights := flights[newId := if configured then InFlight(clock) else Settled(Err(()))];
      slot := Some(newId);
      callers := callers[c := Waiting(newId)];
      return Err(newId);
    }

    /** The end of doDiscovery: `document` is what processDiscoveryResponse gave, None if something threw. */
    method DiscoveryEnds(clock: int, f: nat, document: Option<int>)
      requires clock == now && f in flights && flights[f].InFlight?
      modifies this
      ensures Abstract() == Next(old(Abstract()), if document.Some? then Succeed(f, document.value) else Fail(f))
    {
      if document.Some? {
        server := document;
        timestamp := clock;
        successes := successes + [clock];
        flights := flights[f := Settled(Ok(document.value))];
      } else if server.Some? {
        flights := flights[f := Settled(Ok(server.value))];
      } else {
        flights := flights[f := Settled(Err(()))];
      }
    }

    /** The callback given to finally. */
    method FinallyRuns(f: nat)
      requires f in flights && flights[f].Settled?
      modifies this
      ensures Abstract() == Next(old(Abstract()), Finally(f))
    {
      slot := None;
      flights := flights[f := Cleared(flights[f].result)];
    }
  }
}
