/** getSession and doRefreshSession: at most one refresh of the session at a time. */
module SessionRefresh {
  import opened Common
  import opened SingleFlight

  /** A session as far as the decision depends on it. */
  datatype Session = Session(token: string, exp: int)

  /** The session cookie: absent, not decodable, or decoded. */
  datatype AccessCookie = Missing | Malformed | Decoded(session: Session)

  /** What getSession resolves to, or that it throws. */
  type Answer = Result<Option<Session>, ()>

  datatype State = State(now: int, core: Core<Answer>, askedAt: map<nat, int>)

  datatype Event =
    | Tick(ms: nat)
    | Call(c: nat, newId: nat, access: AccessCookie, hasRefresh: bool)  // getSession up to its await
    | End(f: nat, answer: Answer)  // new session; null after the cookies were cleared; or clearing threw
    | Finally(f: nat)
    | Deliver(c: nat)

  function Init(): State {
    State(0, Empty(), map[])
  }

  /** Math.floor(Date.now() / 1000); the clock does not run before 1970. */
  function Seconds(ms: int): int {
    ms / 1000
  }

  predicate Usable(s: State, access: AccessCookie) {
    access.Decoded? && access.session.exp > Seconds(s.now) + 30
  }

  predicate Enabled(s: State, e: Event) {
    match e
    case Tick(_) => true
    case Call(c, newId, _, _) => c !in s.core.callers && newId !in s.core.flights
    case End(f, _) => f in s.core.flights && s.core.flights[f].InFlight?
    case Finally(f) => f in s.core.flights && s.core.flights[f].Settled?
    case Deliver(c) =>
      && c in s.core.callers && s.core.callers[c].Waiting?
      && s.core.callers[c].flight in s.core.flights && s.core.flights[s.core.callers[c].flight].Cleared?
  }

  function Next(s: State, e: Event): State
    requires Enabled(s, e)
  {
    match e
    case Tick(ms) => s.(now := s.now + ms)
    case Call(c, newId, access, hasRefresh) =>
      var s' := s.(askedAt := s.askedAt[c := s.now]);
      if Usable(s, access) then s'.(core := AnswerNow(s.core, c, Ok(Some(access.session))))
      else if hasRefresh then s'.(core := Enter(s.core, c, newId, InFlight(s.now)))
      else s'.(core := AnswerNow(s.core, c, Ok(None)))
    case End(f, answer) => s.(core := Settle(s.core, f, answer))
    case Finally(f) => s.(core := Clear(s.core, f))
    case Deliver(c) => s.(core := SingleFlight.Deliver(s.core, c))
  }

  predicate Legal(s: State, es: seq<Event>)
    decreases |es|
  {
    es == [] || (Enabled(s, es[0]) && Legal(Next(s, es[0]), es[1..]))
  }

  function Exec(s: State, es: seq<Event>): State
    requires Legal(s, es)
    decreases |es|
  {
    if es == [] then s else Exec(Next(s, es[0]), es[1..])
  }

  /** A session handed out without a refresh has more than 30 seconds left when it is asked for. */
  ghost predicate LastsLongEnough(s: State, c: nat)
    requires c in s.core.callers
  {
    && c in s.askedAt
    && (s.core.callers[c].Answered? && s.core.callers[c].via.None? && s.core.callers[c].result.Ok?
        && s.core.callers[c].result.value.Some? ==>
          1000 * s.core.callers[c].result.value.value.exp > s.askedAt[c] + 30_000)
  }

  ghost predicate Inv(s: State) {
    CoreInv(s.core) && forall c | c in s.core.callers :: LastsLongEnough(s, c)
  }

  lemma InvStep(s: State, e: Event)
    requires Inv(s) && Enabled(s, e)
    ensures Inv(Next(s, e))
  {
    var s' := Next(s, e);
    forall c | c in s'.core.callers
      ensures CallerOk(s'.core, c) && LastsLongEnough(s', c)
    {
      if c in s.core.callers {
        assert CallerOk(s.core, c) && LastsLongEnough(s, c);
      }
    }
  }

  lemma {:induction false} InvRun(s: State, es: seq<Event>)
    requires Inv(s) && Legal(s, es)
    ensures Inv(Exec(s, es))
    decreases |es|
  {
    if es != [] {
      InvStep(s, es[0]);
      InvRun(Next(s, es[0]), es[1..]);
    }
  }

  /** In every reachable state at most one refresh runs, its promise is in the slot, and its waiters agree. */
  lemma OneRefreshAtATime(es: seq<Event>, f: nat, g: nat, c: nat, d: nat)
    requires Legal(Init(), es)
    ensures var s := Exec(Init(), es);
            f in s.core.flights && g in s.core.flights && s.core.flights[f].InFlight? && s.core.flights[g].InFlight? ==>
              f == g && s.core.slot == Some(f)
    ensures var s := Exec(Init(), es);
            c in s.core.callers && d in s.core.callers && s.core.callers[c].Answered? && s.core.callers[d].Answered?
            && s.core.callers[c].via.Some? && s.core.callers[c].via == s.core.callers[d].via ==>
              s.core.callers[c].result == s.core.callers[d].result
  {
    InvRun(Init(), es);
    var s := Exec(Init(), es);
    if f in s.core.flights && g in s.core.flights && s.core.flights[f].InFlight? && s.core.flights[g].InFlight? {
      AtMostOneInFlight(s.core, f, g);
    }
    if c in s.core.callers && d in s.core.callers && s.core.callers[c].Answered? && s.core.callers[d].Answered?
       && s.core.callers[c].via.Some? && s.core.callers[c].via == s.core.callers[d].via {
      SameAnswer(s.core, c, d);
    }
  }

  /** In every reachable state, a session answered without a refresh has exp more than 30 s ahead. */
  lemma UnrefreshedSessionsLast(es: seq<Event>, c: nat)
    requires Legal(Init(), es)
    requires var s := Exec(Init(), es);
             && c in s.core.callers && s.core.callers[c].Answered? && s.core.callers[c].via.None?
             && s.core.callers[c].result.Ok? && s.core.callers[c].result.value.Some?
    ensures var s := Exec(Init(), es);
            c in s.askedAt && 1000 * s.core.callers[c].result.value.value.exp > s.askedAt[c] + 30_000
  {
    InvRun(Init(), es);
    assert LastsLongEnough(Exec(Init(), es), c);
  }

  /** The decision at the clock, in milliseconds: answered at once and without a refresh, or not. */
  lemma LiveSessionIsAnswered(s: State, c: nat, newId: nat, access: AccessCookie, hasRefresh: bool)
    requires Inv(s) && Enabled(s, Call(c, newId, access, hasRefresh))
    ensures var s' := Next(s, Call(c, newId, access, hasRefresh));
            if access.Decoded? && 1000 * access.session.exp > s.now + 30_000 then
              && s'.core.callers[c] == Answered(None, Ok(Some(access.session)))
              && s'.core.slot == s.core.slot && s'.core.flights == s.core.flights
            else if hasRefresh then
              && s'.core.slot.Some? && s'.core.callers[c] == Waiting(s'.core.slot.value)
              && (s.core.slot.None? ==> s'.core.flights[newId] == InFlight(s.now))
            else
              s'.core.callers[c] == Answered(None, Ok(None)) && s'.core.flights == s.core.flights
  {
  }

  // ---------- the module variable and the cookies ----------

  /** What the token endpoint answers; the ID token is not looked at again. */
  datatype Tokens = Tokens(access: string, refresh: Option<string>)

  datatype Cookies = Cookies(session: Option<string>, refresh: Option<string>)

  /** `_refreshSessionPromise`, and the cookies of the request that refreshes. */
  class SessionModule {
    var slot: Option<nat>
    var flights: map<nat, Flight<Answer>>
    var cookies: Cookies
    ghost var now: int
    ghost var callers: map<nat, Caller<Answer>>
    ghost var askedAt: map<nat, int>

    constructor (cookies: Cookies)
      ensures Abstract() == Init() && this.cookies == cookies
    {
      slot, flights, this.cookies := None, map[], cookies;
      now, callers, askedAt := 0, map[], map[];
    }

    ghost function Abstract(): State
      reads this
    {
      State(now, Core(slot, flights, callers), askedAt)
    }

    /** getSession up to its await; Err is returned for a caller that has to await the promise in the slot. */
    method GetSession(clock: int, ghost c: nat, newId: nat, access: AccessCookie, hasRefresh: bool)
      returns (r: Result<Option<Session>, nat>)
      requires clock == now && Enabled(Abstract(), Call(c, newId, access, hasRefresh))
      modifies this
      ensures Abstract() == Next(old(Abstract()), Call(c, newId, access, hasRefresh))
      ensures cookies == old(cookies)
      // a session is handed out on the spot exactly when it has more than 30 seconds left
      ensures forall session :: r == Ok(Some(session)) <==>
                                access == Decoded(session) && 1000 * session.exp > clock + 30_000
      ensures r.Ok? ==> slot == old(slot) && flights == old(flights)
      ensures var live := access.Decoded? && 1000 * access.session.exp > clock + 30_000;
              && (r == Ok(None) <==> !live && !hasRefresh)
              && (r.Err? <==> !live && hasRefresh)
      ensures r.Err? ==> slot == Some(r.error) && r.error == if old(slot).Some? then old(slot).value else newId
    {
      askedAt := askedAt[c := now];
      if access.Decoded? {
        if access.session.exp > Seconds(clock) + 30 {
          callers := callers[c := Answered(None, Ok(Some(access.session)))];
          return Ok(Some(access.session));
        }
      }
      if hasRefresh {
        if slot.Some? {
          callers := callers[c := Waiting(slot.value)];
          return Err(slot.value);
        }
        flights := flights[newId := InFlight(clock)];
        slot := Some(newId);
        callers := callers[c := Waiting(newId)];
        return Err(newId);
      }
      callers := callers[c := Answered(None, Ok(None))];
      return Ok(None);
    }

    /**
     The end of doRefreshSession. `tokens` is None if the refresh failed, `exp` is None if the new
     access token cannot be decoded, and cookies that may not be written throw.
     */
    method RefreshEnds(f: nat, tokens: Option<Tokens>, exp: Option<int>, writable: bool) returns (answer: Answer)
      requires f in flights && flights[f].InFlight?
      modifies this
      ensures Abstract() == Next(old(Abstract()), End(f, answer))
      // a session is answered only together with the cookies that hold it
      ensures answer.Ok? && answer.value.Some? <==> tokens.Some? && exp.Some? && writable
      ensures answer.Ok? && answer.value.Some? ==>
                && answer.value.value == Session(tokens.value.access, exp.value)
                && cookies == Cookies(Some(tokens.value.access),
                                      if tokens.value.refresh.Some? then tokens.value.refresh else old(cookies).refresh)
      // null is answered only after the cookies have been cleared
      ensures answer == Ok(None) ==> cookies == Cookies(None, None)
      ensures answer.Err? <==> !writable
      ensures answer.Err? ==> cookies == old(cookies)
    {
      if tokens.Some? && writable {
        cookies := Cookies(Some(tokens.value.access),
                           if tokens.value.refresh.Some? then tokens.value.refresh else cookies.refresh);
        if exp.Some? {
          answer := Ok(Some(Session(tokens.value.access, exp.value)));
          flights := flights[f := Settled(answer)];
          return;
        }
      }
      if writable {
        cookies := Cookies(None, None);
        answer := Ok(None);
      } else {
        answer := Err(());
      }
      flights := flights[f := Settled(answer)];
    }

    /** The callback given to finally. */
    method FinallyRuns(f: nat)
      requires f in flights && flights[f].Settled?
      modifies this
      ensures Abstract() == Next(old(Abstract()), Finally(f))
      ensures cookies == old(cookies)
    {
      slot := None;
      flights := flights[f := Cleared(flights[f].result)];
    }
  }
}
