/** Blocking a user lasts, whatever logins and other admin requests come after it. */
module Blocking {
  import opened Common
  import opened Users
  import opened Login
  import opened AdminRouter
  import opened AuditFold

  /** One request: a login along any of the three paths, with any claims, or an admin request. */
  datatype Event =
    | ByLogin(claims: Claims, info: Userinfo, newId: nat, now: int, dbFails: bool, entered: LoginOutcome)
    | ByAdmin(call: AdminCall, outcome: AdminOutcome)

  ghost predicate Happens(cfg: Settings, w: World, e: Event, w': World) {
    && ValidUsers(w.rows)
    && match e
       case ByLogin(claims, info, newId, now, dbFails, entered) =>
         && newId !in w.rows && w'.groups == w.groups && w'.log == w.log
         && LoginEffect(cfg, w.rows, claims, info, newId, now, dbFails, w'.rows, entered)
       case ByAdmin(call, outcome) => Served(w, call, w', outcome)
  }

  /** The flag that this event sets for the user, if it does. */
  function Sets(e: Event, id: nat): Option<bool> {
    if e.ByAdmin? && e.call.ActiveCall? && e.call.id == id && e.outcome.Succeeded? then Some(e.call.isActive) else None
  }

  /** The last flag set for the user by the first n events. */
  function LastSet(events: seq<Event>, n: nat, id: nat, initial: bool): bool
    requires n <= |events|
  {
    if n == 0 then initial
    else if Sets(events[n - 1], id).Some? then Sets(events[n - 1], id).value
    else LastSet(events, n - 1, id, initial)
  }

  ghost predicate Occurs(cfg: Settings, worlds: seq<World>, events: seq<Event>, i: nat)
    requires i < |events| && |worlds| == |events| + 1
  {
    Happens(cfg, worlds[i], events[i], worlds[i + 1])
  }

  ghost predicate History(cfg: Settings, worlds: seq<World>, events: seq<Event>) {
    |worlds| == |events| + 1 && forall i: nat | i < |events| :: Occurs(cfg, worlds, events, i)
  }

  lemma ActiveStep(cfg: Settings, w: World, e: Event, w': World, id: nat)
    requires Happens(cfg, w, e, w') && id in w.rows && id in w'.rows
    ensures w'.rows[id].data.isActive == if Sets(e, id).Some? then Sets(e, id).value else w.rows[id].data.isActive
  {
    if e.ByLogin? {
      LoginKeepsActive(cfg, w.rows, e.claims, e.info, e.newId, e.now, e.dbFails, w'.rows, e.entered, id);
    }
  }

  /**
   Over every run of logins and admin requests, a row that is there all along is active or blocked
   as the last successful block or unblock of that row left it; no login changes that.
   */
  lemma {:induction false} ActiveIsLastSet(cfg: Settings, worlds: seq<World>, events: seq<Event>, n: nat, id: nat)
    requires History(cfg, worlds, events) && n <= |events|
    requires forall i | 0 <= i < |worlds| :: id in worlds[i].rows
    ensures worlds[n].rows[id].data.isActive == LastSet(events, n, id, worlds[0].rows[id].data.isActive)
  {
    if n > 0 {
      ActiveIsLastSet(cfg, worlds, events, n - 1, id);
      assert Occurs(cfg, worlds, events, n - 1);
      ActiveStep(cfg, worlds[n - 1], events[n - 1], worlds[n], id);
    }
  }

  /** As long as the last flag set is a block, every login as that row is refused and changes nothing at all. */
  lemma BlockedStaysOut(cfg: Settings, worlds: seq<World>, events: seq<Event>, n: nat, id: nat)
    requires History(cfg, worlds, events) && n < |events|
    requires forall i | 0 <= i < |worlds| :: id in worlds[i].rows
    requires !LastSet(events, n, id, worlds[0].rows[id].data.isActive)
    requires events[n].ByLogin? && ValidUsers(worlds[n].rows)
    requires var c := Effective(events[n].claims, events[n].info);
             Target(worlds[n].rows, c).Some? && Target(worlds[n].rows, c).value.id == id
    ensures !events[n].entered.LoggedIn? && worlds[n + 1] == worlds[n]
  {
    ActiveIsLastSet(cfg, worlds, events, n, id);
    assert Occurs(cfg, worlds, events, n);
  }
}
