/**
 Roles live in two stores: the Authentik groups decide, the role column caches. These lemmas say
 exactly when the two agree after each way a role change or a login can end.
 */
module RoleProtocol {
  import opened Common
  import opened Users
  import opened Login
  import opened AdminRouter

  const ROLE_GROUPS: set<string> := {"admins", "paid", "free"}

  function RoleGroups(groups: set<string>): set<string> {
    groups * ROLE_GROUPS
  }

  /** The groups that Authentik holds for a user. */
  function Mine(w: World, id: nat): set<string>
    requires id in w.rows
  {
    GroupsOf(w.groups, w.rows[id].data.providerId)
  }

  /** The user's role groups are no other than the group of the cached role. */
  ghost predicate Agree(w: World, id: nat)
    requires id in w.rows
  {
    RoleGroups(Mine(w, id)) <= {RoleToGroup(w.rows[id].data.role)}
  }

  /** The user is in at most one role group. */
  ghost predicate AtMostOne(groups: set<string>) {
    forall a, b | a in RoleGroups(groups) && b in RoleGroups(groups) :: a == b
  }

  lemma RoleToGroupInjective(a: Role, b: Role)
    ensures RoleToGroup(a) == RoleToGroup(b) ==> a == b
    ensures RoleToGroup(a) in ROLE_GROUPS
  {
  }

  // ---------- role changes ----------

  /** A role change that succeeds makes the stores agree exactly when no third role group was there. */
  lemma SuccessAgreesIff(before: World, id: nat, newRole: Role, admin: User, now: int, replies: AkReplies,
                         insertOk: bool, commitOk: bool, after: World, outcome: AdminOutcome)
    requires id in before.rows
    requires ChangeRoleEffect(before, id, newRole, admin, now, replies, insertOk, commitOk, after, outcome)
    requires outcome.Succeeded?
    ensures Agree(after, id) <==>
            RoleGroups(Mine(before, id)) <= {RoleToGroup(before.rows[id].data.role), RoleToGroup(newRole)}
    ensures Agree(before, id) ==> Agree(after, id)
  {
    RoleToGroupInjective(before.rows[id].data.role, newRole);
    var old_, new_ := RoleToGroup(before.rows[id].data.role), RoleToGroup(newRole);
    assert Mine(after, id) == Mine(before, id) - {old_} + {new_};
    assert RoleGroups(Mine(after, id)) == RoleGroups(Mine(before, id)) - {old_} + {new_};
    if Agree(after, id) {
      forall g | g in RoleGroups(Mine(before, id))
        ensures g in {old_, new_}
      {
        assert g == old_ || g in RoleGroups(Mine(after, id));
      }
    }
  }

  /**
   A role change that is not saved, of a user whose stores agreed: they still agree unless the new group
   was added after all while the row kept its old role.
   */
  lemma FailureAgreesIff(before: World, id: nat, newRole: Role, admin: User, now: int, replies: AkReplies,
                         insertOk: bool, commitOk: bool, after: World, outcome: AdminOutcome)
    requires id in before.rows && Agree(before, id)
    requires ChangeRoleEffect(before, id, newRole, admin, now, replies, insertOk, commitOk, after, outcome)
    requires !outcome.Succeeded?
    ensures after.rows == before.rows && after.log == before.log
    ensures Agree(after, id) <==> newRole == before.rows[id].data.role || !GroupAdded(replies)
    ensures AtMostOne(Mine(after, id))
  {
    RoleToGroupInjective(before.rows[id].data.role, newRole);
    var old_, new_ := RoleToGroup(before.rows[id].data.role), RoleToGroup(newRole);
    assert Mine(after, id) == Mine(before, id) || Mine(after, id) == Mine(before, id) - {old_}
        || Mine(after, id) == Mine(before, id) - {old_} + {new_};
    if GroupAdded(replies) {
      assert Mine(after, id) == Mine(before, id) - {old_} + {new_};
      assert RoleGroups(Mine(after, id)) == {new_};
    }
  }

  /**
   A role change that is answered as a success: the stores agree afterwards exactly when the audit
   insert succeeded too, or there was nothing to change. Its failure is swallowed, but the row keeps
   the old role while the groups have moved.
   */
  lemma AnsweredAgreesIff(before: World, id: nat, newRole: Role, admin: User, now: int, replies: AkReplies,
                          insertOk: bool, commitOk: bool, after: World, outcome: AdminOutcome)
    requires id in before.rows && Agree(before, id)
    requires ChangeRoleEffect(before, id, newRole, admin, now, replies, insertOk, commitOk, after, outcome)
    requires Answered(outcome)
    ensures Agree(after, id) <==> insertOk || newRole == before.rows[id].data.role
    ensures after.rows[id].data.role == if insertOk then newRole else before.rows[id].data.role
  {
    if insertOk {
      SuccessAgreesIff(before, id, newRole, admin, now, replies, insertOk, commitOk, after, outcome);
    } else {
      FailureAgreesIff(before, id, newRole, admin, now, replies, insertOk, commitOk, after, outcome);
    }
  }

  /** The change got as far as adding the new group, acknowledged or not. */
  predicate GroupAdded(replies: AkReplies) {
    replies.lookups && replies.remove.Answered? && LeaseCache.Took(replies.add)
  }

  /** The lookups or the remove step failing, or the add step failing without effect, do no harm. */
  lemma EarlyFailureHarmless(before: World, id: nat, newRole: Role, admin: User, now: int, replies: AkReplies,
                             insertOk: bool, commitOk: bool, after: World, outcome: AdminOutcome)
    requires id in before.rows && Agree(before, id)
    requires ChangeRoleEffect(before, id, newRole, admin, now, replies, insertOk, commitOk, after, outcome)
    requires !replies.lookups || replies.remove.Failed? || (replies.add.Failed? && !replies.add.carriedOut)
    ensures outcome == AuthentikFailed && Agree(after, id)
  {
    FailureAgreesIff(before, id, newRole, admin, now, replies, insertOk, commitOk, after, outcome);
  }

  /**
   The self-change guard comes after the Authentik calls: an admin who changes their own role is
   refused, but unless it was the role they had, the groups have moved and the row has not.
   */
  lemma SelfChangeAgreesIff(before: World, id: nat, newRole: Role, admin: User, now: int, replies: AkReplies,
                            insertOk: bool, commitOk: bool, after: World, outcome: AdminOutcome)
    requires id in before.rows && before.rows[id] == admin && admin.id == id && Agree(before, id)
    requires replies.lookups && replies.remove.Answered? && replies.add.Answered?
    requires ChangeRoleEffect(before, id, newRole, admin, now, replies, insertOk, commitOk, after, outcome)
    ensures outcome == SelfAction && after.rows == before.rows
    ensures Agree(after, id) <==> newRole == admin.data.role
  {
    FailureAgreesIff(before, id, newRole, admin, now, replies, insertOk, commitOk, after, outcome);
  }

  /** A role change never touches the groups or the row of anybody else. */
  lemma OthersKeepAgreeing(before: World, id: nat, newRole: Role, admin: User, now: int, replies: AkReplies,
                           insertOk: bool, commitOk: bool, after: World, outcome: AdminOutcome, other: nat)
    requires ValidUsers(before.rows)
    requires ChangeRoleEffect(before, id, newRole, admin, now, replies, insertOk, commitOk, after, outcome)
    requires other in before.rows && other != id
    ensures other in after.rows && after.rows[other] == before.rows[other]
    ensures Mine(after, other) == Mine(before, other)
  {
  }

  /**
   What a role change does to the groups of its user, whatever its replies and its outcome: no group
   but the two of the change comes or goes, the old one goes when the removal is carried out, and the
   new one comes when the removal is acknowledged and the addition is carried out.
   */
  lemma ChangeTouchesTwoGroups(before: World, id: nat, newRole: Role, admin: User, now: int, replies: AkReplies,
                               insertOk: bool, commitOk: bool, after: World, outcome: AdminOutcome)
    requires id in before.rows && id in after.rows
    requires ChangeRoleEffect(before, id, newRole, admin, now, replies, insertOk, commitOk, after, outcome)
    ensures var old_, new_ := RoleToGroup(before.rows[id].data.role), RoleToGroup(newRole);
            var removed := replies.lookups && (replies.remove.Answered? || replies.remove.carriedOut);
            var added := replies.lookups && replies.remove.Answered?
                         && (replies.add.Answered? || replies.add.carriedOut);
            && Mine(after, id) - {old_, new_} == Mine(before, id) - {old_, new_}
            && (old_ in Mine(after, id) <==> (old_ == new_ && added) || (old_ in Mine(before, id) && !removed))
            && (new_ in Mine(after, id) <==> added || (new_ in Mine(before, id) && !(old_ == new_ && removed)))
            && (outcome.Succeeded? ==> new_ in Mine(after, id) && (old_ != new_ ==> old_ !in Mine(after, id)))
  {
    var old_, new_ := RoleToGroup(before.rows[id].data.role), RoleToGroup(newRole);
    assert Mine(after, id) == Mine(before, id) || Mine(after, id) == Mine(before, id) - {old_}
        || Mine(after, id) == Mine(before, id) - {old_} + {new_};
  }

  /** The names of the role groups. */
  lemma RoleGroupNames()
    ensures RoleToGroup(Admin) == "admins" && RoleToGroup(Paid) == "paid" && RoleToGroup(Free) == "free"
  {
  }

  // ---------- logins ----------

  function AsSet(groups: seq<string>): set<string> {
    set g | g in groups
  }

  /** The user with this id logs in through its provider_id, with these groups in the claims. */
  ghost predicate LoginOf(cfg: Settings, before: World, id: nat, claims: Claims, info: Userinfo, newId: nat, now: int,
                          groups: seq<string>, after: World) {
    && ValidUsers(before.rows) && newId !in before.rows
    && id in before.rows && claims.sub == before.rows[id].data.providerId
    && Effective(claims, info).groups == Some(groups)
    && after.groups == before.groups && after.log == before.log
    && id in after.rows
    && LoginEffect(cfg, before.rows, claims, info, newId, now, false, after.rows, LoggedIn(after.rows[id]))
  }

  lemma LoginSetsRole(cfg: Settings, before: World, id: nat, claims: Claims, info: Userinfo, newId: nat, now: int,
                      groups: seq<string>, after: World)
    requires LoginOf(cfg, before, id, claims, info, newId, now, groups, after)
    ensures after.rows[id].data.role == ResolveRole(cfg, Effective(claims, info).email, Some(groups))
    ensures after.rows[id].data.providerId == before.rows[id].data.providerId
    ensures Mine(after, id) == Mine(before, id)
  {
    assert ByProvider(before.rows, claims.sub) == Some(before.rows[id]);
  }

  /** With the current groups in the claims, the role that resolve_role picks agrees iff there is at most one. */
  lemma ResolveAgreesIff(cfg: Settings, email: string, groups: seq<string>)
    requires !IsAdminEmail(cfg, email)
    ensures RoleGroups(AsSet(groups)) <= {RoleToGroup(ResolveRole(cfg, email, Some(groups)))}
       <==> AtMostOne(AsSet(groups))
  {
    var role := ResolveRole(cfg, email, Some(groups));
    var mine := RoleGroups(AsSet(groups));
    assert "admins" in groups <==> "admins" in mine;
    assert "paid" in groups <==> "paid" in mine;
    if mine <= {RoleToGroup(role)} {
      assert AtMostOne(AsSet(groups));
    } else {
      var g :| g in mine && g != RoleToGroup(role);
      assert RoleToGroup(role) in mine;
    }
  }

  /**
   A login that carries the user's current groups brings the stores into agreement exactly when
   the user is in at most one role group (and is not the one ADMIN_EMAIL names).
   */
  lemma CurrentLoginAgreesIff(cfg: Settings, before: World, id: nat, claims: Claims, info: Userinfo, newId: nat,
                              now: int, groups: seq<string>, after: World)
    requires LoginOf(cfg, before, id, claims, info, newId, now, groups, after)
    requires AsSet(groups) == Mine(before, id)
    requires !IsAdminEmail(cfg, Effective(claims, info).email)
    ensures Agree(after, id) <==> AtMostOne(Mine(before, id))
  {
    LoginSetsRole(cfg, before, id, claims, info, newId, now, groups, after);
    ResolveAgreesIff(cfg, Effective(claims, info).email, groups);
  }

  /** A token with older groups brings the stores apart exactly when those groups mean another role. */
  lemma StaleLoginAgreesIff(cfg: Settings, before: World, id: nat, claims: Claims, info: Userinfo, newId: nat,
                            now: int, groups: seq<string>, after: World)
    requires LoginOf(cfg, before, id, claims, info, newId, now, groups, after)
    requires Agree(before, id) && RoleGroups(Mine(before, id)) != {}
    ensures Agree(after, id) <==>
            ResolveRole(cfg, Effective(claims, info).email, Some(groups)) == before.rows[id].data.role
  {
    LoginSetsRole(cfg, before, id, claims, info, newId, now, groups, after);
    RoleToGroupInjective(before.rows[id].data.role, after.rows[id].data.role);
    var g :| g in RoleGroups(Mine(before, id));
    assert g == RoleToGroup(before.rows[id].data.role);
  }

  /**
   When a change that was not saved, by a lost commit or a failed audit insert, is followed by
   another change without a login in between, the user ends up in two role groups, and from then on
   no login with current groups helps.
   */
  lemma SecondChangeTooEarly(w0: World, id: nat, role1: Role, role2: Role, admin: User, now: int, replies: AkReplies,
                             insertOk: bool, commitOk: bool, w1: World, lost: AdminOutcome, w2: World)
    requires id in w0.rows && Agree(w0, id) && admin.id != w0.rows[id].id
    requires role1 != w0.rows[id].data.role && role2 != role1
    requires replies.lookups && replies.remove.Answered? && replies.add.Answered?
    requires ChangeRoleEffect(w0, id, role1, admin, now, replies, insertOk, commitOk, w1, lost)
    requires lost.CommitFailed? || lost.AnsweredUnsaved?
    requires id in w1.rows && id in w2.rows
    requires ChangeRoleEffect(w1, id, role2, admin, now, replies, true, true, w2, Succeeded(w2.rows[id]))
    ensures RoleGroups(Mine(w2, id)) == {RoleToGroup(role1), RoleToGroup(role2)}
    ensures !AtMostOne(Mine(w2, id))
  {
    RoleToGroupInjective(w0.rows[id].data.role, role1);
    RoleToGroupInjective(role1, role2);
    var old_, g1, g2 := RoleToGroup(w0.rows[id].data.role), RoleToGroup(role1), RoleToGroup(role2);
    assert Mine(w1, id) == Mine(w0, id) - {old_} + {g1};
    assert RoleGroups(Mine(w1, id)) == {g1};
    assert Mine(w2, id) == Mine(w1, id) - {old_} + {g2};
    assert g1 in RoleGroups(Mine(w2, id)) && g2 in RoleGroups(Mine(w2, id));
  }

  // ---------- whole runs ----------

  /** What happens to one user between two worlds. */
  datatype Event =
    | Change(newRole: Role, admin: User, now: int, replies: AkReplies, insertOk: bool, commitOk: bool,
             outcome: AdminOutcome)
    // the groups of the claims may be the current ones or not
    | Login(claims: Claims, info: Userinfo, newId: nat, now: int, groups: seq<string>)
    | Elsewhere  // anything that leaves the user's provider_id, role and groups alone

  ghost predicate Happens(cfg: Settings, w: World, id: nat, e: Event, w': World) {
    && id in w.rows && id in w'.rows
    && match e
       case Change(newRole, admin, now, replies, insertOk, commitOk, outcome) =>
         ChangeRoleEffect(w, id, newRole, admin, now, replies, insertOk, commitOk, w', outcome)
       case Login(claims, info, newId, now, groups) =>
         LoginOf(cfg, w, id, claims, info, newId, now, groups, w')
       case Elsewhere =>
         && w'.rows[id].data.providerId == w.rows[id].data.providerId
         && w'.rows[id].data.role == w.rows[id].data.role
         && Mine(w', id) == Mine(w, id)
  }

  /** The claims carry the groups that Authentik holds, and ADMIN_EMAIL does not name the user. */
  ghost predicate IsCurrent(cfg: Settings, w: World, id: nat, e: Event)
    requires id in w.rows && e.Login?
  {
    AsSet(e.groups) == Mine(w, id) && !IsAdminEmail(cfg, Effective(e.claims, e.info).email)
  }

  /** After this event the user has to log in before the next role change. */
  predicate LeavesDoubt(e: Event) {
    e.Change? && !e.outcome.Succeeded? && GroupAdded(e.replies)
  }

  /** Whether a login is still owed before event i. */
  function Owed(events: seq<Event>, i: nat): bool
    requires i <= |events|
  {
    if i == 0 then false
    else if LeavesDoubt(events[i - 1]) then true
    else if events[i - 1].Login? || events[i - 1].Change? then false
    else Owed(events, i - 1)
  }

  ghost predicate HappensAt(cfg: Settings, worlds: seq<World>, id: nat, events: seq<Event>, i: nat)
    requires i < |events| && |worlds| == |events| + 1
  {
    Happens(cfg, worlds[i], id, events[i], worlds[i + 1])
  }

  /** Event i happens between worlds i and i + 1. */
  ghost predicate Run(cfg: Settings, worlds: seq<World>, id: nat, events: seq<Event>) {
    && |worlds| == |events| + 1
    && (forall w | w in worlds :: id in w.rows)
    && (forall i: nat | i < |events| :: HappensAt(cfg, worlds, id, events, i))
  }

  // ---------- runs without any premise ----------

  /**
   Told by the world before the event and the event's inputs: it keeps the stores in agreement. A role
   change that adds the group of another role must go through to the end, by another admin and with the
   insert and the commit succeeding; a login must carry groups that mean the cached role.
   */
  ghost predicate Harmless(cfg: Settings, w: World, id: nat, e: Event)
    requires id in w.rows
  {
    match e
    case Change(newRole, admin, _, replies, insertOk, commitOk, _) =>
      GroupAdded(replies) && newRole != w.rows[id].data.role ==>
        replies.add.Answered? && admin.id != w.rows[id].id && insertOk && commitOk
    case Login(claims, info, _, _, groups) =>
      || RoleGroups(Mine(w, id)) == {}
      || ResolveRole(cfg, Effective(claims, info).email, Some(groups)) == w.rows[id].data.role
    case Elsewhere => true
  }

  lemma HarmlessIff(cfg: Settings, w: World, id: nat, e: Event, w': World)
    requires Happens(cfg, w, id, e, w') && Agree(w, id)
    ensures Agree(w', id) <==> Harmless(cfg, w, id, e)
  {
    match e
    case Change(newRole, admin, now, replies, insertOk, commitOk, outcome) =>
      if outcome.Succeeded? {
        SuccessAgreesIff(w, id, newRole, admin, now, replies, insertOk, commitOk, w', outcome);
      } else {
        FailureAgreesIff(w, id, newRole, admin, now, replies, insertOk, commitOk, w', outcome);
      }
    case Login(claims, info, newId, now, groups) =>
      if RoleGroups(Mine(w, id)) == {} {
        LoginSetsRole(cfg, w, id, claims, info, newId, now, groups, w');
      } else {
        StaleLoginAgreesIff(cfg, w, id, claims, info, newId, now, groups, w');
      }
    case Elsewhere =>
  }

  ghost predicate AgreeAt(worlds: seq<World>, id: nat, k: nat)
    requires k < |worlds|
  {
    id in worlds[k].rows && Agree(worlds[k], id)
  }

  ghost predicate HarmlessAt(cfg: Settings, worlds: seq<World>, id: nat, events: seq<Event>, i: nat)
    requires i < |events| && |worlds| == |events| + 1
  {
    id in worlds[i].rows && Harmless(cfg, worlds[i], id, events[i])
  }

  /**
   Over every run of role changes, with any failures, and of logins, with any groups: role and groups
   agree all the time exactly when every event is harmless.
   */
  lemma {:induction false} AlwaysAgreeIff(cfg: Settings, worlds: seq<World>, id: nat, events: seq<Event>, n: nat)
    requires Run(cfg, worlds, id, events) && n <= |events|
    requires AgreeAt(worlds, id, 0)
    ensures (forall k: nat | k <= n :: AgreeAt(worlds, id, k))
       <==> (forall i: nat | i < n :: HarmlessAt(cfg, worlds, id, events, i))
  {
    if n > 0 {
      AlwaysAgreeIff(cfg, worlds, id, events, n - 1);
      assert HappensAt(cfg, worlds, id, events, n - 1);
      if AgreeAt(worlds, id, n - 1) {
        HarmlessIff(cfg, worlds[n - 1], id, events[n - 1], worlds[n]);
        assert AgreeAt(worlds, id, n) <==> HarmlessAt(cfg, worlds, id, events, n - 1);
      }
      hide AgreeAt, HarmlessAt, HappensAt, Happens;
    }
  }

  /**
   Told the same way: a role change does not lead into a second role group. If it gets as far as adding
   the new group, the user must be in no role group besides that and the cached role's.
   */
  ghost predicate Tidy(w: World, id: nat, e: Event)
    requires id in w.rows
  {
    e.Change? && GroupAdded(e.replies) ==>
      RoleGroups(Mine(w, id)) <= {RoleToGroup(w.rows[id].data.role), RoleToGroup(e.newRole)}
  }

  lemma TidyIff(cfg: Settings, w: World, id: nat, e: Event, w': World)
    requires Happens(cfg, w, id, e, w') && AtMostOne(Mine(w, id))
    ensures AtMostOne(Mine(w', id)) <==> Tidy(w, id, e)
  {
    match e
    case Change(newRole, admin, now, replies, insertOk, commitOk, outcome) =>
      ChangeTidyIff(w, id, newRole, admin, now, replies, insertOk, commitOk, w', outcome);
    case Login(claims, info, newId, now, groups) =>
      LoginSetsRole(cfg, w, id, claims, info, newId, now, groups, w');
    case Elsewhere =>
  }

  lemma ChangeTidyIff(before: World, id: nat, newRole: Role, admin: User, now: int, replies: AkReplies,
                      insertOk: bool, commitOk: bool, after: World, outcome: AdminOutcome)
    requires id in before.rows && id in after.rows && AtMostOne(Mine(before, id))
    requires ChangeRoleEffect(before, id, newRole, admin, now, replies, insertOk, commitOk, after, outcome)
    ensures AtMostOne(Mine(after, id)) <==>
            (GroupAdded(replies) ==>
               RoleGroups(Mine(before, id)) <= {RoleToGroup(before.rows[id].data.role), RoleToGroup(newRole)})
  {
    RoleToGroupInjective(before.rows[id].data.role, newRole);
    var old_, new_ := RoleToGroup(before.rows[id].data.role), RoleToGroup(newRole);
    if GroupAdded(replies) {
      assert Mine(after, id) == Mine(before, id) - {old_} + {new_};
      assert RoleGroups(Mine(after, id)) == RoleGroups(Mine(before, id)) - {old_} + {new_};
      assert new_ in RoleGroups(Mine(after, id));
      if AtMostOne(Mine(after, id)) {
        forall g | g in RoleGroups(Mine(before, id))
          ensures g in {old_, new_}
        {
          assert g != old_ ==> g in RoleGroups(Mine(after, id));
        }
      }
      if RoleGroups(Mine(before, id)) <= {old_, new_} {
        assert RoleGroups(Mine(after, id)) <= {new_};
      }
    } else {
      assert Mine(after, id) == Mine(before, id) || Mine(after, id) == Mine(before, id) - {old_};
      assert RoleGroups(Mine(after, id)) <= RoleGroups(Mine(before, id));
    }
  }

  ghost predicate RepairableAt(worlds: seq<World>, id: nat, k: nat)
    requires k < |worlds|
  {
    id in worlds[k].rows && AtMostOne(Mine(worlds[k], id))
  }

  ghost predicate TidyAt(worlds: seq<World>, id: nat, events: seq<Event>, i: nat)
    requires i < |events| && |worlds| == |events| + 1
  {
    id in worlds[i].rows && Tidy(worlds[i], id, events[i])
  }

  /**
   Over every such run: a login with the current groups would bring role and groups into agreement at
   every moment exactly when no role change adds its group beside a third role group.
   */
  lemma {:induction false} AlwaysRepairableIff(cfg: Settings, worlds: seq<World>, id: nat, events: seq<Event>, n: nat)
    requires Run(cfg, worlds, id, events) && n <= |events|
    requires RepairableAt(worlds, id, 0)
    ensures (forall k: nat | k <= n :: RepairableAt(worlds, id, k))
       <==> (forall i: nat | i < n :: TidyAt(worlds, id, events, i))
  {
    if n > 0 {
      AlwaysRepairableIff(cfg, worlds, id, events, n - 1);
      assert HappensAt(cfg, worlds, id, events, n - 1);
      if RepairableAt(worlds, id, n - 1) {
        TidyIff(cfg, worlds[n - 1], id, events[n - 1], worlds[n]);
        assert RepairableAt(worlds, id, n) <==> TidyAt(worlds, id, events, n - 1);
      }
      hide RepairableAt, TidyAt, HappensAt, Happens;
    }
  }

  // ---------- runs in which the owed login comes first ----------

  /** Event i is no role change while a login is owed, and no login with other groups than the current. */
  ghost predicate InOrder(cfg: Settings, worlds: seq<World>, id: nat, events: seq<Event>, i: nat)
    requires i < |events| && |worlds| == |events| + 1
  {
    && id in worlds[i].rows
    && (events[i].Change? ==> !Owed(events, i))
    && (events[i].Login? ==> IsCurrent(cfg, worlds[i], id, events[i]))
  }

  ghost predicate History(cfg: Settings, worlds: seq<World>, id: nat, events: seq<Event>) {
    && Run(cfg, worlds, id, events)
    && (forall i: nat | i < |events| :: InOrder(cfg, worlds, id, events, i))
  }

  /** The stores agree, or a login is owed and there is at most one role group for it to restore. */
  ghost predicate Healthy(w: World, id: nat, owed: bool)
    requires id in w.rows
  {
    AtMostOne(Mine(w, id)) && (!owed ==> Agree(w, id))
  }

  lemma HealthyStep(cfg: Settings, w: World, id: nat, e: Event, w': World, owed: bool)
    requires Happens(cfg, w, id, e, w') && Healthy(w, id, owed)
    requires e.Change? ==> !owed
    requires e.Login? ==> IsCurrent(cfg, w, id, e)
    ensures Healthy(w', id, if e.Elsewhere? then owed else LeavesDoubt(e))
  {
    match e
    case Change(newRole, admin, now, replies, insertOk, commitOk, outcome) =>
      if outcome.Succeeded? {
        SuccessAgreesIff(w, id, newRole, admin, now, replies, insertOk, commitOk, w', outcome);
      } else {
        FailureAgreesIff(w, id, newRole, admin, now, replies, insertOk, commitOk, w', outcome);
      }
    case Login(claims, info, newId, now, groups) =>
      CurrentLoginAgreesIff(cfg, w, id, claims, info, newId, now, groups, w');
      LoginSetsRole(cfg, w, id, claims, info, newId, now, groups, w');
    case Elsewhere =>
  }

  lemma {:induction false} HistoryHealthy(cfg: Settings, worlds: seq<World>, id: nat, events: seq<Event>, n: nat)
    requires History(cfg, worlds, id, events) && n <= |events|
    requires id in worlds[0].rows && Agree(worlds[0], id)
    ensures id in worlds[n].rows && Healthy(worlds[n], id, Owed(events, n))
  {
    assert forall k | 0 <= k < |worlds| :: worlds[k] in worlds;
    if n > 0 {
      HistoryHealthy(cfg, worlds, id, events, n - 1);
      assert HappensAt(cfg, worlds, id, events, n - 1) && InOrder(cfg, worlds, id, events, n - 1);
      HealthyStep(cfg, worlds[n - 1], id, events[n - 1], worlds[n], Owed(events, n - 1));
    }
  }

  /**
   Over every run in which the target's login precedes the next change: the user is never in two
   role groups, and whenever no login is owed the cached role agrees with the groups.
   */
  lemma RolesAgreeOverRuns(cfg: Settings, worlds: seq<World>, id: nat, events: seq<Event>, n: nat)
    requires History(cfg, worlds, id, events) && n <= |events|
    requires id in worlds[0].rows && Agree(worlds[0], id)
    ensures id in worlds[n].rows && AtMostOne(Mine(worlds[n], id))
    ensures Owed(events, n) || Agree(worlds[n], id)
    ensures n > 0 && events[n - 1].Login? ==> Agree(worlds[n], id)
  {
    HistoryHealthy(cfg, worlds, id, events, n);
  }
}
