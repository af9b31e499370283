/**
 get_current_db_user: on every request the claims of the token are turned into a row of the users
 table, along one of three paths, inside a transaction that any exception rolls back.
 */
module Login {
  import opened Common
  import opened Users
  import opened UserRepository

  /** The claims of the token; `groups` is None when the claim is missing or not a list. */
  datatype Claims = Claims(sub: string, email: string, name: string, groups: Option<seq<string>>)

  /** The userinfo endpoint: what it says, or nothing usable. */
  datatype Userinfo = Userinfo(email: string, name: Option<string>, groups: Option<seq<string>>) | Unusable

  datatype LoginOutcome = LoggedIn(user: User) | Blocked | Unavailable

  /** The claims after the fallback to userinfo, which is asked only when the token has no email. */
  function Effective(claims: Claims, info: Userinfo): Claims {
    if claims.email != "" then claims
    else if info.Unusable? then claims
    else Claims(claims.sub, info.email,
                if info.name.Some? then info.name.value else claims.name,
                if info.groups.Some? then info.groups else claims.groups)
  }

  /** The row the claims belong to: by provider_id, else by a non-empty email. */
  ghost function Target(rows: UserTable, c: Claims): Option<User>
    requires ValidUsers(rows)
  {
    var known := ByProvider(rows, c.sub);
    if known.Some? then known
    else if c.email != "" then ByEmail(rows, c.email)
    else None
  }

  /** The row that the three paths are supposed to leave behind. */
  ghost function Resolved(cfg: Settings, rows: UserTable, c: Claims, newId: nat, now: int): User
    requires ValidUsers(rows)
  {
    var target := Target(rows, c);
    if target.Some? then
      var role := if c.groups.Some? then ResolveRole(cfg, c.email, c.groups) else target.value.data.role;
      var synced := Synced(target.value, c.email, c.name, role);
      Touched(target.value, synced.(data := synced.data.(providerId := c.sub)), now)
    else
      Fresh(newId, c.sub, c.email, c.name, ResolveRole(cfg, c.email, c.groups), now)
  }

  /**
   One specification for all three paths: the resolved row is written unless it breaks a unique
   index, the database is down, or the account is blocked; then the table stays as it was.
   */
  ghost predicate LoginEffect(cfg: Settings, before: UserTable, claims: Claims, info: Userinfo, newId: nat, now: int,
                              dbFails: bool, after: UserTable, outcome: LoginOutcome)
    requires ValidUsers(before)
  {
    var user := Resolved(cfg, before, Effective(claims, info), newId, now);
    if dbFails || Clashes(before, user) then outcome == Unavailable && after == before
    else if !user.data.isActive then outcome == Blocked && after == before
    else outcome == LoggedIn(user) && after == before[user.id := user]
  }

  /** What a write of the resolved row leaves behind; None stands for the raised IntegrityError. */
  ghost predicate Written(before: UserTable, user: User, after: UserTable, result: Option<User>) {
    if Clashes(before, user) then result == None && after == before
    else result == Some(user) && after == before[user.id := user]
  }

  /** The first path: the provider_id is known, so profile and role are synced from the claims. */
  method SyncKnown(repo: Repository, cfg: Settings, c: Claims, user: User, jwtRole: Option<Role>, now: int)
    returns (result: Option<User>)
    requires repo.Valid() && ByProvider(repo.rows, c.sub) == Some(user)
    requires jwtRole == if c.groups.Some? then Some(ResolveRole(cfg, c.email, c.groups)) else None
    modifies repo
    ensures repo.Valid()
    ensures Written(old(repo.rows), Resolved(cfg, old(repo.rows), c, 0, now), repo.rows, result)
  {
    var role := if jwtRole.Some? then jwtRole.value else user.data.role;
    var ok := repo.SyncFromJwt(user, c.email, c.name, role, now);
    if !ok {
      return None;
    }
    return Some(repo.rows[user.id]);
  }

  /** The second path: a row with this email is linked to the provider. */
  method LinkByEmail(repo: Repository, cfg: Settings, c: Claims, user: User, jwtRole: Option<Role>, now: int)
    returns (result: Option<User>)
    requires repo.Valid() && ByProvider(repo.rows, c.sub).None?
    requires c.email != "" && ByEmail(repo.rows, c.email) == Some(user)
    requires jwtRole == if c.groups.Some? then Some(ResolveRole(cfg, c.email, c.groups)) else None
    modifies repo
    ensures repo.Valid()
    ensures Written(old(repo.rows), Resolved(cfg, old(repo.rows), c, 0, now), repo.rows, result)
  {
    var data := user.data.(providerId := c.sub);
    data := data.(name := if c.name != "" then c.name else data.name);
    if jwtRole.Some? {
      data := data.(role := jwtRole.value);
    }
    var ok := repo.Flush(user.(data := data), now);
    if !ok {
      return None;
    }
    return Some(repo.rows[user.id]);
  }

  /** The statements inside the try block, on the effective claims. */
  method SyncUser(repo: Repository, cfg: Settings, c: Claims, newId: nat, now: int) returns (result: Option<User>)
    requires repo.Valid() && newId !in repo.rows
    modifies repo
    ensures repo.Valid()
    ensures Written(old(repo.rows), Resolved(cfg, old(repo.rows), c, newId, now), repo.rows, result)
  {
    var jwtRole := if c.groups.Some? then Some(ResolveRole(cfg, c.email, c.groups)) else None;
    var user := ByProvider(repo.rows, c.sub);
    if user.Some? {
      result := SyncKnown(repo, cfg, c, user.value, jwtRole, now);
    } else if c.email != "" {
      user := ByEmail(repo.rows, c.email);
      if user.Some? {
        result := LinkByEmail(repo, cfg, c, user.value, jwtRole, now);
      } else {
        result := repo.UpsertFromProvider(cfg, c.sub, c.email, c.name, c.groups, newId, now);
      }
    } else {
      result := repo.UpsertFromProvider(cfg, c.sub, c.email, c.name, c.groups, newId, now);
    }
  }

  method GetCurrentDbUser(repo: Repository, cfg: Settings, claims: Claims, info: Userinfo, newId: nat, now: int,
                          dbFails: bool) returns (outcome: LoginOutcome)
    requires repo.Valid() && newId !in repo.rows
    modifies repo
    ensures repo.Valid()
    ensures LoginEffect(cfg, old(repo.rows), claims, info, newId, now, dbFails, repo.rows, outcome)
  {
    var saved := repo.rows;
    var email, name, groups := claims.email, claims.name, claims.groups;
    if email == "" {
      if info.Userinfo? {
        email := info.email;
        name := if info.name.Some? then info.name.value else name;
        groups := if info.groups.Some? then info.groups else groups;
      }
    }
    if dbFails {
      return Unavailable;
    }
    var user := SyncUser(repo, cfg, Claims(claims.sub, email, name, groups), newId, now);
    if user.None? {
      return Unavailable;
    }
    if !user.value.data.isActive {
      repo.rows := saved;
      return Blocked;
    }
    return LoggedIn(user.value);
  }

  /** On success exactly one row carries the provider_id, and it is the row returned. */
  lemma OneRowPerProvider(cfg: Settings, before: UserTable, claims: Claims, info: Userinfo, newId: nat, now: int,
                          after: UserTable, user: User)
    requires ValidUsers(before) && newId !in before
    requires LoginEffect(cfg, before, claims, info, newId, now, false, after, LoggedIn(user))
    ensures ValidUsers(after)
    ensures forall i | i in after :: after[i].data.providerId == claims.sub <==> i == user.id
    ensures user.id in after && after[user.id] == user
  {
  }

  /** Whenever groups are known the cached role is the one they resolve to; otherwise it is kept. */
  lemma RoleFollowsGroups(cfg: Settings, before: UserTable, claims: Claims, info: Userinfo, newId: nat, now: int,
                          after: UserTable, user: User)
    requires ValidUsers(before) && newId !in before
    requires LoginEffect(cfg, before, claims, info, newId, now, false, after, LoggedIn(user))
    ensures var c := Effective(claims, info);
            && (c.groups.Some? ==> user.data.role == ResolveRole(cfg, c.email, c.groups))
            && (c.groups.None? && user.id in before ==> user.data.role == before[user.id].data.role)
  {
  }

  /**
   All other rows stay as they were, and a row is added only when neither the provider_id nor the
   email was known.
   */
  lemma OthersUntouched(cfg: Settings, before: UserTable, claims: Claims, info: Userinfo, newId: nat, now: int,
                        after: UserTable, user: User)
    requires ValidUsers(before) && newId !in before
    requires LoginEffect(cfg, before, claims, info, newId, now, false, after, LoggedIn(user))
    ensures forall i | i in before && i != user.id :: i in after && after[i] == before[i]
    ensures after.Keys == before.Keys + {user.id}
    ensures var c := Effective(claims, info);
            user.id !in before <==>
            forall i | i in before :: before[i].data.providerId != c.sub && before[i].data.email != c.email
  {
    var c := Effective(claims, info);
    if Target(before, c).None? {
      assert !Clashes(before, user);
      assert c.email == user.data.email;
    }
  }

  /** The same claims again find everything in place: nothing is written, not even updated_at. */
  lemma RepeatChangesNothing(cfg: Settings, before: UserTable, claims: Claims, info: Userinfo, newId: nat, now: int,
                             mid: UserTable, user: User, newId': nat, now': int, after: UserTable,
                             outcome: LoginOutcome)
    requires ValidUsers(before) && newId !in before
    requires LoginEffect(cfg, before, claims, info, newId, now, false, mid, LoggedIn(user))
    requires ValidUsers(mid) && newId' !in mid
    requires LoginEffect(cfg, mid, claims, info, newId', now', false, after, outcome)
    ensures after == mid && outcome == LoggedIn(user)
  {
    OneRowPerProvider(cfg, before, claims, info, newId, now, mid, user);
    var c := Effective(claims, info);
    assert ByProvider(mid, c.sub) == Some(user);
    assert Resolved(cfg, mid, c, newId', now') == user;
    assert !Clashes(mid, user);
    assert mid[user.id := user] == mid;
  }

  /**
   What the row of a user who is let in holds, given the email, the name and the groups that count: a
   text that is not empty is taken over, an empty one leaves the field alone, and known groups decide
   the role. A new row holds just these.
   */
  ghost predicate Carries(cfg: Settings, before: UserTable, user: User, sub: string, email: string, name: string,
                          groups: Option<seq<string>>) {
    var known := user.id in before;
    && user.data.providerId == sub
    && user.data.email == (if email != "" || !known then email else before[user.id].data.email)
    && user.data.name == (if name != "" || !known then name else before[user.id].data.name)
    && user.data.role == (if groups.Some? || !known then ResolveRole(cfg, email, groups) else before[user.id].data.role)
  }

  /**
   Which email, name and groups count, on all three paths: those of the token if it has an email;
   otherwise the email of userinfo, its name and groups where it has them, and the token's where it
   has not; and the token's, without an email, if userinfo is of no use.
   */
  lemma RowCarriesClaims(cfg: Settings, before: UserTable, claims: Claims, info: Userinfo, newId: nat, now: int,
                         after: UserTable, user: User)
    requires ValidUsers(before) && newId !in before
    requires LoginEffect(cfg, before, claims, info, newId, now, false, after, LoggedIn(user))
    ensures claims.email != "" ==> Carries(cfg, before, user, claims.sub, claims.email, claims.name, claims.groups)
    ensures claims.email == "" && info.Userinfo? ==>
              Carries(cfg, before, user, claims.sub, info.email,
                      if info.name.Some? then info.name.value else claims.name,
                      if info.groups.Some? then info.groups else claims.groups)
    ensures claims.email == "" && info.Unusable? ==>
              Carries(cfg, before, user, claims.sub, "", claims.name, claims.groups)
  {
    var c := Effective(claims, info);
    assert Carries(cfg, before, user, c.sub, c.email, c.name, c.groups) by {
      var target := Target(before, c);
      assert target.Some? ==> user.id == target.value.id && before[user.id] == target.value;
    }
  }

  /** A token with an email makes userinfo irrelevant. */
  lemma UserinfoIgnored(cfg: Settings, before: UserTable, claims: Claims, info: Userinfo, info': Userinfo, newId: nat,
                        now: int, dbFails: bool, after: UserTable, outcome: LoginOutcome)
    requires ValidUsers(before) && claims.email != ""
    ensures LoginEffect(cfg, before, claims, info, newId, now, dbFails, after, outcome)
       <==> LoginEffect(cfg, before, claims, info', newId, now, dbFails, after, outcome)
  {
  }

  /** A user nobody knows is let in with an active row made of the claims. */
  lemma NewUserIsLetIn(cfg: Settings, before: UserTable, claims: Claims, info: Userinfo, newId: nat, now: int,
                       after: UserTable, outcome: LoginOutcome)
    requires ValidUsers(before) && newId !in before
    requires LoginEffect(cfg, before, claims, info, newId, now, false, after, outcome)
    requires var c := Effective(claims, info);
             forall i | i in before :: before[i].data.providerId != c.sub && before[i].data.email != c.email
    ensures outcome.LoggedIn? && outcome.user.id == newId && outcome.user.createdAt == now
    ensures var c, p := Effective(claims, info), outcome.user.data;
            && p.providerId == c.sub && p.email == c.email && p.name == c.name && p.isActive
            && p.role == ResolveRole(cfg, c.email, c.groups)
            && p.roleChangedAt == None && p.roleChangedBy == None
  {
  }

  /**
   When the service is "temporarily unavailable" although the database is up: the email of the
   claims belongs to another row than the one the provider_id names.
   */
  lemma UnavailableIff(cfg: Settings, before: UserTable, claims: Claims, info: Userinfo, newId: nat, now: int,
                       after: UserTable, outcome: LoginOutcome)
    requires ValidUsers(before) && newId !in before
    requires LoginEffect(cfg, before, claims, info, newId, now, false, after, outcome)
    ensures var c := Effective(claims, info);
            outcome.Unavailable? <==>
            if ByProvider(before, c.sub).Some? then
              c.email != "" && exists i :: i in before && i != ByProvider(before, c.sub).value.id
                                          && before[i].data.email == c.email
            else
              c.email == "" && exists i :: i in before && before[i].data.email == ""
  {
    var c := Effective(claims, info);
    var user := Resolved(cfg, before, c, newId, now);
    assert user.data.providerId == c.sub;
    if ByProvider(before, c.sub).Some? {
      var known := ByProvider(before, c.sub).value;
      assert user.id == known.id && user.data.email == if c.email != "" then c.email else known.data.email;
    } else if c.email != "" && ByEmail(before, c.email).Some? {
      assert user.id == ByEmail(before, c.email).value.id && user.data.email == c.email;
    } else {
      assert user.id == newId && user.data.email == c.email;
    }
  }

  /** Whoever is not let in leaves the table as it was; and without the database nobody is let in. */
  lemma RefusedWritesNothing(cfg: Settings, before: UserTable, claims: Claims, info: Userinfo, newId: nat, now: int,
                             dbFails: bool, after: UserTable, outcome: LoginOutcome)
    requires ValidUsers(before) && newId !in before
    requires LoginEffect(cfg, before, claims, info, newId, now, dbFails, after, outcome)
    ensures dbFails ==> outcome == Unavailable
    ensures !outcome.LoggedIn? ==> after == before
    ensures outcome.LoggedIn? ==> after == before[outcome.user.id := outcome.user]
  {
  }

  /** The row is the one the claims belong to: it has their provider_id, or, if none has, their email. */
  ghost predicate Matches(rows: UserTable, i: nat, c: Claims)
    requires ValidUsers(rows) && i in rows
  {
    if ByProvider(rows, c.sub).Some? then rows[i].data.providerId == c.sub
    else c.email != "" && rows[i].data.email == c.email
  }

  /** Whose account is blocked: a row that is known, by provider_id or else by email, and is not active. */
  lemma BlockedIff(cfg: Settings, before: UserTable, claims: Claims, info: Userinfo, newId: nat, now: int,
                   after: UserTable, outcome: LoginOutcome)
    requires ValidUsers(before) && newId !in before
    requires LoginEffect(cfg, before, claims, info, newId, now, false, after, outcome)
    ensures var c := Effective(claims, info);
            outcome.Blocked? <==>
            !outcome.Unavailable? && exists i :: i in before && !before[i].data.isActive && Matches(before, i, c)
  {
    var target := Target(before, Effective(claims, info));
    assert target.Some? ==> target.value.id in before && before[target.value.id] == target.value;
  }

  // ---------- blocking ----------

  /** No login changes whether a row is active, and no login lets a blocked row in or removes a row. */
  lemma LoginKeepsActive(cfg: Settings, before: UserTable, claims: Claims, info: Userinfo, newId: nat, now: int,
                         dbFails: bool, after: UserTable, outcome: LoginOutcome, id: nat)
    requires ValidUsers(before) && newId !in before
    requires LoginEffect(cfg, before, claims, info, newId, now, dbFails, after, outcome)
    requires id in before
    ensures ValidUsers(after)
    ensures id in after && after[id].data.isActive == before[id].data.isActive
    ensures outcome.LoggedIn? ==> outcome.user.data.isActive
    ensures outcome.Blocked? ==> after == before
  {
  }
}
