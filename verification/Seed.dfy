/**
 The seed script: groups, application, scope mappings and test users in Authentik, and the rows of
 the test users in the database. Every call is assumed to succeed; a second run is compared with
 the first.
 */
module Seed {
  import opened Common
  import opened Users

  /** An Authentik account; `groups` holds group keys. */
  datatype Account = Account(uuid: nat, email: string, name: string, groups: set<nat>)

  /** Authentik, with the next key it will hand out. */
  datatype Remote = Remote(
    groups: map<string, nat>, accounts: map<string, Account>, apps: map<string, Option<nat>>,
    mappings: set<nat>, next: nat)

  /** An entry of TEST_USERS. */
  datatype TestUser = TestUser(username: string, email: string, name: string, role: Role, group: string)

  /** A row of the users table by provider_id. */
  datatype SeedRow = SeedRow(email: string, name: string, role: Role, isActive: bool)

  type Rows = map<nat, SeedRow>

  // ---------- what the steps amount to ----------

  /** create_groups after the first n names. */
  function GroupsMade(r: Remote, names: seq<string>, n: nat): Remote
    requires n <= |names|
  {
    if n == 0 then r
    else
      var before := GroupsMade(r, names, n - 1);
      var name := names[n - 1];
      if name in before.groups then before
      else before.(groups := before.groups[name := before.next], next := before.next + 1)
  }

  /** Authentik and the dictionary user_ids in the course of create_test_users. */
  datatype Progress = Progress(remote: Remote, ids: map<string, nat>)

  /** One entry: found accounts join their group, unknown ones are created unless their email was seen. */
  function UserMade(p: Progress, u: TestUser, groupIds: map<string, nat>): Progress {
    var mine := if u.group in groupIds then {groupIds[u.group]} else {};
    var accounts := p.remote.accounts;
    if u.username in accounts then
      var account := accounts[u.username];
      Progress(p.remote.(accounts := accounts[u.username := account.(groups := account.groups + mine)]),
               p.ids[u.email := account.uuid])
    else if u.email in p.ids then p
    else
      var uuid := p.remote.next;
      Progress(p.remote.(accounts := accounts[u.username := Account(uuid, u.email, u.name, mine)], next := uuid + 1),
               p.ids[u.email := uuid])
  }

  /** create_test_users after the first n entries. */
  function UsersMade(r: Remote, users: seq<TestUser>, groupIds: map<string, nat>, n: nat): Progress
    requires n <= |users|
  {
    if n == 0 then Progress(r, map[]) else UserMade(UsersMade(r, users, groupIds, n - 1), users[n - 1], groupIds)
  }

  /** The upsert on provider_id; None is the unique violation on email. */
  function RowMade(rows: Rows, id: nat, u: TestUser): Option<Rows> {
    if exists q | q in rows && q != id :: rows[q].email == u.email then None
    else Some(rows[id := SeedRow(u.email, u.name, u.role, if id in rows then rows[id].isActive else true)])
  }

  /** seed_postgres_users after the first n entries; None once an exception was raised. */
  function RowsMade(rows: Rows, users: seq<TestUser>, ids: map<string, nat>, n: nat): Option<Rows>
    requires n <= |users|
  {
    if n == 0 then Some(rows)
    else
      var before := RowsMade(rows, users, ids, n - 1);
      var u := users[n - 1];
      if before.None? || u.email !in ids then before else RowMade(before.value, ids[u.email], u)
  }

  function AppMade(r: Remote, slug: string, provider: Option<nat>): Remote {
    if slug in r.apps then r else r.(apps := r.apps[slug := provider])
  }

  function MappingsMade(r: Remote, needed: seq<nat>): Remote {
    r.(mappings := r.mappings + set m | m in needed)
  }

  // ---------- the script ----------

  class Script {
    var remote: Remote
    var rows: Rows

    constructor (remote: Remote, rows: Rows)
      ensures this.remote == remote && this.rows == rows
    {
      this.remote, this.rows := remote, rows;
    }

    method CreateGroups(names: seq<string>) returns (ids: map<string, nat>)
      modifies this
      ensures rows == old(rows)
      ensures remote == GroupsMade(old(remote), names, |names|)
      ensures ids.Keys == set n | n in names
      ensures forall n | n in ids :: n in remote.groups && ids[n] == remote.groups[n]
    {
      ids := map[];
      for i := 0 to |names|
        invariant rows == old(rows)
        invariant remote == GroupsMade(old(remote), names, i)
        invariant ids.Keys == set n | n in names[..i]
        invariant forall n | n in ids :: n in remote.groups && ids[n] == remote.groups[n]
      {
        var name := names[i];
        assert names[..i + 1] == names[..i] + [name];
        if name in remote.groups {
          ids := ids[name := remote.groups[name]];
        }
        if name !in ids {
          var pk := remote.next;
          remote := remote.(groups := remote.groups[name := pk], next := pk + 1);
          ids := ids[name := pk];
        }
      }
      assert names[..|names|] == names;
    }

    method CreateApplication(slug: string, provider: Option<nat>)
      modifies this
      ensures rows == old(rows)
      ensures remote == AppMade(old(remote), slug, provider)
    {
      if slug in remote.apps {
        return;
      }
      remote := remote.(apps := remote.apps[slug := provider]);
    }

    /** _ensure_provider_scope_mappings */
    method EnsureMappings(needed: seq<nat>)
      modifies this
      ensures rows == old(rows)
      ensures remote == MappingsMade(old(remote), needed)
    {
      var current := remote.mappings;
      var wanted := set m | m in needed;
      var missing := wanted - current;
      if missing == {} {
        assert forall m | m in wanted :: m in current || m in missing;
        assert current + wanted == current;
        return;
      }
      remote := remote.(mappings := current + wanted);
    }

    method CreateTestUsers(users: seq<TestUser>, groupIds: map<string, nat>) returns (ids: map<string, nat>)
      modifies this
      ensures rows == old(rows)
      ensures Progress(remote, ids) == UsersMade(old(remote), users, groupIds, |users|)
    {
      ids := map[];
      for i := 0 to |users|
        invariant rows == old(rows)
        invariant Progress(remote, ids) == UsersMade(old(remote), users, groupIds, i)
      {
        var u := users[i];
        var mine := if u.group in groupIds then {groupIds[u.group]} else {};
        if u.username in remote.accounts {
          var account := remote.accounts[u.username];
          ids := ids[u.email := account.uuid];
          remote := remote.(accounts := remote.accounts[u.username := account.(groups := account.groups + mine)]);
        }
        if u.email !in ids {
          var uuid := remote.next;
          remote := remote.(accounts := remote.accounts[u.username := Account(uuid, u.email, u.name, mine)],
                            next := uuid + 1);
          ids := ids[u.email := uuid];
        }
      }
    }

    /** seed_postgres_users: one transaction; an exception leaves the table as it was. */
    method SeedPostgres(users: seq<TestUser>, ids: map<string, nat>) returns (ok: bool)
      modifies this
      ensures remote == old(remote)
      ensures var made := RowsMade(old(rows), users, ids, |users|);
              ok == made.Some? && rows == if made.Some? then made.value else old(rows)
    {
      var saved := rows;
      for i := 0 to |users|
        invariant remote == old(remote) && saved == old(rows)
        invariant RowsMade(saved, users, ids, i) == Some(rows)
      {
        var u := users[i];
        if u.email in ids {
          var made := RowMade(rows, ids[u.email], u);
          if made.None? {
            FailureLasts(saved, users, ids, i + 1, |users|);
            rows := saved;
            return false;
          }
          rows := made.value;
        }
      }
      return true;
    }

    /** main, from create_groups on. */
    method Run(names: seq<string>, slug: string, provider: Option<nat>, needed: seq<nat>, users: seq<TestUser>)
      returns (ok: bool)
      modifies this
      ensures State(remote, rows) == Seeded(State(old(remote), old(rows)), names, slug, provider, needed, users).0
      ensures ok == Seeded(State(old(remote), old(rows)), names, slug, provider, needed, users).1
    {
      var groupIds := CreateGroups(names);
      GroupIdsAre(old(remote), names, remote, groupIds);
      CreateApplication(slug, provider);
      if provider.Some? {
        EnsureMappings(needed);
      }
      var ids := CreateTestUsers(users, groupIds);
      ok := true;
      if ids != map[] {
        ok := SeedPostgres(users, ids);
      } else {
        NoIdsNoRows(rows, users, |users|);
      }
    }
  }

  lemma {:induction false} FailureLasts(rows: Rows, users: seq<TestUser>, ids: map<string, nat>, m: nat, n: nat)
    requires m <= n <= |users| && RowsMade(rows, users, ids, m).None?
    ensures RowsMade(rows, users, ids, n).None?
  {
    if m < n {
      FailureLasts(rows, users, ids, m, n - 1);
    }
  }

  lemma {:induction false} NoIdsNoRows(rows: Rows, users: seq<TestUser>, n: nat)
    requires n <= |users|
    ensures RowsMade(rows, users, map[], n) == Some(rows)
  {
    if n > 0 {
      NoIdsNoRows(rows, users, n - 1);
    }
  }

  lemma GroupIdsAre(r: Remote, names: seq<string>, made: Remote, ids: map<string, nat>)
    requires made == GroupsMade(r, names, |names|)
    requires ids.Keys == set n | n in names
    requires forall n | n in ids :: n in made.groups && ids[n] == made.groups[n]
    ensures ids == GroupIds(made, names)
  {
  }

  /** group_ids: the keys of the groups that were asked for. */
  function GroupIds(r: Remote, names: seq<string>): map<string, nat> {
    map n | n in names && n in r.groups :: r.groups[n]
  }

  // ---------- the whole run ----------

  /** Both stores. */
  datatype State = State(remote: Remote, rows: Rows)

  function Prepared(r: Remote, names: seq<string>, slug: string, provider: Option<nat>, needed: seq<nat>): Remote {
    var r' := AppMade(GroupsMade(r, names, |names|), slug, provider);
    if provider.Some? then MappingsMade(r', needed) else r'
  }

  function Seeded(s: State, names: seq<string>, slug: string, provider: Option<nat>, needed: seq<nat>,
                  users: seq<TestUser>): (State, bool)
  {
    var r := Prepared(s.remote, names, slug, provider, needed);
    var p := UsersMade(r, users, GroupIds(r, names), |users|);
    var made := RowsMade(s.rows, users, p.ids, |users|);
    (State(p.remote, if made.Some? then made.value else s.rows), made.Some?)
  }

  // ---------- groups, application, mappings ----------

  lemma {:induction false} GroupsGrow(r: Remote, names: seq<string>, n: nat)
    requires n <= |names|
    ensures var r' := GroupsMade(r, names, n);
            && (forall g | g in r.groups :: g in r'.groups && r'.groups[g] == r.groups[g])
            && (forall i | 0 <= i < n :: names[i] in r'.groups)
            && (forall g | g in r'.groups :: g in r.groups || g in names)
            && r' == r.(groups := r'.groups, next := r'.next)
  {
    if n > 0 {
      GroupsGrow(r, names, n - 1);
    }
  }

  lemma {:induction false} GroupsThere(r: Remote, names: seq<string>, n: nat)
    requires n <= |names| && forall g | g in names :: g in r.groups
    ensures GroupsMade(r, names, n) == r
  {
    if n > 0 {
      GroupsThere(r, names, n - 1);
    }
  }

  /** A second create_groups creates nothing, and the first created exactly what was missing. */
  lemma GroupsIdempotent(r: Remote, names: seq<string>)
    ensures var r' := GroupsMade(r, names, |names|);
            && GroupsMade(r', names, |names|) == r'
            && r'.groups.Keys == r.groups.Keys + set g | g in names
  {
    GroupsGrow(r, names, |names|);
    GroupsThere(GroupsMade(r, names, |names|), names, |names|);
  }

  /** The provider keeps the mappings it had and has all it needs; doing it again changes nothing. */
  lemma MappingsIdempotent(r: Remote, needed: seq<nat>)
    ensures var r' := MappingsMade(r, needed);
            && r.mappings <= r'.mappings && (forall m | m in needed :: m in r'.mappings)
            && (forall m | m in r'.mappings :: m in r.mappings || m in needed)
            && MappingsMade(r', needed) == r'
  {
    var r' := MappingsMade(r, needed);
    assert MappingsMade(r', needed).mappings == r'.mappings;
  }

  // ---------- accounts ----------

  /** Keys are unique and below the next one. */
  ghost predicate ValidRemote(r: Remote) {
    && (forall a | a in r.accounts :: r.accounts[a].uuid < r.next)
    && (forall a, b | a in r.accounts && b in r.accounts && a != b :: r.accounts[a].uuid != r.accounts[b].uuid)
  }

  /** Accounts stay as they are and only gain groups. */
  ghost predicate AccountsGrow(r: Remote, r': Remote) {
    forall a | a in r.accounts :: a in r'.accounts && Grows(r.accounts[a], r'.accounts[a])
  }

  predicate Grows(was: Account, account: Account) {
    account.(groups := was.groups) == was && was.groups <= account.groups
  }

  lemma UserMadeGrows(p: Progress, u: TestUser, groupIds: map<string, nat>)
    requires ValidRemote(p.remote)
    ensures ValidRemote(UserMade(p, u, groupIds).remote)
    ensures AccountsGrow(p.remote, UserMade(p, u, groupIds).remote)
  {
  }

  lemma {:induction false} UsersMadeGrow(r: Remote, users: seq<TestUser>, groupIds: map<string, nat>, m: nat, n: nat)
    requires ValidRemote(r) && m <= n <= |users|
    ensures ValidRemote(UsersMade(r, users, groupIds, n).remote)
    ensures AccountsGrow(UsersMade(r, users, groupIds, m).remote, UsersMade(r, users, groupIds, n).remote)
    decreases n
  {
    hide UserMade;
    if m < n {
      UsersMadeGrow(r, users, groupIds, m, n - 1);
      UserMadeGrows(UsersMade(r, users, groupIds, n - 1), users[n - 1], groupIds);
    } else if n > 0 {
      UsersMadeGrow(r, users, groupIds, n - 1, n - 1);
      UserMadeGrows(UsersMade(r, users, groupIds, n - 1), users[n - 1], groupIds);
    }
  }

  /** Each id recorded is the uuid of some account. */
  ghost predicate IdsKnown(p: Progress) {
    forall e | e in p.ids :: exists a :: a in p.remote.accounts && p.remote.accounts[a].uuid == p.ids[e]
  }

  lemma UserMadeIds(p: Progress, u: TestUser, groupIds: map<string, nat>)
    requires IdsKnown(p)
    ensures IdsKnown(UserMade(p, u, groupIds))
    ensures UserMade(p, u, groupIds).ids.Keys == p.ids.Keys + {u.email}
  {
    var after := UserMade(p, u, groupIds);
    forall e | e in after.ids
      ensures exists a :: a in after.remote.accounts && after.remote.accounts[a].uuid == after.ids[e]
    {
      if e == u.email && after != p {
        assert after.remote.accounts[u.username].uuid == after.ids[e];
      } else {
        var a :| a in p.remote.accounts && p.remote.accounts[a].uuid == p.ids[e];
        assert a in after.remote.accounts && after.remote.accounts[a].uuid == after.ids[e];
      }
    }
  }

  function Emails(users: seq<TestUser>): set<string> {
    set u | u in users :: u.email
  }

  lemma EmailsGrow(users: seq<TestUser>, n: nat)
    requires 0 < n <= |users|
    ensures Emails(users[..n]) == Emails(users[..n - 1]) + {users[n - 1].email}
  {
    assert users[..n] == users[..n - 1] + [users[n - 1]];
  }

  /** user_ids holds the emails of the entries seen so far, each with the uuid of some account. */
  lemma {:induction false} IdsAreAccounts(r: Remote, users: seq<TestUser>, groupIds: map<string, nat>, n: nat)
    requires n <= |users|
    ensures IdsKnown(UsersMade(r, users, groupIds, n))
    ensures UsersMade(r, users, groupIds, n).ids.Keys == Emails(users[..n])
  {
    if n > 0 {
      hide UserMade, IdsKnown, Emails;
      IdsAreAccounts(r, users, groupIds, n - 1);
      UserMadeIds(UsersMade(r, users, groupIds, n - 1), users[n - 1], groupIds);
      EmailsGrow(users, n);
    } else {
      assert IdsKnown(UsersMade(r, users, groupIds, 0));
    }
  }

  /** An entry that is not passed over is recorded under the uuid of its account, which is in the group. */
  lemma UserMadeRecords(p: Progress, u: TestUser, groupIds: map<string, nat>)
    requires u.username in p.remote.accounts || u.email !in p.ids
    ensures var p' := UserMade(p, u, groupIds);
            && u.username in p'.remote.accounts
            && p'.ids == p.ids[u.email := p'.remote.accounts[u.username].uuid]
            && (u.group in groupIds ==> groupIds[u.group] in p'.remote.accounts[u.username].groups)
  {
  }

  /** Finding an account that is in its group already changes nothing in Authentik. */
  lemma FoundAgain(p: Progress, u: TestUser, groupIds: map<string, nat>)
    requires u.username in p.remote.accounts
    requires u.group in groupIds ==> groupIds[u.group] in p.remote.accounts[u.username].groups
    ensures UserMade(p, u, groupIds) == Progress(p.remote, p.ids[u.email := p.remote.accounts[u.username].uuid])
  {
    var kept := p.remote.accounts[u.username];
    var mine := if u.group in groupIds then {groupIds[u.group]} else {};
    assert kept.groups + mine == kept.groups;
    assert p.remote.accounts[u.username := kept] == p.remote.accounts;
  }

  // ---------- who is passed over ----------

  /** The email of entry i was listed before. */
  ghost predicate Repeated(users: seq<TestUser>, i: nat)
    requires i < |users|
  {
    exists m :: 0 <= m < i && users[m].email == users[i].email
  }

  /**
   Entry i is passed over: its account is unknown, and has not been created by an earlier entry,
   because this email and those of all earlier entries for the account were listed before.
   */
  ghost predicate Skipped(r: Remote, users: seq<TestUser>, i: nat)
    requires i < |users|
  {
    && users[i].username !in r.accounts
    && forall m | 0 <= m <= i && users[m].username == users[i].username :: Repeated(users, m)
  }

  /** Some entry creates this account, if it is not there. */
  ghost predicate Creates(users: seq<TestUser>, n: nat, username: string)
    requires n <= |users|
  {
    exists m :: 0 <= m < n && users[m].username == username && !Repeated(users, m)
  }

  lemma CreatesMore(users: seq<TestUser>, n: nat, username: string)
    requires 0 < n <= |users|
    ensures Creates(users, n, username)
       <==> Creates(users, n - 1, username) || (users[n - 1].username == username && !Repeated(users, n - 1))
  {
  }

  lemma RepeatedIsSeen(users: seq<TestUser>, i: nat)
    requires i < |users|
    ensures Repeated(users, i) <==> users[i].email in Emails(users[..i])
  {
    if users[i].email in Emails(users[..i]) {
      var u :| u in users[..i] && u.email == users[i].email;
    }
    if Repeated(users, i) {
      var m :| 0 <= m < i && users[m].email == users[i].email;
      assert users[m] in users[..i];
    }
  }

  /** Which accounts there are after n entries. */
  lemma {:induction false} AccountThereIff(r: Remote, users: seq<TestUser>, groupIds: map<string, nat>, n: nat,
                                           username: string)
    requires n <= |users|
    ensures username in UsersMade(r, users, groupIds, n).remote.accounts
       <==> username in r.accounts || Creates(users, n, username)
  {
    if n > 0 {
      var p := UsersMade(r, users, groupIds, n - 1);
      AccountThereIff(r, users, groupIds, n - 1, username);
      SeenIff(r, users, groupIds, n - 1);
      CreatesMore(users, n, username);
      UserMadeThere(p, users[n - 1], groupIds, username);
      assert UsersMade(r, users, groupIds, n) == UserMade(p, users[n - 1], groupIds);
      hide Repeated, Creates, UserMade, UsersMade;
    }
  }

  lemma UserMadeThere(p: Progress, u: TestUser, groupIds: map<string, nat>, username: string)
    ensures username in UserMade(p, u, groupIds).remote.accounts
       <==> username in p.remote.accounts || (username == u.username && u.email !in p.ids)
  {
  }

  /** user_ids knows the email of an entry beforehand iff the email was listed before. */
  lemma SeenIff(r: Remote, users: seq<TestUser>, groupIds: map<string, nat>, i: nat)
    requires i < |users|
    ensures users[i].email in UsersMade(r, users, groupIds, i).ids <==> Repeated(users, i)
  {
    IdsAreAccounts(r, users, groupIds, i);
    RepeatedIsSeen(users, i);
  }

  /** An entry is skipped iff the loop body does nothing for it. */
  lemma SkippedIff(r: Remote, users: seq<TestUser>, groupIds: map<string, nat>, i: nat)
    requires i < |users|
    ensures var p := UsersMade(r, users, groupIds, i);
            Skipped(r, users, i) <==> users[i].username !in p.remote.accounts && users[i].email in p.ids
  {
    AccountThereIff(r, users, groupIds, i, users[i].username);
    SeenIff(r, users, groupIds, i);
    hide Repeated, UsersMade;
  }

  /** What UserMade does for an entry that is not skipped. */
  lemma NotSkippedRecords(r: Remote, users: seq<TestUser>, groupIds: map<string, nat>, i: nat)
    requires i < |users| && !Skipped(r, users, i)
    ensures var p := UsersMade(r, users, groupIds, i + 1);
            && users[i].username in p.remote.accounts
            && p.ids
               == UsersMade(r, users, groupIds, i).ids[users[i].email := p.remote.accounts[users[i].username].uuid]
            && (users[i].group in groupIds ==> groupIds[users[i].group] in p.remote.accounts[users[i].username].groups)
  {
    SkippedIff(r, users, groupIds, i);
    UserMadeRecords(UsersMade(r, users, groupIds, i), users[i], groupIds);
  }

  lemma SkippedChangesNothing(r: Remote, users: seq<TestUser>, groupIds: map<string, nat>, i: nat)
    requires i < |users| && Skipped(r, users, i)
    ensures UsersMade(r, users, groupIds, i + 1) == UsersMade(r, users, groupIds, i)
  {
    SkippedIff(r, users, groupIds, i);
  }

  // ---------- Authentik, the second time ----------

  /** Some entry that is not skipped puts the account into the group. */
  ghost predicate Joins(r: Remote, users: seq<TestUser>, groupIds: map<string, nat>, n: nat, username: string,
                        group: nat)
    requires n <= |users|
  {
    exists k: nat :: k < n && JoinsAt(r, users, groupIds, k, username, group)
  }

  ghost predicate JoinsAt(r: Remote, users: seq<TestUser>, groupIds: map<string, nat>, k: nat, username: string,
                          group: nat)
    requires k < |users|
  {
    && users[k].username == username && !Skipped(r, users, k)
    && users[k].group in groupIds && groupIds[users[k].group] == group
  }

  /** An account is in the groups it was in and in those of its entries that were not skipped. */
  lemma {:induction false} MemberIff(r: Remote, users: seq<TestUser>, groupIds: map<string, nat>, n: nat,
                                     username: string, group: nat)
    requires n <= |users|
    requires username in UsersMade(r, users, groupIds, n).remote.accounts
    ensures group in UsersMade(r, users, groupIds, n).remote.accounts[username].groups
       <==> (username in r.accounts && group in r.accounts[username].groups)
            || Joins(r, users, groupIds, n, username, group)
  {
    if n > 0 {
      var p := UsersMade(r, users, groupIds, n - 1);
      JoinsMore(r, users, groupIds, n, username, group);
      SkippedIff(r, users, groupIds, n - 1);
      AccountThereIff(r, users, groupIds, n - 1, username);
      if username in p.remote.accounts {
        MemberIff(r, users, groupIds, n - 1, username, group);
      } else {
        NothingJoined(r, users, groupIds, n - 1, username, group);
      }
      hide Skipped, Joins, Creates;
    }
  }

  lemma JoinsMore(r: Remote, users: seq<TestUser>, groupIds: map<string, nat>, n: nat, username: string, group: nat)
    requires 0 < n <= |users|
    ensures Joins(r, users, groupIds, n, username, group)
       <==> Joins(r, users, groupIds, n - 1, username, group) || JoinsAt(r, users, groupIds, n - 1, username, group)
  {
  }

  /** As long as an account is not there, all its entries are skipped. */
  lemma NothingJoined(r: Remote, users: seq<TestUser>, groupIds: map<string, nat>, n: nat, username: string, group: nat)
    requires n <= |users| && username !in r.accounts && !Creates(users, n, username)
    ensures !Joins(r, users, groupIds, n, username, group)
  {
    forall k: nat | k < n && users[k].username == username
      ensures Skipped(r, users, k)
    {
      forall m | 0 <= m <= k && users[m].username == username
        ensures Repeated(users, m)
      {
      }
    }
  }

  /** Whoever has an account in Authentik is in the group that each of their entries lists. */
  ghost predicate AllInGroups(r: Remote, users: seq<TestUser>, groupIds: map<string, nat>) {
    forall i | 0 <= i < |users| && users[i].username in r.accounts && users[i].group in groupIds ::
      groupIds[users[i].group] in r.accounts[users[i].username].groups
  }

  /**
   The condition on the list: a skipped entry whose account a later entry creates names a group that
   some entry of the account that is not skipped names too.
   */
  ghost predicate GroupsSettled(r: Remote, users: seq<TestUser>, groupIds: map<string, nat>) {
    forall i: nat | i < |users| && Skipped(r, users, i) :: Settled(r, users, groupIds, i)
  }

  ghost predicate Settled(r: Remote, users: seq<TestUser>, groupIds: map<string, nat>, i: nat)
    requires i < |users|
  {
    Creates(users, |users|, users[i].username) && users[i].group in groupIds ==>
      Joins(r, users, groupIds, |users|, users[i].username, groupIds[users[i].group])
  }

  lemma SettledIff(r: Remote, users: seq<TestUser>, groupIds: map<string, nat>)
    ensures AllInGroups(UsersMade(r, users, groupIds, |users|).remote, users, groupIds)
       <==> GroupsSettled(r, users, groupIds)
  {
    var made := UsersMade(r, users, groupIds, |users|).remote;
    forall i: nat | i < |users|
      ensures (users[i].username in made.accounts && users[i].group in groupIds ==>
                 groupIds[users[i].group] in made.accounts[users[i].username].groups)
         <==> (Skipped(r, users, i) ==> Settled(r, users, groupIds, i))
    {
      EntrySettledIff(r, users, groupIds, i);
    }
    hide Skipped, Settled, UsersMade;
  }

  lemma EntrySettledIff(r: Remote, users: seq<TestUser>, groupIds: map<string, nat>, i: nat)
    requires i < |users|
    ensures var made := UsersMade(r, users, groupIds, |users|).remote;
            (users[i].username in made.accounts && users[i].group in groupIds ==>
               groupIds[users[i].group] in made.accounts[users[i].username].groups)
            <==> (Skipped(r, users, i) ==> Settled(r, users, groupIds, i))
  {
    var n := |users|;
    AccountThereIff(r, users, groupIds, n, users[i].username);
    if users[i].username in UsersMade(r, users, groupIds, n).remote.accounts && users[i].group in groupIds {
      MemberIff(r, users, groupIds, n, users[i].username, groupIds[users[i].group]);
      assert !Skipped(r, users, i) ==> JoinsAt(r, users, groupIds, i, users[i].username, groupIds[users[i].group]);
    }
    hide UsersMade, Creates;
  }

  /** Every entry without an account repeats an email, so that nothing is created for it. */
  ghost predicate Covered(r: Remote, users: seq<TestUser>) {
    forall i | 0 <= i < |users| && users[i].username !in r.accounts :: Repeated(users, i)
  }

  /** The first run leaves nothing to create. */
  lemma FirstRunCovers(r: Remote, users: seq<TestUser>, groupIds: map<string, nat>)
    ensures Covered(UsersMade(r, users, groupIds, |users|).remote, users)
  {
    forall i | 0 <= i < |users| && users[i].username !in UsersMade(r, users, groupIds, |users|).remote.accounts
      ensures Repeated(users, i)
    {
      AccountThereIff(r, users, groupIds, |users|, users[i].username);
    }
  }

  /** user_ids when nothing is created: the uuid of the last account found under the email. */
  function FoundIds(r: Remote, users: seq<TestUser>, n: nat): map<string, nat>
    requires n <= |users|
  {
    if n == 0 then map[]
    else
      var before, u := FoundIds(r, users, n - 1), users[n - 1];
      if u.username in r.accounts then before[u.email := r.accounts[u.username].uuid] else before
  }

  lemma FoundIdsStep(r: Remote, users: seq<TestUser>, n: nat)
    requires 0 < n <= |users|
    ensures var before, u := FoundIds(r, users, n - 1), users[n - 1];
            && FoundIds(r, users, n)
               == if u.username in r.accounts then before[u.email := r.accounts[u.username].uuid] else before
  {
  }

  /** A run that creates nothing finds these ids, and does no more than to add accounts to groups. */
  lemma {:induction false} CoveredRun(r: Remote, users: seq<TestUser>, groupIds: map<string, nat>, n: nat)
    requires n <= |users| && Covered(r, users)
    ensures var p := UsersMade(r, users, groupIds, n);
            && p.ids == FoundIds(r, users, n)
            && p.remote == r.(accounts := p.remote.accounts) && p.remote.accounts.Keys == r.accounts.Keys
            && forall a | a in r.accounts :: p.remote.accounts[a].uuid == r.accounts[a].uuid
  {
    hide *;
    if n == 0 {
      NoEntries(r, users, groupIds);
    } else {
      CoveredRun(r, users, groupIds, n - 1);
      CoveredSees(r, users, groupIds, n - 1);
      FoundIdsStep(r, users, n);
      OneMoreEntry(r, users, groupIds, n);
      CoveredStep(UsersMade(r, users, groupIds, n - 1), users[n - 1], groupIds);
    }
  }

  lemma NoEntries(r: Remote, users: seq<TestUser>, groupIds: map<string, nat>)
    ensures UsersMade(r, users, groupIds, 0) == Progress(r, map[]) && FoundIds(r, users, 0) == map[]
  {
  }

  lemma OneMoreEntry(r: Remote, users: seq<TestUser>, groupIds: map<string, nat>, n: nat)
    requires 0 < n <= |users|
    ensures UsersMade(r, users, groupIds, n) == UserMade(UsersMade(r, users, groupIds, n - 1), users[n - 1], groupIds)
  {
  }

  lemma CoveredSees(r: Remote, users: seq<TestUser>, groupIds: map<string, nat>, i: nat)
    requires i < |users| && Covered(r, users)
    ensures users[i].username in r.accounts || users[i].email in UsersMade(r, users, groupIds, i).ids
  {
    SeenIff(r, users, groupIds, i);
  }

  lemma CoveredStep(p: Progress, u: TestUser, groupIds: map<string, nat>)
    requires u.username in p.remote.accounts || u.email in p.ids
    ensures var p' := UserMade(p, u, groupIds);
            && p'.ids == (if u.username in p.remote.accounts then p.ids[u.email := p.remote.accounts[u.username].uuid]
                          else p.ids)
            && p'.remote == p.remote.(accounts := p'.remote.accounts)
            && p'.remote.accounts.Keys == p.remote.accounts.Keys
            && forall a | a in p.remote.accounts :: p'.remote.accounts[a].uuid == p.remote.accounts[a].uuid
  {
  }

  /** A run that creates nothing leaves Authentik as it is iff everybody is in their groups already. */
  lemma IdleIff(r: Remote, users: seq<TestUser>, groupIds: map<string, nat>)
    requires ValidRemote(r) && Covered(r, users)
    ensures UsersMade(r, users, groupIds, |users|).remote == r <==> AllInGroups(r, users, groupIds)
  {
    if AllInGroups(r, users, groupIds) {
      IdleRun(r, users, groupIds, |users|);
    }
    if UsersMade(r, users, groupIds, |users|).remote == r {
      forall i | 0 <= i < |users| && users[i].username in r.accounts && users[i].group in groupIds
        ensures groupIds[users[i].group] in r.accounts[users[i].username].groups
      {
        CoveredRun(r, users, groupIds, i);
        UserMadeRecords(UsersMade(r, users, groupIds, i), users[i], groupIds);
        UsersMadeGrow(r, users, groupIds, i + 1, |users|);
      }
    }
  }

  lemma {:induction false} IdleRun(r: Remote, users: seq<TestUser>, groupIds: map<string, nat>, n: nat)
    requires n <= |users| && Covered(r, users) && AllInGroups(r, users, groupIds)
    ensures UsersMade(r, users, groupIds, n).remote == r
  {
    hide *;
    if n == 0 {
      NoEntries(r, users, groupIds);
    } else {
      IdleRun(r, users, groupIds, n - 1);
      CoveredSees(r, users, groupIds, n - 1);
      OneMoreEntry(r, users, groupIds, n);
      IdleStep(r, users, groupIds, UsersMade(r, users, groupIds, n - 1), n - 1);
    }
  }

  lemma IdleStep(r: Remote, users: seq<TestUser>, groupIds: map<string, nat>, p: Progress, i: nat)
    requires i < |users| && AllInGroups(r, users, groupIds) && p.remote == r
    requires users[i].username in r.accounts || users[i].email in p.ids
    ensures UserMade(p, users[i], groupIds).remote == r
  {
    if users[i].username in r.accounts {
      FoundAgain(p, users[i], groupIds);
    }
  }

  /**
   create_test_users run twice leaves Authentik as the first run did exactly when every skipped entry
   whose account is created later names a group that the account is put into anyway.
   */
  lemma SecondRunIdleIff(r: Remote, users: seq<TestUser>, groupIds: map<string, nat>)
    requires ValidRemote(r)
    ensures var made := UsersMade(r, users, groupIds, |users|).remote;
            (UsersMade(made, users, groupIds, |users|).remote == made) <==> GroupsSettled(r, users, groupIds)
  {
    UsersMadeGrow(r, users, groupIds, 0, |users|);
    FirstRunCovers(r, users, groupIds);
    IdleIff(UsersMade(r, users, groupIds, |users|).remote, users, groupIds);
    SettledIff(r, users, groupIds);
  }

  /** No entry of an account is skipped before another entry creates the account. */
  ghost predicate NoneLate(r: Remote, users: seq<TestUser>) {
    forall i: nat | i < |users| && Skipped(r, users, i) :: !Creates(users, |users|, users[i].username)
  }

  /** Then an entry is recorded under the account that is found in the end, or not at all. */
  lemma EntryIds(r: Remote, users: seq<TestUser>, groupIds: map<string, nat>, i: nat)
    requires ValidRemote(r) && NoneLate(r, users) && i < |users|
    ensures var made := UsersMade(r, users, groupIds, |users|).remote;
            var before, u := UsersMade(r, users, groupIds, i).ids, users[i];
            && UsersMade(r, users, groupIds, i + 1).ids
               == if u.username in made.accounts then before[u.email := made.accounts[u.username].uuid] else before
  {
    AccountThereIff(r, users, groupIds, |users|, users[i].username);
    if Skipped(r, users, i) {
      SkippedChangesNothing(r, users, groupIds, i);
    } else {
      NotSkippedRecords(r, users, groupIds, i);
      UsersMadeGrow(r, users, groupIds, i + 1, |users|);
    }
    hide Skipped, Creates, UsersMade, UserMade, ValidRemote;
  }

  /** So the second run recognises every entry as the first did. */
  lemma {:induction false} SameIds(r: Remote, users: seq<TestUser>, groupIds: map<string, nat>, n: nat)
    requires ValidRemote(r) && NoneLate(r, users) && n <= |users|
    ensures FoundIds(UsersMade(r, users, groupIds, |users|).remote, users, n) == UsersMade(r, users, groupIds, n).ids
  {
    hide *;
    if n == 0 {
      NoEntries(UsersMade(r, users, groupIds, |users|).remote, users, groupIds);
      NoEntries(r, users, groupIds);
    } else {
      SameIds(r, users, groupIds, n - 1);
      EntryIds(r, users, groupIds, n - 1);
      FoundIdsStep(UsersMade(r, users, groupIds, |users|).remote, users, n);
    }
  }

  ghost predicate DistinctEmails(users: seq<TestUser>) {
    forall i, j | 0 <= i < j < |users| :: users[i].email != users[j].email
  }

  /** A list without repeated emails, as TEST_USERS is, passes nobody over. */
  lemma DistinctEmailsSuffice(r: Remote, users: seq<TestUser>, groupIds: map<string, nat>)
    requires DistinctEmails(users)
    ensures NoneLate(r, users) && GroupsSettled(r, users, groupIds)
  {
    forall i: nat | i < |users|
      ensures !Skipped(r, users, i)
    {
      assert !Repeated(users, i);
    }
  }

  /** A list after which the second run adds an account to one more group: b/x is skipped, then b/y creates b. */
  lemma SecondRunAddsMember()
    ensures var users := [TestUser("a", "x", "", Free, "g"), TestUser("b", "x", "", Free, "h"),
                          TestUser("b", "y", "", Free, "g")];
            var r := Remote(map["g" := 0, "h" := 1], map[], map[], {}, 2);
            var made := UsersMade(r, users, r.groups, 3).remote;
            UsersMade(made, users, r.groups, 3).remote != made
  {
    var users := [TestUser("a", "x", "", Free, "g"), TestUser("b", "x", "", Free, "h"),
                  TestUser("b", "y", "", Free, "g")];
    var r := Remote(map["g" := 0, "h" := 1], map[], map[], {}, 2);
    SecondRunIdleIff(r, users, r.groups);
    assert users[0].email == users[1].email && Repeated(users, 1);
    assert !Repeated(users, 2);
    assert Skipped(r, users, 1);
    assert Creates(users, 3, "b");
    assert !Settled(r, users, r.groups, 1);
  }

  /** The entry has an account that user_ids names and that is in the entry's group. */
  ghost predicate Provided(p: Progress, u: TestUser, groupIds: map<string, nat>) {
    && u.username in p.remote.accounts
    && u.email in p.ids && p.ids[u.email] == p.remote.accounts[u.username].uuid
    && (u.group in groupIds ==> groupIds[u.group] in p.remote.accounts[u.username].groups)
  }

  lemma UserMadeProvides(p: Progress, u: TestUser, groupIds: map<string, nat>)
    requires u.email !in p.ids
    ensures Provided(UserMade(p, u, groupIds), u, groupIds)
  {
  }

  lemma ProvidedLasts(p: Progress, v: TestUser, u: TestUser, groupIds: map<string, nat>)
    requires Provided(p, u, groupIds) && v.email != u.email
    ensures Provided(UserMade(p, v, groupIds), u, groupIds)
  {
  }

  /** What the first run is for: without repeated emails every entry is provided for. */
  lemma {:induction false} AccountsProvided(r: Remote, users: seq<TestUser>, groupIds: map<string, nat>, i: nat, n: nat)
    requires DistinctEmails(users) && i < n <= |users|
    ensures Provided(UsersMade(r, users, groupIds, n), users[i], groupIds)
  {
    hide UserMade, Provided, IdsKnown;
    if n == i + 1 {
      IdsAreAccounts(r, users, groupIds, i);
      assert users[i].email !in Emails(users[..i]);
      UserMadeProvides(UsersMade(r, users, groupIds, i), users[i], groupIds);
    } else {
      AccountsProvided(r, users, groupIds, i, n - 1);
      ProvidedLasts(UsersMade(r, users, groupIds, n - 1), users[n - 1], users[i], groupIds);
    }
  }

  // ---------- rows ----------

  /** Each entry with an id gets its row: email, name and role as listed, and active if it is new. */
  lemma {:induction false} RowsProvided(rows: Rows, users: seq<TestUser>, ids: map<string, nat>, i: nat, n: nat)
    requires DistinctEmails(users) && i < n <= |users| && users[i].email in ids
    requires forall d, e | d in ids && e in ids && d != e :: ids[d] != ids[e]
    requires RowsMade(rows, users, ids, n).Some?
    ensures var made := RowsMade(rows, users, ids, n).value;
            var u := users[i];
            var id := ids[u.email];
            && id in made && made[id].email == u.email && made[id].name == u.name && made[id].role == u.role
            && made[id].isActive == (if id in rows then rows[id].isActive else true)
  {
    SuccessBefore(rows, users, ids, n - 1, n);
    ActiveKept(rows, users, ids, n);
    if n > i + 1 {
      RowsProvided(rows, users, ids, i, n - 1);
      assert users[n - 1].email != users[i].email;
    }
  }

  /** The provider ids that the first n entries write to. */
  function Written(users: seq<TestUser>, ids: map<string, nat>, n: nat): set<nat>
    requires n <= |users|
  {
    set u | u in users[..n] && u.email in ids :: ids[u.email]
  }

  /** A written row carries the email of an entry with that id; other rows are as they were. */
  lemma {:induction false} RowsMadeShape(rows: Rows, users: seq<TestUser>, ids: map<string, nat>, n: nat)
    requires n <= |users| && RowsMade(rows, users, ids, n).Some?
    ensures var made := RowsMade(rows, users, ids, n).value;
            && made.Keys == rows.Keys + Written(users, ids, n)
            && (forall q | q in rows && q !in Written(users, ids, n) :: made[q] == rows[q])
            && (forall q | q in Written(users, ids, n) :: made[q].email in ids && ids[made[q].email] == q)
  {
    if n > 0 {
      RowsMadeShape(rows, users, ids, n - 1);
      assert users[..n] == users[..n - 1] + [users[n - 1]];
      var u := users[n - 1];
      if u.email in ids {
        assert Written(users, ids, n) == Written(users, ids, n - 1) + {ids[u.email]};
      } else {
        assert Written(users, ids, n) == Written(users, ids, n - 1);
      }
    }
  }

  lemma {:induction false} SuccessBefore(rows: Rows, users: seq<TestUser>, ids: map<string, nat>, m: nat, n: nat)
    requires m <= n <= |users| && RowsMade(rows, users, ids, n).Some?
    ensures RowsMade(rows, users, ids, m).Some?
  {
    if m < n {
      SuccessBefore(rows, users, ids, m, n - 1);
    }
  }

  /** Neither pass deactivates or reactivates anybody. */
  lemma {:induction false} ActiveKept(rows: Rows, users: seq<TestUser>, ids: map<string, nat>, n: nat)
    requires n <= |users| && RowsMade(rows, users, ids, n).Some?
    ensures var made := RowsMade(rows, users, ids, n).value;
            forall q | q in made :: made[q].isActive == if q in rows then rows[q].isActive else true
  {
    if n > 0 {
      SuccessBefore(rows, users, ids, n - 1, n);
      ActiveKept(rows, users, ids, n - 1);
      RowsMadeShape(rows, users, ids, n - 1);
    }
  }

  // ---------- which upserts change nothing ----------

  /** The upsert of entry i meets row q, which has held its email all along: no earlier entry was written to q. */
  ghost predicate Meets(rows: Rows, users: seq<TestUser>, ids: map<string, nat>, i: nat, q: nat)
    requires i < |users|
  {
    && users[i].email in ids && q in rows && q != ids[users[i].email] && rows[q].email == users[i].email
    && q !in Written(users, ids, i)
  }

  /** Some upsert among the first n meets the email in another row. */
  ghost predicate Collides(rows: Rows, users: seq<TestUser>, ids: map<string, nat>, n: nat)
    requires n <= |users|
  {
    exists i: nat :: i < n && CollidesAt(rows, users, ids, i)
  }

  ghost predicate CollidesAt(rows: Rows, users: seq<TestUser>, ids: map<string, nat>, i: nat)
    requires i < |users|
  {
    exists q: nat :: Meets(rows, users, ids, i, q)
  }

  /** seed_postgres_users fails exactly when there is such a collision. */
  lemma {:induction false} RowsFailIff(rows: Rows, users: seq<TestUser>, ids: map<string, nat>, n: nat)
    requires n <= |users|
    ensures RowsMade(rows, users, ids, n).None? <==> Collides(rows, users, ids, n)
  {
    if n > 0 {
      RowsFailIff(rows, users, ids, n - 1);
      var before := RowsMade(rows, users, ids, n - 1);
      if before.None? {
        var i: nat :| i < n - 1 && CollidesAt(rows, users, ids, i);
        assert i < n && CollidesAt(rows, users, ids, i);
      } else {
        RowFailsIff(rows, users, ids, n);
        hide CollidesAt, RowsMade;
        assert Collides(rows, users, ids, n) <==> CollidesAt(rows, users, ids, n - 1);
      }
    }
  }

  lemma RowFailsIff(rows: Rows, users: seq<TestUser>, ids: map<string, nat>, n: nat)
    requires 0 < n <= |users| && RowsMade(rows, users, ids, n - 1).Some?
    ensures RowsMade(rows, users, ids, n).None? <==> CollidesAt(rows, users, ids, n - 1)
  {
    RowsMadeShape(rows, users, ids, n - 1);
    var before, u := RowsMade(rows, users, ids, n - 1).value, users[n - 1];
    hide Written;
    if u.email in ids {
      forall q: nat
        ensures q in before && q != ids[u.email] && before[q].email == u.email <==> Meets(rows, users, ids, n - 1, q)
      {
      }
    }
  }

  /** Among the first n, entry i is the last that is written to its id. */
  ghost predicate LastWriter(users: seq<TestUser>, ids: map<string, nat>, i: nat, n: nat)
    requires i < n <= |users|
  {
    && users[i].email in ids
    && forall j | i < j < n && users[j].email in ids :: ids[users[j].email] != ids[users[i].email]
  }

  /** The row shows what the entry lists. */
  predicate Shows(row: SeedRow, u: TestUser) {
    row.email == u.email && row.name == u.name && row.role == u.role
  }

  /** What each id's last writer wrote is what stays. */
  lemma {:induction false} LastWriterStays(rows: Rows, users: seq<TestUser>, ids: map<string, nat>, i: nat, n: nat)
    requires i < n <= |users| && LastWriter(users, ids, i, n) && RowsMade(rows, users, ids, n).Some?
    ensures var made := RowsMade(rows, users, ids, n).value;
            ids[users[i].email] in made && Shows(made[ids[users[i].email]], users[i])
  {
    SuccessBefore(rows, users, ids, n - 1, n);
    if i < n - 1 {
      LastWriterStays(rows, users, ids, i, n - 1);
    }
  }

  lemma {:induction false} LastWriterExists(users: seq<TestUser>, ids: map<string, nat>, q: nat, n: nat)
    returns (i: nat)
    requires n <= |users| && q in Written(users, ids, n)
    ensures i < n && LastWriter(users, ids, i, n) && ids[users[i].email] == q
  {
    assert n > 0;
    var u := users[n - 1];
    if u.email in ids && ids[u.email] == q {
      i := n - 1;
    } else {
      var v :| v in users[..n] && v.email in ids && ids[v.email] == q;
      var k :| 0 <= k < n && users[k] == v;
      assert users[..n - 1][k] == v;
      i := LastWriterExists(users, ids, q, n - 1);
    }
  }

  /** Each id's last writer is in its row already. */
  ghost predicate InPlace(rows: Rows, users: seq<TestUser>, ids: map<string, nat>) {
    forall i: nat | i < |users| && LastWriter(users, ids, i, |users|) ::
      ids[users[i].email] in rows && Shows(rows[ids[users[i].email]], users[i])
  }

  /** seed_postgres_users leaves the table as it is exactly when it fails, or everything is in place. */
  lemma RowsKeptIff(rows: Rows, users: seq<TestUser>, ids: map<string, nat>)
    ensures RowsMade(rows, users, ids, |users|) in {None, Some(rows)}
       <==> Collides(rows, users, ids, |users|) || InPlace(rows, users, ids)
  {
    RowsFailIff(rows, users, ids, |users|);
    if RowsMade(rows, users, ids, |users|).Some? {
      SuccessKeepsIff(rows, users, ids);
    }
  }

  lemma SuccessKeepsIff(rows: Rows, users: seq<TestUser>, ids: map<string, nat>)
    requires RowsMade(rows, users, ids, |users|).Some?
    ensures RowsMade(rows, users, ids, |users|).value == rows <==> InPlace(rows, users, ids)
  {
    var n := |users|;
    var made := RowsMade(rows, users, ids, n).value;
    RowsMadeShape(rows, users, ids, n);
    ActiveKept(rows, users, ids, n);
    forall i: nat | i < n && LastWriter(users, ids, i, n)
      ensures ids[users[i].email] in made && Shows(made[ids[users[i].email]], users[i])
    {
      LastWriterStays(rows, users, ids, i, n);
    }
    hide RowsMade;
    if InPlace(rows, users, ids) {
      forall q | q in Written(users, ids, n)
        ensures q in rows && made[q] == rows[q]
      {
        var i := LastWriterExists(users, ids, q, n);
      }
      hide Written;
      assert made.Keys == rows.Keys;
    }
  }

  // ---------- the rows in closed form ----------

  /** The last of the first n entries that is written to q. */
  function LastOf(users: seq<TestUser>, ids: map<string, nat>, q: nat, n: nat): (i: nat)
    requires n <= |users| && q in Written(users, ids, n)
    ensures i < n && users[i].email in ids && ids[users[i].email] == q
    ensures LastWriter(users, ids, i, n)
  {
    WrittenMore(users, ids, q, n);
    var u := users[n - 1];
    if u.email in ids && ids[u.email] == q then n - 1 else LastOf(users, ids, q, n - 1)
  }

  lemma WrittenMore(users: seq<TestUser>, ids: map<string, nat>, q: nat, n: nat)
    requires n <= |users| && q in Written(users, ids, n)
    ensures n > 0
    ensures (users[n - 1].email in ids && ids[users[n - 1].email] == q) || q in Written(users, ids, n - 1)
  {
    var u :| u in users[..n] && u.email in ids && ids[u.email] == q;
    var k :| 0 <= k < n && users[k] == u;
    assert k < n - 1 ==> users[..n - 1][k] == u;
  }

  /** The table after all upserts: each id written shows its last writer, the other rows are as they were. */
  function Final(rows: Rows, users: seq<TestUser>, ids: map<string, nat>): Rows {
    map q | q in rows.Keys + Written(users, ids, |users|) ::
      if q in Written(users, ids, |users|) then
        var u := users[LastOf(users, ids, q, |users|)];
        SeedRow(u.email, u.name, u.role, if q in rows then rows[q].isActive else true)
      else rows[q]
  }

  /** seed_postgres_users read off the table and the list: the final table, or the old one if two collide. */
  ghost function AfterUpserts(rows: Rows, users: seq<TestUser>, ids: map<string, nat>): Rows {
    if Collides(rows, users, ids, |users|) then rows else Final(rows, users, ids)
  }

  lemma RowsMadeIs(rows: Rows, users: seq<TestUser>, ids: map<string, nat>)
    ensures RowsMade(rows, users, ids, |users|)
         == if Collides(rows, users, ids, |users|) then None else Some(Final(rows, users, ids))
  {
    var n := |users|;
    RowsFailIff(rows, users, ids, n);
    if RowsMade(rows, users, ids, n).Some? {
      var made := RowsMade(rows, users, ids, n).value;
      RowsMadeShape(rows, users, ids, n);
      ActiveKept(rows, users, ids, n);
      var final := Final(rows, users, ids);
      forall q | q in Written(users, ids, n)
        ensures q in made && q in final && made[q] == final[q]
      {
        LastWriterStays(rows, users, ids, LastOf(users, ids, q, n), n);
      }
      assert forall q | q in rows && q !in Written(users, ids, n) :: made[q] == rows[q] == final[q];
      hide Written, RowsMade, LastOf;
      assert made.Keys == final.Keys;
      assert made == final;
    }
  }

  /** seed_postgres_users run again after a success succeeds and leaves the table as it is (but for updated_at). */
  lemma RowsIdempotent(rows: Rows, users: seq<TestUser>, ids: map<string, nat>)
    requires RowsMade(rows, users, ids, |users|).Some?
    ensures var made := RowsMade(rows, users, ids, |users|).value;
            RowsMade(made, users, ids, |users|) == Some(made)
  {
    var n := |users|;
    var made := RowsMade(rows, users, ids, n).value;
    RowsMadeShape(rows, users, ids, n);
    RowsFailIff(rows, users, ids, n);
    RowsFailIff(made, users, ids, n);
    forall i: nat | i < n
      ensures !CollidesAt(made, users, ids, i)
    {
      forall q: nat
        ensures Meets(made, users, ids, i, q) ==> CollidesAt(rows, users, ids, i)
      {
        if q !in Written(users, ids, n) {
          assert Meets(made, users, ids, i, q) ==> Meets(rows, users, ids, i, q);
        }
      }
      assert !CollidesAt(rows, users, ids, i);
    }
    assert !Collides(made, users, ids, n);
    forall i: nat | i < n && LastWriter(users, ids, i, n)
      ensures ids[users[i].email] in made && Shows(made[ids[users[i].email]], users[i])
    {
      LastWriterStays(rows, users, ids, i, n);
    }
    RowsKeptIff(made, users, ids);
  }

  // ---------- a list after which the second run rewrites a row ----------

  /** The email x belongs to account a at first, and in the second run to account b. */
  const MOVING: seq<TestUser> := [
    TestUser("a", "x", "", Free, ""), TestUser("b", "x", "", Free, ""), TestUser("b", "y", "", Free, ""),
    TestUser("d", "x", "", Free, ""), TestUser("a", "z", "", Free, "")]

  const NOTHING: Remote := Remote(map[], map[], map[], {}, 0)
  const MOVED: Remote :=
    Remote(map[], map["a" := Account(0, "x", "", {}), "b" := Account(1, "y", "", {})], map[], {}, 2)

  lemma MovingFirst()
    ensures UsersMade(NOTHING, MOVING, map[], 5) == Progress(MOVED, map["x" := 0, "y" := 1, "z" := 0])
  {
    var a := Account(0, "x", "", {});
    var p1 := Progress(Remote(map[], map["a" := a], map[], {}, 1), map["x" := 0]);
    var p3 := Progress(MOVED, map["x" := 0, "y" := 1]);
    assert UsersMade(NOTHING, MOVING, map[], 0) == Progress(NOTHING, map[]);
    assert UserMade(Progress(NOTHING, map[]), MOVING[0], map[]) == p1;
    assert UserMade(p1, MOVING[1], map[]) == p1;
    assert UserMade(p1, MOVING[2], map[]) == p3;
    assert UserMade(p3, MOVING[3], map[]) == p3;
    assert MOVED.accounts["a" := a] == MOVED.accounts && a.groups + {} == a.groups;
    assert UserMade(p3, MOVING[4], map[]) == Progress(MOVED, map["x" := 0, "y" := 1, "z" := 0]);
    hide UserMade;
    assert UsersMade(NOTHING, MOVING, map[], 1) == p1;
    assert UsersMade(NOTHING, MOVING, map[], 2) == p1;
    assert UsersMade(NOTHING, MOVING, map[], 3) == p3;
    assert UsersMade(NOTHING, MOVING, map[], 4) == p3;
  }

  lemma MovingSecond()
    ensures UsersMade(MOVED, MOVING, map[], 5).ids == map["x" := 1, "y" := 1, "z" := 0]
  {
    MovingFirst();
    FirstRunCovers(NOTHING, MOVING, map[]);
    CoveredRun(MOVED, MOVING, map[], 5);
    hide UsersMade, Covered;
    assert FoundIds(MOVED, MOVING, 1) == map["x" := 0];
    assert FoundIds(MOVED, MOVING, 2) == map["x" := 1];
    assert FoundIds(MOVED, MOVING, 3) == map["x" := 1, "y" := 1];
    assert FoundIds(MOVED, MOVING, 4) == map["x" := 1, "y" := 1];
  }

  lemma MovingRows(rows: Rows, ids: map<string, nat>)
    requires ids == map["x" := 0, "y" := 1, "z" := 0]
    requires rows == map[0 := SeedRow("z", "", Free, true), 1 := SeedRow("y", "", Free, true)]
    ensures RowsMade(map[], MOVING, ids, 5) == Some(rows)
  {
    var x := map[0 := SeedRow("x", "", Free, true)];
    var xy := map[0 := SeedRow("x", "", Free, true), 1 := SeedRow("y", "", Free, true)];
    assert x[0 := x[0]] == x && x[1 := xy[1]] == xy && xy[0 := xy[0]] == xy && xy[0 := rows[0]] == rows;
    assert RowsMade(map[], MOVING, ids, 1) == Some(x);
    assert RowsMade(map[], MOVING, ids, 2) == Some(x);
    assert RowsMade(map[], MOVING, ids, 3) == Some(xy);
    assert RowsMade(map[], MOVING, ids, 4) == Some(xy);
    assert RowMade(xy, 0, MOVING[4]) == Some(rows);
  }

  /** Without failing, the second run gives the row of account b another email than the first. */
  lemma SecondRunRewritesRow()
    ensures var once := UsersMade(NOTHING, MOVING, map[], 5);
            var rows := RowsMade(map[], MOVING, once.ids, 5);
            rows.Some? && RowsMade(rows.value, MOVING, UsersMade(once.remote, MOVING, map[], 5).ids, 5) !in {None, rows}
  {
    var rows := map[0 := SeedRow("z", "", Free, true), 1 := SeedRow("y", "", Free, true)];
    var ids := map["x" := 1, "y" := 1, "z" := 0];
    MovingFirst();
    MovingSecond();
    MovingRows(rows, map["x" := 0, "y" := 1, "z" := 0]);
    RowsKeptIff(rows, MOVING, ids);
    hide UsersMade, RowsMade, Written;
    assert !InPlace(rows, MOVING, ids) by {
      assert LastWriter(MOVING, ids, 3, 5);
    }
    assert !Collides(rows, MOVING, ids, 5);
  }

  // ---------- the whole script twice ----------

  lemma PreparedTwice(r: Remote, names: seq<string>, slug: string, provider: Option<nat>, needed: seq<nat>, r': Remote)
    requires var p := Prepared(r, names, slug, provider, needed);
             r'.groups == p.groups && r'.apps == p.apps && r'.mappings == p.mappings
    ensures Prepared(r', names, slug, provider, needed) == r'
  {
    GroupsGrow(r, names, |names|);
    forall g | g in names
      ensures g in r'.groups
    {
      var i :| 0 <= i < |names| && names[i] == g;
    }
    GroupsThere(r', names, |names|);
    if provider.Some? {
      assert MappingsMade(r', needed).mappings == r'.mappings;
    }
  }

  lemma {:induction false} UsersLeaveRest(r: Remote, users: seq<TestUser>, groupIds: map<string, nat>, n: nat)
    requires n <= |users|
    ensures var r' := UsersMade(r, users, groupIds, n).remote;
            r'.groups == r.groups && r'.apps == r.apps && r'.mappings == r.mappings
  {
    if n > 0 {
      UsersLeaveRest(r, users, groupIds, n - 1);
    }
  }

  lemma PreparedKeepsAccounts(r: Remote, names: seq<string>, slug: string, provider: Option<nat>, needed: seq<nat>)
    ensures var p := Prepared(r, names, slug, provider, needed);
            p.accounts == r.accounts && p.next >= r.next
  {
    GroupsGrow(r, names, |names|);
    NextGrows(r, names, |names|);
  }

  lemma {:induction false} NextGrows(r: Remote, names: seq<string>, n: nat)
    requires n <= |names|
    ensures GroupsMade(r, names, n).next >= r.next
  {
    if n > 0 {
      NextGrows(r, names, n - 1);
    }
  }

  /** What a second run does to the stores that a first run left. */
  lemma SecondRunIs(s: State, names: seq<string>, slug: string, provider: Option<nat>, needed: seq<nat>,
                    users: seq<TestUser>)
    requires ValidRemote(s.remote)
    ensures var r := Prepared(s.remote, names, slug, provider, needed);
            var groupIds := GroupIds(r, names);
            var once := Seeded(s, names, slug, provider, needed, users).0;
            var ids := FoundIds(once.remote, users, |users|);
            var made := RowsMade(once.rows, users, ids, |users|);
            && ValidRemote(r) && once.remote == UsersMade(r, users, groupIds, |users|).remote
            && Seeded(once, names, slug, provider, needed, users)
               == (State(UsersMade(once.remote, users, groupIds, |users|).remote,
                         if made.Some? then made.value else once.rows), made.Some?)
            && s.remote.mappings <= once.remote.mappings
  {
    var r := Prepared(s.remote, names, slug, provider, needed);
    var groupIds := GroupIds(r, names);
    var p := UsersMade(r, users, groupIds, |users|);
    PreparedKeepsAccounts(s.remote, names, slug, provider, needed);
    GroupsGrow(s.remote, names, |names|);
    UsersLeaveRest(r, users, groupIds, |users|);
    PreparedTwice(s.remote, names, slug, provider, needed, p.remote);
    assert GroupIds(p.remote, names) == groupIds;
    FirstRunCovers(r, users, groupIds);
    CoveredRun(p.remote, users, groupIds, |users|);
  }

  /** The ids that the first run records. */
  function FirstIds(r: Remote, names: seq<string>, users: seq<TestUser>): map<string, nat> {
    UsersMade(r, users, GroupIds(r, names), |users|).ids
  }

  /** The ids that the second run finds. */
  function SecondIds(r: Remote, names: seq<string>, users: seq<TestUser>): map<string, nat> {
    FoundIds(UsersMade(r, users, GroupIds(r, names), |users|).remote, users, |users|)
  }

  /** The upserts of a second run change nothing, told by the table before the first and both runs' ids. */
  ghost predicate RowsSettled(rows: Rows, users: seq<TestUser>, first: map<string, nat>, second: map<string, nat>) {
    var start := AfterUpserts(rows, users, first);
    Collides(start, users, second, |users|) || InPlace(start, users, second)
  }

  /**
   When the script is idempotent. From any state with unique keys, for any lists of groups, mappings
   and users, and whether or not the first run got its rows in: a second run leaves both stores as
   they are exactly when every skipped entry whose account is created later names a group the account
   is put into anyway, and the upserts under the ids that are found then collide or find everything
   in place, in the table that the last writers under the first ids make.
   */
  lemma SeedIdempotentIff(s: State, names: seq<string>, slug: string, provider: Option<nat>, needed: seq<nat>,
                          users: seq<TestUser>)
    requires ValidRemote(s.remote)
    ensures var r := Prepared(s.remote, names, slug, provider, needed);
            var once := Seeded(s, names, slug, provider, needed, users).0;
            (Seeded(once, names, slug, provider, needed, users).0 == once)
            <==>
            && GroupsSettled(r, users, GroupIds(r, names))
            && RowsSettled(s.rows, users, FirstIds(r, names, users), SecondIds(r, names, users))
  {
    var r := Prepared(s.remote, names, slug, provider, needed);
    var once := Seeded(s, names, slug, provider, needed, users).0;
    SecondRunIs(s, names, slug, provider, needed, users);
    RowsMadeIs(s.rows, users, FirstIds(r, names, users));
    var ids := SecondIds(r, names, users);
    assert ids == FoundIds(once.remote, users, |users|);
    assert RowsSettled(s.rows, users, FirstIds(r, names, users), ids)
      <==> Collides(once.rows, users, ids, |users|) || InPlace(once.rows, users, ids);
    hide *;
    SecondRunIdleIff(r, users, GroupIds(r, names));
    RowsKeptIff(once.rows, users, ids);
  }

  /**
   In particular it is idempotent, and a second run succeeds if the first did, for every list in which
   no entry of an account is skipped before another creates the account; and no mapping is lost.
   */
  lemma SeedIdempotent(s: State, names: seq<string>, slug: string, provider: Option<nat>, needed: seq<nat>,
                       users: seq<TestUser>)
    requires ValidRemote(s.remote)
    requires NoneLate(Prepared(s.remote, names, slug, provider, needed), users)
    ensures var (once, ok) := Seeded(s, names, slug, provider, needed, users);
            Seeded(once, names, slug, provider, needed, users) == (once, ok)
    ensures s.remote.mappings <= Seeded(s, names, slug, provider, needed, users).0.remote.mappings
  {
    var r := Prepared(s.remote, names, slug, provider, needed);
    var groupIds := GroupIds(r, names);
    SecondRunIs(s, names, slug, provider, needed, users);
    var p := UsersMade(r, users, groupIds, |users|);
    assert GroupsSettled(r, users, groupIds);
    SecondRunIdleIff(r, users, groupIds);
    SameIds(r, users, groupIds, |users|);
    if RowsMade(s.rows, users, p.ids, |users|).Some? {
      RowsIdempotent(s.rows, users, p.ids);
    }
  }

  // ---------- what the script is for ----------

  /** An account that the run creates carries the email and name of the entry that creates it. */
  lemma CreatedAsListed(r: Remote, users: seq<TestUser>, groupIds: map<string, nat>, i: nat)
    requires ValidRemote(r) && i < |users| && users[i].username !in r.accounts
    requires !Repeated(users, i) && !Creates(users, i, users[i].username)
    ensures var accounts := UsersMade(r, users, groupIds, |users|).remote.accounts;
            && users[i].username in accounts
            && accounts[users[i].username].email == users[i].email && accounts[users[i].username].name == users[i].name
  {
    var p := UsersMade(r, users, groupIds, i);
    AccountThereIff(r, users, groupIds, i, users[i].username);
    SeenIff(r, users, groupIds, i);
    UsersMadeGrow(r, users, groupIds, i + 1, |users|);
    assert UsersMade(r, users, groupIds, i + 1) == UserMade(p, users[i], groupIds);
    hide UsersMade, Repeated, Creates;
  }

  /**
   The mappings after the script are those that were there and those that are needed, if there is a
   provider; and of the groups all that are listed are there, with the keys they had.
   */
  lemma ScriptPrepares(s: State, names: seq<string>, slug: string, provider: Option<nat>, needed: seq<nat>,
                       users: seq<TestUser>)
    ensures var remote := Seeded(s, names, slug, provider, needed, users).0.remote;
            && (provider.Some? ==> forall m :: m in remote.mappings <==> m in s.remote.mappings || m in needed)
            && (provider.None? ==> remote.mappings == s.remote.mappings)
            && (forall g :: g in remote.groups <==> g in s.remote.groups || g in names)
            && (forall g | g in s.remote.groups :: remote.groups[g] == s.remote.groups[g])
            && slug in remote.apps
  {
    var r := Prepared(s.remote, names, slug, provider, needed);
    UsersLeaveRest(r, users, GroupIds(r, names), |users|);
    GroupsGrow(s.remote, names, |names|);
    GroupsIdempotent(s.remote, names);
    hide GroupsMade, UsersMade, RowsMade;
  }

  /**
   For a list without repeated emails: every listed user has an account, which is in the group that is
   listed for them if the script knows the group; and if the upserts succeed, a row under the uuid of
   the account with the email, name and role that are listed, and active unless it was blocked before.
   */
  lemma ScriptProvides(s: State, names: seq<string>, slug: string, provider: Option<nat>, needed: seq<nat>,
                       users: seq<TestUser>, i: nat)
    requires ValidRemote(s.remote) && DistinctEmails(users) && i < |users|
    requires forall j | 0 <= j < |users| && j != i :: users[j].username != users[i].username
    ensures var (once, ok) := Seeded(s, names, slug, provider, needed, users);
            var u := users[i];
            && u.username in once.remote.accounts
            && (u.group in names ==>
                  u.group in once.remote.groups
                  && once.remote.groups[u.group] in once.remote.accounts[u.username].groups)
            && (ok ==> ListedRow(s.rows, once.rows, once.remote.accounts[u.username].uuid, u))
  {
    var r := Prepared(s.remote, names, slug, provider, needed);
    var groupIds := GroupIds(r, names);
    var p := UsersMade(r, users, groupIds, |users|);
    GroupsGrow(s.remote, names, |names|);
    PreparedKeepsAccounts(s.remote, names, slug, provider, needed);
    UsersLeaveRest(r, users, groupIds, |users|);
    AccountsProvided(r, users, groupIds, i, |users|);
    if users[i].group in names {
      var k :| 0 <= k < |names| && names[k] == users[i].group;
      assert users[i].group in groupIds;
    }
    if RowsMade(s.rows, users, p.ids, |users|).Some? {
      OwnId(r, users, groupIds, i);
      RowOfListed(s.rows, users, p.ids, i, |users|);
    }
    hide GroupsMade, UsersMade, RowsMade;
  }

  /** The row shows the entry; it is active unless it was blocked before. */
  predicate ListedRow(before: Rows, after: Rows, id: nat, u: TestUser) {
    && id in after && after[id].email == u.email && after[id].name == u.name && after[id].role == u.role
    && after[id].isActive == (if id in before then before[id].isActive else true)
  }

  /** An id that no other email has keeps the row of its entry. */
  lemma RowOfListed(rows: Rows, users: seq<TestUser>, ids: map<string, nat>, i: nat, n: nat)
    requires DistinctEmails(users) && i < n <= |users| && users[i].email in ids
    requires forall j | 0 <= j < |users| && j != i && users[j].email in ids ::
               ids[users[j].email] != ids[users[i].email]
    requires RowsMade(rows, users, ids, n).Some?
    ensures ListedRow(rows, RowsMade(rows, users, ids, n).value, ids[users[i].email], users[i])
  {
    LastWriterStays(rows, users, ids, i, n);
    ActiveKept(rows, users, ids, n);
  }

  /** Without repeated emails, an account that one entry names is recorded under the email of that entry only. */
  lemma OwnId(r: Remote, users: seq<TestUser>, groupIds: map<string, nat>, i: nat)
    requires ValidRemote(r) && DistinctEmails(users) && i < |users|
    requires forall j | 0 <= j < |users| && j != i :: users[j].username != users[i].username
    ensures var ids := UsersMade(r, users, groupIds, |users|).ids;
            && users[i].email in ids
            && forall j | 0 <= j < |users| && j != i && users[j].email in ids ::
                 ids[users[j].email] != ids[users[i].email]
  {
    var p := UsersMade(r, users, groupIds, |users|);
    UsersMadeGrow(r, users, groupIds, |users|, |users|);
    AccountsProvided(r, users, groupIds, i, |users|);
    forall j | 0 <= j < |users| && j != i && users[j].email in p.ids
      ensures p.ids[users[j].email] != p.ids[users[i].email]
    {
      AccountsProvided(r, users, groupIds, j, |users|);
      assert users[j].username != users[i].username;
    }
    hide UsersMade;
  }

  // ---------- any number of runs ----------

  /** The stores after n runs. */
  function Runs(s: State, names: seq<string>, slug: string, provider: Option<nat>, needed: seq<nat>,
                users: seq<TestUser>, n: nat): State
  {
    if n == 0 then s
    else Seeded(Runs(s, names, slug, provider, needed, users, n - 1), names, slug, provider, needed, users).0
  }

  /** After any number of runs the slug has the application that was there before or that the first run made. */
  lemma {:induction false} ApplicationLasts(s: State, names: seq<string>, slug: string, provider: Option<nat>,
                                            needed: seq<nat>, users: seq<TestUser>, n: nat)
    requires n > 0
    ensures var apps := Runs(s, names, slug, provider, needed, users, n).remote.apps;
            && apps.Keys == s.remote.apps.Keys + {slug}
            && apps[slug] == (if slug in s.remote.apps then s.remote.apps[slug] else provider)
            && forall a | a in s.remote.apps :: apps[a] == s.remote.apps[a]
  {
    var before := Runs(s, names, slug, provider, needed, users, n - 1);
    if n > 1 {
      ApplicationLasts(s, names, slug, provider, needed, users, n - 1);
    }
    var r := Prepared(before.remote, names, slug, provider, needed);
    GroupsGrow(before.remote, names, |names|);
    UsersLeaveRest(r, users, GroupIds(r, names), |users|);
    hide GroupsMade, UsersMade, RowsMade;
  }
}
