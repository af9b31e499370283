/**
 The admin endpoints that change users: the Authentik groups first, then the row, then the audit
 entry, with the database transaction committed or rolled back at the end.
 */
module AdminRouter {
  import opened Common
  import opened Users
  import opened UserRepository
  import LeaseCache

  type Reply = LeaseCache.Reply

  /** ROLE_TO_GROUP */
  function RoleToGroup(role: Role): string {
    match role
    case Admin => "admins"
    case Paid => "paid"
    case Free => "free"
  }

  datatype Action =
    | ChangeRole(oldRole: Role, newRole: Role)
    | BlockUser
    | UnblockUser
    | DeleteUser
    | ResetPassword

  /** An audit entry as far as it concerns the state of users. */
  datatype Entry = Entry(adminId: nat, action: Action, targetId: nat, targetEmail: string)

  datatype AdminOutcome =
    | Succeeded(user: User)
    | NotFound         // no such user
    | SelfAction       // BusinessRuleError of the service's guard
    | AuthentikFailed  // an Authentik call failed and nothing was written to the database
    | CommitFailed     // everything ran, but the transaction did not commit
    | AnsweredUnsaved(user: User)  // answered like a success, but the failed audit insert took everything back

  /** A result of the fuzzy user search: uid and primary key. */
  datatype AkUser = AkUser(uid: string, pk: nat)

  /** _authentik_get_user_pk: the search is fuzzy, so the first exact uid match is taken. */
  method GetUserPk(results: seq<AkUser>, providerId: string) returns (pk: Option<nat>)
    ensures pk.None? <==> forall u | u in results :: u.uid != providerId
    ensures pk.Some? ==> exists i :: 0 <= i < |results| && results[i] == AkUser(providerId, pk.value)
                                     && forall j | 0 <= j < i :: results[j].uid != providerId
  {
    for i := 0 to |results|
      invariant forall j | 0 <= j < i :: results[j].uid != providerId
    {
      if results[i].uid == providerId {
        return Some(results[i].pk);
      }
    }
    return None;
  }

  /** How the four Authentik steps of a role change end. */
  datatype AkReplies = AkReplies(lookups: bool, remove: Reply, add: Reply)

  function GroupsOf(groups: map<string, set<string>>, providerId: string): set<string> {
    if providerId in groups then groups[providerId] else {}
  }

  /** The membership of each Authentik user, by provider_id. */
  class Authentik {
    var groups: map<string, set<string>>

    constructor ()
      ensures groups == map[]
    {
      groups := map[];
    }

    /** _authentik_change_group; false stands for a raised error. */
    method ChangeGroup(providerId: string, oldRole: Role, newRole: Role, replies: AkReplies) returns (ok: bool)
      modifies this
      ensures ok <==> replies.lookups && replies.remove.Answered? && replies.add.Answered?
      ensures groups == GroupsAfter(old(groups), providerId, oldRole, newRole, replies)
    {
      if !replies.lookups {
        return false;
      }
      if LeaseCache.Took(replies.remove) {
        groups := groups[providerId := GroupsOf(groups, providerId) - {RoleToGroup(oldRole)}];
      }
      if replies.remove.Failed? {
        return false;
      }
      if LeaseCache.Took(replies.add) {
        groups := groups[providerId := GroupsOf(groups, providerId) + {RoleToGroup(newRole)}];
      }
      return replies.add.Answered?;
    }
  }

  /** A failed step keeps the later ones from being tried, and leaves its own effect in doubt. */
  function GroupsAfter(groups: map<string, set<string>>, providerId: string, oldRole: Role, newRole: Role,
                       replies: AkReplies): map<string, set<string>> {
    var mine := GroupsOf(groups, providerId);
    var removed := mine - {RoleToGroup(oldRole)};
    if !replies.lookups then groups
    else if replies.remove.Failed? then (if replies.remove.carriedOut then groups[providerId := removed] else groups)
    else if LeaseCache.Took(replies.add) then groups[providerId := removed + {RoleToGroup(newRole)}]
    else groups[providerId := removed]
  }

  /**
   The transaction of get_db, shared by the repository and the audit log of one request. A failed
   flush aborts it: what was written since it began is gone, nothing more is committed, and leaving
   its block raises no error.
   */
  class Transaction {
    const repo: Repository
    const audit: AuditLog
    const savedRows: UserTable
    const savedLog: seq<Entry>
    var aborted: bool

    constructor (repo: Repository, audit: AuditLog)
      ensures this.repo == repo && this.audit == audit
      ensures savedRows == repo.rows && savedLog == audit.entries && !aborted
    {
      this.repo, this.audit := repo, audit;
      savedRows, savedLog, aborted := repo.rows, audit.entries, false;
    }

    ghost predicate Reset()
      reads this, repo, audit
    {
      repo.rows == savedRows && audit.entries == savedLog
    }

    method Abort()
      modifies this, repo, audit
      ensures aborted && Reset()
    {
      aborted := true;
      repo.rows, audit.entries := savedRows, savedLog;
    }

    /** The end of the block; true stands for a raised error. */
    method Exit(commitOk: bool) returns (raised: bool)
      requires aborted ==> Reset()
      modifies repo, audit
      ensures raised <==> !aborted && !commitOk
      ensures aborted || raised ==> Reset()
      ensures !aborted && !raised ==> repo.rows == old(repo.rows) && audit.entries == old(audit.entries)
    {
      if aborted {
        return false;
      }
      if !commitOk {
        repo.rows, audit.entries := savedRows, savedLog;
        return true;
      }
      return false;
    }
  }

  /** AuditLogService.record: the exception of a failing insert is swallowed, but its transaction is lost. */
  class AuditLog {
    var entries: seq<Entry>

    constructor ()
      ensures entries == []
    {
      entries := [];
    }

    method Record(entry: Entry, insertOk: bool, tx: Transaction)
      requires tx.audit == this && !tx.aborted
      modifies this, tx, tx.repo
      ensures tx.aborted <==> !insertOk
      ensures insertOk ==> entries == old(entries) + [entry] && tx.repo.rows == old(tx.repo.rows)
      ensures !insertOk ==> tx.Reset()
    {
      if insertOk {
        entries := entries + [entry];
      } else {
        tx.Abort();
      }
    }
  }

  /** What all the endpoints act on. */
  datatype World = World(rows: UserTable, groups: map<string, set<string>>, log: seq<Entry>)

  class Router {
    const repo: Repository
    const authentik: Authentik
    const audit: AuditLog

    constructor (repo: Repository, authentik: Authentik, audit: AuditLog)
      ensures this.repo == repo && this.authentik == authentik && this.audit == audit
    {
      this.repo, this.authentik, this.audit := repo, authentik, audit;
    }

    ghost function Now(): World
      reads this, repo, authentik, audit
    {
      World(repo.rows, authentik.groups, audit.entries)
    }

    /** PATCH /{user_id}/role */
    method ChangeUserRole(id: nat, newRole: Role, admin: User, now: int, replies: AkReplies,
                          insertOk: bool, commitOk: bool)
      returns (outcome: AdminOutcome)
      requires repo.Valid()
      modifies repo, authentik, audit
      ensures repo.Valid()
      ensures ChangeRoleEffect(old(Now()), id, newRole, admin, now, replies, insertOk, commitOk, Now(), outcome)
    {
      if id !in repo.rows {
        return NotFound;
      }
      var target := repo.rows[id];
      var oldRole := target.data.role;
      var ok := authentik.ChangeGroup(target.data.providerId, oldRole, newRole, replies);
      if !ok {
        return AuthentikFailed;
      }
      if admin.id == target.id {
        return SelfAction;
      }
      var tx := new Transaction(repo, audit);
      var updated := repo.UpdateRole(target, newRole, admin.data.providerId, now);
      audit.Record(Entry(admin.id, ChangeRole(oldRole, newRole), id, updated.data.email), insertOk, tx);
      var raised := tx.Exit(commitOk);
      return if raised then CommitFailed else if tx.aborted then AnsweredUnsaved(updated) else Succeeded(updated);
    }

    /** PATCH /{user_id}/block */
    method SetUserActive(id: nat, isActive: bool, admin: User, now: int, insertOk: bool, commitOk: bool)
      returns (outcome: AdminOutcome)
      requires repo.Valid()
      modifies repo, audit
      ensures repo.Valid()
      ensures SetActiveEffect(old(Now()), id, isActive, admin, now, insertOk, commitOk, Now(), outcome)
    {
      if admin.id == id {
        return SelfAction;
      }
      if id !in repo.rows {
        return NotFound;
      }
      var tx := new Transaction(repo, audit);
      var updated := repo.SetActive(repo.rows[id], isActive, admin.data.providerId, now);
      var action := if isActive then UnblockUser else BlockUser;
      audit.Record(Entry(admin.id, action, id, updated.data.email), insertOk, tx);
      var raised := tx.Exit(commitOk);
      return if raised then CommitFailed else if tx.aborted then AnsweredUnsaved(updated) else Succeeded(updated);
    }

    /** DELETE /{user_id}; the Authentik account goes on a best-effort basis, before the commit. */
    method DeleteUserById(id: nat, admin: User, akDeleted: bool, insertOk: bool, commitOk: bool)
      returns (outcome: AdminOutcome)
      requires repo.Valid()
      modifies repo, authentik, audit
      ensures repo.Valid()
      ensures DeleteEffect(old(Now()), id, admin, akDeleted, insertOk, commitOk, Now(), outcome)
    {
      if id !in repo.rows {
        return NotFound;
      }
      var target := repo.rows[id];
      if admin.id == target.id {
        return SelfAction;
      }
      var tx := new Transaction(repo, audit);
      repo.DeleteUser(target);
      audit.Record(Entry(admin.id, DeleteUser, id, target.data.email), insertOk, tx);
      if akDeleted {
        authentik.groups := authentik.groups - {target.data.providerId};
      }
      var raised := tx.Exit(commitOk);
      return if raised then CommitFailed else if tx.aborted then AnsweredUnsaved(target) else Succeeded(target);
    }

    /** POST /{user_id}/reset-password: only the log changes on this side. */
    method ResetUserPassword(id: nat, admin: User, passwordSet: bool, insertOk: bool, commitOk: bool)
      returns (outcome: AdminOutcome)
      requires repo.Valid()
      modifies repo, audit
      ensures repo.Valid()
      ensures ResetEffect(old(Now()), id, admin, passwordSet, insertOk, commitOk, Now(), outcome)
    {
      if id !in repo.rows {
        return NotFound;
      }
      if !passwordSet {
        return AuthentikFailed;
      }
      var target := repo.rows[id];
      var tx := new Transaction(repo, audit);
      audit.Record(Entry(admin.id, ResetPassword, id, target.data.email), insertOk, tx);
      var raised := tx.Exit(commitOk);
      return if raised then CommitFailed else if tx.aborted then AnsweredUnsaved(target) else Succeeded(target);
    }
  }

  /** How a request that ran to its end is answered. */
  function Ended(user: User, insertOk: bool, commitOk: bool): AdminOutcome {
    if !insertOk then AnsweredUnsaved(user) else if commitOk then Succeeded(user) else CommitFailed
  }

  /** The client sees a success. */
  predicate Answered(outcome: AdminOutcome) {
    outcome.Succeeded? || outcome.AnsweredUnsaved?
  }

  /** The row after update_role or set_active by an admin. */
  function Administered(user: User, role: Role, isActive: bool, admin: User, now: int): User {
    user.(data := user.data.(role := role, isActive := isActive, roleChangedAt := Some(now),
                             roleChangedBy := Some(admin.data.providerId), updatedAt := now))
  }

  /** The database is left alone. */
  predicate DbKept(before: World, after: World) {
    after.rows == before.rows && after.log == before.log
  }

  ghost predicate ChangeRoleEffect(before: World, id: nat, newRole: Role, admin: User, now: int, replies: AkReplies,
                                   insertOk: bool, commitOk: bool, after: World, outcome: AdminOutcome) {
    if id !in before.rows then outcome == NotFound && after == before
    else
      var target := before.rows[id];
      var oldRole := target.data.role;
      var updated := Administered(target, newRole, target.data.isActive, admin, now);
      var akOk := replies.lookups && replies.remove.Answered? && replies.add.Answered?;
      // the groups have changed as far as Authentik got, whatever happens later
      && after.groups == GroupsAfter(before.groups, target.data.providerId, oldRole, newRole, replies)
      && (outcome == if !akOk then AuthentikFailed
                     else if admin.id == target.id then SelfAction
                     else Ended(updated, insertOk, commitOk))
      && (if outcome.Succeeded? then
            && after.rows == before.rows[id := updated]
            && after.log == before.log + [Entry(admin.id, ChangeRole(oldRole, newRole), id, target.data.email)]
          else DbKept(before, after))
  }

  ghost predicate SetActiveEffect(before: World, id: nat, isActive: bool, admin: User, now: int, insertOk: bool,
                                  commitOk: bool, after: World, outcome: AdminOutcome) {
    && after.groups == before.groups
    && (if admin.id == id then outcome == SelfAction && DbKept(before, after)
        else if id !in before.rows then outcome == NotFound && DbKept(before, after)
        else
          var target := before.rows[id];
          var updated := Administered(target, target.data.role, isActive, admin, now);
          var action := if isActive then UnblockUser else BlockUser;
          && outcome == Ended(updated, insertOk, commitOk)
          && (if outcome.Succeeded? then
                && after.rows == before.rows[id := updated]
                && after.log == before.log + [Entry(admin.id, action, id, target.data.email)]
              else DbKept(before, after)))
  }

  ghost predicate DeleteEffect(before: World, id: nat, admin: User, akDeleted: bool, insertOk: bool, commitOk: bool,
                               after: World, outcome: AdminOutcome) {
    if id !in before.rows then outcome == NotFound && after == before
    else if admin.id == before.rows[id].id then outcome == SelfAction && after == before
    else
      var target := before.rows[id];
      // the account goes even if the deletion is not saved
      && after.groups == (if akDeleted then before.groups - {target.data.providerId} else before.groups)
      && outcome == Ended(target, insertOk, commitOk)
      && (if outcome.Succeeded? then
            && after.rows == before.rows - {id}
            && after.log == before.log + [Entry(admin.id, DeleteUser, id, target.data.email)]
          else DbKept(before, after))
  }

  ghost predicate ResetEffect(before: World, id: nat, admin: User, passwordSet: bool, insertOk: bool, commitOk: bool,
                              after: World, outcome: AdminOutcome) {
    && after.rows == before.rows && after.groups == before.groups
    && outcome == (if id !in before.rows then NotFound
                   else if !passwordSet then AuthentikFailed
                   else Ended(before.rows[id], insertOk, commitOk))
    && after.log == if outcome.Succeeded?
                    then before.log + [Entry(admin.id, ResetPassword, id, before.rows[id].data.email)]
                    else before.log
  }
}
