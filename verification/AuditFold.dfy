/** The audit log is enough to rebuild what admins did to the users. */
module AuditFold {
  import opened Common
  import opened Users
  import opened AdminRouter

  /** What the log speaks of. */
  datatype Standing = Standing(role: Role, isActive: bool)

  function Standings(rows: UserTable): map<nat, Standing> {
    map i | i in rows :: Standing(rows[i].data.role, rows[i].data.isActive)
  }

  /** Replays one entry; entries about unknown users do nothing. */
  function Replay(s: map<nat, Standing>, e: Entry): map<nat, Standing> {
    if e.targetId !in s then s
    else
      match e.action
      case ChangeRole(_, newRole) => s[e.targetId := s[e.targetId].(role := newRole)]
      case BlockUser => s[e.targetId := s[e.targetId].(isActive := false)]
      case UnblockUser => s[e.targetId := s[e.targetId].(isActive := true)]
      case DeleteUser => s - {e.targetId}
      case ResetPassword => s
  }

  function ReplayAll(s: map<nat, Standing>, log: seq<Entry>): map<nat, Standing> {
    if log == [] then s else Replay(ReplayAll(s, log[..|log| - 1]), log[|log| - 1])
  }

  datatype AdminCall =
    | RoleCall(id: nat, newRole: Role, admin: User, now: int, replies: AkReplies, insertOk: bool, commitOk: bool)
    | ActiveCall(id: nat, isActive: bool, admin: User, now: int, insertOk: bool, commitOk: bool)
    | DeleteCall(id: nat, admin: User, akDeleted: bool, insertOk: bool, commitOk: bool)
    | ResetCall(id: nat, admin: User, passwordSet: bool, insertOk: bool, commitOk: bool)

  /** One admin request, whether or not its audit insert and its commit succeed. */
  ghost predicate Served(w: World, c: AdminCall, w': World, outcome: AdminOutcome) {
    match c
    case RoleCall(id, newRole, admin, now, replies, insertOk, commitOk) =>
      ChangeRoleEffect(w, id, newRole, admin, now, replies, insertOk, commitOk, w', outcome)
    case ActiveCall(id, isActive, admin, now, insertOk, commitOk) =>
      SetActiveEffect(w, id, isActive, admin, now, insertOk, commitOk, w', outcome)
    case DeleteCall(id, admin, akDeleted, insertOk, commitOk) =>
      DeleteEffect(w, id, admin, akDeleted, insertOk, commitOk, w', outcome)
    case ResetCall(id, admin, passwordSet, insertOk, commitOk) =>
      ResetEffect(w, id, admin, passwordSet, insertOk, commitOk, w', outcome)
  }

  /** A request that succeeds appends one entry, which replays its effect; any other changes nothing here. */
  lemma ServedIsLogged(w: World, c: AdminCall, w': World, outcome: AdminOutcome)
    requires Served(w, c, w', outcome)
    ensures outcome.Succeeded? ==>
              && |w'.log| == |w.log| + 1 && w'.log[..|w.log|] == w.log
              && Standings(w'.rows) == Replay(Standings(w.rows), w'.log[|w.log|])
    ensures !outcome.Succeeded? ==> w'.log == w.log && w'.rows == w.rows
  {
  }

  /** The row that a role change or block is answered with, saved or not, field by field. */
  lemma AnsweredRow(w: World, c: AdminCall, w': World, outcome: AdminOutcome)
    requires Served(w, c, w', outcome) && Answered(outcome) && (c.RoleCall? || c.ActiveCall?)
    ensures c.id in w.rows && outcome.user.id == w.rows[c.id].id && outcome.user.createdAt == w.rows[c.id].createdAt
    ensures var was, row := w.rows[c.id].data, outcome.user.data;
            && row.role == (if c.RoleCall? then c.newRole else was.role)
            && row.isActive == (if c.ActiveCall? then c.isActive else was.isActive)
            && row.roleChangedAt == Some(c.now) && row.roleChangedBy == Some(c.admin.data.providerId)
            && row.updatedAt == c.now
            && row.providerId == was.providerId && row.email == was.email && row.name == was.name
  {
  }

  /** What a saved request leaves in the table, and that it leaves all other rows alone. */
  lemma SavedTable(w: World, c: AdminCall, w': World, outcome: AdminOutcome)
    requires Served(w, c, w', outcome) && outcome.Succeeded?
    ensures forall i | i in w.rows && i != c.id :: i in w'.rows && w'.rows[i] == w.rows[i]
    ensures forall i | i in w'.rows :: i in w.rows
    ensures c.RoleCall? || c.ActiveCall? ==> c.id in w'.rows && w'.rows[c.id] == outcome.user
    ensures c.DeleteCall? ==> c.id !in w'.rows && outcome.user == w.rows[c.id]
    ensures c.ResetCall? ==> w'.rows == w.rows && outcome.user == w.rows[c.id]
  {
  }

  /** The entry of a saved request: who did what to whom. */
  lemma SavedEntry(w: World, c: AdminCall, w': World, outcome: AdminOutcome)
    requires Served(w, c, w', outcome) && outcome.Succeeded?
    ensures c.id in w.rows && |w'.log| == |w.log| + 1
    ensures var entry := w'.log[|w.log|];
            && entry.adminId == c.admin.id && entry.targetId == c.id && entry.targetEmail == w.rows[c.id].data.email
            && match c
               case RoleCall(_, newRole, _, _, _, _, _) => entry.action == ChangeRole(w.rows[c.id].data.role, newRole)
               case ActiveCall(_, isActive, _, _, _, _) => entry.action == if isActive then UnblockUser else BlockUser
               case DeleteCall(_, _, _, _, _) => entry.action == DeleteUser
               case ResetCall(_, _, _, _, _) => entry.action == ResetPassword
  {
  }

  /** What becomes of the Authentik groups: only role changes and deletions, saved or not, reach them. */
  lemma GroupsReached(w: World, c: AdminCall, w': World, outcome: AdminOutcome, providerId: string)
    requires Served(w, c, w', outcome)
    ensures c.ActiveCall? || c.ResetCall? || outcome.NotFound? ==> w'.groups == w.groups
    ensures c.DeleteCall? && outcome.SelfAction? ==> w'.groups == w.groups
    ensures (c.RoleCall? || c.DeleteCall?) && c.id in w.rows && providerId != w.rows[c.id].data.providerId ==>
              GroupsOf(w'.groups, providerId) == GroupsOf(w.groups, providerId)
    ensures c.DeleteCall? && !outcome.NotFound? && !outcome.SelfAction? && c.akDeleted ==>
              w.rows[c.id].data.providerId !in w'.groups
  {
  }

  /** Which requests are refused, and in which order the reasons are looked for. */
  lemma RefusedIff(w: World, c: AdminCall, w': World, outcome: AdminOutcome)
    requires Served(w, c, w', outcome) && (c.id in w.rows ==> w.rows[c.id].id == c.id)
    ensures var self, known := c.admin.id == c.id, c.id in w.rows;
            var akFails := if c.RoleCall? then !c.replies.lookups || c.replies.remove.Failed? || c.replies.add.Failed?
                           else c.ResetCall? && !c.passwordSet;
            && (outcome.NotFound? <==> !known && (c.ActiveCall? ==> !self))
            && (outcome.AuthentikFailed? <==> known && akFails)
            && (outcome.SelfAction? <==> self && !c.ResetCall? && (c.ActiveCall? || known) && !akFails)
            && (outcome.CommitFailed? <==> known && !akFails && (self ==> c.ResetCall?) && c.insertOk && !c.commitOk)
  {
  }

  /** What the client was told is in the database. */
  ghost predicate Holds(c: AdminCall, w': World, outcome: AdminOutcome)
    requires Answered(outcome)
  {
    match c
    case RoleCall(id, _, _, _, _, _, _) => id in w'.rows && w'.rows[id] == outcome.user
    case ActiveCall(id, _, _, _, _, _) => id in w'.rows && w'.rows[id] == outcome.user
    case DeleteCall(id, _, _, _, _) => id !in w'.rows
    case ResetCall(_, _, _, _, _) => true
  }

  /**
   The audit insert is meant never to block the main operation, and the answer indeed does not depend
   on it. But an answered change is in the database exactly when the insert succeeded, unless there
   was nothing to change, and so is the entry.
   */
  lemma AnsweredHoldsIff(w: World, c: AdminCall, w': World, outcome: AdminOutcome)
    requires Served(w, c, w', outcome) && Answered(outcome)
    ensures Holds(c, w', outcome) <==> c.insertOk || Holds(c, w, outcome)
    ensures |w'.log| == |w.log| + (if c.insertOk then 1 else 0)
    ensures !c.insertOk ==> w'.rows == w.rows && w'.log == w.log
  {
  }

  ghost predicate RunOf(worlds: seq<World>, calls: seq<AdminCall>, outcomes: seq<AdminOutcome>) {
    && |worlds| == |calls| + 1 && |outcomes| == |calls|
    && (forall i: nat | i < |calls| :: ServedAt(worlds, calls, outcomes, i))
  }

  ghost predicate ServedAt(worlds: seq<World>, calls: seq<AdminCall>, outcomes: seq<AdminOutcome>, i: nat)
    requires i < |calls| && |worlds| == |calls| + 1 && |outcomes| == |calls|
  {
    Served(worlds[i], calls[i], worlds[i + 1], outcomes[i])
  }

  /**
   Over any run of admin requests, in which calls, inserts and commits may fail at any point, the log only grows, and
   replaying what it grew by over the first table gives every user's existence, role and active
   flag in the last.
   */
  lemma {:induction false} LogDeterminesState(worlds: seq<World>, calls: seq<AdminCall>,
                                             outcomes: seq<AdminOutcome>, n: nat)
    requires RunOf(worlds, calls, outcomes) && n <= |calls|
    ensures worlds[0].log <= worlds[n].log
    ensures Standings(worlds[n].rows) == ReplayAll(Standings(worlds[0].rows), worlds[n].log[|worlds[0].log|..])
  {
    var start := |worlds[0].log|;
    if n == 0 {
      assert worlds[0].log[start..] == [];
    } else {
      LogDeterminesState(worlds, calls, outcomes, n - 1);
      assert ServedAt(worlds, calls, outcomes, n - 1);
      var w, w' := worlds[n - 1], worlds[n];
      ServedIsLogged(w, calls[n - 1], w', outcomes[n - 1]);
      if outcomes[n - 1].Succeeded? {
        assert w'.log[start..] == w.log[start..] + [w'.log[|w.log|]];
        ReplayAppend(Standings(worlds[0].rows), w.log[start..], w'.log[|w.log|]);
      }
    }
  }

  lemma ReplayAppend(s: map<nat, Standing>, log: seq<Entry>, e: Entry)
    ensures ReplayAll(s, log + [e]) == Replay(ReplayAll(s, log), e)
  {
    assert (log + [e])[..|log|] == log;
  }
}
