/** The users table: its rows, the uniqueness it enforces, and the mapping from groups to roles. */
module Users {
  import opened Common
  import opened Keyset

  datatype Role = Free | Paid | Admin

  datatype Profile = Profile(
    providerId: string, email: string, name: string, role: Role, isActive: bool,
    roleChangedAt: Option<int>, roleChangedBy: Option<string>, updatedAt: int)

  type User = Row<Profile>

  /** The rows by primary key. */
  type UserTable = map<nat, User>

  /** The settings that resolve_role reads; `lower` is str.lower. */
  datatype Settings = Settings(adminEmail: string, lower: string -> string)

  /** Primary key, unique provider_id, unique email. */
  ghost predicate ValidUsers(rows: UserTable) {
    && (forall i | i in rows :: rows[i].id == i)
    && (forall i, j | i in rows && j in rows && i != j :: rows[i].data.providerId != rows[j].data.providerId)
    && (forall i, j | i in rows && j in rows && i != j :: rows[i].data.email != rows[j].data.email)
  }

  /** get_by_provider_id */
  function ByProvider(rows: UserTable, providerId: string): (r: Option<User>)
    requires ValidUsers(rows)
    ensures r.Some? ==> r.value.id in rows && rows[r.value.id] == r.value && r.value.data.providerId == providerId
    ensures r.None? ==> forall i | i in rows :: rows[i].data.providerId != providerId
  {
    if i :| i in rows && rows[i].data.providerId == providerId then Some(rows[i]) else None
  }

  /** get_by_email */
  function ByEmail(rows: UserTable, email: string): (r: Option<User>)
    requires ValidUsers(rows)
    ensures r.Some? ==> r.value.id in rows && rows[r.value.id] == r.value && r.value.data.email == email
    ensures r.None? ==> forall i | i in rows :: rows[i].data.email != email
  {
    if i :| i in rows && rows[i].data.email == email then Some(rows[i]) else None
  }

  predicate IsAdminEmail(cfg: Settings, email: string) {
    cfg.adminEmail != "" && cfg.lower(email) == cfg.lower(cfg.adminEmail)
  }

  /** resolve_role: admins before paid before ADMIN_EMAIL before free. */
  function ResolveRole(cfg: Settings, email: string, groups: Option<seq<string>>): Role {
    if groups.Some? && "admins" in groups.value then Admin
    else if groups.Some? && "paid" in groups.value then Paid
    else if IsAdminEmail(cfg, email) then Admin
    else Free
  }

  /**
   Which users get which role: the admins group always means admin, the paid group means paid
   otherwise, ADMIN_EMAIL lifts only users in neither, and any other group means nothing.
   */
  lemma RolesByMembership(cfg: Settings, email: string, groups: Option<seq<string>>)
    ensures var gs := if groups.Some? then set g | g in groups.value else {};
            // ADMIN_EMAIL names the user, in whatever case
            var named := cfg.adminEmail != "" && cfg.lower(email) == cfg.lower(cfg.adminEmail);
            && (ResolveRole(cfg, email, groups) == Admin <==> "admins" in gs || ("paid" !in gs && named))
            && (ResolveRole(cfg, email, groups) == Paid <==> "paid" in gs && "admins" !in gs)
            && (ResolveRole(cfg, email, groups) == Free <==> gs !! {"admins", "paid"} && !named)
  {
    var gs := if groups.Some? then set g | g in groups.value else {};
    assert gs !! {"admins", "paid"} <==> "admins" !in gs && "paid" !in gs;
  }

  /** A row that is written with other values than it had gets a new updated_at from the trigger. */
  function Touched(before: User, after: User, now: int): User {
    if after == before then before else after.(data := after.data.(updatedAt := now))
  }

  /** Writing this row would break a unique index. */
  predicate Clashes(rows: UserTable, user: User) {
    exists i | i in rows && i != user.id ::
      rows[i].data.providerId == user.data.providerId || rows[i].data.email == user.data.email
  }
}
