/** UserRepository: reads and writes of the users table inside one transaction. */
module UserRepository {
  import opened Common
  import opened Keyset
  import opened Users

  class Repository {
    var rows: UserTable

    constructor ()
      ensures rows == map[] && Valid()
    {
      rows := map[];
    }

    ghost predicate Valid()
      reads this
    {
      ValidUsers(rows)
    }

    /** Changed attributes of a loaded row reach the database; a unique violation raises. */
    method Flush(user: User, now: int) returns (ok: bool)
      requires Valid() && user.id in rows
      modifies this
      ensures Valid()
      ensures ok <==> !Clashes(old(rows), user)
      ensures rows == if ok then old(rows)[user.id := Touched(old(rows)[user.id], user, now)] else old(rows)
      ensures rows == old(rows) || rows[user.id].data.updatedAt == now
    {
      ok := !Clashes(rows, user);
      if ok {
        if user == rows[user.id] {
          assert rows == rows[user.id := user];
        } else {
          rows := rows[user.id := user.(data := user.data.(updatedAt := now))];
        }
      }
    }

    /** sync_from_jwt: the fields that differ are assigned, and flushed if there were any. */
    method SyncFromJwt(user: User, email: string, name: string, role: Role, now: int) returns (ok: bool)
      requires Valid() && user.id in rows && rows[user.id] == user
      modifies this
      ensures Valid()
      ensures ok <==> !Clashes(old(rows), Synced(user, email, name, role))
      ensures rows == if ok then old(rows)[user.id := Touched(user, Synced(user, email, name, role), now)]
                      else old(rows)
    {
      var data := user.data;
      var changed := false;
      if email != "" && data.email != email {
        data := data.(email := email);
        changed := true;
      }
      if name != "" && data.name != name {
        data := data.(name := name);
        changed := true;
      }
      if data.role != role {
        data := data.(role := role);
        changed := true;
      }
      assert user.(data := data) == Synced(user, email, name, role);
      ok := true;
      if changed {
        ok := Flush(user.(data := data), now);
      } else {
        assert rows == rows[user.id := user];
      }
    }

    /** upsert_from_provider: INSERT ... ON CONFLICT (provider_id) DO UPDATE SET email, name, role. */
    method UpsertFromProvider(cfg: Settings, providerId: string, email: string, name: string,
                              groups: Option<seq<string>>, newId: nat, now: int) returns (saved: Option<User>)
      requires Valid() && newId !in rows
      modifies this
      ensures Valid()
      ensures var known := ByProvider(old(rows), providerId);
              var role := ResolveRole(cfg, email, groups);
              var user := if known.Some?
                          then known.value.(data := known.value.data.(email := email, name := name, role := role))
                          else Fresh(newId, providerId, email, name, role, now);
              if Clashes(old(rows), user) then saved == None && rows == old(rows)
              else
                var row := if known.Some? then user.(data := user.data.(updatedAt := now)) else user;
                saved == Some(row) && rows == old(rows)[user.id := row]
    {
      var role := ResolveRole(cfg, email, groups);
      var known := ByProvider(rows, providerId);
      if known.Some? {
        var user := known.value.(data := known.value.data.(email := email, name := name, role := role));
        if Clashes(rows, user) {
          return None;
        }
        user := user.(data := user.data.(updatedAt := now));
        rows := rows[user.id := user];
        return Some(user);
      }
      var user := Fresh(newId, providerId, email, name, role, now);
      if Clashes(rows, user) {
        return None;
      }
      rows := rows[newId := user];
      return Some(user);
    }

    /** update_role */
    method UpdateRole(user: User, newRole: Role, changedBy: string, now: int) returns (updated: User)
      requires Valid() && user.id in rows && rows[user.id] == user
      modifies this
      ensures Valid()
      ensures updated == user.(data := user.data.(role := newRole, roleChangedAt := Some(now),
                                                  roleChangedBy := Some(changedBy), updatedAt := now))
      ensures rows == old(rows)[user.id := updated]
    {
      updated := user.(data := user.data.(role := newRole, roleChangedAt := Some(now),
                                          roleChangedBy := Some(changedBy), updatedAt := now));
      rows := rows[user.id := updated];
    }

    /** set_active */
    method SetActive(user: User, isActive: bool, changedBy: string, now: int) returns (updated: User)
      requires Valid() && user.id in rows && rows[user.id] == user
      modifies this
      ensures Valid()
      ensures updated == user.(data := user.data.(isActive := isActive, roleChangedAt := Some(now),
                                                  roleChangedBy := Some(changedBy), updatedAt := now))
      ensures rows == old(rows)[user.id := updated]
    {
      updated := user.(data := user.data.(isActive := isActive, roleChangedAt := Some(now),
                                          roleChangedBy := Some(changedBy), updatedAt := now));
      rows := rows[user.id := updated];
    }

    /** delete_user */
    method DeleteUser(user: User)
      requires Valid() && user.id in rows
      modifies this
      ensures Valid()
      ensures rows == old(rows) - {user.id}
    {
      rows := rows - {user.id};
    }
  }

  /** What a row becomes when the claims are taken over; empty claims leave a field alone. */
  function Synced(user: User, email: string, name: string, role: Role): User {
    user.(data := user.data.(
      email := if email != "" then email else user.data.email,
      name := if name != "" then name else user.data.name,
      role := role))
  }

  /** A newly inserted row with the column defaults. */
  function Fresh(id: nat, providerId: string, email: string, name: string, role: Role, now: int): User {
    Row(now, id, Profile(providerId, email, name, role, true, None, None, now))
  }
}
