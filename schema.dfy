/**
 * Rows of the RBAC database and the relational queries over them, as pure
 * functions on table values.
 *
 * A table with an AUTO_INCREMENT primary key is a map from id to row; the two
 * association tables, whose primary key is the whole (left id, right id) pair,
 * are sets of pairs.
 */
module Schema {

  datatype Option<+T> = None | Some(value: T)

  /** A row of the `users` table, without its id. */
  datatype UserRow = UserRow(username: string, passwordHash: string, fullName: string)

  /** A row of the `audit_logs` table; its position in the log is its id. */
  datatype AuditEntry = AuditEntry(userId: Option<int>, action: string)

  /** The UNIQUE constraint on a `name` column: no two ids carry the same name. */
  ghost predicate UniqueNames(t: map<int, string>)
  {
    forall a, b :: a in t && b in t && t[a] == t[b] ==> a == b
  }

  /** The UNIQUE constraint on `users.username`. */
  ghost predicate UniqueUsernames(users: map<int, UserRow>)
  {
    forall a, b :: a in users && b in users && users[a].username == users[b].username ==> a == b
  }

  /** The value of the `username` column over all rows. */
  function Usernames(users: map<int, UserRow>): (names: set<string>)
    ensures forall id :: id in users ==> users[id].username in names
    ensures forall n :: n in names ==> exists id :: id in users && users[id].username == n
  {
    set id | id in users :: users[id].username
  }

  /** The value of a `name` column over all rows. */
  function Names(t: map<int, string>): (names: set<string>)
    ensures forall id :: id in t ==> t[id] in names
  {
    set id | id in t :: t[id]
  }

  /** The ids whose name is one of `names`. */
  function IdsNamed(t: map<int, string>, names: set<string>): set<int>
  {
    set id | id in t && t[id] in names
  }

  /**
   * The permission names linked to role `rid`: `role_permissions` joined with
   * `permissions`.
   */
  function RoleGrants(rolePermissions: set<(int, int)>, permissions: map<int, string>, rid: int): set<string>
  {
    set rp | rp in rolePermissions && rp.0 == rid && rp.1 in permissions :: permissions[rp.1]
  }

  /**
   * The query of `getUserPermissions`: the names of the permissions p for
   * which rows (rid, p.id) of `role_permissions`, rid of `roles` and
   * (uid, rid) of `user_roles` exist.
   */
  function Effective(userRoles: set<(int, int)>, rolePermissions: set<(int, int)>,
                     roles: map<int, string>, permissions: map<int, string>, uid: int): set<string>
  {
    set rp | rp in rolePermissions && (uid, rp.0) in userRoles && rp.0 in roles && rp.1 in permissions
      :: permissions[rp.1]
  }

  /**
   * The effective permission set is the union, over the roles the user holds,
   * of the names linked to each role.
   */
  lemma EffectiveIsUnionOfRoleGrants(userRoles: set<(int, int)>, rolePermissions: set<(int, int)>,
                                     roles: map<int, string>, permissions: map<int, string>, uid: int, p: string)
    ensures p in Effective(userRoles, rolePermissions, roles, permissions, uid)
        <==> exists rid :: (uid, rid) in userRoles && rid in roles && p in RoleGrants(rolePermissions, permissions, rid)
  {
    var eff := Effective(userRoles, rolePermissions, roles, permissions, uid);
    if p in eff {
      var rp :| rp in rolePermissions && (uid, rp.0) in userRoles && rp.0 in roles && rp.1 in permissions
                && permissions[rp.1] == p;
      assert p in RoleGrants(rolePermissions, permissions, rp.0);
    }
    if exists rid :: (uid, rid) in userRoles && rid in roles && p in RoleGrants(rolePermissions, permissions, rid) {
      var rid :| (uid, rid) in userRoles && rid in roles && p in RoleGrants(rolePermissions, permissions, rid);
      var rp :| rp in rolePermissions && rp.0 == rid && rp.1 in permissions && permissions[rp.1] == p;
      assert p in eff;
    }
  }

  /** A user without rows in `user_roles` has no permissions. */
  lemma EffectiveWithoutRoles(userRoles: set<(int, int)>, rolePermissions: set<(int, int)>,
                              roles: map<int, string>, permissions: map<int, string>, uid: int)
    requires forall ur :: ur in userRoles ==> ur.0 != uid
    ensures Effective(userRoles, rolePermissions, roles, permissions, uid) == {}
  {
  }

  /** Every effective permission is the name of an existing permission. */
  lemma EffectiveWithinPermissions(userRoles: set<(int, int)>, rolePermissions: set<(int, int)>,
                                   roles: map<int, string>, permissions: map<int, string>, uid: int)
    ensures Effective(userRoles, rolePermissions, roles, permissions, uid) <= Names(permissions)
  {
    forall p | p in Effective(userRoles, rolePermissions, roles, permissions, uid)
      ensures p in Names(permissions)
    {
      var rp :| rp in rolePermissions && (uid, rp.0) in userRoles && rp.0 in roles && rp.1 in permissions
                && permissions[rp.1] == p;
    }
  }

  /** A user holding a single role has exactly that role's permissions. */
  lemma EffectiveOfSingleRole(userRoles: set<(int, int)>, rolePermissions: set<(int, int)>,
                              roles: map<int, string>, permissions: map<int, string>, uid: int, rid: int)
    requires (uid, rid) in userRoles && rid in roles
    requires forall r :: (uid, r) in userRoles ==> r == rid
    ensures Effective(userRoles, rolePermissions, roles, permissions, uid) == RoleGrants(rolePermissions, permissions, rid)
  {
    forall p ensures p in Effective(userRoles, rolePermissions, roles, permissions, uid)
                 <==> p in RoleGrants(rolePermissions, permissions, rid)
    {
      EffectiveIsUnionOfRoleGrants(userRoles, rolePermissions, roles, permissions, uid, p);
    }
  }

  /**
   * Adding the row (u, rid) to `user_roles` gives u the permissions of rid on
   * top of those it had, and changes no other user's permissions.
   */
  lemma EffectiveAfterAssignRole(userRoles: set<(int, int)>, rolePermissions: set<(int, int)>,
                                 roles: map<int, string>, permissions: map<int, string>, u: int, rid: int, uid: int)
    requires rid in roles
    ensures Effective(userRoles + {(u, rid)}, rolePermissions, roles, permissions, uid)
         == if uid == u
            then Effective(userRoles, rolePermissions, roles, permissions, uid) + RoleGrants(rolePermissions, permissions, rid)
            else Effective(userRoles, rolePermissions, roles, permissions, uid)
  {
    var ur' := userRoles + {(u, rid)};
    forall p ensures p in Effective(ur', rolePermissions, roles, permissions, uid)
                 <==> p in Effective(userRoles, rolePermissions, roles, permissions, uid)
                      || (uid == u && p in RoleGrants(rolePermissions, permissions, rid))
    {
      EffectiveIsUnionOfRoleGrants(ur', rolePermissions, roles, permissions, uid, p);
      EffectiveIsUnionOfRoleGrants(userRoles, rolePermissions, roles, permissions, uid, p);
    }
  }

  /**
   * Adding one row to `role_permissions` adds at most that permission's name to
   * a user's set, and adds it exactly when the row joins with the user's roles.
   */
  lemma EffectiveAfterAddRow(userRoles: set<(int, int)>, rolePermissions: set<(int, int)>,
                             roles: map<int, string>, permissions: map<int, string>, uid: int, rp: (int, int))
    ensures Effective(userRoles, rolePermissions + {rp}, roles, permissions, uid)
         == if (uid, rp.0) in userRoles && rp.0 in roles && rp.1 in permissions
            then Effective(userRoles, rolePermissions, roles, permissions, uid) + {permissions[rp.1]}
            else Effective(userRoles, rolePermissions, roles, permissions, uid)
  {
    var before := Effective(userRoles, rolePermissions, roles, permissions, uid);
    var after := Effective(userRoles, rolePermissions + {rp}, roles, permissions, uid);
    if (uid, rp.0) in userRoles && rp.0 in roles && rp.1 in permissions {
      assert permissions[rp.1] in after;
    }
    forall p | p in after ensures p in before || p == permissions[rp.1] {
      var row :| row in rolePermissions + {rp} && (uid, row.0) in userRoles && row.0 in roles && row.1 in permissions
                 && permissions[row.1] == p;
      if row != rp {
        assert p in before;
      }
    }
  }

  /** Only the rows of `rid` matter to its grants, and only through the names of the ids they reference. */
  lemma RoleGrantsUnchanged(rolePermissions: set<(int, int)>, rolePermissions': set<(int, int)>,
                            permissions: map<int, string>, permissions': map<int, string>, rid: int)
    requires forall rp: (int, int) :: rp.0 == rid ==> (rp in rolePermissions <==> rp in rolePermissions')
    requires forall rp :: rp in rolePermissions ==> rp.1 in permissions
    requires forall id :: id in permissions ==> id in permissions' && permissions'[id] == permissions[id]
    ensures RoleGrants(rolePermissions', permissions', rid) == RoleGrants(rolePermissions, permissions, rid)
  {
    var before := RoleGrants(rolePermissions, permissions, rid);
    var after := RoleGrants(rolePermissions', permissions', rid);
    forall p | p in after ensures p in before {
      var rp :| rp in rolePermissions' && rp.0 == rid && rp.1 in permissions' && permissions'[rp.1] == p;
      var pid: int := rp.1;
      assert rp in rolePermissions && pid in permissions && permissions[pid] == p;
    }
    forall p | p in before ensures p in after {
      var rp :| rp in rolePermissions && rp.0 == rid && rp.1 in permissions && permissions[rp.1] == p;
      var pid: int := rp.1;
      assert pid in permissions' && permissions'[pid] == p;
      assert rp in rolePermissions';
    }
  }

  /**
   * A role with no rows of its own, linked to the ids of the names `names`,
   * is granted exactly `names` when every one of them is a permission.
   */
  lemma RoleGrantsOfNewRole(rolePermissions: set<(int, int)>, permissions: map<int, string>, names: set<string>, rid: int)
    requires forall rp :: rp in rolePermissions ==> rp.0 != rid
    requires names <= Names(permissions)
    ensures RoleGrants(rolePermissions + Links(rid, IdsNamed(permissions, names)), permissions, rid) == names
  {
    var links := Links(rid, IdsNamed(permissions, names));
    var grants := RoleGrants(rolePermissions + links, permissions, rid);
    forall p | p in grants ensures p in names {
      var rp :| rp in rolePermissions + links && rp.0 == rid && rp.1 in permissions && permissions[rp.1] == p;
      assert rp in links;
    }
    forall p | p in names ensures p in grants {
      var id :| id in permissions && permissions[id] == p;
      assert (rid, id) in links;
    }
  }

  /** The elements of a list of names. */
  function SetOf(s: seq<string>): set<string>
  {
    set p | p in s
  }

  /** The rows linking role `rid` to each of `ids`. */
  function Links(rid: int, ids: set<int>): set<(int, int)>
  {
    set id | id in ids :: (rid, id)
  }

  lemma LinksAdd(rid: int, ids: set<int>, id: int)
    ensures Links(rid, ids + {id}) == Links(rid, ids) + {(rid, id)}
  {
    forall row | row in Links(rid, ids + {id}) ensures row in Links(rid, ids) + {(rid, id)} {
      var k :| k in ids + {id} && row == (rid, k);
      if k != id {
        assert row in Links(rid, ids);
      }
    }
  }

  /** One more element of a list adds its name to the set of the prefix. */
  lemma SetOfPrefix(s: seq<string>, i: nat)
    requires i < |s|
    ensures SetOf(s[..i + 1]) == SetOf(s[..i]) + {s[i]}
  {
    assert s[..i + 1] == s[..i] + [s[i]];
  }

  /** A list without repeated names has as many distinct names as entries. */
  lemma {:induction false} SetOfDistinct(s: seq<string>)
    requires forall i, j :: 0 <= i < j < |s| ==> s[i] != s[j]
    ensures |SetOf(s)| == |s|
  {
    if s != [] {
      var init := s[..|s| - 1];
      assert s == init + [s[|s| - 1]];
      assert SetOf(s) == SetOf(init) + {s[|s| - 1]};
      assert s[|s| - 1] !in SetOf(init);
      SetOfDistinct(init);
    }
  }

  /** Inserting a row under a fresh id adds its name and keeps every other name. */
  lemma NamesAfterInsert(t: map<int, string>, id: int, name: string)
    requires id !in t
    ensures Names(t[id := name]) == Names(t) + {name}
  {
    var t' := t[id := name];
    assert id in t' && t'[id] == name;
    forall n | n in Names(t') ensures n in Names(t) + {name} {
      var k :| k in t' && t'[k] == n;
      if k != id {
        assert k in t && t[k] == n;
      }
    }
    forall n | n in Names(t) ensures n in Names(t') {
      var k :| k in t && t[k] == n;
      assert k in t' && t'[k] == n;
    }
  }

  /**
   * AUTO_INCREMENT between two states of an id-keyed table, whose counter is
   * `next` before and `next'` after: the counter never goes down, every row
   * added has an id at or past `next`, and every id the counter moved past
   * has a row.
   */
  ghost predicate Allocated<T>(t: map<int, T>, next: int, t': map<int, T>, next': int)
  {
    && next <= next'
    && (forall id {:trigger id in t'} :: id in t' && id !in t ==> next <= id)
    && (forall id {:trigger id in t'} :: next <= id < next' ==> id in t')
  }

  /** Two AUTO_INCREMENT steps in a row, the second keeping the rows of the first, make one. */
  lemma AllocatedTrans<T>(t1: map<int, T>, next1: int, t2: map<int, T>, next2: int, t3: map<int, T>, next3: int)
    requires Allocated(t1, next1, t2, next2) && Allocated(t2, next2, t3, next3)
    requires forall id :: id in t2 ==> id in t3
    ensures Allocated(t1, next1, t3, next3)
  {
    forall id | next1 <= id < next3 ensures id in t3 {
      if id < next2 {
        assert id in t2;
      }
    }
  }

  /** The ids from `lo` up to, but not including, `hi`. */
  ghost function IdRange(lo: int, hi: int): set<int>
    decreases hi - lo
  {
    if hi <= lo then {} else IdRange(lo, hi - 1) + {hi - 1}
  }

  /** A range holds exactly the ids between its bounds, as many as they are apart. */
  lemma {:induction false} IdRangeSize(lo: int, hi: int)
    requires lo <= hi
    ensures forall id :: id in IdRange(lo, hi) <==> lo <= id < hi
    ensures |IdRange(lo, hi)| == hi - lo
    decreases hi - lo
  {
    if lo < hi {
      IdRangeSize(lo, hi - 1);
    }
  }

  /** Removing a row under the UNIQUE constraint removes exactly its name. */
  lemma NamesAfterRemove(t: map<int, string>, id: int)
    requires UniqueNames(t) && id in t
    ensures UniqueNames(t - {id})
    ensures t[id] !in Names(t - {id})
    ensures |Names(t)| == |Names(t - {id})| + 1
  {
    var rest := t - {id};
    assert t == rest[id := t[id]];
    NamesAfterInsert(rest, id, t[id]);
  }

  /**
   * Under the UNIQUE constraint a table whose ids are exactly `lo` up to
   * `hi` has as many distinct names as ids.
   */
  lemma {:induction false} NamesOfIdRange(t: map<int, string>, lo: int, hi: int)
    requires UniqueNames(t) && lo <= hi && t.Keys == IdRange(lo, hi)
    ensures |Names(t)| == hi - lo
    decreases hi - lo
  {
    if lo == hi {
      assert Names(t) == {};
    } else {
      IdRangeSize(lo, hi - 1);
      assert (t - {hi - 1}).Keys == IdRange(lo, hi - 1);
      NamesAfterRemove(t, hi - 1);
      NamesOfIdRange(t - {hi - 1}, lo, hi - 1);
    }
  }

  /**
   * Filling a table from empty with counter 1: the ids in use are exactly
   * 1 up to the counter, so the counter is one past the number of names.
   */
  lemma CounterAfterFill(t: map<int, string>, next: int)
    requires Allocated(map[], 1, t, next) && UniqueNames(t)
    requires forall id :: id in t ==> id < next
    ensures next == |Names(t)| + 1
  {
    IdRangeSize(1, next);
    forall id | id in t ensures id in IdRange(1, next) {
    }
    forall id | id in IdRange(1, next) ensures id in t {
    }
    assert t.Keys == IdRange(1, next);
    NamesOfIdRange(t, 1, next);
  }

  /**
   * Looking up or inserting the name `n` as `id`, then linking it: the ids
   * named by `linked + {n}` afterwards are those named by `linked` before,
   * plus `id`.
   */
  lemma IdsNamedAfterLookup(before: map<int, string>, after: map<int, string>, linked: set<string>, n: string, id: int)
    requires linked <= Names(before)
    requires n in Names(before) ==> after == before
    requires n !in Names(before) ==> id !in before && after == before[id := n]
    requires id in after && after[id] == n
    requires UniqueNames(after)
    ensures IdsNamed(after, linked + {n}) == IdsNamed(before, linked) + {id}
  {
    var lhs := IdsNamed(after, linked + {n});
    var rhs := IdsNamed(before, linked) + {id};
    forall k | k in lhs ensures k in rhs {
      if after[k] == n {
        assert k == id;
      } else if n in Names(before) {
        assert k in before && before[k] in linked;
      } else {
        assert k != id && k in before && before[k] in linked;
      }
    }
    forall k | k in rhs ensures k in lhs {
      if k != id {
        assert k in before && before[k] in linked;
        assert k in after && after[k] == before[k];
      }
    }
  }

  /**
   * One turn of the loop that links a new role `rid` to the permissions
   * `perms`: the permission `perms[i]` is looked up or inserted as `pid` and
   * linked, which extends the names and the links from `perms[..i]` to
   * `perms[..i + 1]`.
   */
  lemma LinkStep(oldPermissions: map<int, string>, before: map<int, string>, after: map<int, string>,
                 oldRows: set<(int, int)>, rows: set<(int, int)>, rid: int, perms: seq<string>, i: nat, pid: int)
    requires i < |perms|
    requires Names(before) == Names(oldPermissions) + SetOf(perms[..i])
    requires perms[i] in Names(before) ==> after == before
    requires perms[i] !in Names(before) ==> pid !in before && after == before[pid := perms[i]]
    requires pid in after && after[pid] == perms[i] && UniqueNames(after)
    requires rows == oldRows + Links(rid, IdsNamed(before, SetOf(perms[..i]))) + {(rid, pid)}
    ensures Names(after) == Names(oldPermissions) + SetOf(perms[..i + 1])
    ensures rows == oldRows + Links(rid, IdsNamed(after, SetOf(perms[..i + 1])))
  {
    if perms[i] !in Names(before) {
      NamesAfterInsert(before, pid, perms[i]);
    }
    IdsNamedAfterLookup(before, after, SetOf(perms[..i]), perms[i], pid);
    LinksAdd(rid, IdsNamed(before, SetOf(perms[..i])), pid);
    SetOfPrefix(perms, i);
  }
}
