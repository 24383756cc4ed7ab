/**
 * The RBAC system's state and operations: the five tables of its database,
 * the append-only audit log, the AUTO_INCREMENT counters that hand out ids,
 * and the logged-in user of the single console session.
 */
module Rbac {
  import opened Schema
  import opened Menu

  /** The logged-in user, as the session keeps it. */
  datatype SessionUser = SessionUser(id: int, username: string, fullName: string)

  /** Why an INSERT into `user_roles` is rejected. */
  datatype AssignError = DuplicateAssignment | MissingReference

  /** How an INSERT into `user_roles` ends. */
  datatype AssignResult = Assigned | AssignFailed(error: AssignError)

  /**
   * How user creation ends: the new user's id, the unknown role that stopped
   * it, or the UNIQUE violation on `users.username` that made the INSERT fail.
   */
  datatype CreateUserResult = Created(userId: int) | InvalidRole | DuplicateUsername

  /** How a login attempt ends. */
  datatype LoginResult = LoggedIn(user: SessionUser) | InvalidCredentials | UserNotFound

  /**
   * What the create-user form reads from the console; the password arrives
   * already hashed, since the salted hash is computed outside the model.
   */
  datatype NewUserForm = NewUserForm(username: string, passwordHash: string, fullName: string, roleName: string)

  /** The permissions the bootstrap links to the three default roles. */
  const AdminPermissions: seq<string> := ["USER_CREATE", "USER_READ", "USER_UPDATE", "USER_DELETE",
                                          "ROLE_CREATE", "ROLE_READ", "ROLE_UPDATE", "ROLE_DELETE",
                                          "DASHBOARD_VIEW", "DATA_EDIT"]
  const EditorPermissions: seq<string> := ["DASHBOARD_VIEW", "DATA_EDIT", "USER_READ"]
  const ViewerPermissions: seq<string> := ["DASHBOARD_VIEW"]

  /** Every Viewer permission is an Editor permission, and every Editor permission an Admin one. */
  lemma DefaultPermissionsNested()
    ensures SetOf(ViewerPermissions) <= SetOf(EditorPermissions) <= SetOf(AdminPermissions)
  {
  }

  /** The Admin list names ten different permissions. */
  lemma AdminPermissionsCount()
    ensures |SetOf(AdminPermissions)| == 10
  {
    SetOfDistinct(AdminPermissions);
  }

  /** The names of the roles the bootstrap seeds. */
  const DefaultRoles: set<string> := {"Admin", "Editor", "Viewer"}

  /** The permission names the bootstrap links to the default role `name`. */
  function DefaultGrants(name: string): set<string>
  {
    if name == "Admin" then SetOf(AdminPermissions)
    else if name == "Editor" then SetOf(EditorPermissions)
    else if name == "Viewer" then SetOf(ViewerPermissions)
    else {}
  }

  /** The linked names of every role of `roles`. */
  ghost function GrantsByRole(roles: map<int, string>, rolePermissions: set<(int, int)>,
                              permissions: map<int, string>): map<int, set<string>>
  {
    map r | r in roles :: RoleGrants(rolePermissions, permissions, r)
  }

  /**
   * Every role of `before` is still in `roles`, under its name, and `table`
   * gives it the linked names `grants` recorded.
   */
  ghost predicate RolesKept(before: map<int, string>, grants: map<int, set<string>>,
                            roles: map<int, string>, table: map<int, set<string>>)
  {
    forall r {:trigger grants[r]} :: r in before && r in grants ==> r in roles && roles[r] == before[r] && r in table && table[r] == grants[r]
  }

  /** Every role of `roles` not in `before` is a default role that `table` links to its default permission names. */
  ghost predicate NewRolesDefault(before: map<int, string>, roles: map<int, string>, table: map<int, set<string>>)
  {
    forall r {:trigger r in table} :: r in roles && r !in before ==>
      roles[r] in DefaultRoles && r in table && table[r] == DefaultGrants(roles[r])
  }

  /**
   * What seeding the default roles guarantees between tables A and B: every
   * role of A is still there with the same name and linked names, and every
   * role added is a default role linked to its default permission names.
   */
  ghost predicate RolesSeeded(rolesA: map<int, string>, rolePermissionsA: set<(int, int)>, permissionsA: map<int, string>,
                              rolesB: map<int, string>, rolePermissionsB: set<(int, int)>, permissionsB: map<int, string>)
  {
    var tableB := GrantsByRole(rolesB, rolePermissionsB, permissionsB);
    && RolesKept(rolesA, GrantsByRole(rolesA, rolePermissionsA, permissionsA), rolesB, tableB)
    && NewRolesDefault(rolesA, rolesB, tableB)
  }

  /**
   * One `createRoleIfNotExists` of the bootstrap, from roles `rolesA` with
   * linked names `tableA` to `rolesB` and `tableB`, keeps what the earlier
   * steps established: the roles of `before` stay as they were, and every
   * role added since is a default role with its default permission names.
   */
  lemma SeedStepKeeps(name: string, perms: seq<string>, before: map<int, string>, grants: map<int, set<string>>,
                      rolesA: map<int, string>, tableA: map<int, set<string>>,
                      rolesB: map<int, string>, tableB: map<int, set<string>>)
    requires RolesKept(before, grants, rolesA, tableA) && NewRolesDefault(before, rolesA, tableA)
    requires name in DefaultRoles && SetOf(perms) == DefaultGrants(name)
    requires forall r :: r in rolesA ==> r in rolesB && rolesB[r] == rolesA[r] && r in tableA && r in tableB && tableB[r] == tableA[r]
    requires forall r :: r in rolesB && r !in rolesA ==> rolesB[r] == name && r in tableB && tableB[r] == SetOf(perms)
    ensures RolesKept(before, grants, rolesB, tableB) && NewRolesDefault(before, rolesB, tableB)
  {
    forall r | r in rolesB && r !in before
      ensures rolesB[r] in DefaultRoles && r in tableB && tableB[r] == DefaultGrants(rolesB[r])
    {
      if r in rolesA {
        assert tableA[r] == DefaultGrants(rolesA[r]);
      }
    }
  }

  /**
   * Seeding, from `permissions` rows `before` with counter `next` to `after`
   * with counter `next'`: the rows added take the ids the counter moves past,
   * every row of `before` keeps its id and name, and no permission name
   * outside the Admin list, which holds all the default permission names, is
   * added.
   */
  ghost predicate PermissionsSeeded(before: map<int, string>, next: int, after: map<int, string>, next': int)
  {
    && Allocated(before, next, after, next')
    && (forall id {:trigger before[id]} :: id in before ==> id in after && after[id] == before[id])
    && Names(after) <= Names(before) + SetOf(AdminPermissions)
  }

  /** Two seeding steps in a row make one. */
  lemma PermissionsSeededTrans(p1: map<int, string>, n1: int, p2: map<int, string>, n2: int, p3: map<int, string>, n3: int)
    requires PermissionsSeeded(p1, n1, p2, n2) && PermissionsSeeded(p2, n2, p3, n3)
    ensures PermissionsSeeded(p1, n1, p3, n3)
  {
    AllocatedTrans(p1, n1, p2, n2, p3, n3);
  }

  /**
   * One `createRoleIfNotExists(name, perms)` on the roles `rolesA`, counter
   * `nextA` and permission names `namesA`, giving `rolesB`, `nextB` and
   * `namesB`: nothing changes when the role exists; otherwise the role goes
   * in under the counter, which advances, and the permission names grow by
   * the listed names.
   */
  ghost predicate SeedStep(name: string, perms: seq<string>,
                           rolesA: map<int, string>, nextA: int, namesA: set<string>,
                           rolesB: map<int, string>, nextB: int, namesB: set<string>)
  {
    if name in Names(rolesA) then rolesB == rolesA && nextB == nextA && namesB == namesA
    else rolesB == rolesA[nextA := name] && nextB == nextA + 1 && namesB == namesA + SetOf(perms)
  }

  /** The three seeding steps hand out role ids as AUTO_INCREMENT does. */
  lemma SeedingAllocatesRoles(roles0: map<int, string>, next0: int, names0: set<string>,
                              roles1: map<int, string>, next1: int, names1: set<string>,
                              roles2: map<int, string>, next2: int, names2: set<string>,
                              roles3: map<int, string>, next3: int, names3: set<string>)
    requires SeedStep("Admin", AdminPermissions, roles0, next0, names0, roles1, next1, names1)
    requires SeedStep("Editor", EditorPermissions, roles1, next1, names1, roles2, next2, names2)
    requires SeedStep("Viewer", ViewerPermissions, roles2, next2, names2, roles3, next3, names3)
    ensures Allocated(roles0, next0, roles3, next3)
  {
    AllocatedTrans(roles0, next0, roles1, next1, roles2, next2);
    AllocatedTrans(roles0, next0, roles2, next2, roles3, next3);
  }

  /**
   * On an empty store the seeded permissions take ids 1 to 10, one per name
   * of the Admin list, so the counter ends at 11.
   */
  lemma FreshPermissionCounter(permissions: map<int, string>, next: int)
    requires Allocated(map[], 1, permissions, next) && UniqueNames(permissions)
    requires forall id :: id in permissions ==> id < next
    requires Names(permissions) == SetOf(AdminPermissions)
    ensures next == 11
  {
    CounterAfterFill(permissions, next);
    AdminPermissionsCount();
  }

  /**
   * On an empty store the three seeding steps give the roles ids 1, 2 and 3
   * in the order Admin, Editor, Viewer, and the Admin list is every
   * permission name created.
   */
  lemma FreshSeeding(roles1: map<int, string>, next1: int, names1: set<string>,
                     roles2: map<int, string>, next2: int, names2: set<string>,
                     roles3: map<int, string>, next3: int, names3: set<string>)
    requires SeedStep("Admin", AdminPermissions, map[], 1, {}, roles1, next1, names1)
    requires SeedStep("Editor", EditorPermissions, roles1, next1, names1, roles2, next2, names2)
    requires SeedStep("Viewer", ViewerPermissions, roles2, next2, names2, roles3, next3, names3)
    ensures roles3 == map[1 := "Admin", 2 := "Editor", 3 := "Viewer"] && next3 == 4
    ensures names3 == SetOf(AdminPermissions)
  {
    DefaultPermissionsNested();
    assert Names(map[]) == {};
    NamesAfterInsert(map[], 1, "Admin");
    assert roles1 == map[1 := "Admin"] && next1 == 2;
    NamesAfterInsert(roles1, 2, "Editor");
    assert roles2 == map[1 := "Admin", 2 := "Editor"] && next2 == 3;
  }

  /** When all three roles are new, each is linked to exactly its default permission names. */
  lemma FreshGrants(roles: map<int, string>, table: map<int, set<string>>)
    requires roles == map[1 := "Admin", 2 := "Editor", 3 := "Viewer"]
    requires NewRolesDefault(map[], roles, table)
    ensures 1 in table && table[1] == SetOf(AdminPermissions)
    ensures 2 in table && table[2] == SetOf(EditorPermissions)
    ensures 3 in table && table[3] == SetOf(ViewerPermissions)
  {
    assert 1 in roles && roles[1] == "Admin" && table[1] == DefaultGrants("Admin");
    assert 2 in roles && roles[2] == "Editor" && table[2] == DefaultGrants("Editor");
    assert 3 in roles && roles[3] == "Viewer" && table[3] == DefaultGrants("Viewer");
  }

  /**
   * On a freshly seeded store the administrator, user 1, holds exactly the
   * Admin role, role 1, and so exactly the Admin permissions.
   */
  lemma FreshAdminPermissions(roles: map<int, string>, rolePermissions: set<(int, int)>,
                              permissions: map<int, string>, userRoles: set<(int, int)>)
    requires roles == map[1 := "Admin", 2 := "Editor", 3 := "Viewer"]
    requires RoleGrants(rolePermissions, permissions, 1) == SetOf(AdminPermissions)
    requires "Admin" in Names(roles) && userRoles == {(1, IdOf(roles, "Admin"))}
    ensures userRoles == {(1, 1)}
    ensures Effective(userRoles, rolePermissions, roles, permissions, 1) == SetOf(AdminPermissions)
  {
    assert IdOf(roles, "Admin") == 1;
    EffectiveOfSingleRole(userRoles, rolePermissions, roles, permissions, 1, 1);
  }

  /** The administrator account the bootstrap creates. */
  function AdminForm(adminHash: string): NewUserForm
  {
    NewUserForm("admin", adminHash, "System Administrator", "Admin")
  }

  /** The id carrying `name` in a table whose names are unique. */
  ghost function IdOf(t: map<int, string>, name: string): (id: int)
    requires name in Names(t)
    ensures id in t && t[id] == name
  {
    var id :| id in t && t[id] == name; id
  }

  /** The id of the user called `username`. */
  ghost function UserIdOf(users: map<int, UserRow>, username: string): (id: int)
    requires username in Usernames(users)
    ensures id in users && users[id].username == username
  {
    var id :| id in users && users[id].username == username; id
  }

  /** The mutable part of the state: the user-side tables, the audit log and the session. */
  datatype Snapshot = Snapshot(users: map<int, UserRow>, roles: map<int, string>, userRoles: set<(int, int)>,
                               nextUserId: int, auditLog: seq<AuditEntry>, currentUser: Option<SessionUser>)

  /** How creating the user of `form` ends in state `s`. */
  ghost function CreateOutcome(s: Snapshot, form: NewUserForm): CreateUserResult
  {
    if form.roleName !in Names(s.roles) then InvalidRole
    else if form.username in Usernames(s.users) then DuplicateUsername
    else Created(s.nextUserId)
  }

  class RbacSystem {
    var users: map<int, UserRow>
    var roles: map<int, string>
    var permissions: map<int, string>
    var userRoles: set<(int, int)>
    var rolePermissions: set<(int, int)>
    var auditLog: seq<AuditEntry>
    /** The next id AUTO_INCREMENT hands out in `users`, `roles` and `permissions`. */
    var nextUserId: int
    var nextRoleId: int
    var nextPermissionId: int
    var currentUser: Option<SessionUser>

    /**
     * The constraints of the schema: ids are positive and below their counter,
     * names are unique, association rows and audit rows reference existing
     * rows, and the session's user is a row of `users`.
     */
    ghost predicate Valid()
      reads this
    {
      && 1 <= nextUserId && 1 <= nextRoleId && 1 <= nextPermissionId
      && (forall id :: id in users ==> 1 <= id < nextUserId)
      && (forall id :: id in roles ==> 1 <= id < nextRoleId)
      && (forall id :: id in permissions ==> 1 <= id < nextPermissionId)
      && UniqueUsernames(users) && UniqueNames(roles) && UniqueNames(permissions)
      && (forall ur :: ur in userRoles ==> ur.0 in users && ur.1 in roles)
      && (forall rp :: rp in rolePermissions ==> rp.0 in roles && rp.1 in permissions)
      && (forall i :: 0 <= i < |auditLog| && auditLog[i].userId.Some? ==> auditLog[i].userId.value in users)
      && (currentUser.Some? ==>
            && currentUser.value.id in users
            && users[currentUser.value.id].username == currentUser.value.username
            && users[currentUser.value.id].fullName == currentUser.value.fullName)
    }

    /** The store as the table definitions leave it: every table empty, every counter at 1. */
    ghost predicate Fresh()
      reads this
    {
      && users == map[] && roles == map[] && permissions == map[]
      && userRoles == {} && rolePermissions == {}
      && nextUserId == 1 && nextRoleId == 1 && nextPermissionId == 1
    }

    /** The names of the permissions linked to role `rid`. */
    ghost function Grants(rid: int): set<string>
      reads this`rolePermissions, this`permissions
    {
      RoleGrants(rolePermissions, permissions, rid)
    }

    /** The permission set of user `uid`, as the join in `getUserPermissions` computes it. */
    ghost function EffectivePermissions(uid: int): set<string>
      reads this`userRoles, this`rolePermissions, this`roles, this`permissions
    {
      Effective(userRoles, rolePermissions, roles, permissions, uid)
    }

    /** The state bootstrap converges to: the three default roles and the administrator exist. */
    ghost predicate Bootstrapped()
      reads this`roles, this`users
    {
      && "Admin" in Names(roles) && "Editor" in Names(roles) && "Viewer" in Names(roles)
      && "admin" in Usernames(users)
    }

    /** What bootstrap leaves in a fresh store. */
    ghost predicate DefaultState(adminHash: string)
      reads this
    {
      && roles == map[1 := "Admin", 2 := "Editor", 3 := "Viewer"] && nextRoleId == 4
      && Names(permissions) == SetOf(AdminPermissions) && nextPermissionId == 11
      && Grants(1) == SetOf(AdminPermissions)
      && Grants(2) == SetOf(EditorPermissions)
      && Grants(3) == SetOf(ViewerPermissions)
      && users == map[1 := UserRow("admin", adminHash, "System Administrator")] && nextUserId == 2
      && userRoles == {(1, 1)}
      && EffectivePermissions(1) == SetOf(AdminPermissions)
    }

    /** The part of the state the session's operations change, as a value. */
    ghost function Snap(): Snapshot
      reads this`users, this`roles, this`userRoles, this`nextUserId, this`auditLog, this`currentUser
    {
      Snapshot(users, roles, userRoles, nextUserId, auditLog, currentUser)
    }

    /**
     * The tables after inserting the user of `form` into state `before` and
     * linking it to its role: one new `users` row under the next id and one
     * `user_roles` row when creation succeeds, no change otherwise.
     */
    ghost predicate UserInserted(before: Snapshot, form: NewUserForm)
      reads this`users, this`roles, this`userRoles, this`nextUserId
    {
      && roles == before.roles
      && match CreateOutcome(before, form)
         case Created(uid) =>
           && users == before.users[uid := UserRow(form.username, form.passwordHash, form.fullName)]
           && nextUserId == uid + 1
           && userRoles == before.userRoles + {(uid, IdOf(roles, form.roleName))}
         case _ =>
           users == before.users && nextUserId == before.nextUserId && userRoles == before.userRoles
    }

    /**
     * `UserInserted`, plus the audit entry "USER_CREATE: <username>" by the
     * session's user when creation succeeds.
     */
    ghost predicate UserCreated(before: Snapshot, form: NewUserForm)
      reads this`users, this`roles, this`userRoles, this`nextUserId, this`auditLog, this`currentUser
    {
      && UserInserted(before, form)
      && currentUser == before.currentUser
      && before.currentUser.Some?
      && auditLog == if CreateOutcome(before, form).Created?
                     then before.auditLog + [AuditEntry(Some(before.currentUser.value.id), "USER_CREATE: " + form.username)]
                     else before.auditLog
    }

    /**
     * The effect, from state `before`, of the menu action guarded by
     * `permission`: creating a user, recording "DATA_EDIT", or (for the
     * display-only actions) nothing.
     */
    ghost predicate ActionPerformed(before: Snapshot, permission: string, form: NewUserForm)
      reads this`users, this`roles, this`userRoles, this`nextUserId, this`auditLog, this`currentUser
    {
      if permission == "USER_CREATE" then UserCreated(before, form)
      else if permission == "DATA_EDIT" then
        && before.currentUser.Some?
        && Snap() == before.(auditLog := before.auditLog + [AuditEntry(Some(before.currentUser.value.id), "DATA_EDIT")])
      else Snap() == before
    }

    /** The tables as `CREATE TABLE` leaves them: empty, with every counter at 1. */
    constructor ()
      ensures Valid() && Fresh()
      ensures auditLog == [] && currentUser == None
    {
      users, roles, permissions := map[], map[], map[];
      userRoles, rolePermissions := {}, {};
      auditLog := [];
      nextUserId, nextRoleId, nextPermissionId := 1, 1, 1;
      currentUser := None;
    }

    /** Whether a row of `roles` carries `name`. */
    method RoleExists(name: string) returns (found: bool)
      ensures found <==> exists id :: id in roles && roles[id] == name
    {
      found := name in Names(roles);
    }

    /** Whether a row of `users` carries `username`. */
    method UserExists(username: string) returns (found: bool)
      ensures found <==> exists id :: id in users && users[id].username == username
    {
      found := username in Usernames(users);
    }

    /** The id of role `name`, or -1 when there is none; ids are positive, so -1 is never an id. */
    method GetRoleId(name: string) returns (id: int)
      requires Valid()
      ensures id == -1 <==> name !in Names(roles)
      ensures id != -1 ==> id in roles && roles[id] == name
      ensures forall other :: other in roles && roles[other] == name ==> other == id
    {
      if name in Names(roles) {
        id :| id in roles && roles[id] == name;
      } else {
        id := -1;
      }
    }

    /**
     * The id of the permission `name`, inserting it under the next
     * AUTO_INCREMENT id when it is absent.
     */
    method GetOrCreatePermission(name: string) returns (id: int)
      requires Valid()
      modifies this`permissions, this`nextPermissionId
      ensures Valid()
      ensures id in permissions && permissions[id] == name
      ensures forall other :: other in permissions && permissions[other] == name ==> other == id
      ensures name in Names(old(permissions)) ==>
                permissions == old(permissions) && nextPermissionId == old(nextPermissionId)
      ensures name !in Names(old(permissions)) ==>
                && id == old(nextPermissionId) && id !in old(permissions)
                && permissions == old(permissions)[id := name]
                && nextPermissionId == id + 1
      ensures Allocated(old(permissions), old(nextPermissionId), permissions, nextPermissionId)
    {
      if name in Names(permissions) {
        id :| id in permissions && permissions[id] == name;
        return;
      }
      id := nextPermissionId;
      permissions := permissions[id := name];
      nextPermissionId := nextPermissionId + 1;
    }

    /**
     * INSERT IGNORE of the row (roleId, permissionId): a row that is already
     * there, or that references a missing role or permission, is skipped.
     */
    method AssignPermissionToRole(roleId: int, permissionId: int)
      requires Valid()
      modifies this`rolePermissions
      ensures Valid()
      ensures rolePermissions == if roleId in roles && permissionId in permissions
                                 then old(rolePermissions) + {(roleId, permissionId)}
                                 else old(rolePermissions)
    {
      if roleId in roles && permissionId in permissions {
        rolePermissions := rolePermissions + {(roleId, permissionId)};
      }
    }

    /**
     * Inserts role `name` linked to the permissions named in `perms` (creating
     * those that are missing), unless a role of that name exists, in which
     * case nothing changes and its links are left as they are.
     */
    method CreateRoleIfNotExists(name: string, perms: seq<string>)
      requires Valid()
      modifies this`roles, this`nextRoleId, this`permissions, this`nextPermissionId, this`rolePermissions
      ensures Valid()
      ensures name in Names(old(roles)) ==> unchanged(this)
      ensures name !in Names(old(roles)) ==>
                var rid := old(nextRoleId);
                && rid !in old(roles)
                && roles == old(roles)[rid := name] && nextRoleId == rid + 1
                && Grants(rid) == SetOf(perms)
                && Names(permissions) == Names(old(permissions)) + SetOf(perms)
                && (forall id :: id in old(permissions) ==> id in permissions && permissions[id] == old(permissions)[id])
                && rolePermissions == old(rolePermissions) + Links(rid, IdsNamed(permissions, SetOf(perms)))
      ensures Names(roles) == Names(old(roles)) + {name}
      ensures forall r {:trigger r in old(roles)} :: r in old(roles) ==> r in roles && roles[r] == old(roles)[r] && Grants(r) == old(Grants(r))
      ensures forall r {:trigger r in roles} :: r in roles && r !in old(roles) ==> roles[r] == name && Grants(r) == SetOf(perms)
      ensures Allocated(old(permissions), old(nextPermissionId), permissions, nextPermissionId)
    {
      var found := RoleExists(name);
      if found {
        return;
      }
      var rid := nextRoleId;
      NamesAfterInsert(roles, rid, name);
      roles := roles[rid := name];
      nextRoleId := nextRoleId + 1;
      LinkPermissions(rid, perms);
      RoleGrantsOfNewRole(old(rolePermissions), permissions, SetOf(perms), rid);
      forall r | r in old(roles) ensures Grants(r) == old(Grants(r)) {
        RoleGrantsUnchanged(old(rolePermissions), rolePermissions, old(permissions), permissions, r);
      }
    }

    /**
     * The loop of `CreateRoleIfNotExists`: for each name in `perms`, looks up
     * or creates the permission and links it to the role `rid`.
     */
    method LinkPermissions(rid: int, perms: seq<string>)
      requires Valid() && rid in roles
      modifies this`permissions, this`nextPermissionId, this`rolePermissions
      ensures Valid()
      ensures forall id :: id in old(permissions) ==> id in permissions && permissions[id] == old(permissions)[id]
      ensures Names(permissions) == Names(old(permissions)) + SetOf(perms)
      ensures rolePermissions == old(rolePermissions) + Links(rid, IdsNamed(permissions, SetOf(perms)))
      ensures Allocated(old(permissions), old(nextPermissionId), permissions, nextPermissionId)
    {
      assert SetOf(perms[..0]) == {};
      assert Links(rid, IdsNamed(permissions, {})) == {};
      for i := 0 to |perms|
        invariant Valid()
        invariant forall id :: id in old(permissions) ==> id in permissions && permissions[id] == old(permissions)[id]
        invariant Names(permissions) == Names(old(permissions)) + SetOf(perms[..i])
        invariant rolePermissions == old(rolePermissions) + Links(rid, IdsNamed(permissions, SetOf(perms[..i])))
        invariant Allocated(old(permissions), old(nextPermissionId), permissions, nextPermissionId)
      {
        ghost var before, nextBefore := permissions, nextPermissionId;
        var pid := GetOrCreatePermission(perms[i]);
        AllocatedTrans(old(permissions), old(nextPermissionId), before, nextBefore, permissions, nextPermissionId);
        AssignPermissionToRole(rid, pid);
        LinkStep(old(permissions), before, permissions, old(rolePermissions), rolePermissions, rid, perms, i, pid);
      }
      assert perms[..|perms|] == perms;
    }

    /**
     * Plain INSERT of the row (userId, roleId): rejected when the row exists
     * (primary key) or when the user or the role does not (foreign keys).
     */
    method AssignRoleToUser(userId: int, roleId: int) returns (result: AssignResult)
      requires Valid()
      modifies this`userRoles
      ensures Valid()
      ensures result == Assigned <==> userId in users && roleId in roles && (userId, roleId) !in old(userRoles)
      ensures result == AssignFailed(DuplicateAssignment) <==> (userId, roleId) in old(userRoles)
      ensures userRoles == if result == Assigned then old(userRoles) + {(userId, roleId)} else old(userRoles)
    {
      if (userId, roleId) in userRoles {
        return AssignFailed(DuplicateAssignment);
      }
      if userId !in users || roleId !in roles {
        return AssignFailed(MissingReference);
      }
      userRoles := userRoles + {(userId, roleId)};
      result := Assigned;
    }

    /** Appends one entry to the audit log; earlier entries are never touched. */
    method LogAction(userId: Option<int>, action: string)
      requires Valid()
      requires userId.Some? ==> userId.value in users
      modifies this`auditLog
      ensures Valid()
      ensures auditLog == old(auditLog) + [AuditEntry(userId, action)]
    {
      auditLog := auditLog + [AuditEntry(userId, action)];
    }

    /**
     * Creating a user without the console and the audit entry: the role must
     * exist, the INSERT into `users` must respect the UNIQUE username, and the
     * new user gets the role.
     */
    method InsertUserWithRole(form: NewUserForm) returns (result: CreateUserResult)
      requires Valid()
      modifies this`users, this`nextUserId, this`userRoles
      ensures Valid()
      ensures result == CreateOutcome(old(Snap()), form)
      ensures UserInserted(old(Snap()), form)
    {
      var roleFound := RoleExists(form.roleName);
      if !roleFound {
        return InvalidRole;
      }
      if form.username in Usernames(users) {
        return DuplicateUsername;
      }
      var userId := nextUserId;
      users := users[userId := UserRow(form.username, form.passwordHash, form.fullName)];
      nextUserId := nextUserId + 1;
      var roleId := GetRoleId(form.roleName);
      var linkResult := AssignRoleToUser(userId, roleId);
      result := Created(userId);
    }

    /** The create-user menu action: `InsertUserWithRole`, then the audit entry on success. */
    method CreateUser(form: NewUserForm) returns (result: CreateUserResult)
      requires Valid() && currentUser.Some?
      modifies this`users, this`nextUserId, this`userRoles, this`auditLog
      ensures Valid()
      ensures result == CreateOutcome(old(Snap()), form)
      ensures UserCreated(old(Snap()), form)
    {
      result := InsertUserWithRole(form);
      if result.Created? {
        LogAction(Some(currentUser.value.id), "USER_CREATE: " + form.username);
      }
    }

    /** The effective permission names of user `uid`, accumulated row by row into a set. */
    method GetUserPermissions(uid: int) returns (perms: set<string>)
      ensures perms == EffectivePermissions(uid)
    {
      perms := {};
      var rows := rolePermissions;
      while rows != {}
        invariant rows <= rolePermissions
        invariant perms == Effective(userRoles, rolePermissions - rows, roles, permissions, uid)
        decreases rows
      {
        var rp :| rp in rows;
        EffectiveAfterAddRow(userRoles, rolePermissions - rows, roles, permissions, uid, rp);
        if (uid, rp.0) in userRoles && rp.0 in roles && rp.1 in permissions {
          perms := perms + {permissions[rp.1]};
        }
        assert rolePermissions - (rows - {rp}) == (rolePermissions - rows) + {rp};
        rows := rows - {rp};
      }
      assert rolePermissions - rows == rolePermissions;
    }

    /**
     * Looks `username` up; an unknown name changes nothing. A password
     * `checkpw` rejects records a failure without a user id; an accepted one
     * makes the user the session's user and records the success.
     */
    method Login(username: string, password: string, checkpw: (string, string) -> bool) returns (result: LoginResult)
      requires Valid()
      modifies this`currentUser, this`auditLog
      ensures Valid()
      ensures username !in Usernames(users) ==> result == UserNotFound && unchanged(this)
      ensures username in Usernames(users) ==>
                var id := UserIdOf(users, username);
                if checkpw(password, users[id].passwordHash) then
                  && result == LoggedIn(SessionUser(id, username, users[id].fullName))
                  && currentUser == Some(result.user)
                  && auditLog == old(auditLog) + [AuditEntry(Some(id), "LOGIN_SUCCESS")]
                else
                  && result == InvalidCredentials
                  && currentUser == old(currentUser)
                  && auditLog == old(auditLog) + [AuditEntry(None, "LOGIN_FAILURE: " + username)]
    {
      if username !in Usernames(users) {
        return UserNotFound;
      }
      var id :| id in users && users[id].username == username;
      var row := users[id];
      if checkpw(password, row.passwordHash) {
        currentUser := Some(SessionUser(id, row.username, row.fullName));
        LogAction(Some(id), "LOGIN_SUCCESS");
        result := LoggedIn(currentUser.value);
      } else {
        LogAction(None, "LOGIN_FAILURE: " + username);
        result := InvalidCredentials;
      }
    }

    /** Runs the action the chosen menu entry is guarded by. */
    method ExecuteMenuAction(permission: string, form: NewUserForm)
      requires Valid() && currentUser.Some?
      modifies this`users, this`nextUserId, this`userRoles, this`auditLog
      ensures Valid()
      ensures ActionPerformed(old(Snap()), permission, form)
    {
      match permission {
        case "USER_CREATE" =>
          var _ := CreateUser(form);
        case "DATA_EDIT" =>
          LogAction(Some(currentUser.value.id), "DATA_EDIT");
        case _ =>
      }
    }

    /**
     * One round of the dashboard: builds the menu from the session user's
     * permissions and acts on entry `choice` (counted from 1). Logout records
     * "LOGOUT" and ends the session; any other entry runs its action, which
     * the user is therefore permitted; a choice outside the menu does nothing.
     */
    method ShowRoleBasedMenu(choice: int, form: NewUserForm) returns (options: seq<MenuOption>)
      requires Valid() && currentUser.Some?
      modifies this`users, this`nextUserId, this`userRoles, this`auditLog, this`currentUser
      ensures Valid()
      ensures options == MenuFor(old(EffectivePermissions(currentUser.value.id)))
      ensures !(0 < choice <= |options|) ==> unchanged(this)
      ensures 0 < choice <= |options| && options[choice - 1].permission == "LOGOUT" ==>
                && auditLog == old(auditLog) + [AuditEntry(Some(old(currentUser).value.id), "LOGOUT")]
                && currentUser == None
                && users == old(users) && nextUserId == old(nextUserId) && userRoles == old(userRoles)
      ensures 0 < choice <= |options| && options[choice - 1].permission != "LOGOUT" ==>
                && options[choice - 1].permission in old(EffectivePermissions(currentUser.value.id))
                && ActionPerformed(old(Snap()), options[choice - 1].permission, form)
    {
      var user := currentUser.value;
      var perms := GetUserPermissions(user.id);
      options := BuildMenu(perms);
      assert perms == old(EffectivePermissions(currentUser.value.id));
      if 0 < choice <= |options| {
        var selected := options[choice - 1];
        if selected.permission == "LOGOUT" {
          Logout();
        } else {
          assert choice - 1 < |Filter(Catalog, perms)|;
          assert selected == Filter(Catalog, perms)[choice - 1];
          ExecuteMenuAction(selected.permission, form);
        }
      }
    }

    /** Ends the session: logs "LOGOUT" for the session's user, then forgets that user. */
    method Logout()
      requires Valid() && currentUser.Some?
      modifies this`auditLog, this`currentUser
      ensures Valid()
      ensures auditLog == old(auditLog) + [AuditEntry(Some(old(currentUser).value.id), "LOGOUT")]
      ensures currentUser == None
    {
      LogAction(Some(currentUser.value.id), "LOGOUT");
      currentUser := None;
    }

    /**
     * Seeds the default roles Admin, Editor and Viewer with their permissions,
     * then the administrator account with the Admin role if no user "admin"
     * exists. Each step re-checks existence, so running it again changes
     * nothing.
     */
    method InsertDefaultData(adminHash: string)
      requires Valid()
      modifies this`users, this`nextUserId, this`roles, this`nextRoleId, this`permissions,
               this`nextPermissionId, this`rolePermissions, this`userRoles
      ensures Valid() && Bootstrapped()
      ensures old(Bootstrapped()) ==>
                && users == old(users) && nextUserId == old(nextUserId) && userRoles == old(userRoles)
                && roles == old(roles) && nextRoleId == old(nextRoleId)
                && permissions == old(permissions) && nextPermissionId == old(nextPermissionId)
                && rolePermissions == old(rolePermissions)
      ensures old(Fresh()) ==> DefaultState(adminHash)
      ensures RolesSeeded(old(roles), old(rolePermissions), old(permissions), roles, rolePermissions, permissions)
      ensures old("admin" in Usernames(users)) ==>
                users == old(users) && nextUserId == old(nextUserId) && userRoles == old(userRoles)
      ensures old("admin" !in Usernames(users)) ==>
                && users == old(users)[old(nextUserId) := UserRow("admin", adminHash, "System Administrator")]
                && nextUserId == old(nextUserId) + 1
                && userRoles == old(userRoles) + {(old(nextUserId), IdOf(roles, "Admin"))}
      ensures PermissionsSeeded(old(permissions), old(nextPermissionId), permissions, nextPermissionId)
      ensures Allocated(old(roles), old(nextRoleId), roles, nextRoleId)
      ensures old("Admin" in Names(roles) && "Editor" in Names(roles) && "Viewer" in Names(roles)) ==>
                && roles == old(roles) && nextRoleId == old(nextRoleId)
                && permissions == old(permissions) && nextPermissionId == old(nextPermissionId)
                && rolePermissions == old(rolePermissions)
    {
      SeedDefaultRoles();
      ghost var editor, viewer := Grants(2), Grants(3);
      SeedAdminUser(adminHash);
      if old(Fresh()) {
        assert Names(old(roles)) == {};
        assert Grants(2) == editor && Grants(3) == viewer;
        FreshAdminPermissions(roles, rolePermissions, permissions, userRoles);
      }
    }

    /** The first stage of `InsertDefaultData`: the three default roles. */
    method SeedDefaultRoles()
      requires Valid()
      modifies this`roles, this`nextRoleId, this`permissions, this`nextPermissionId, this`rolePermissions
      ensures Valid()
      ensures "Admin" in Names(roles) && "Editor" in Names(roles) && "Viewer" in Names(roles)
      ensures old("Admin" in Names(roles) && "Editor" in Names(roles) && "Viewer" in Names(roles)) ==>
                && roles == old(roles) && nextRoleId == old(nextRoleId)
                && permissions == old(permissions) && nextPermissionId == old(nextPermissionId)
                && rolePermissions == old(rolePermissions)
      ensures old(Fresh()) ==>
                && roles == map[1 := "Admin", 2 := "Editor", 3 := "Viewer"]
                && Names(permissions) == SetOf(AdminPermissions)
                && Grants(1) == SetOf(AdminPermissions)
                && Grants(2) == SetOf(EditorPermissions)
                && Grants(3) == SetOf(ViewerPermissions)
                && nextRoleId == 4 && nextPermissionId == 11
      ensures RolesSeeded(old(roles), old(rolePermissions), old(permissions), roles, rolePermissions, permissions)
      ensures PermissionsSeeded(old(permissions), old(nextPermissionId), permissions, nextPermissionId)
      ensures Allocated(old(roles), old(nextRoleId), roles, nextRoleId)
    {
      ghost var wasFresh := Fresh();
      ghost var roles0, grants0 := roles, GrantsByRole(roles, rolePermissions, permissions);
      SeedRole("Admin", AdminPermissions, roles0, grants0);
      ghost var roles1, next1, names1 := roles, nextRoleId, Names(permissions);
      ghost var perms1, nextPerm1 := permissions, nextPermissionId;
      SeedRole("Editor", EditorPermissions, roles0, grants0);
      ghost var roles2, next2, names2 := roles, nextRoleId, Names(permissions);
      PermissionsSeededTrans(old(permissions), old(nextPermissionId), perms1, nextPerm1, permissions, nextPermissionId);
      ghost var perms2, nextPerm2 := permissions, nextPermissionId;
      SeedRole("Viewer", ViewerPermissions, roles0, grants0);
      PermissionsSeededTrans(old(permissions), old(nextPermissionId), perms2, nextPerm2, permissions, nextPermissionId);
      SeedingAllocatesRoles(old(roles), old(nextRoleId), Names(old(permissions)), roles1, next1, names1,
                            roles2, next2, names2, roles, nextRoleId, Names(permissions));
      if wasFresh {
        assert Names(old(permissions)) == {};
        FreshSeeding(roles1, next1, names1, roles2, next2, names2, roles, nextRoleId, Names(permissions));
        FreshGrants(roles, GrantsByRole(roles, rolePermissions, permissions));
        FreshPermissionCounter(permissions, nextPermissionId);
      }
    }

    /**
     * One step of `SeedDefaultRoles`: `createRoleIfNotExists` for the default
     * role `name`, keeping what the earlier steps established since the
     * roles `before` with linked names `grants`.
     */
    method SeedRole(name: string, perms: seq<string>, ghost before: map<int, string>, ghost grants: map<int, set<string>>)
      requires Valid() && name in DefaultRoles && SetOf(perms) == DefaultGrants(name)
      requires RolesKept(before, grants, roles, GrantsByRole(roles, rolePermissions, permissions)) && NewRolesDefault(before, roles, GrantsByRole(roles, rolePermissions, permissions))
      modifies this`roles, this`nextRoleId, this`permissions, this`nextPermissionId, this`rolePermissions
      ensures Valid()
      ensures RolesKept(before, grants, roles, GrantsByRole(roles, rolePermissions, permissions)) && NewRolesDefault(before, roles, GrantsByRole(roles, rolePermissions, permissions))
      ensures Names(roles) == Names(old(roles)) + {name}
      ensures name in Names(old(roles)) ==>
                && roles == old(roles) && nextRoleId == old(nextRoleId)
                && permissions == old(permissions) && nextPermissionId == old(nextPermissionId)
                && rolePermissions == old(rolePermissions)
      ensures SeedStep(name, perms, old(roles), old(nextRoleId), old(Names(permissions)), roles, nextRoleId, Names(permissions))
      ensures PermissionsSeeded(old(permissions), old(nextPermissionId), permissions, nextPermissionId)
    {
      ghost var rolesA, tableA := roles, GrantsByRole(roles, rolePermissions, permissions);
      CreateRoleIfNotExists(name, perms);
      SeedStepKeeps(name, perms, before, grants, rolesA, tableA, roles, GrantsByRole(roles, rolePermissions, permissions));
    }

    /** The second stage of `InsertDefaultData`: the administrator account, unless a user "admin" exists. */
    method SeedAdminUser(adminHash: string)
      requires Valid() && "Admin" in Names(roles)
      modifies this`users, this`nextUserId, this`userRoles
      ensures Valid()
      ensures "admin" in Usernames(users)
      ensures old("admin" in Usernames(users)) ==>
                users == old(users) && nextUserId == old(nextUserId) && userRoles == old(userRoles)
      ensures old("admin" !in Usernames(users)) ==>
                && users == old(users)[old(nextUserId) := UserRow("admin", adminHash, "System Administrator")]
                && nextUserId == old(nextUserId) + 1
                && userRoles == old(userRoles) + {(old(nextUserId), IdOf(roles, "Admin"))}
    {
      var adminFound := UserExists("admin");
      if !adminFound {
        var _ := InsertUserWithRole(AdminForm(adminHash));
      }
    }
  }
}
