# RBAC console system — a verified model of its core

The system is a console program for role-based access control backed by a
MySQL database. It has five tables:

- `users`, `roles` and `permissions`, each keyed by an AUTO_INCREMENT id, with UNIQUE names;
- two association tables, `user_roles` and `role_permissions`;
- an `audit_logs` table recording what users do.

At start-up the program seeds three default roles: Admin, Editor and Viewer. Each gets a fixed list of permission names. It also seeds an `admin` account. Once a user logs in, they see a dashboard menu with one entry for each of the five menu permissions (DASHBOARD_VIEW, USER_READ, USER_CREATE, ROLE_READ, DATA_EDIT) that they hold through their roles, followed by Logout. Other permissions they hold, such as USER_DELETE, get no entry.

The model has three modules:

- `Schema` (`schema.dfy`): the rows as values, and the relational queries as pure functions on table values.
  - An id-keyed table is a `map` from id to row.
  - An association table is a `set` of id pairs, whose whole pair is the primary key.
  - The join behind `getUserPermissions` is `Effective`.
  - The lemmas here relate that join to each role's links, and show how it changes when a row is added.
- `Menu` (`menu.dfy`): the menu catalog, the filtering that builds a user's menu, and its shape.
- `Rbac` (`rbac_system.dfy`): the class `RbacSystem`.
  - Fields:
    - one per table;
    - the AUTO_INCREMENT counters;
    - the audit log as a sequence;
    - the session's current user.
  - Methods:
    - one per operation of the program;
    - each updates the fields in place;
    - each keeps the schema invariant `Valid()` (ids below their counters, UNIQUE names, foreign keys, and a session user that is a real row).
  - Contracts give each method's new state in terms of the old state.

External inputs become parameters:

- Console input becomes parameters: a menu choice, and a `NewUserForm` for the create-user prompts.
- Password hashing is computed outside the model. A stored hash is an opaque string.
- Password checking is a function parameter, `checkpw`.

## Model

| member | source | states |
|---|---|---|
| Schema.EffectiveIsUnionOfRoleGrants | RBACSystem.java:374-391 | a name is in a user's permission set exactly when some role the user holds, and that still exists, links a permission carrying that name |
| Schema.EffectiveWithoutRoles | RBACSystem.java:374-391 | a user with no `user_roles` row has the empty permission set |
| Schema.EffectiveWithinPermissions | RBACSystem.java:374-391 | every effective permission is the name of a row of `permissions` |
| Schema.EffectiveOfSingleRole | RBACSystem.java:374-391 | a user holding exactly one role has exactly that role's linked names |
| Schema.EffectiveAfterAssignRole | RBACSystem.java:406-413 | adding a `user_roles` row (u, r) adds r's linked names to u's permission set and changes no other user's set |
| Schema.EffectiveAfterAddRow | RBACSystem.java:385-387 | the result grows by one row's permission name exactly when that row joins with the user's roles, and is otherwise unchanged |
| Schema.RoleGrantsUnchanged | RBACSystem.java:114-132 | a role whose `role_permissions` rows are unchanged, over a `permissions` table that only grew, keeps its linked names |
| Schema.RoleGrantsOfNewRole | RBACSystem.java:121-128 | linking a role that had no rows to the ids of the given names gives it exactly those names |
| Schema.NamesAfterInsert | RBACSystem.java:144-154 | inserting a row under an unused id adds exactly its name to the name column |
| Schema.IdsNamedAfterLookup | RBACSystem.java:134-157 | whether the permission name was found or inserted, the ids carrying the linked names grow by exactly the returned id |
| Schema.LinkStep | RBACSystem.java:124-127 | one loop iteration (look up or create, then link) extends the linked names by the current list element and the rows by its link |
| Schema.AllocatedTrans | RBACSystem.java:144-154 | two AUTO_INCREMENT insert phases in a row, the second keeping the rows of the first, allocate exactly the ids from the first counter up to the last one |
| Schema.NamesOfIdRange | RBACSystem.java:65-67 | a table with UNIQUE names whose ids are exactly lo up to hi holds hi - lo distinct names |
| Schema.CounterAfterFill | RBACSystem.java:65-67 | a table filled by AUTO_INCREMENT inserts from empty, with UNIQUE names and ids below its counter, has a counter one past its number of names |
| Menu.Filter | RBACSystem.java:227-241 | the filtered menu is no longer than the catalog, and each of its entries is a catalog entry whose permission is held |
| Menu.FilterMembership | RBACSystem.java:227-241 | an entry is listed if and only if it is in the catalog and its permission is held |
| Menu.FilterKeepsOrder | RBACSystem.java:227-241 | the listed entries keep the catalog's order |
| Menu.MenuShape | RBACSystem.java:225-242 | the menu has between 1 and 6 entries; Logout is last; before it come exactly the held catalog entries, in catalog order, none guarded by "LOGOUT" |
| Menu.ViewerMenu | RBACSystem.java:105-106 | the Viewer permission set shows "View Dashboard" and "Logout" only |
| Menu.BuildMenu | RBACSystem.java:225-242 | the five guarded appends followed by Logout build exactly `MenuFor(perms)` |
| Rbac.DefaultPermissionsNested | RBACSystem.java:97-106 | Viewer's default permissions are among Editor's, and Editor's are among Admin's |
| Rbac.RbacSystem.constructor | RBACSystem.java:55-88 | the freshly created tables are empty, every counter is 1, and the schema invariant holds |
| Rbac.RbacSystem.RoleExists | RBACSystem.java:168-176 | true exactly when some role row carries the name |
| Rbac.RbacSystem.UserExists | RBACSystem.java:178-186 | true exactly when some user row carries the username |
| Rbac.RbacSystem.GetRoleId | RBACSystem.java:393-404 | returns -1 exactly when no role carries the name; otherwise the id of the one role that does |
| Rbac.RbacSystem.GetOrCreatePermission | RBACSystem.java:134-157 | returns the id carrying the name, unique in the table. An existing name changes nothing. A new name is inserted under the next counter value, which advances by one; old rows are kept. The counter never decreases, and every row added has an id from the old counter on |
| Rbac.RbacSystem.AssignPermissionToRole | RBACSystem.java:159-166 | INSERT IGNORE: the row is added when both referenced rows exist, and otherwise nothing changes |
| Rbac.RbacSystem.CreateRoleIfNotExists | RBACSystem.java:114-132 | an existing role name changes nothing. Otherwise exactly one role row appears under the next id, its linked names equal the given list's names, and the permission names grow by exactly those names. Every earlier role keeps its linked names. The permission counter never decreases, the added permission rows take ids from the old counter on, and every id from the old counter up to the new one is a row |
| Rbac.RbacSystem.LinkPermissions | RBACSystem.java:124-127 | after the loop, the role is linked to the ids of exactly the listed names; existing permission rows are kept and missing ones added. The permission counter never decreases, and the added rows take exactly the ids from the old counter up to the new one |
| Rbac.RbacSystem.AssignRoleToUser | RBACSystem.java:406-413 | plain INSERT: it succeeds and adds the row exactly when the pair is new and both ids exist. A duplicate pair, or a missing user or role, is rejected with no change |
| Rbac.RbacSystem.LogAction | RBACSystem.java:415-430 | the log grows by exactly one entry (user id or none, and action); earlier entries are untouched |
| Rbac.RbacSystem.InsertUserWithRole | RBACSystem.java:325-344 | an unknown role, or a taken username, changes nothing. Otherwise exactly one user row is added under the next id, with exactly one `user_roles` row linking it to the named role |
| Rbac.RbacSystem.CreateUser | RBACSystem.java:314-351 | `InsertUserWithRole`'s effect; on success the session user also records "USER_CREATE: <username>"; the session is unchanged |
| Rbac.RbacSystem.GetUserPermissions | RBACSystem.java:374-391 | the set accumulated row by row equals the join `EffectivePermissions(uid)`, and no table changes |
| Rbac.RbacSystem.Login | RBACSystem.java:188-216 | an unknown username changes nothing. A rejected password appends "LOGIN_FAILURE: <username>" with no user id and leaves the session as it was. An accepted password makes that user the session user and appends "LOGIN_SUCCESS" with their id |
| Rbac.RbacSystem.ExecuteMenuAction | RBACSystem.java:266-295 | USER_CREATE creates the user as `CreateUser` does; DATA_EDIT appends one "DATA_EDIT" entry by the session user; every other permission changes nothing |
| Rbac.RbacSystem.ShowRoleBasedMenu | RBACSystem.java:218-263 | the menu shown is `MenuFor` of the session user's permission set. A choice outside it changes nothing. Logout logs "LOGOUT" and ends the session. Any other entry's permission is held by the user, and its action is performed |
| Rbac.RbacSystem.Logout | RBACSystem.java:255-257 | appends "LOGOUT" by the session user, then clears the session |
| Rbac.RbacSystem.InsertDefaultData | RBACSystem.java:95-112 | afterwards the three default roles and `admin` exist. A second run changes nothing. On any store, every earlier role keeps its id, name and linked names, and every role added is a default role linked to exactly its listed names. An existing `admin` leaves the user tables as they were. A missing `admin` is inserted under the next user id with the Admin role, also when a rerun finds the roles already there. Existing `permissions` rows keep their ids and names, and the only permission names added are listed ones. When all three roles already exist, the role and permission tables and their counters are unchanged. Role and permission counters never decrease, and added roles and permissions take exactly the ids from the old counter up to the new one. On a fresh store it yields roles 1-3 with next role id 4, the ten listed permission names under ids 1-10 with next permission id 11, their links, user 1 `admin` holding role 1 with next user id 2, and an `admin` permission set equal to all ten names |
| Rbac.RbacSystem.SeedDefaultRoles | RBACSystem.java:96-106 | the three roles exist afterwards; nothing changes if they already did. Every earlier role keeps its id, name and linked names; every role added is a default role linked to exactly its listed names. Existing `permissions` rows keep their ids and names, and the only permission names added are listed ones. Role and permission counters never decrease, and added roles and permissions take exactly the ids from the old counter up to the new one. On a fresh store the roles get ids 1, 2 and 3 with their listed names and links, the next role id is 4, and the ten permission names fill ids 1-10 with next permission id 11 |
| Rbac.RbacSystem.SeedRole | RBACSystem.java:96-106 | one `createRoleIfNotExists` call of the bootstrap: the role names grow by exactly the given name; an existing name changes nothing; a new one takes the next role id. Earlier roles keep their linked names, and added roles carry their default names. Existing `permissions` rows keep their ids and names, and the only permission names added are listed ones. The permission counter never decreases, and added permission rows take exactly the ids from the old counter up to the new one |
| Rbac.SeedStepKeeps | RBACSystem.java:114-132 | a `createRoleIfNotExists` step that keeps every earlier role and adds only the given default role with its listed names preserves "earlier roles kept, added roles default" |
| Rbac.FreshSeeding | RBACSystem.java:96-106 | the three seeding steps, starting from empty tables, give roles 1 Admin, 2 Editor, 3 Viewer, next role id 4, and exactly the ten Admin names as permission names |
| Rbac.AdminPermissionsCount | RBACSystem.java:97-100 | the Admin list names ten distinct permissions |
| Rbac.PermissionsSeededTrans | RBACSystem.java:96-106 | two seeding steps in a row that each keep existing permission rows, add only listed names and allocate ids from their counter compose into one such step |
| Rbac.SeedingAllocatesRoles | RBACSystem.java:96-106 | the three `createRoleIfNotExists` steps together add roles only under ids from the old role counter on, and every id up to the new counter is a role |
| Rbac.FreshPermissionCounter | RBACSystem.java:96-106 | after seeding a fresh store, whose permission names are exactly the ten Admin names, the permission counter is 11 |
| Rbac.FreshGrants | RBACSystem.java:96-106 | when all three roles are new, roles 1, 2 and 3 are linked to exactly the Admin, Editor and Viewer lists |
| Rbac.FreshAdminPermissions | RBACSystem.java:108-111 | on a freshly seeded store the administrator, user 1, holds exactly role 1 and so exactly the ten Admin permissions |
| Rbac.RbacSystem.SeedAdminUser | RBACSystem.java:108-111 | `admin` exists afterwards; nothing changes if it already did. Otherwise exactly one user row `admin` with the given hash and "System Administrator" is added under the next user id, the counter advances by one, and exactly one `user_roles` row links it to the Admin role |

## Left out

- JDBC, the connection, `main`'s loop, console input and all printing are not modelled. Console input becomes parameters; prepared statements become direct updates of the table fields.
- `viewUsers` and `viewRoles` only print query results. Like the dashboard's welcome text, they are modelled as actions that change nothing.
- Password hashing is not modelled. The hash is passed in with `NewUserForm` and `InsertDefaultData`, and checking is the `checkpw` parameter of `Login`. The bootstrap's plain-text "admin123" therefore appears only as a hash parameter.
- Rbac.RbacSystem.InsertDefaultData: the source calls a four-argument `createUser(username, password, fullName, roleName)` that `RBACSystem.java` does not define. It is modelled as the non-console part of `createUser`: role check, INSERT into `users`, `getRoleId`, `assignRoleToUser`. No audit entry is written, since no session user exists at start-up.
- Timestamps on `audit_logs` are not modelled. An entry's position in the log stands for its AUTO_INCREMENT id.
- `ON DELETE CASCADE` is not modelled, because no operation of the program deletes rows.
- Concurrency is not modelled: the program runs one session on one connection.
- Counters and ids are unbounded integers. The 32-bit `INT` limit of AUTO_INCREMENT and the `VARCHAR` length limits are not modelled.
- Names are compared exactly. MySQL's default collation compares them case-insensitively and, depending on the version, ignores trailing spaces or accents.
- Rbac.RbacSystem.CreateUser: in the source, a duplicate username makes the INSERT throw an SQLException that ends the program. The model returns `DuplicateUsername` and changes nothing. On InnoDB the failed INSERT still uses up an AUTO_INCREMENT value; the model's `nextUserId` stays the same, so later ids in the model can be lower than in the database.
- Rbac.RbacSystem.AssignRoleToUser: the source uses a plain INSERT (RBACSystem.java:406-413). A duplicate pair or a missing row makes it throw an SQLException. Nothing catches it before `main` (RBACSystem.java:47-48), so the program ends. The model returns `AssignFailed` and changes nothing, and does not model the program ending.
- Rbac.RbacSystem.LogAction: the source inserts the login-failure row with no `user_id` (RBACSystem.java:417-418), but the column is declared `NOT NULL` with a foreign key to `users(id)` (RBACSystem.java:85, 88). MySQL rejects that insert in every SQL mode. In strict mode the missing value is an error. Otherwise the column gets the implicit default 0, which no user row has, so the foreign key check fails. The SQLException thrown from `login` (RBACSystem.java:209) reaches `main`'s catch (RBACSystem.java:47-48), and the program ends without any audit row. The model does not model that: it records the entry as the code writes it, with no user id, and the session continues.
- Rbac.RbacSystem.Login: the audit text follows the code, "LOGIN_FAILURE: <username>" with a space. An unknown username and a wrong password are told apart as the code does: only the wrong password is logged.
- Rbac.RbacSystem.GetOrCreatePermission: the `-1` return for a missing generated key cannot happen in the model, since every insert yields the next counter value.
- Rbac.RbacSystem.ShowRoleBasedMenu: `scanner.nextInt()` throwing on non-numeric input is not modelled; the choice is an integer parameter.
