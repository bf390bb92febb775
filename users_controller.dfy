/** The user and role handlers of `backend/src/controllers/users.controller.js`
    over the account tables: create a user, the partial update with its
    gestor guards and role replacement, the soft delete that revokes the
    user's refresh tokens, and role creation. Each transaction works on a
    local copy and is written back only when it would commit. The user view
    a handler answers with is represented by the user id. `bcrypt` stands
    for `hashPassword`. */
module UsersController {
  import opened Common
  import opened Responses
  import opened Store
  import opened Roles
  import opened PasswordPolicy
  import ErrorMiddleware
  import AuthController

  const TAKEN := "Username o DNI ya en uso"
  const GESTOR_ON_ADMIN := "No tienes permiso para modificar un administrador"
  const GESTOR_GRANTS_ADMIN := "No tienes permiso para asignar el rol de administrador"
  const SELF_DELETE := "No puedes eliminar tu propia cuenta"
  const ROLE_EXISTS := "Ya existe un rol con ese nombre"

  // ---------------------------------------------------------------------
  // Roles of a user
  // ---------------------------------------------------------------------

  /** A role of that name is in the `roles` table. */
  predicate RoleExists(roles: seq<Role>, n: string) {
    exists k :: 0 <= k < |roles| && roles[k].nombre == n
  }

  /** `SELECT id FROM roles WHERE nombre IN (...)`: the ids of the roles
      named, in table order. */
  function MatchingRoleIds(roles: seq<Role>, names: seq<string>): (ids: seq<int>)
    ensures |ids| <= |roles|
  {
    if roles == [] then []
    else
      var init := roles[..|roles| - 1];
      MatchingRoleIds(init, names) + (if roles[|roles| - 1].nombre in names then [|roles|] else [])
  }

  /** An id is selected exactly when it is a role whose name is asked for. */
  lemma {:induction false} MatchingRoleIdsMembers(roles: seq<Role>, names: seq<string>, i: int)
    ensures i in MatchingRoleIds(roles, names) <==> 1 <= i <= |roles| && roles[i - 1].nombre in names
    decreases |roles|
  {
    if roles != [] {
      var init := roles[..|roles| - 1];
      var last := roles[|roles| - 1];
      var tail := if last.nombre in names then [|roles|] else [];
      assert MatchingRoleIds(roles, names) == MatchingRoleIds(init, names) + tail;
      MatchingRoleIdsMembers(init, names, i);
      if i == |roles| {
        assert i !in MatchingRoleIds(init, names);
        assert i in tail <==> last.nombre in names;
      } else {
        assert i !in tail;
        if 1 <= i <= |init| {
          assert init[i - 1] == roles[i - 1];
        }
      }
    }
  }

  /** The `user_roles` rows inserted for `ids`, assigned by `grantor`. */
  function Grants(ids: seq<int>, userId: int, grantor: int): (rows: seq<UserRole>)
    ensures |rows| == |ids|
    ensures forall k :: 0 <= k < |ids| ==> rows[k] == UserRole(userId, ids[k], Some(grantor))
  {
    seq(|ids|, k requires 0 <= k < |ids| => UserRole(userId, ids[k], Some(grantor)))
  }

  /** `DELETE FROM user_roles WHERE user_id = ?`. */
  function Unlink(rows: seq<UserRole>, userId: int): (r: seq<UserRole>)
    ensures forall x :: x in r <==> x in rows && x.userId != userId
  {
    if rows == [] then []
    else
      var init := rows[..|rows| - 1];
      var last := rows[|rows| - 1];
      assert rows == init + [last];
      Unlink(init, userId) + (if last.userId == userId then [] else [last])
  }

  /** A user's role names over two runs of rows are the names over each. */
  lemma {:induction false} RoleNamesAppend(roles: seq<Role>, a: seq<UserRole>, b: seq<UserRole>, userId: int)
    ensures RoleNames(roles, a + b, userId) == RoleNames(roles, a, userId) + RoleNames(roles, b, userId)
    decreases |b|
  {
    if b == [] {
      assert a + b == a;
    } else {
      var init := b[..|b| - 1];
      var all := a + b;
      var last := LastName(roles, b[|b| - 1], userId);
      assert all[..|all| - 1] == a + init;
      assert all[|all| - 1] == b[|b| - 1];
      RoleNamesLast(roles, all, userId);
      RoleNamesLast(roles, b, userId);
      RoleNamesAppend(roles, a, init, userId);
      assert RoleNames(roles, a, userId) + RoleNames(roles, init, userId) + last
             == RoleNames(roles, a, userId) + (RoleNames(roles, init, userId) + last);
    }
  }

  /** Rows of other users contribute no names. */
  lemma {:induction false} RoleNamesNone(roles: seq<Role>, rows: seq<UserRole>, userId: int)
    requires forall x :: x in rows ==> x.userId != userId
    ensures RoleNames(roles, rows, userId) == []
    decreases |rows|
  {
    if rows != [] {
      var init := rows[..|rows| - 1];
      assert rows[|rows| - 1] in rows;
      assert forall x :: x in init ==> x in rows;
      RoleNamesNone(roles, init, userId);
    }
  }

  /** One of `ids` points at a role named `n`. */
  predicate NamedBy(roles: seq<Role>, ids: seq<int>, n: string) {
    exists k :: 0 <= k < |ids| && 1 <= ids[k] <= |roles| && roles[ids[k] - 1].nombre == n
  }

  /** The names granted by `Grants` are those of the roles the ids point at. */
  lemma GrantedNames(roles: seq<Role>, ids: seq<int>, userId: int, grantor: int, n: string)
    ensures n in RoleNames(roles, Grants(ids, userId, grantor), userId) <==> NamedBy(roles, ids, n)
  {
    var g := Grants(ids, userId, grantor);
    RoleNamesMembers(roles, g, userId, n);
    if HoldsRow(roles, g, userId, n) {
      var k :| 0 <= k < |g| && g[k].userId == userId && 1 <= g[k].roleId <= |roles| && roles[g[k].roleId - 1].nombre == n;
      assert g[k].roleId == ids[k];
    }
    if NamedBy(roles, ids, n) {
      var k :| 0 <= k < |ids| && 1 <= ids[k] <= |roles| && roles[ids[k] - 1].nombre == n;
      assert g[k] == UserRole(userId, ids[k], Some(grantor));
    }
  }

  /** After the role rows of `userId` are replaced by grants of `names`, the
      user holds exactly the named roles that exist. */
  lemma RolesReplaced(roles: seq<Role>, rows: seq<UserRole>, userId: int, names: seq<string>, grantor: int)
    ensures var after := Unlink(rows, userId) + Grants(MatchingRoleIds(roles, names), userId, grantor);
            forall n :: n in RoleNames(roles, after, userId) <==> n in names && RoleExists(roles, n)
  {
    var ids := MatchingRoleIds(roles, names);
    var unlinked := Unlink(rows, userId);
    var grants := Grants(ids, userId, grantor);
    RoleNamesAppend(roles, unlinked, grants, userId);
    RoleNamesNone(roles, unlinked, userId);
    assert RoleNames(roles, unlinked + grants, userId) == RoleNames(roles, grants, userId);
    forall n ensures n in RoleNames(roles, grants, userId) <==> n in names && RoleExists(roles, n) {
      GrantedNames(roles, ids, userId, grantor, n);
      MatchingNamedBy(roles, names, n);
    }
  }

  /** The selected ids point at a role named `n` exactly when `n` is asked
      for and exists. */
  lemma MatchingNamedBy(roles: seq<Role>, names: seq<string>, n: string)
    ensures NamedBy(roles, MatchingRoleIds(roles, names), n) <==> n in names && RoleExists(roles, n)
  {
    var ids := MatchingRoleIds(roles, names);
    if n in names && RoleExists(roles, n) {
      var j :| 0 <= j < |roles| && roles[j].nombre == n;
      MatchingRoleIdsMembers(roles, names, j + 1);
      var k :| 0 <= k < |ids| && ids[k] == j + 1;
      assert 1 <= ids[k] <= |roles| && roles[ids[k] - 1].nombre == n;
    }
    if NamedBy(roles, ids, n) {
      var k :| 0 <= k < |ids| && 1 <= ids[k] <= |roles| && roles[ids[k] - 1].nombre == n;
      MatchingRoleIdsMembers(roles, names, ids[k]);
      assert ids[k] in ids;
      assert roles[ids[k] - 1].nombre in names;
    }
  }

  /** Appending rows of other users leaves a user's role names as they were. */
  lemma RoleNamesAppendOther(roles: seq<Role>, rows: seq<UserRole>, extra: seq<UserRole>, userId: int)
    requires forall x :: x in extra ==> x.userId != userId
    ensures RoleNames(roles, rows + extra, userId) == RoleNames(roles, rows, userId)
  {
    RoleNamesAppend(roles, rows, extra, userId);
    RoleNamesNone(roles, extra, userId);
    assert RoleNames(roles, rows, userId) + [] == RoleNames(roles, rows, userId);
  }

  /** `Unlink` peels off the last row. */
  lemma UnlinkLast(rows: seq<UserRole>, userId: int)
    requires rows != []
    ensures Unlink(rows, userId)
            == Unlink(rows[..|rows| - 1], userId) + (if rows[|rows| - 1].userId == userId then [] else [rows[|rows| - 1]])
  {
  }

  /** Removing another user's rows leaves a user's role names as they were. */
  lemma {:induction false} RoleNamesUnlinkOther(roles: seq<Role>, rows: seq<UserRole>, other: int, userId: int)
    requires other != userId
    ensures RoleNames(roles, Unlink(rows, other), userId) == RoleNames(roles, rows, userId)
    decreases |rows|
  {
    if rows != [] {
      var init := rows[..|rows| - 1];
      var last := rows[|rows| - 1];
      var u := Unlink(init, other);
      RoleNamesUnlinkOther(roles, init, other, userId);
      RoleNamesLast(roles, rows, userId);
      UnlinkLast(rows, other);
      if last.userId == other {
        assert u + [] == u;
        assert RoleNames(roles, init, userId) + [] == RoleNames(roles, init, userId);
      } else {
        var w := u + [last];
        assert w[..|w| - 1] == u;
        RoleNamesLast(roles, w, userId);
      }
    }
  }

  /** No names select no role. */
  lemma {:induction false} NoNamesNoIds(roles: seq<Role>)
    ensures MatchingRoleIds(roles, []) == []
  {
    if roles != [] {
      NoNamesNoIds(roles[..|roles| - 1]);
    }
  }

  /** `for (const role of roleRows)`: insert one `user_roles` row per id. */
  method GrantRoles(rows0: seq<UserRole>, ids: seq<int>, userId: int, grantor: int) returns (rows: seq<UserRole>)
    ensures rows == rows0 + Grants(ids, userId, grantor)
  {
    rows := rows0;
    var i := 0;
    while i < |ids|
      invariant 0 <= i <= |ids|
      invariant rows == rows0 + Grants(ids[..i], userId, grantor)
    {
      assert Grants(ids[..i + 1], userId, grantor) == Grants(ids[..i], userId, grantor) + [UserRole(userId, ids[i], Some(grantor))];
      rows := rows + [UserRole(userId, ids[i], Some(grantor))];
      i := i + 1;
    }
    assert ids[..i] == ids;
  }

  /** `if (roleNames.length > 0)`: look the names up, then grant each role
      found. */
  method InsertRoles(rows0: seq<UserRole>, roles: seq<Role>, names: seq<string>, userId: int, grantor: int)
    returns (rows: seq<UserRole>)
    ensures rows == rows0 + Grants(MatchingRoleIds(roles, names), userId, grantor)
  {
    rows := rows0;
    if |names| > 0 {
      rows := GrantRoles(rows, MatchingRoleIds(roles, names), userId, grantor);
    } else {
      NoNamesNoIds(roles);
      assert rows + Grants([], userId, grantor) == rows;
    }
  }

  // ---------------------------------------------------------------------
  // Create
  // ---------------------------------------------------------------------

  /** The body of `POST /users` after route validation: username, password,
      names and DNI are present; `roles` defaults to the empty list. */
  datatype NewUserReq = NewUserReq(username: string, password: string, email: Option<string>,
                                   nombre: string, apellidos: string, dni: string,
                                   direccion: Option<string>, telefono: Option<string>,
                                   roles: seq<string>)

  /** `(username = ? OR dni = ?) AND deleted_at IS NULL` finds a row. */
  predicate Taken(users: seq<User>, username: string, dni: string) {
    exists k :: 0 <= k < |users| && users[k].deletedAt.None?
                && (users[k].username == username || users[k].dni == dni)
  }

  /** No two live users share a username or a DNI. */
  predicate UniqueLogins(users: seq<User>) {
    forall i, j :: 0 <= i < j < |users| && users[i].deletedAt.None? && users[j].deletedAt.None?
                   ==> users[i].username != users[j].username && users[i].dni != users[j].dni
  }

  /** `pwErrors.map(e => ({ field: 'password', message: e }))`. */
  function PasswordItems(errors: seq<string>): (items: seq<ErrorItem>)
    ensures |items| == |errors|
    ensures forall k :: 0 <= k < |errors| ==> items[k] == FieldMessage("password", errors[k])
  {
    seq(|errors|, k requires 0 <= k < |errors| => FieldMessage("password", errors[k]))
  }

  /** The inserted `users` row: active and live. */
  function NewUser(req: NewUserReq, bcrypt: string -> string): (u: User)
    ensures u.activo && u.deletedAt.None? && u.username == req.username && u.dni == req.dni
    ensures u.passwordHash == bcrypt(req.password)
    ensures u.email.Some? <==> req.email.Some? && req.email.value != ""
  {
    User(req.username, bcrypt(req.password), OrNull(req.email), req.nombre, req.apellidos, req.dni,
         OrNull(req.direccion), OrNull(req.telefono), true, None)
  }

  method CreateUser(db: Accounts, req: NewUserReq, caller: AuthUser, bcrypt: string -> string)
    returns (r: Response<int>)
    modifies db
    ensures var s := old(db.State());
            var strength := ValidatePasswordStrength(Some(req.password));
            && (!strength.valid ==> r == ValidationError(PasswordItems(strength.errors)) && db.State() == s)
            && (strength.valid && Taken(s.users, req.username, req.dni)
                ==> r == Fail(TAKEN, 409) && db.State() == s)
            && (strength.valid && !Taken(s.users, req.username, req.dni)
                ==> var id := |s.users| + 1;
                    && r == Created(Some(id), "Usuario creado correctamente")
                    && db.State()
                       == s.(users := s.users + [NewUser(req, bcrypt)],
                             userRoles := s.userRoles + Grants(MatchingRoleIds(s.roles, req.roles), id, caller.id)))
  {
    var strength := ValidatePasswordStrength(Some(req.password));
    if !strength.valid {
      return ValidationError(PasswordItems(strength.errors));
    }
    if Taken(db.users, req.username, req.dni) {
      return Fail(TAKEN, 409);
    }
    var users := db.users + [NewUser(req, bcrypt)];
    var id := |users|;
    var rows := InsertRoles(db.userRoles, db.roles, req.roles, id, caller.id);
    db.users, db.userRoles := users, rows;
    return Created(Some(id), "Usuario creado correctamente");
  }

  /** An accepted creation keeps usernames and DNIs unique among live users,
      and the new user holds exactly the requested roles that exist, when
      no `user_roles` row pointed at the new id before. */
  lemma CreateUserKeepsUnique(s: AccountState, req: NewUserReq, grantor: int, bcrypt: string -> string)
    requires UniqueLogins(s.users) && !Taken(s.users, req.username, req.dni)
    requires forall x :: x in s.userRoles ==> x.userId != |s.users| + 1
    ensures UniqueLogins(s.users + [NewUser(req, bcrypt)])
    ensures var id := |s.users| + 1;
            forall n :: n in RoleNames(s.roles, s.userRoles + Grants(MatchingRoleIds(s.roles, req.roles), id, grantor), id)
                        <==> n in req.roles && RoleExists(s.roles, n)
  {
    var id := |s.users| + 1;
    var users := s.users + [NewUser(req, bcrypt)];
    forall i, j | 0 <= i < j < |users| && users[i].deletedAt.None? && users[j].deletedAt.None?
      ensures users[i].username != users[j].username && users[i].dni != users[j].dni
    {
      if j == |s.users| {
        assert s.users[i] == users[i];
      }
    }
    assert Unlink(s.userRoles, id) == s.userRoles by {
      UnlinkAbsent(s.userRoles, id);
    }
    RolesReplaced(s.roles, s.userRoles, id, req.roles, grantor);
  }

  /** Unlinking a user that has no rows changes nothing. */
  lemma {:induction false} UnlinkAbsent(rows: seq<UserRole>, userId: int)
    requires forall x :: x in rows ==> x.userId != userId
    ensures Unlink(rows, userId) == rows
    decreases |rows|
  {
    if rows != [] {
      var init := rows[..|rows| - 1];
      assert rows == init + [rows[|rows| - 1]];
      assert forall x :: x in init ==> x in rows;
      UnlinkAbsent(init, userId);
    }
  }

  // ---------------------------------------------------------------------
  // Update
  // ---------------------------------------------------------------------

  /** The body of `PUT /users/:id`; `None` is a key left out. */
  datatype UserPatch = UserPatch(email: Option<string>, nombre: Option<string>, apellidos: Option<string>,
                                 dni: Option<string>, direccion: Option<string>, telefono: Option<string>,
                                 activo: Option<bool>, roles: Option<seq<string>>, password: Option<string>)

  /** `caller.roles.includes(ROLES.GESTOR) && !isAdmin(caller)`. */
  predicate IsGestor(caller: AuthUser) {
    HasRole(Some(caller), GESTOR) && !IsAdmin(Some(caller))
  }

  /** `pwErrors` as the error handler lists them: bare messages. */
  function PlainItems(errors: seq<string>): (items: seq<ErrorItem>)
    ensures |items| == |errors|
    ensures forall k :: 0 <= k < |errors| ==> items[k] == Plain(errors[k])
  {
    seq(|errors|, k requires 0 <= k < |errors| => Plain(errors[k]))
  }

  /** The password an admin's update carries, when it breaks a rule. */
  predicate WeakPassword(caller: AuthUser, req: UserPatch) {
    IsAdmin(Some(caller)) && req.password.Some? && !ValidatePasswordStrength(req.password).valid
  }

  /** A nullable text field of a partial update: `value || null` when the
      key is given. */
  function PickOrNull(x: Option<string>, current: Option<string>): (r: Option<string>)
    ensures x.None? ==> r == current
    ensures x.Some? ==> (r.Some? <==> x.value != "") && (r.Some? ==> r == x)
  {
    if x.Some? then OrNull(x) else current
  }

  /** The user row after the `UPDATE users SET ...`: the supplied fields,
      with `activo` and the password only for an administrator. */
  function Patched(u: User, req: UserPatch, admin: bool, bcrypt: string -> string): (v: User)
    ensures v.username == u.username && v.deletedAt == u.deletedAt
    ensures !admin ==> v.activo == u.activo && v.passwordHash == u.passwordHash
    ensures admin && req.password.Some? ==> v.passwordHash == bcrypt(req.password.value)
  {
    var activo := if admin then req.activo else None;
    var hash := if admin && req.password.Some? then Some(bcrypt(req.password.value)) else None;
    u.(email := PickOrNull(req.email, u.email), nombre := Pick(req.nombre, u.nombre),
       apellidos := Pick(req.apellidos, u.apellidos), dni := Pick(req.dni, u.dni),
       direccion := PickOrNull(req.direccion, u.direccion), telefono := PickOrNull(req.telefono, u.telefono),
       activo := Pick(activo, u.activo), passwordHash := Pick(hash, u.passwordHash))
  }

  /** The `updates` list, field by field: `strong` is false when an
      administrator's new password breaks a rule, which aborts the update. */
  method PatchRow(u0: User, req: UserPatch, admin: bool, bcrypt: string -> string) returns (strong: bool, u: User)
    ensures strong <==> !(admin && req.password.Some? && !ValidatePasswordStrength(req.password).valid)
    ensures strong ==> u == Patched(u0, req, admin, bcrypt)
  {
    u := u0;
    u := u.(email := PickOrNull(req.email, u.email));
    u := u.(nombre := Pick(req.nombre, u.nombre));
    u := u.(apellidos := Pick(req.apellidos, u.apellidos));
    u := u.(dni := Pick(req.dni, u.dni));
    u := u.(direccion := PickOrNull(req.direccion, u.direccion));
    u := u.(telefono := PickOrNull(req.telefono, u.telefono));
    if req.activo.Some? && admin {
      u := u.(activo := req.activo.value);
    }
    if req.password.Some? && admin {
      var strength := ValidatePasswordStrength(req.password);
      if !strength.valid {
        return false, u;
      }
      u := u.(passwordHash := bcrypt(req.password.value));
    }
    return true, u;
  }

  /** The tables after a committed update of live user `id`. */
  function UserUpdated(s: AccountState, id: int, caller: AuthUser, req: UserPatch, bcrypt: string -> string)
    : (t: AccountState)
    requires LiveUser(s.users, id)
    ensures |t.users| == |s.users| && LiveUser(t.users, id)
    ensures forall k :: 0 <= k < |s.users| && k != id - 1 ==> t.users[k] == s.users[k]
    ensures t.roles == s.roles && t.refreshTokens == s.refreshTokens && t.attempts == s.attempts
    ensures req.roles.None? ==> t.userRoles == s.userRoles
  {
    var users := s.users[id - 1 := Patched(s.users[id - 1], req, IsAdmin(Some(caller)), bcrypt)];
    var rows := if req.roles.Some?
                then Unlink(s.userRoles, id) + Grants(MatchingRoleIds(s.roles, req.roles.value), id, caller.id)
                else s.userRoles;
    s.(users := users, userRoles := rows)
  }

  method UpdateUser(db: Accounts, id: int, caller: AuthUser, req: UserPatch, bcrypt: string -> string)
    returns (r: Response<int>)
    requires caller.roles.Some?
    modifies db
    ensures var s := old(db.State());
            && (!LiveUser(s.users, id) ==> r == NotFound("Usuario") && db.State() == s)
            && (LiveUser(s.users, id) && IsGestor(caller)
                && ADMINISTRADOR in RoleNames(s.roles, s.userRoles, id)
                ==> r == Forbidden(GESTOR_ON_ADMIN) && db.State() == s)
            && (LiveUser(s.users, id) && IsGestor(caller)
                && ADMINISTRADOR !in RoleNames(s.roles, s.userRoles, id)
                && req.roles.Some? && ADMINISTRADOR in req.roles.value
                ==> r == Forbidden(GESTOR_GRANTS_ADMIN) && db.State() == s)
            && (LiveUser(s.users, id) && !IsGestor(caller) && WeakPassword(caller, req)
                ==> r == ValidationError(PlainItems(ValidatePasswordStrength(req.password).errors))
                    && db.State() == s)
            && (LiveUser(s.users, id) && !WeakPassword(caller, req)
                && !(IsGestor(caller) && ADMINISTRADOR in RoleNames(s.roles, s.userRoles, id))
                && !(IsGestor(caller) && req.roles.Some? && ADMINISTRADOR in req.roles.value)
                ==> r == Success(Some(id), "Usuario actualizado", 200)
                    && db.State() == UserUpdated(s, id, caller, req, bcrypt))
  {
    if !LiveUser(db.users, id) {
      return NotFound("Usuario");
    }
    var targetRoles := RoleNames(db.roles, db.userRoles, id);
    var isGestor := IsGestor(caller);
    if isGestor && ADMINISTRADOR in targetRoles {
      return Forbidden(GESTOR_ON_ADMIN);
    }
    if isGestor && req.roles.Some? && ADMINISTRADOR in req.roles.value {
      return Forbidden(GESTOR_GRANTS_ADMIN);
    }
    var admin := IsAdmin(Some(caller));
    var strong, u := PatchRow(db.users[id - 1], req, admin, bcrypt);
    if !strong {
      // Thrown inside the transaction: rolled back, rendered by the error handler.
      return ValidationError(PlainItems(ValidatePasswordStrength(req.password).errors));
    }
    var rows := db.userRoles;
    if req.roles.Some? {
      rows := InsertRoles(Unlink(rows, id), db.roles, req.roles.value, id, caller.id);
    }
    db.users, db.userRoles := db.users[id - 1 := u], rows;
    return Success(Some(id), "Usuario actualizado", 200);
  }

  /** The weak-password error the update throws is answered as a validation
      error listing the broken rules. */
  lemma WeakPasswordRendered(errors: seq<string>, stack: Option<string>, nodeEnv: Option<string>)
    ensures ErrorMiddleware.ErrorHandler(
              ErrorMiddleware.Err(false, None, Some("Password débil"), Some("validation"),
                                  Some(PlainItems(errors)), None, None, stack), nodeEnv)
            == ValidationError(PlainItems(errors))
  {
  }

  /** A gestor never leaves a user holding the administrator role, and an
      update never touches another user's roles. */
  lemma UpdateRoleSafety(s: AccountState, id: int, caller: AuthUser, req: UserPatch, bcrypt: string -> string,
                         other: int)
    requires LiveUser(s.users, id) && other != id
    ensures var t := UserUpdated(s, id, caller, req, bcrypt);
            RoleNames(t.roles, t.userRoles, other) == RoleNames(s.roles, s.userRoles, other)
    ensures IsGestor(caller) && ADMINISTRADOR !in RoleNames(s.roles, s.userRoles, id)
            && !(req.roles.Some? && ADMINISTRADOR in req.roles.value)
            ==> var t := UserUpdated(s, id, caller, req, bcrypt);
                ADMINISTRADOR !in RoleNames(t.roles, t.userRoles, id)
  {
    if req.roles.Some? {
      var ids := MatchingRoleIds(s.roles, req.roles.value);
      RoleNamesUnlinkOther(s.roles, s.userRoles, id, other);
      RoleNamesAppendOther(s.roles, Unlink(s.userRoles, id), Grants(ids, id, caller.id), other);
      RolesReplaced(s.roles, s.userRoles, id, req.roles.value, caller.id);
    }
  }

  /** When roles are supplied, the user ends up holding exactly the supplied
      names that exist in the `roles` table; unknown names are dropped. */
  lemma UpdateReplacesRoles(s: AccountState, id: int, caller: AuthUser, req: UserPatch, bcrypt: string -> string)
    requires LiveUser(s.users, id) && req.roles.Some?
    ensures var t := UserUpdated(s, id, caller, req, bcrypt);
            forall n :: n in RoleNames(t.roles, t.userRoles, id) <==> n in req.roles.value && RoleExists(s.roles, n)
  {
    RolesReplaced(s.roles, s.userRoles, id, req.roles.value, caller.id);
  }

  // ---------------------------------------------------------------------
  // Delete
  // ---------------------------------------------------------------------

  /** `UPDATE refresh_tokens SET revoked = 1, revoked_at = NOW() WHERE
      user_id = ? AND revoked = 0`. */
  function Revoked(tokens: seq<RefreshToken>, userId: int, at: int): (r: seq<RefreshToken>)
    ensures |r| == |tokens|
    ensures forall k :: 0 <= k < |tokens| && tokens[k].userId == userId ==> r[k].revoked
    ensures forall k :: 0 <= k < |tokens| && (tokens[k].userId != userId || tokens[k].revoked)
                        ==> r[k] == tokens[k]
    ensures forall k :: 0 <= k < |tokens| ==> r[k].tokenHash == tokens[k].tokenHash && r[k].userId == tokens[k].userId
  {
    seq(|tokens|, k requires 0 <= k < |tokens| =>
      if tokens[k].userId == userId && !tokens[k].revoked
      then tokens[k].(revoked := true, revokedAt := Some(at))
      else tokens[k])
  }

  method DeleteUser(db: Accounts, id: int, caller: AuthUser, clock: Clock) returns (r: Response<int>)
    modifies db
    ensures var s := old(db.State());
            && (id == caller.id ==> r == Fail(SELF_DELETE, 400) && db.State() == s)
            && (id != caller.id && !LiveUser(s.users, id) ==> r == NotFound("Usuario") && db.State() == s)
            && (id != caller.id && LiveUser(s.users, id)
                ==> r == Success(None, "Usuario eliminado (soft delete)", 200)
                    && db.State()
                       == s.(users := s.users[id - 1 := s.users[id - 1].(deletedAt := Some(Second(clock.now)),
                                                                          activo := false)],
                             refreshTokens := Revoked(s.refreshTokens, id, Second(clock.now))))
  {
    if id == caller.id {
      return Fail(SELF_DELETE, 400);
    }
    if !(1 <= id <= |db.users| && db.users[id - 1].deletedAt.None?) {
      return NotFound("Usuario");
    }
    var at := Second(clock.now);
    db.users := db.users[id - 1 := db.users[id - 1].(deletedAt := Some(at), activo := false)];
    db.refreshTokens := Revoked(db.refreshTokens, id, at);
    return Success(None, "Usuario eliminado (soft delete)", 200);
  }

  /** A deleted user can neither log in nor exchange a refresh token, with
      any password and any token. */
  lemma DeletedUserLockedOut(s: AccountState, id: int, now: int, username: string, password: string,
                             compare: (string, string) -> bool, token: Option<string>, hash: string -> string,
                             later: int, l: AuthController.Lockout)
    requires LiveUser(s.users, id)
    ensures var t := s.(users := s.users[id - 1 := s.users[id - 1].(deletedAt := Some(Second(now)), activo := false)],
                        refreshTokens := Revoked(s.refreshTokens, id, Second(now)));
            && AuthController.LoginOutcome(t, username, password, compare, later, l) != AuthController.Granted(id - 1)
            && (AuthController.RefreshOutcome(t, token, hash, later).Rotate?
                ==> t.refreshTokens[AuthController.RefreshOutcome(t, token, hash, later).index].userId != id)
  {
  }

  // ---------------------------------------------------------------------
  // Roles
  // ---------------------------------------------------------------------

  method CreateRole(db: Accounts, nombre: string, descripcion: Option<string>) returns (r: Response<int>)
    modifies db
    ensures var s := old(db.State());
            && (RoleExists(s.roles, nombre) ==> r == Fail(ROLE_EXISTS, 409) && db.State() == s)
            && (!RoleExists(s.roles, nombre)
                ==> r == Created(Some(|s.roles| + 1), "Rol creado")
                    && db.State() == s.(roles := s.roles + [Role(nombre, OrNull(descripcion))]))
  {
    if exists k :: 0 <= k < |db.roles| && db.roles[k].nombre == nombre {
      return Fail(ROLE_EXISTS, 409);
    }
    db.roles := db.roles + [Role(nombre, OrNull(descripcion))];
    return Created(Some(|db.roles|), "Rol creado");
  }

  /** Role names stay unique: creation refuses a name already present. */
  lemma CreateRoleKeepsNamesUnique(roles: seq<Role>, nombre: string, descripcion: Option<string>)
    requires forall i, j :: 0 <= i < j < |roles| ==> roles[i].nombre != roles[j].nombre
    requires !RoleExists(roles, nombre)
    ensures var t := roles + [Role(nombre, OrNull(descripcion))];
            forall i, j :: 0 <= i < j < |t| ==> t[i].nombre != t[j].nombre
  {
  }
}
