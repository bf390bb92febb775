/** Role-based access control (`backend/src/middleware/roles.middleware.js`):
    the role predicates and the route guards built from them. */
module Roles {
  import opened Common
  import opened Responses

  const ADMINISTRADOR := "administrador"
  const GESTOR := "gestor"
  const TECNICO := "tecnico"
  const ENFERMERO := "enfermero"
  const MEDICO := "medico"

  /** `req.user` as the authentication middleware attaches it; `roles` is
      `None` when the property is missing. */
  datatype AuthUser = AuthUser(id: int, username: string, nombre: string, apellidos: string,
                               roles: Option<seq<string>>)

  /** A guard either hands the request on or answers it. */
  datatype Gate = Next | Deny(response: Response<()>)

  /** `user?.roles ?? []`. */
  function RolesOf(user: Option<AuthUser>): (r: seq<string>)
    ensures user.None? ==> r == []
    ensures user.Some? && user.value.roles.None? ==> r == []
    ensures user.Some? && user.value.roles.Some? ==> r == user.value.roles.value
  {
    if user.Some? && user.value.roles.Some? then user.value.roles.value else []
  }

  /** `hasRole(user, role)`: false without a user or without roles. */
  predicate HasRole(user: Option<AuthUser>, role: string) {
    role in RolesOf(user)
  }

  predicate IsAdmin(user: Option<AuthUser>) {
    HasRole(user, ADMINISTRADOR)
  }

  predicate IsOperacional(user: Option<AuthUser>) {
    HasRole(user, TECNICO) || HasRole(user, ENFERMERO) || HasRole(user, MEDICO)
  }

  lemma HasRoleMissing(user: Option<AuthUser>, role: string)
    requires user.None? || user.value.roles.None?
    ensures !HasRole(user, role)
  {
  }

  /** Being operational depends on the operational roles only: granting or
      removing the administrative ones never changes it. */
  lemma IsOperacionalIgnoresAdminRoles(u: AuthUser, extra: seq<string>)
    requires u.roles.Some?
    requires forall r :: r in extra ==> r == ADMINISTRADOR || r == GESTOR
    ensures IsOperacional(Some(u.(roles := Some(u.roles.value + extra)))) == IsOperacional(Some(u))
    ensures IsOperacional(Some(u)) <==>
            exists r :: r in u.roles.value && (r == TECNICO || r == ENFERMERO || r == MEDICO)
  {
    var u' := u.(roles := Some(u.roles.value + extra));
    forall r | r == TECNICO || r == ENFERMERO || r == MEDICO
      ensures HasRole(Some(u'), r) == HasRole(Some(u), r)
    {
      assert r in u.roles.value + extra <==> r in u.roles.value || r in extra;
    }
  }

  function DeniedMessage(allowed: seq<string>): string {
    "Acceso denegado. Requiere rol: " + Join(allowed, " o ")
  }

  /** `requireRole(...allowedRoles)`: 403 'No autenticado' without a user,
      otherwise a pass exactly when one of the allowed roles is held. */
  function RequireRole(allowed: seq<string>, user: Option<AuthUser>): (g: Gate)
    ensures user.None? ==> g == Deny(Forbidden("No autenticado"))
    ensures user.Some? ==> (g.Next? <==> exists role :: role in allowed && HasRole(user, role))
    ensures user.Some? && g.Deny? ==> g.response == Forbidden(DeniedMessage(allowed))
  {
    if user.None? then Deny(Forbidden("No autenticado"))
    else if exists role :: role in allowed && role in RolesOf(user) then Next
    else Deny(Forbidden(DeniedMessage(allowed)))
  }

  /** Holding more roles never turns a pass into a rejection. */
  lemma RequireRoleMonotone(allowed: seq<string>, u: AuthUser, extra: seq<string>)
    requires RequireRole(allowed, Some(u)).Next?
    ensures RequireRole(allowed, Some(u.(roles := Some(RolesOf(Some(u)) + extra)))).Next?
  {
    var role :| role in allowed && HasRole(Some(u), role);
    assert role in RolesOf(Some(u)) + extra;
    assert HasRole(Some(u.(roles := Some(RolesOf(Some(u)) + extra))), role);
  }

  function RequireAdmin(user: Option<AuthUser>): (g: Gate)
    ensures g.Next? <==> IsAdmin(user)
  {
    var g := RequireRole([ADMINISTRADOR], user);
    assert user.Some? ==> (g.Next? <==> HasRole(user, ADMINISTRADOR)) by {
      if user.Some? && HasRole(user, ADMINISTRADOR) {
        assert ADMINISTRADOR in [ADMINISTRADOR];
      }
    }
    g
  }

  function RequireAdminOrGestor(user: Option<AuthUser>): (g: Gate)
    ensures g.Next? <==> IsAdmin(user) || HasRole(user, GESTOR)
  {
    var g := RequireRole([ADMINISTRADOR, GESTOR], user);
    assert user.Some? ==> (g.Next? <==> HasRole(user, ADMINISTRADOR) || HasRole(user, GESTOR)) by {
      if user.Some? {
        assert ADMINISTRADOR in [ADMINISTRADOR, GESTOR] && GESTOR in [ADMINISTRADOR, GESTOR];
      }
    }
    g
  }

  /** `requireAnyRole`: a user with at least one role. */
  function RequireAnyRole(user: Option<AuthUser>): (g: Gate)
    ensures g.Next? <==> |RolesOf(user)| > 0
    ensures g.Deny? ==> g.response == Forbidden("Sin roles asignados")
  {
    if user.None? || user.value.roles.None? || |user.value.roles.value| == 0 then
      Deny(Forbidden("Sin roles asignados"))
    else Next
  }
}
