/** The MySQL tables the back end works on, as sequences of rows held by two
    classes. A row's id is its position plus one (auto-increment ids); rows
    are only ever removed from the link tables `trabajo_vehiculos`,
    `trabajo_usuarios` and `user_roles`. Instants are integer milliseconds. */
module Store {
  import opened Common

  /** `trabajos.estado`. */
  datatype Estado = Programado | Activo | Finalizado | FinalizadoAnticipado

  /** The two finished states, from which no handler moves a job. */
  predicate Terminal(e: Estado) {
    e == Finalizado || e == FinalizadoAnticipado
  }

  /** The five photo categories (`IMAGEN_TIPOS`, equal to
      `IMAGEN_TIPOS_REQUERIDOS`). */
  datatype Tipo = Frontal | LateralDerecho | Trasera | LateralIzquierdo | Liquidos

  /** A row of `trabajos`. */
  datatype Job = Job(identificador: string, nombre: string, tipo: string,
                     fechaInicio: int, fechaFin: int, estado: Estado,
                     motivo: Option<string>, createdBy: int, deletedAt: Option<int>)

  /** A row of `trabajo_vehiculos`. */
  datatype Assignment = Assignment(trabajoId: int, vehicleId: int, responsable: int,
                                   kmInicio: Option<int>, kmFin: Option<int>)

  /** A row of `vehicles`; `km` is `kilometros_actuales`. */
  datatype Vehicle = Vehicle(matricula: string, alias: string, km: int,
                             ultimaRevision: Option<string>, ultimoServicio: Option<string>,
                             deletedAt: Option<int>)

  /** A row of `vehicle_images`. */
  datatype Image = Image(vehicleId: int, tipo: Tipo, url: string, trabajoId: Option<int>,
                         uploadedBy: int)

  /** A row of `users`. */
  datatype User = User(username: string, passwordHash: string, email: Option<string>,
                       nombre: string, apellidos: string, dni: string,
                       direccion: Option<string>, telefono: Option<string>,
                       activo: bool, deletedAt: Option<int>)

  /** A row of `roles`. */
  datatype Role = Role(nombre: string, descripcion: Option<string>)

  /** A row of `user_roles`. */
  datatype UserRole = UserRole(userId: int, roleId: int, assignedBy: Option<int>)

  /** A row of `refresh_tokens`: only the hash of the token is stored. */
  datatype RefreshToken = RefreshToken(userId: int, tokenHash: string, expiresAt: int,
                                       revoked: bool, revokedAt: Option<int>,
                                       ip: Option<string>, userAgent: Option<string>)

  /** A row of `login_attempts`. */
  datatype LoginAttempt = LoginAttempt(username: string, ip: string, success: bool,
                                       userAgent: Option<string>, attemptedAt: int)

  /** The clock a request sees: `now` in milliseconds, `today` as `CURDATE()`
      renders it, and the current calendar year. */
  datatype Clock = Clock(now: int, today: string, year: nat)

  /** `NOW()`: the current instant to the second. */
  function Second(now: int): (t: int)
    ensures t <= now < t + 1000 && t % 1000 == 0
  {
    (now / 1000) * 1000
  }

  /** The job, vehicle and image tables, all the job workflow touches. */
  datatype FleetState = FleetState(jobs: seq<Job>, assignments: seq<Assignment>,
                                   personnel: set<(int, int)>, vehicles: seq<Vehicle>,
                                   images: seq<Image>)

  class Fleet {
    var jobs: seq<Job>
    var assignments: seq<Assignment>
    /** `trabajo_usuarios` as (job id, user id) pairs: its key makes
        `INSERT IGNORE` of a pair already present a no-op. */
    var personnel: set<(int, int)>
    var vehicles: seq<Vehicle>
    var images: seq<Image>

    constructor ()
      ensures State() == FleetState([], [], {}, [], [])
    {
      jobs, assignments, personnel, vehicles, images := [], [], {}, [], [];
    }

    function State(): FleetState
      reads this
    {
      FleetState(jobs, assignments, personnel, vehicles, images)
    }
  }

  /** The user, role, token and login-attempt tables. */
  datatype AccountState = AccountState(users: seq<User>, roles: seq<Role>,
                                       userRoles: seq<UserRole>,
                                       refreshTokens: seq<RefreshToken>,
                                       attempts: seq<LoginAttempt>)

  class Accounts {
    var users: seq<User>
    var roles: seq<Role>
    var userRoles: seq<UserRole>
    var refreshTokens: seq<RefreshToken>
    var attempts: seq<LoginAttempt>

    constructor ()
      ensures State() == AccountState([], [], [], [], [])
    {
      users, roles, userRoles, refreshTokens, attempts := [], [], [], [], [];
    }

    function State(): AccountState
      reads this
    {
      AccountState(users, roles, userRoles, refreshTokens, attempts)
    }
  }

  /** A job that exists and is not soft-deleted (`WHERE id = ? AND deleted_at IS NULL`). */
  predicate LiveJob(jobs: seq<Job>, id: int) {
    1 <= id <= |jobs| && jobs[id - 1].deletedAt.None?
  }

  predicate LiveVehicle(vehicles: seq<Vehicle>, id: int) {
    1 <= id <= |vehicles| && vehicles[id - 1].deletedAt.None?
  }

  predicate LiveUser(users: seq<User>, id: int) {
    1 <= id <= |users| && users[id - 1].deletedAt.None?
  }

  /** The names of a user's roles, in `user_roles` order (the
      `GROUP_CONCAT(r.nombre)` of the joins); a row whose role is missing
      is dropped by the join. */
  function RoleNames(roles: seq<Role>, userRoles: seq<UserRole>, userId: int): (r: seq<string>)
    ensures |r| <= |userRoles|
  {
    if userRoles == [] then []
    else
      var last := userRoles[|userRoles| - 1];
      RoleNames(roles, userRoles[..|userRoles| - 1], userId)
      + (if last.userId == userId && 1 <= last.roleId <= |roles| then [roles[last.roleId - 1].nombre] else [])
  }

  /** One of the user's rows points at a role named `n`. */
  predicate HoldsRow(roles: seq<Role>, userRoles: seq<UserRole>, userId: int, n: string) {
    exists k :: 0 <= k < |userRoles| && userRoles[k].userId == userId
                && 1 <= userRoles[k].roleId <= |roles| && roles[userRoles[k].roleId - 1].nombre == n
  }

  /** A name is listed exactly when one of the user's rows points at a role
      of that name. */
  lemma RoleNamesMembers(roles: seq<Role>, userRoles: seq<UserRole>, userId: int, n: string)
    ensures n in RoleNames(roles, userRoles, userId) <==> HoldsRow(roles, userRoles, userId, n)
  {
    if n in RoleNames(roles, userRoles, userId) {
      ListedHasRow(roles, userRoles, userId, n);
    }
    if HoldsRow(roles, userRoles, userId, n) {
      RowIsListed(roles, userRoles, userId, n);
    }
  }

  /** The name of the last row, when it is one of the user's. */
  function LastName(roles: seq<Role>, row: UserRole, userId: int): seq<string> {
    if row.userId == userId && 1 <= row.roleId <= |roles| then [roles[row.roleId - 1].nombre] else []
  }

  lemma RoleNamesLast(roles: seq<Role>, userRoles: seq<UserRole>, userId: int)
    requires userRoles != []
    ensures RoleNames(roles, userRoles, userId)
            == RoleNames(roles, userRoles[..|userRoles| - 1], userId) + LastName(roles, userRoles[|userRoles| - 1], userId)
  {
  }

  lemma {:induction false} ListedHasRow(roles: seq<Role>, userRoles: seq<UserRole>, userId: int, n: string)
    requires n in RoleNames(roles, userRoles, userId)
    ensures HoldsRow(roles, userRoles, userId, n)
    decreases |userRoles|
  {
    var init := userRoles[..|userRoles| - 1];
    var last := userRoles[|userRoles| - 1];
    RoleNamesLast(roles, userRoles, userId);
    if n in LastName(roles, last, userId) {
      assert userRoles[|userRoles| - 1] == last;
    } else {
      ListedHasRow(roles, init, userId, n);
      var k :| 0 <= k < |init| && init[k].userId == userId
               && 1 <= init[k].roleId <= |roles| && roles[init[k].roleId - 1].nombre == n;
      assert userRoles[k] == init[k];
    }
  }

  lemma {:induction false} RowIsListed(roles: seq<Role>, userRoles: seq<UserRole>, userId: int, n: string)
    requires HoldsRow(roles, userRoles, userId, n)
    ensures n in RoleNames(roles, userRoles, userId)
    decreases |userRoles|
  {
    var init := userRoles[..|userRoles| - 1];
    var last := userRoles[|userRoles| - 1];
    RoleNamesLast(roles, userRoles, userId);
    var k :| 0 <= k < |userRoles| && userRoles[k].userId == userId
             && 1 <= userRoles[k].roleId <= |roles| && roles[userRoles[k].roleId - 1].nombre == n;
    if k < |init| {
      assert init[k] == userRoles[k];
      assert HoldsRow(roles, init, userId, n);
      RowIsListed(roles, init, userId, n);
    } else {
      assert k == |userRoles| - 1 && userRoles[k] == last;
      assert LastName(roles, last, userId) == [n];
    }
  }
}
