/** The job handlers of `backend/src/controllers/trabajos.controller.js`
    over the fleet tables: create, update, soft delete, the access check of
    the detail view, finalization and the evidence upload. A handler's
    transaction is all-or-nothing: the methods work on local copies of the
    tables and write them back only when the transaction would commit. The
    job view the handlers answer with is represented by the job id. */
module JobsController {
  import opened Common
  import opened Responses
  import opened Store
  import opened Evidence
  import opened JobRules
  import opened Roles

  /** What a handler hands to Express: an answer, or an error passed to
      `next(err)` (the central error handler renders it). */
  datatype Reply<D> = Answer(resp: Response<D>) | Thrown(message: string)

  /** The database driver's refusal of an `undefined` bind parameter. */
  const UNDEFINED_BIND := "Bind parameters must not contain undefined. To pass SQL NULL specify JS null"

  const BAD_DATES := "fecha_fin debe ser posterior a fecha_inicio"
  const NOT_MODIFIABLE := "No se puede modificar un trabajo finalizado"
  const ACTIVE_DELETE := "No se puede eliminar un trabajo activo"
  const NO_ACCESS := "No tienes acceso a este trabajo"

  // ---------------------------------------------------------------------
  // Create
  // ---------------------------------------------------------------------

  /** The body of `POST /trabajos`, after route validation (dates as instants). */
  datatype CreateReq = CreateReq(nombre: string, tipo: string, fechaInicio: int, fechaFin: int,
                                 vehiculos: seq<VehicleReq>, usuarios: seq<int>)

  /** The inserted job row; the table's default state is `programado`. */
  function NewJob(req: CreateReq, identificador: string, userId: int): (j: Job)
    ensures j.estado == Programado && j.deletedAt.None? && j.identificador == identificador
  {
    Job(identificador, req.nombre, req.tipo, req.fechaInicio, req.fechaFin, Programado, None, userId, None)
  }

  /** One more entry of `vehiculos` adds its row and, when its start
      reading is truthy, its reading. */
  lemma AssignmentsAppend(id: int, vs: seq<VehicleReq>, i: nat)
    requires i < |vs| && Bound(vs[..i + 1])
    ensures Bound(vs[..i])
    ensures Assignments(id, vs[..i + 1]) == Assignments(id, vs[..i]) + Assignments(id, [vs[i]])
    ensures StartReadings(vs[..i + 1])
            == StartReadings(vs[..i])
               + (if TruthyInt(vs[i].kmInicio) then [Reading(vs[i].vehicleId.value, vs[i].kmInicio.value)] else [])
  {
    assert forall k :: 0 <= k < i + 1 ==> vs[..i + 1][k] == vs[k];
    assert vs[..i + 1][..i] == vs[..i];
    var l := Assignments(id, vs[..i + 1]);
    var r := Assignments(id, vs[..i]) + Assignments(id, [vs[i]]);
    forall k | 0 <= k < |l| ensures l[k] == r[k] {
      if k < i {
        assert vs[..i][k] == vs[k];
      }
    }
  }

  /** The tables after a committed creation: the job row, its assignment
      and staff rows, and the odometers ratcheted to the start readings. */
  function Inserted(s: FleetState, req: CreateReq, userId: int, year: nat): (t: FleetState)
    requires Bound(req.vehiculos)
    ensures |t.jobs| == |s.jobs| + 1 && t.jobs[..|s.jobs|] == s.jobs
    ensures t.jobs[|s.jobs|].estado == Programado && t.jobs[|s.jobs|].createdBy == userId
  {
    var id := |s.jobs| + 1;
    FleetState(s.jobs + [NewJob(req, NextIdentifier(s.jobs, year), userId)],
               s.assignments + Assignments(id, req.vehiculos),
               s.personnel + Personnel(id, req.usuarios),
               RatchetAll(s.vehicles, StartReadings(req.vehiculos), None),
               s.images)
  }

  /** Creation appends one assignment row per requested vehicle, all for
      the new job, and keeps the earlier rows. */
  lemma CreateAssigns(s: FleetState, req: CreateReq, userId: int, year: nat)
    requires Bound(req.vehiculos)
    ensures var t := Inserted(s, req, userId, year);
            && |t.assignments| == |s.assignments| + |req.vehiculos| && t.assignments[..|s.assignments|] == s.assignments
            && forall k :: |s.assignments| <= k < |t.assignments| ==> t.assignments[k].trabajoId == |s.jobs| + 1
  {
    var t := Inserted(s, req, userId, year);
    assert t.assignments == s.assignments + Assignments(|s.jobs| + 1, req.vehiculos);
    assert (s.assignments + Assignments(|s.jobs| + 1, req.vehiculos))[..|s.assignments|] == s.assignments;
  }

  /** Creation staffs the new job with exactly the requested users, only
      raises odometers and leaves the photos alone. */
  lemma CreateStaffs(s: FleetState, req: CreateReq, userId: int, year: nat)
    requires Bound(req.vehiculos)
    ensures var t := Inserted(s, req, userId, year);
            && (forall p :: p in t.personnel <==> p in s.personnel || (p.0 == |s.jobs| + 1 && p.1 in req.usuarios))
            && |t.vehicles| == |s.vehicles| && (forall k :: 0 <= k < |s.vehicles| ==> t.vehicles[k].km >= s.vehicles[k].km)
            && t.images == s.images
  {
    var t := Inserted(s, req, userId, year);
    assert t.personnel == s.personnel + Personnel(|s.jobs| + 1, req.usuarios);
    assert t.vehicles == RatchetAll(s.vehicles, StartReadings(req.vehiculos), None);
  }

  method CreateTrabajo(db: Fleet, req: CreateReq, userId: int, clock: Clock) returns (r: Reply<int>)
    modifies db
    ensures var s := old(db.State());
            && (req.fechaFin <= req.fechaInicio ==> r == Answer(Fail(BAD_DATES, 400)) && db.State() == s)
            && (req.fechaFin > req.fechaInicio && !Bound(req.vehiculos)
                ==> r == Thrown(UNDEFINED_BIND) && db.State() == s)
            && (req.fechaFin > req.fechaInicio && Bound(req.vehiculos)
                ==> r == Answer(Created(Some(|s.jobs| + 1), "Trabajo creado"))
                    && db.State() == Inserted(s, req, userId, clock.year))
  {
    if req.fechaFin <= req.fechaInicio {
      return Answer(Fail(BAD_DATES, 400));
    }
    var identificador := NextIdentifier(db.jobs, clock.year);
    // The transaction's working copy.
    var jobs := db.jobs + [NewJob(req, identificador, userId)];
    var id := |jobs|;
    var bound, rows, vehicles := InsertAssignments(db.assignments, db.vehicles, id, req.vehiculos, true);
    if !bound {
      return Thrown(UNDEFINED_BIND);
    }
    var staff := InsertPersonnel(db.personnel, id, req.usuarios);
    db.jobs, db.assignments, db.personnel, db.vehicles := jobs, rows, staff, vehicles;
    return Answer(Created(Some(id), "Trabajo creado"));
  }

  /** `for (const veh of vehiculos)`: insert the assignment row and, when
      `ratchet` is set (creation) and the start reading is truthy, ratchet
      the odometer. `bound` is false when an entry meets an `undefined` bind
      parameter, which aborts the transaction. */
  method InsertAssignments(rows0: seq<Assignment>, vehicles0: seq<Vehicle>, id: int, vs: seq<VehicleReq>,
                           ratchet: bool)
    returns (bound: bool, rows: seq<Assignment>, vehicles: seq<Vehicle>)
    ensures bound <==> Bound(vs)
    ensures bound ==> rows == rows0 + Assignments(id, vs)
    ensures bound && ratchet ==> vehicles == RatchetAll(vehicles0, StartReadings(vs), None)
    ensures !ratchet ==> vehicles == vehicles0
  {
    rows, vehicles := rows0, vehicles0;
    var i := 0;
    while i < |vs|
      invariant 0 <= i <= |vs| && Bound(vs[..i])
      invariant rows == rows0 + Assignments(id, vs[..i])
      invariant ratchet ==> vehicles == RatchetAll(vehicles0, StartReadings(vs[..i]), None)
      invariant !ratchet ==> vehicles == vehicles0
    {
      var veh := vs[i];
      if veh.vehicleId.None? || veh.responsable.None? {
        return false, rows, vehicles;
      }
      assert Bound(vs[..i + 1]) by {
        assert forall k :: 0 <= k < i ==> vs[..i + 1][k] == vs[..i][k];
      }
      AssignmentsAppend(id, vs, i);
      rows := rows + Assignments(id, [veh]);
      if ratchet && TruthyInt(veh.kmInicio) {
        var reading := Reading(veh.vehicleId.value, veh.kmInicio.value);
        ghost var before := StartReadings(vs[..i]);
        assert StartReadings(vs[..i + 1]) == before + [reading];
        assert (before + [reading])[..|before|] == before;
        vehicles := Ratchet(vehicles, reading, None);
      } else if ratchet {
        assert StartReadings(vs[..i + 1]) == StartReadings(vs[..i]) + [];
        assert StartReadings(vs[..i]) + [] == StartReadings(vs[..i]);
      }
      i := i + 1;
    }
    assert vs[..i] == vs;
    return true, rows, vehicles;
  }

  /** `for (const userId of usuarios)` with `INSERT IGNORE`. */
  method InsertPersonnel(staff0: set<(int, int)>, id: int, us: seq<int>) returns (staff: set<(int, int)>)
    ensures staff == staff0 + Personnel(id, us)
  {
    staff := staff0;
    var j := 0;
    while j < |us|
      invariant 0 <= j <= |us|
      invariant staff == staff0 + Personnel(id, us[..j])
    {
      assert us[..j + 1] == us[..j] + [us[j]];
      staff := staff + {(id, us[j])};
      j := j + 1;
    }
    assert us[..j] == us;
  }

  /** A created job is scheduled, new, and continues its year's sequence of
      identifiers. */
  lemma CreateContinuesSequence(jobs: seq<Job>, req: CreateReq, userId: int, year: nat)
    requires JobIdentifier.Sequenced(Identifiers(jobs), year)
    ensures var j := NewJob(req, NextIdentifier(jobs, year), userId);
            && j.estado == Programado
            && j.identificador !in Identifiers(jobs)
            && JobIdentifier.Sequenced(Identifiers(jobs + [j]), year)
  {
    NextIdentifierSequenced(jobs, year, NewJob(req, NextIdentifier(jobs, year), userId));
  }

  // ---------------------------------------------------------------------
  // Update
  // ---------------------------------------------------------------------

  /** The tables after a committed update of live job `id`. */
  function Updated(s: FleetState, id: int, req: UpdateReq): (t: FleetState)
    requires LiveJob(s.jobs, id)
    requires req.vehiculos.Some? ==> Bound(req.vehiculos.value)
    ensures |t.jobs| == |s.jobs| && t.jobs[id - 1] == ApplyUpdate(s.jobs[id - 1], req)
    ensures forall k :: 0 <= k < |s.jobs| && k != id - 1 ==> t.jobs[k] == s.jobs[k]
    ensures req.vehiculos.None? ==> t.assignments == s.assignments
    ensures req.usuarios.None? ==> t.personnel == s.personnel
    ensures t.vehicles == s.vehicles && t.images == s.images
  {
    s.(jobs := s.jobs[id - 1 := ApplyUpdate(s.jobs[id - 1], req)],
       assignments := if req.vehiculos.Some? then Unassign(s.assignments, id) + Assignments(id, req.vehiculos.value)
                      else s.assignments,
       personnel := if req.usuarios.Some? then Unstaff(s.personnel, id) + Personnel(id, req.usuarios.value)
                    else s.personnel)
  }

  method UpdateTrabajo(db: Fleet, id: int, req: UpdateReq) returns (r: Reply<int>)
    modifies db
    ensures var s := old(db.State());
            && (!LiveJob(s.jobs, id) ==> r == Answer(NotFound("Trabajo")) && db.State() == s)
            && (LiveJob(s.jobs, id) && Terminal(s.jobs[id - 1].estado)
                ==> r == Answer(Fail(NOT_MODIFIABLE, 400)) && db.State() == s)
            && (LiveJob(s.jobs, id) && !Terminal(s.jobs[id - 1].estado)
                && req.vehiculos.Some? && !Bound(req.vehiculos.value)
                ==> r == Thrown(UNDEFINED_BIND) && db.State() == s)
            && (LiveJob(s.jobs, id) && !Terminal(s.jobs[id - 1].estado)
                && (req.vehiculos.Some? ==> Bound(req.vehiculos.value))
                ==> r == Answer(Success(Some(id), "Trabajo actualizado", 200)) && db.State() == Updated(s, id, req))
  {
    if !LiveJob(db.jobs, id) {
      return Answer(NotFound("Trabajo"));
    }
    if Terminal(db.jobs[id - 1].estado) {
      return Answer(Fail(NOT_MODIFIABLE, 400));
    }
    var jobs := db.jobs[id - 1 := ApplyUpdate(db.jobs[id - 1], req)];
    var rows := db.assignments;
    if req.vehiculos.Some? {
      var bound, vehicles;
      bound, rows, vehicles := InsertAssignments(Unassign(rows, id), db.vehicles, id, req.vehiculos.value, false);
      if !bound {
        return Thrown(UNDEFINED_BIND);
      }
    }
    var staff := db.personnel;
    if req.usuarios.Some? {
      staff := InsertPersonnel(Unstaff(staff, id), id, req.usuarios.value);
    }
    db.jobs, db.assignments, db.personnel := jobs, rows, staff;
    return Answer(Success(Some(id), "Trabajo actualizado", 200));
  }

  /** An accepted update leaves the job live and unfinished, keeps its
      identifier, and leaves every other job as it was. */
  lemma UpdateKeepsJobOpen(s: FleetState, id: int, req: UpdateReq)
    requires LiveJob(s.jobs, id) && !Terminal(s.jobs[id - 1].estado)
    requires req.vehiculos.Some? ==> Bound(req.vehiculos.value)
    ensures var t := Updated(s, id, req);
            && LiveJob(t.jobs, id) && !Terminal(t.jobs[id - 1].estado)
            && t.jobs[id - 1].identificador == s.jobs[id - 1].identificador
            && Identifiers(t.jobs) == Identifiers(s.jobs)
  {
    UpdateNeverFinalizes(s.jobs[id - 1], req);
  }

  // ---------------------------------------------------------------------
  // Delete and read access
  // ---------------------------------------------------------------------

  method DeleteTrabajo(db: Fleet, id: int, clock: Clock) returns (resp: Response<int>)
    modifies db
    ensures var s := old(db.State());
            && (!LiveJob(s.jobs, id) ==> resp == NotFound("Trabajo") && db.State() == s)
            && (LiveJob(s.jobs, id) && s.jobs[id - 1].estado == Activo
                ==> resp == Fail(ACTIVE_DELETE, 400) && db.State() == s)
            && (LiveJob(s.jobs, id) && s.jobs[id - 1].estado != Activo
                ==> && resp == Success(None, "Trabajo eliminado", 200)
                    && db.State() == s.(jobs := s.jobs[id - 1 := s.jobs[id - 1].(deletedAt := Some(Second(clock.now)))])
                    && !LiveJob(db.jobs, id))
  {
    if !LiveJob(db.jobs, id) {
      return NotFound("Trabajo");
    }
    if db.jobs[id - 1].estado == Activo {
      return Fail(ACTIVE_DELETE, 400);
    }
    db.jobs := db.jobs[id - 1 := db.jobs[id - 1].(deletedAt := Some(Second(clock.now)))];
    return Success(None, "Trabajo eliminado", 200);
  }

  /** `getTrabajo`: an operational user sees only the jobs they are staffed on. */
  function TrabajoAccess(s: FleetState, id: int, user: AuthUser): (resp: Response<int>)
    ensures resp.body.success <==> LiveJob(s.jobs, id) && (IsOperacional(Some(user)) ==> (id, user.id) in s.personnel)
    ensures !LiveJob(s.jobs, id) ==> resp == NotFound("Trabajo")
    ensures LiveJob(s.jobs, id) && IsOperacional(Some(user)) && (id, user.id) !in s.personnel
            ==> resp == Forbidden(NO_ACCESS)
  {
    if !LiveJob(s.jobs, id) then NotFound("Trabajo")
    else if IsOperacional(Some(user)) && (id, user.id) !in s.personnel then Forbidden(NO_ACCESS)
    else Success(Some(id), "OK", 200)
  }

  // ---------------------------------------------------------------------
  // Finalize
  // ---------------------------------------------------------------------

  /** The answer the checks of `finalizeTrabajo` give, in the order the
      handler makes them, or `None` when they all pass. */
  function FinalizeRejection(s: FleetState, id: int, user: AuthUser, req: FinalizeReq, now: int): Option<Response<int>>
  {
    if !LiveJob(s.jobs, id) then Some(NotFound("Trabajo"))
    else if IsOperacional(Some(user)) && !IsResponsible(s.assignments, id, user.id) then Some(Forbidden(NOT_RESPONSIBLE))
    else if Terminal(s.jobs[id - 1].estado) then Some(Fail(ALREADY_FINISHED, 400))
    else if now < s.jobs[id - 1].fechaFin && Blank(req.motivo) then Some(Fail(REASON_REQUIRED, 400))
    else
      var vids := AssignedVehicles(s.assignments, id);
      var incomplete := FirstIncomplete(s.images, id, vids);
      if incomplete.Some? then
        Some(Fail(MissingEvidenceMessage(incomplete.value, Missing(Uploaded(s.images, incomplete.value, id))), 400))
      else
        var noKm := FirstWithoutKm(req.kms, vids);
        if noKm.Some? then Some(Fail(MissingKmMessage(noKm.value), 400)) else None
  }

  /** Passing the checks means: the job is live and unfinished, the caller
      may finish it, an early finish has a reason, and every assigned
      vehicle has all five photos and a truthy final reading. */
  lemma FinalizeAccepted(s: FleetState, id: int, user: AuthUser, req: FinalizeReq, now: int)
    requires FinalizeRejection(s, id, user, req, now).None?
    ensures LiveJob(s.jobs, id) && !Terminal(s.jobs[id - 1].estado)
    ensures IsOperacional(Some(user)) ==> IsResponsible(s.assignments, id, user.id)
    ensures now < s.jobs[id - 1].fechaFin ==> !Blank(req.motivo)
    ensures forall k :: 0 <= k < |s.assignments| && s.assignments[k].trabajoId == id && s.assignments[k].vehicleId != 0
                        ==> && EvidenceComplete(s.images, s.assignments[k].vehicleId, id)
                            && !KmMissing(req.kms, s.assignments[k].vehicleId)
  {
    var vids := AssignedVehicles(s.assignments, id);
    forall k | 0 <= k < |s.assignments| && s.assignments[k].trabajoId == id && s.assignments[k].vehicleId != 0
      ensures EvidenceComplete(s.images, s.assignments[k].vehicleId, id)
              && !KmMissing(req.kms, s.assignments[k].vehicleId)
    {
      var v := s.assignments[k].vehicleId;
      assert v in vids;
      var i :| 0 <= i < |vids| && vids[i] == v;
    }
  }

  /** A finished job is refused before any evidence or reading is looked
      at, unless the caller is an operational user without responsibility,
      who is refused first. */
  lemma FinalizeTerminalRefused(s: FleetState, id: int, user: AuthUser, req: FinalizeReq, now: int)
    requires LiveJob(s.jobs, id) && Terminal(s.jobs[id - 1].estado)
    ensures IsOperacional(Some(user)) && !IsResponsible(s.assignments, id, user.id)
            ==> FinalizeRejection(s, id, user, req, now) == Some(Forbidden(NOT_RESPONSIBLE))
    ensures !(IsOperacional(Some(user)) && !IsResponsible(s.assignments, id, user.id))
            ==> FinalizeRejection(s, id, user, req, now) == Some(Fail(ALREADY_FINISHED, 400))
  {
  }

  /** A final reading of 0 for an assigned vehicle counts as missing. */
  lemma ZeroKmRefused(s: FleetState, id: int, user: AuthUser, req: FinalizeReq, now: int, k: nat)
    requires k < |s.assignments| && s.assignments[k].trabajoId == id && s.assignments[k].vehicleId != 0
    requires FindKm(req.kms, s.assignments[k].vehicleId).Some?
    requires req.kms[FindKm(req.kms, s.assignments[k].vehicleId).value].kmFin == Some(0)
    ensures FinalizeRejection(s, id, user, req, now).Some?
  {
    if FinalizeRejection(s, id, user, req, now).None? {
      FinalizeAccepted(s, id, user, req, now);
    }
  }

  /** The tables after a committed finalization. */
  function Finalized(s: FleetState, id: int, req: FinalizeReq, clock: Clock): (t: FleetState)
    requires LiveJob(s.jobs, id) && KmsBound(req.kms)
    ensures |t.jobs| == |s.jobs| && LiveJob(t.jobs, id) && Terminal(t.jobs[id - 1].estado)
    ensures t.jobs[id - 1].estado == FinalizadoAnticipado <==> clock.now < s.jobs[id - 1].fechaFin
    ensures t.jobs[id - 1].motivo == OrNull(req.motivo)
    ensures forall k :: 0 <= k < |s.jobs| && k != id - 1 ==> t.jobs[k] == s.jobs[k]
    ensures t.personnel == s.personnel && t.images == s.images
  {
    var j := s.jobs[id - 1];
    var estado := if clock.now < j.fechaFin then FinalizadoAnticipado else Finalizado;
    s.(jobs := s.jobs[id - 1 := j.(estado := estado, motivo := OrNull(req.motivo))],
       assignments := SetKmFinAll(s.assignments, id, Readings(req.kms)),
       vehicles := RatchetAll(s.vehicles, Readings(req.kms), Some(clock.today)))
  }

  /** A job finishes at most once: any later attempt is refused. */
  lemma FinalizeOnce(s: FleetState, id: int, req: FinalizeReq, clock: Clock,
                     user: AuthUser, req2: FinalizeReq, now2: int)
    requires LiveJob(s.jobs, id) && KmsBound(req.kms)
    ensures FinalizeRejection(Finalized(s, id, req, clock), id, user, req2, now2).Some?
  {
  }

  /** `for (const vehicleId of vehicleIds)` over the photo check. */
  method CheckEvidence(images: seq<Image>, id: int, vids: seq<int>) returns (r: Option<int>)
    ensures r == FirstIncomplete(images, id, vids)
  {
    var i := 0;
    while i < |vids|
      invariant 0 <= i <= |vids| && FirstIncomplete(images, id, vids[i..]) == FirstIncomplete(images, id, vids)
    {
      FirstIncompleteStep(images, id, vids[i..]);
      assert vids[i..][1..] == vids[i + 1..];
      var faltantes := Missing(Uploaded(images, vids[i], id));
      if |faltantes| > 0 {
        return Some(vids[i]);
      }
      i := i + 1;
    }
    assert vids[i..] == [];
    return None;
  }

  /** `for (const vehicleId of vehicleIds)` over the final readings. */
  method CheckKm(kms: seq<KmReading>, vids: seq<int>) returns (r: Option<int>)
    ensures r == FirstWithoutKm(kms, vids)
  {
    var i := 0;
    while i < |vids|
      invariant 0 <= i <= |vids| && FirstWithoutKm(kms, vids[i..]) == FirstWithoutKm(kms, vids)
    {
      FirstWithoutKmStep(kms, vids[i..]);
      assert vids[i..][1..] == vids[i + 1..];
      var found := FindKm(kms, vids[i]);
      if found.None? || !TruthyInt(kms[found.value].kmFin) {
        return Some(vids[i]);
      }
      i := i + 1;
    }
    assert vids[i..] == [];
    return None;
  }

  method FinalizeTrabajo(db: Fleet, id: int, user: AuthUser, req: FinalizeReq, clock: Clock) returns (r: Reply<int>)
    modifies db
    ensures var s := old(db.State());
            var rejection := FinalizeRejection(s, id, user, req, clock.now);
            && (rejection.Some? ==> r == Answer(rejection.value) && db.State() == s)
            && (rejection.None? && !KmsBound(req.kms) ==> r == Thrown(UNDEFINED_BIND) && db.State() == s)
            && (rejection.None? && KmsBound(req.kms)
                ==> r == Answer(Success(Some(id), "Trabajo finalizado correctamente", 200))
                    && db.State() == Finalized(s, id, req, clock))
  {
    var rejection := FinalizeChecks(db, id, user, req, clock.now);
    if rejection.Some? {
      return Answer(rejection.value);
    }
    // The transaction's working copy.
    var trabajo := db.jobs[id - 1];
    var estado := if clock.now < trabajo.fechaFin then FinalizadoAnticipado else Finalizado;
    var jobs := db.jobs[id - 1 := trabajo.(estado := estado, motivo := OrNull(req.motivo))];
    var bound, rows, vehicles := WriteReadings(db.assignments, db.vehicles, id, req.kms, clock.today);
    if !bound {
      return Thrown(UNDEFINED_BIND);
    }
    db.jobs, db.assignments, db.vehicles := jobs, rows, vehicles;
    return Answer(Success(Some(id), "Trabajo finalizado correctamente", 200));
  }

  /** The checks of `finalizeTrabajo`, run against the tables in order. */
  method FinalizeChecks(db: Fleet, id: int, user: AuthUser, req: FinalizeReq, now: int)
    returns (rejection: Option<Response<int>>)
    ensures rejection == FinalizeRejection(db.State(), id, user, req, now)
    ensures rejection.None? ==> LiveJob(db.jobs, id)
  {
    if !LiveJob(db.jobs, id) {
      return Some(NotFound("Trabajo"));
    }
    var trabajo := db.jobs[id - 1];
    if IsOperacional(Some(user)) && !IsResponsible(db.assignments, id, user.id) {
      return Some(Forbidden(NOT_RESPONSIBLE));
    }
    if Terminal(trabajo.estado) {
      return Some(Fail(ALREADY_FINISHED, 400));
    }
    var isAnticipado := now < trabajo.fechaFin;
    if isAnticipado && Blank(req.motivo) {
      return Some(Fail(REASON_REQUIRED, 400));
    }
    var vids := AssignedVehicles(db.assignments, id);
    var incomplete := CheckEvidence(db.images, id, vids);
    if incomplete.Some? {
      var v := incomplete.value;
      return Some(Fail(MissingEvidenceMessage(v, Missing(Uploaded(db.images, v, id))), 400));
    }
    var noKm := CheckKm(req.kms, vids);
    if noKm.Some? {
      return Some(Fail(MissingKmMessage(noKm.value), 400));
    }
    return None;
  }

  /** `for (const vkm of vehiculos_km)`: record the final reading on the
      job's rows for that vehicle, then ratchet the odometer, stamping the
      service date with today. */
  method WriteReadings(rows0: seq<Assignment>, vehicles0: seq<Vehicle>, id: int, kms: seq<KmReading>, today: string)
    returns (bound: bool, rows: seq<Assignment>, vehicles: seq<Vehicle>)
    ensures bound <==> KmsBound(kms)
    ensures bound ==> rows == SetKmFinAll(rows0, id, Readings(kms))
                      && vehicles == RatchetAll(vehicles0, Readings(kms), Some(today))
  {
    rows, vehicles := rows0, vehicles0;
    var i := 0;
    while i < |kms|
      invariant 0 <= i <= |kms| && KmsBound(kms[..i])
      invariant rows == SetKmFinAll(rows0, id, Readings(kms[..i]))
      invariant vehicles == RatchetAll(vehicles0, Readings(kms[..i]), Some(today))
    {
      var vkm := kms[i];
      if vkm.vehicleId.None? || vkm.kmFin.None? {
        return false, rows, vehicles;
      }
      assert KmsBound(kms[..i + 1]) by {
        assert forall k :: 0 <= k < i ==> kms[..i + 1][k] == kms[..i][k];
      }
      var reading := Reading(vkm.vehicleId.value, vkm.kmFin.value);
      assert Readings(kms[..i + 1])[..i] == Readings(kms[..i]);
      assert Readings(kms[..i + 1])[i] == reading;
      rows := SetKmFin(rows, id, reading);
      vehicles := Ratchet(vehicles, reading, Some(today));
      i := i + 1;
    }
    assert kms[..i] == kms;
    return true, rows, vehicles;
  }

  // ---------------------------------------------------------------------
  // Evidence upload
  // ---------------------------------------------------------------------

  const VEHICLE_REQUIRED := "vehicle_id requerido"
  const BAD_TIPO := "tipo_imagen debe ser uno de: " + TIPOS_TEXT
  const UPLOAD_FINISHED := "No se pueden subir evidencias a un trabajo ya finalizado"
  const NOT_ASSIGNED := "El vehículo no está asignado a este trabajo"
  const NO_FILE := "No se recibió ninguna imagen"

  /** The data of the upload's answer. */
  datatype EvidenceData = EvidenceData(id: int, url: string, tipo: Tipo, vehicleId: int, trabajoId: int,
                                       progreso: Progress)

  /** `SELECT id FROM trabajo_vehiculos WHERE trabajo_id = ? AND vehicle_id = ?` finds a row. */
  predicate Assigned(rows: seq<Assignment>, trabajoId: int, vehicleId: int) {
    exists k :: 0 <= k < |rows| && rows[k].trabajoId == trabajoId && rows[k].vehicleId == vehicleId
  }

  /** The checks of `uploadEvidencia` in order, or `None` when all pass.
      `vehicleId` is `parseInt(vehicle_id)` (`None` for NaN) and `file` the
      stored file's URL, if any. */
  function EvidenceRejection(s: FleetState, trabajoId: int, vehicleId: Option<int>, tipo: Option<string>,
                             file: Option<string>): (r: Option<Response<EvidenceData>>)
    ensures r.None? <==> && TruthyInt(vehicleId) && ParseTipo(tipo).Some? && LiveJob(s.jobs, trabajoId)
                         && !Terminal(s.jobs[trabajoId - 1].estado)
                         && Assigned(s.assignments, trabajoId, vehicleId.value) && file.Some?
    ensures r.Some? ==> r.value.status in {400, 404}
  {
    if !TruthyInt(vehicleId) then Some(Fail(VEHICLE_REQUIRED, 400))
    else if ParseTipo(tipo).None? then Some(Fail(BAD_TIPO, 400))
    else if !LiveJob(s.jobs, trabajoId) then Some(NotFound("Trabajo"))
    else if Terminal(s.jobs[trabajoId - 1].estado) then Some(Fail(UPLOAD_FINISHED, 400))
    else if !Assigned(s.assignments, trabajoId, vehicleId.value) then Some(Fail(NOT_ASSIGNED, 400))
    else if file.None? then Some(Fail(NO_FILE, 400))
    else None
  }

  method UploadEvidencia(db: Fleet, trabajoId: int, vehicleId: Option<int>, tipo: Option<string>,
                         file: Option<string>, userId: int) returns (resp: Response<EvidenceData>)
    modifies db
    ensures var s := old(db.State());
            var rejection := EvidenceRejection(s, trabajoId, vehicleId, tipo, file);
            && (rejection.Some? ==> resp == rejection.value && db.State() == s)
            && (rejection.None?
                ==> var v := vehicleId.value;
                    var t := ParseTipo(tipo).value;
                    var found := FindImage(s.images, v, trabajoId, t);
                    var images := Upsert(s.images, v, trabajoId, t, file.value, userId);
                    && db.State() == s.(images := images)
                    && resp == Created(Some(EvidenceData(if found.Some? then found.value + 1 else |s.images| + 1,
                                                         file.value, t, v, trabajoId,
                                                         ProgressOf(images, v, trabajoId))),
                                       "Evidencia subida correctamente"))
  {
    if !TruthyInt(vehicleId) {
      return Fail(VEHICLE_REQUIRED, 400);
    }
    var t := ParseTipo(tipo);
    if t.None? {
      return Fail(BAD_TIPO, 400);
    }
    if !LiveJob(db.jobs, trabajoId) {
      return NotFound("Trabajo");
    }
    if Terminal(db.jobs[trabajoId - 1].estado) {
      return Fail(UPLOAD_FINISHED, 400);
    }
    var v := vehicleId.value;
    if !Assigned(db.assignments, trabajoId, v) {
      return Fail(NOT_ASSIGNED, 400);
    }
    if file.None? {
      return Fail(NO_FILE, 400);
    }
    resp := StoreEvidence(db, v, trabajoId, t.value, file.value, userId);
  }

  /** The accepted upload: overwrite or insert the photo, then report the
      job's progress for the vehicle. */
  method StoreEvidence(db: Fleet, v: int, trabajoId: int, t: Tipo, url: string, userId: int)
    returns (resp: Response<EvidenceData>)
    modifies db
    ensures var s := old(db.State());
            var found := FindImage(s.images, v, trabajoId, t);
            var images := Upsert(s.images, v, trabajoId, t, url, userId);
            && db.State() == s.(images := images)
            && resp == Created(Some(EvidenceData(if found.Some? then found.value + 1 else |s.images| + 1,
                                                 url, t, v, trabajoId, ProgressOf(images, v, trabajoId))),
                               "Evidencia subida correctamente")
  {
    var existing := FindImage(db.images, v, trabajoId, t);
    var imageId := if existing.Some? then existing.value + 1 else |db.images| + 1;
    db.images := Upsert(db.images, v, trabajoId, t, url, userId);
    var progreso := ProgressOf(db.images, v, trabajoId);
    return Created(Some(EvidenceData(imageId, url, t, v, trabajoId, progreso)), "Evidencia subida correctamente");
  }

  /** Uploading a category again replaces the earlier photo: the table does
      not grow and the key's photo is the new one. */
  lemma ReuploadOverwrites(images: seq<Image>, v: int, trabajoId: int, t: Tipo, url: string, userId: int)
    requires FindImage(images, v, trabajoId, t).Some?
    ensures var r := Upsert(images, v, trabajoId, t, url, userId);
            && |r| == |images|
            && r[FindImage(images, v, trabajoId, t).value].url == url
  {
  }
}
