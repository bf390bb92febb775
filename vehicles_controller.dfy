/** The vehicle handlers of `backend/src/controllers/vehicles.controller.js`
    over the fleet tables: create, the partial update, the soft delete with
    its active-job guard, the photo upload and the photo listing. The row a
    handler answers with is represented by its id. Text comparisons in SQL
    follow a case-insensitive collation, modelled as equality after ASCII
    upper-casing. */
module VehiclesController {
  import opened Common
  import opened Responses
  import opened Store
  import opened Evidence
  import JobsController

  const PLATE_TAKEN := "Ya existe un vehículo con esa matrícula"
  const NOTHING_TO_UPDATE := "No hay campos para actualizar"
  const HAS_ACTIVE_JOBS := "No se puede eliminar: el vehículo tiene trabajos activos asignados"

  // ---------------------------------------------------------------------
  // Plates
  // ---------------------------------------------------------------------

  /** `toUpperCase` on the ASCII letters. */
  function UpperChar(c: char): (d: char)
    ensures 'a' <= c <= 'z' ==> d as int == c as int - 32
    ensures !('a' <= c <= 'z') ==> d == c
  {
    if 'a' <= c <= 'z' then (c as int - 32) as char else c
  }

  function Upper(s: string): (r: string)
    ensures |r| == |s| && forall i :: 0 <= i < |s| ==> r[i] == UpperChar(s[i])
  {
    seq(|s|, i requires 0 <= i < |s| => UpperChar(s[i]))
  }

  /** Upper-casing twice is upper-casing once. */
  lemma UpperIdempotent(s: string)
    ensures Upper(Upper(s)) == Upper(s)
  {
    var u := Upper(s);
    forall i | 0 <= i < |s| ensures Upper(u)[i] == u[i] {
      assert !('a' <= u[i] <= 'z');
    }
  }

  /** `matricula = ?` under the column's case-insensitive collation. */
  predicate SamePlate(a: string, b: string) {
    Upper(a) == Upper(b)
  }

  /** `SELECT id FROM vehicles WHERE matricula = ? AND deleted_at IS NULL`
      finds a row. */
  predicate PlateTaken(vehicles: seq<Vehicle>, matricula: string) {
    exists k :: 0 <= k < |vehicles| && vehicles[k].deletedAt.None? && SamePlate(vehicles[k].matricula, matricula)
  }

  /** No two live vehicles carry the same plate. */
  predicate UniquePlates(vehicles: seq<Vehicle>) {
    forall i, j :: 0 <= i < j < |vehicles| && vehicles[i].deletedAt.None? && vehicles[j].deletedAt.None?
                   ==> !SamePlate(vehicles[i].matricula, vehicles[j].matricula)
  }

  // ---------------------------------------------------------------------
  // Create
  // ---------------------------------------------------------------------

  /** The body of `POST /vehicles` after route validation. */
  datatype NewVehicleReq = NewVehicleReq(matricula: string, alias: string, km: Option<int>,
                                         ultimaRevision: Option<string>, ultimoServicio: Option<string>)

  /** The inserted row: the plate upper-cased, the odometer at 0 unless
      given. */
  function NewVehicle(req: NewVehicleReq): (v: Vehicle)
    ensures v.matricula == Upper(req.matricula) && v.deletedAt.None?
    ensures v.km == (if req.km.Some? then req.km.value else 0)
  {
    Vehicle(Upper(req.matricula), req.alias, Pick(req.km, 0), OrNull(req.ultimaRevision),
            OrNull(req.ultimoServicio), None)
  }

  method CreateVehicle(db: Fleet, req: NewVehicleReq) returns (r: Response<int>)
    modifies db
    ensures var s := old(db.State());
            && (PlateTaken(s.vehicles, req.matricula) ==> r == Fail(PLATE_TAKEN, 409) && db.State() == s)
            && (!PlateTaken(s.vehicles, req.matricula)
                ==> r == Created(Some(|s.vehicles| + 1), "Vehículo creado")
                    && db.State() == s.(vehicles := s.vehicles + [NewVehicle(req)]))
  {
    if PlateTaken(db.vehicles, req.matricula) {
      return Fail(PLATE_TAKEN, 409);
    }
    db.vehicles := db.vehicles + [NewVehicle(req)];
    return Created(Some(|db.vehicles|), "Vehículo creado");
  }

  /** Creation keeps plates unique among live vehicles. */
  lemma CreateVehicleKeepsPlatesUnique(vehicles: seq<Vehicle>, req: NewVehicleReq)
    requires UniquePlates(vehicles) && !PlateTaken(vehicles, req.matricula)
    ensures UniquePlates(vehicles + [NewVehicle(req)])
  {
    var t := vehicles + [NewVehicle(req)];
    UpperIdempotent(req.matricula);
    forall i, j | 0 <= i < j < |t| && t[i].deletedAt.None? && t[j].deletedAt.None?
      ensures !SamePlate(t[i].matricula, t[j].matricula)
    {
      if j == |vehicles| {
        assert t[i] == vehicles[i];
        assert !SamePlate(vehicles[i].matricula, req.matricula);
      }
    }
  }

  // ---------------------------------------------------------------------
  // Update
  // ---------------------------------------------------------------------

  /** The body of `PUT /vehicles/:id`; `None` is a key left out. */
  datatype VehiclePatch = VehiclePatch(alias: Option<string>, km: Option<int>,
                                       ultimaRevision: Option<string>, ultimoServicio: Option<string>)

  /** The number of entries of the `updates` list. */
  function FieldCount(req: VehiclePatch): (n: nat)
    ensures n == 0 <==> req.alias.None? && req.km.None? && req.ultimaRevision.None? && req.ultimoServicio.None?
    ensures n <= 4
  {
    (if req.alias.Some? then 1 else 0) + (if req.km.Some? then 1 else 0)
    + (if req.ultimaRevision.Some? then 1 else 0) + (if req.ultimoServicio.Some? then 1 else 0)
  }

  /** The row after `UPDATE vehicles SET ...`: the supplied fields, a date
      given as empty text stored as NULL. */
  function VehiclePatched(v: Vehicle, req: VehiclePatch): (w: Vehicle)
    ensures w.matricula == v.matricula && w.deletedAt == v.deletedAt
    ensures req.alias.Some? ==> w.alias == req.alias.value
    ensures req.ultimoServicio.None? ==> w.ultimoServicio == v.ultimoServicio
    ensures req.ultimaRevision.None? ==> w.ultimaRevision == v.ultimaRevision
    ensures req.km.Some? ==> w.km == req.km.value
    ensures req.km.None? ==> w.km == v.km
    ensures req.alias.None? ==> w.alias == v.alias
    ensures req.ultimaRevision.Some? ==> (w.ultimaRevision.Some? <==> req.ultimaRevision.value != "")
    ensures req.ultimoServicio.Some? ==> (w.ultimoServicio.Some? <==> req.ultimoServicio.value != "")
  {
    v.(alias := Pick(req.alias, v.alias), km := Pick(req.km, v.km),
       ultimaRevision := if req.ultimaRevision.Some? then OrNull(req.ultimaRevision) else v.ultimaRevision,
       ultimoServicio := if req.ultimoServicio.Some? then OrNull(req.ultimoServicio) else v.ultimoServicio)
  }

  method UpdateVehicle(db: Fleet, id: int, req: VehiclePatch) returns (r: Response<int>)
    modifies db
    ensures var s := old(db.State());
            && (!LiveVehicle(s.vehicles, id) ==> r == NotFound("Vehículo") && db.State() == s)
            && (LiveVehicle(s.vehicles, id) && FieldCount(req) == 0
                ==> r == Fail(NOTHING_TO_UPDATE, 400) && db.State() == s)
            && (LiveVehicle(s.vehicles, id) && FieldCount(req) > 0
                ==> r == Success(Some(id), "Vehículo actualizado", 200)
                    && db.State() == s.(vehicles := s.vehicles[id - 1 := VehiclePatched(s.vehicles[id - 1], req)]))
  {
    if !LiveVehicle(db.vehicles, id) {
      return NotFound("Vehículo");
    }
    // The `updates` list and the row it describes, built field by field.
    var v := db.vehicles[id - 1];
    var updates := 0;
    if req.alias.Some? {
      updates, v := updates + 1, v.(alias := req.alias.value);
    }
    if req.km.Some? {
      updates, v := updates + 1, v.(km := req.km.value);
    }
    if req.ultimaRevision.Some? {
      updates, v := updates + 1, v.(ultimaRevision := OrNull(req.ultimaRevision));
    }
    if req.ultimoServicio.Some? {
      updates, v := updates + 1, v.(ultimoServicio := OrNull(req.ultimoServicio));
    }
    if updates == 0 {
      return Fail(NOTHING_TO_UPDATE, 400);
    }
    db.vehicles := db.vehicles[id - 1 := v];
    return Success(Some(id), "Vehículo actualizado", 200);
  }

  /** Unlike the ratchet of job creation and finalization, a direct update
      sets the odometer to whatever is given, lower readings included. */
  lemma UpdateCanLowerOdometer(v: Vehicle, km: int)
    requires km < v.km
    ensures VehiclePatched(v, VehiclePatch(None, Some(km), None, None)).km < v.km
  {
  }

  // ---------------------------------------------------------------------
  // Delete
  // ---------------------------------------------------------------------

  /** An assignment row of the vehicle whose job is live and `programado`
      or `activo` (the join drops rows without a job). */
  predicate ActiveAssignment(s: FleetState, vehicleId: int, k: int) {
    0 <= k < |s.assignments| && s.assignments[k].vehicleId == vehicleId
    && LiveJob(s.jobs, s.assignments[k].trabajoId)
    && !Terminal(s.jobs[s.assignments[k].trabajoId - 1].estado)
  }

  predicate HasActiveJobs(s: FleetState, vehicleId: int) {
    exists k :: 0 <= k < |s.assignments| && ActiveAssignment(s, vehicleId, k)
  }

  method DeleteVehicle(db: Fleet, id: int, clock: Clock) returns (r: Response<int>)
    modifies db
    ensures var s := old(db.State());
            && (!LiveVehicle(s.vehicles, id) ==> r == NotFound("Vehículo") && db.State() == s)
            && (LiveVehicle(s.vehicles, id) && HasActiveJobs(s, id)
                ==> r == Fail(HAS_ACTIVE_JOBS, 400) && db.State() == s)
            && (LiveVehicle(s.vehicles, id) && !HasActiveJobs(s, id)
                ==> r == Success(None, "Vehículo eliminado", 200)
                    && db.State()
                       == s.(vehicles := s.vehicles[id - 1 := s.vehicles[id - 1].(deletedAt := Some(Second(clock.now)))]))
  {
    if !LiveVehicle(db.vehicles, id) {
      return NotFound("Vehículo");
    }
    if HasActiveJobs(db.State(), id) {
      return Fail(HAS_ACTIVE_JOBS, 400);
    }
    db.vehicles := db.vehicles[id - 1 := db.vehicles[id - 1].(deletedAt := Some(Second(clock.now)))];
    return Success(None, "Vehículo eliminado", 200);
  }

  /** Every vehicle assigned to a live, unfinished job is live. */
  predicate ActiveFleetLive(s: FleetState) {
    forall k :: 0 <= k < |s.assignments| && ActiveAssignment(s, s.assignments[k].vehicleId, k)
                ==> LiveVehicle(s.vehicles, s.assignments[k].vehicleId)
  }

  /** The delete guard keeps every vehicle of an unfinished job live, and
      an accepted delete leaves plates unique. */
  lemma DeleteVehicleKeepsActiveFleet(s: FleetState, id: int, at: int)
    requires ActiveFleetLive(s) && LiveVehicle(s.vehicles, id) && !HasActiveJobs(s, id)
    ensures var t := s.(vehicles := s.vehicles[id - 1 := s.vehicles[id - 1].(deletedAt := Some(at))]);
            ActiveFleetLive(t) && (UniquePlates(s.vehicles) ==> UniquePlates(t.vehicles))
  {
    var t := s.(vehicles := s.vehicles[id - 1 := s.vehicles[id - 1].(deletedAt := Some(at))]);
    forall k | 0 <= k < |t.assignments| && ActiveAssignment(t, t.assignments[k].vehicleId, k)
      ensures LiveVehicle(t.vehicles, t.assignments[k].vehicleId)
    {
      assert ActiveAssignment(s, s.assignments[k].vehicleId, k);
      assert s.assignments[k].vehicleId != id;
    }
  }

  // ---------------------------------------------------------------------
  // Photos
  // ---------------------------------------------------------------------

  method UploadImages(db: Fleet, vehicleId: int, trabajoId: Option<int>, tipo: Option<string>,
                      url: Option<string>, userId: int)
    returns (r: Response<int>)
    modifies db
    ensures var s := old(db.State());
            && (!LiveVehicle(s.vehicles, vehicleId) ==> r == NotFound("Vehículo") && db.State() == s)
            && (LiveVehicle(s.vehicles, vehicleId) && ParseTipo(tipo).None?
                ==> r == Fail(JobsController.BAD_TIPO, 400) && db.State() == s)
            && (LiveVehicle(s.vehicles, vehicleId) && ParseTipo(tipo).Some? && url.None?
                ==> r == Fail(JobsController.NO_FILE, 400) && db.State() == s)
            && (LiveVehicle(s.vehicles, vehicleId) && ParseTipo(tipo).Some? && url.Some?
                ==> r == Created(Some(|s.images| + 1), "Imagen subida correctamente")
                    && db.State()
                       == s.(images := s.images + [Image(vehicleId, ParseTipo(tipo).value, url.value, trabajoId, userId)]))
  {
    if !LiveVehicle(db.vehicles, vehicleId) {
      return NotFound("Vehículo");
    }
    var t := ParseTipo(tipo);
    if t.None? {
      return Fail(JobsController.BAD_TIPO, 400);
    }
    if url.None? {
      return Fail(JobsController.NO_FILE, 400);
    }
    db.images := db.images + [Image(vehicleId, t.value, url.value, trabajoId, userId)];
    return Created(Some(|db.images|), "Imagen subida correctamente");
  }

  /** A photo uploaded here with a job id counts as that job's evidence. */
  lemma UploadCountsAsEvidence(images: seq<Image>, img: Image)
    requires img.trabajoId.Some?
    ensures img.tipo in Uploaded(images + [img], img.vehicleId, img.trabajoId.value)
  {
    assert (images + [img])[..|images|] == images;
  }

  /** The upload always appends, so a second photo for a job, vehicle and
      type already covered leaves two rows for that key, which the evidence
      upsert otherwise never does. */
  lemma UploadCanDuplicateEvidence(images: seq<Image>, k: nat, url: string, userId: int)
    requires k < |images| && images[k].trabajoId.Some?
    ensures !EvidenceKeyed(images + [Image(images[k].vehicleId, images[k].tipo, url, images[k].trabajoId, userId)])
  {
    var t := images + [Image(images[k].vehicleId, images[k].tipo, url, images[k].trabajoId, userId)];
    assert t[k] == images[k] && t[|images|].vehicleId == t[k].vehicleId;
  }

  /** The row ids of `SELECT * FROM vehicle_images WHERE vehicle_id = ?
      [AND trabajo_id = ?] ORDER BY created_at DESC`, newest first. */
  function ImageIds(images: seq<Image>, vehicleId: int, trabajoId: Option<int>): (ids: seq<int>)
    ensures forall i :: i in ids <==> 1 <= i <= |images| && images[i - 1].vehicleId == vehicleId
                                      && (trabajoId.Some? ==> images[i - 1].trabajoId == trabajoId)
    ensures forall a, b :: 0 <= a < b < |ids| ==> ids[a] > ids[b]
    ensures forall a :: 0 <= a < |ids| ==> 1 <= ids[a] <= |images|
  {
    if images == [] then []
    else
      var init := images[..|images| - 1];
      var last := images[|images| - 1];
      var rest := ImageIds(init, vehicleId, trabajoId);
      assert forall k :: 0 <= k < |init| ==> init[k] == images[k];
      (if last.vehicleId == vehicleId && (trabajoId.Some? ==> last.trabajoId == trabajoId) then [|images|] else [])
      + rest
  }

  /** `getVehicleImages`: no existence check, so an unknown vehicle lists
      nothing. */
  function GetVehicleImages(images: seq<Image>, vehicleId: int, trabajoId: Option<int>): (r: Response<seq<int>>)
    ensures r.status == 200 && r.body.success && r.body.data.Some?
    ensures r.body.data.value == ImageIds(images, vehicleId, trabajoId)
  {
    Success(Some(ImageIds(images, vehicleId, trabajoId)), "OK", 200)
  }

  /** Filtering by job lists a subset of the vehicle's photos. */
  lemma JobFilterNarrows(images: seq<Image>, vehicleId: int, trabajoId: int)
    ensures forall i :: i in ImageIds(images, vehicleId, Some(trabajoId)) ==> i in ImageIds(images, vehicleId, None)
  {
  }
}
