/** The record-level rules of the job workflow
    (`backend/src/controllers/trabajos.controller.js`): identifier
    allocation, the odometer ratchet, the assignment and personnel rows a
    request produces, the fields an update may touch, and the checks that
    guard finalization. The handlers that apply them are in `JobsController`. */
module JobRules {
  import opened Common
  import opened Store
  import opened Evidence
  import JobIdentifier

  // ---------------------------------------------------------------------
  // Identifier allocation
  // ---------------------------------------------------------------------

  /** `trabajos.identificador` of every row, in id order. */
  function Identifiers(jobs: seq<Job>): (r: seq<string>)
    ensures |r| == |jobs| && forall i :: 0 <= i < |jobs| ==> r[i] == jobs[i].identificador
  {
    seq(|jobs|, i requires 0 <= i < |jobs| => jobs[i].identificador)
  }

  /** `generateIdentificador`: the highest-id row whose identifier starts
      with `TRB-<year>-` (deleted rows included) gives the next number. */
  function NextIdentifier(jobs: seq<Job>, year: nat): (id: string)
    ensures JobIdentifier.HasPrefix(id, JobIdentifier.YearPrefix(year))
  {
    JobIdentifier.Generate(year, JobIdentifier.LastOfYear(Identifiers(jobs), year))
  }

  lemma IdentifiersAppend(jobs: seq<Job>, j: Job)
    ensures Identifiers(jobs + [j]) == Identifiers(jobs) + [j.identificador]
  {
    var l := Identifiers(jobs + [j]);
    var r := Identifiers(jobs) + [j.identificador];
    assert |l| == |r|;
    forall i | 0 <= i < |l| ensures l[i] == r[i] {
      if i < |jobs| {
        assert (jobs + [j])[i] == jobs[i];
      }
    }
  }

  /** When this year's identifiers so far are TRB-<year>-0001, -0002, ...,
      the allocated one is new and continues the run. */
  lemma NextIdentifierSequenced(jobs: seq<Job>, year: nat, j: Job)
    requires JobIdentifier.Sequenced(Identifiers(jobs), year)
    requires j.identificador == NextIdentifier(jobs, year)
    ensures j.identificador !in Identifiers(jobs)
    ensures j.identificador
            == JobIdentifier.Identifier(year, |JobIdentifier.OfYear(Identifiers(jobs), year)| + 1)
    ensures JobIdentifier.Sequenced(Identifiers(jobs + [j]), year)
  {
    JobIdentifier.GeneratePreservesSequenced(Identifiers(jobs), year);
    IdentifiersAppend(jobs, j);
  }

  // ---------------------------------------------------------------------
  // The odometer ratchet
  // ---------------------------------------------------------------------

  /** An odometer reading for a vehicle id. */
  datatype Reading = Reading(vehicleId: int, km: int)

  function Max(a: int, b: int): (m: int)
    ensures m >= a && m >= b && (m == a || m == b)
  {
    if a < b then b else a
  }

  /** Two vehicle rows that differ at most in the odometer and the service date. */
  predicate SameButOdometer(a: Vehicle, b: Vehicle) {
    a.(km := b.km, ultimoServicio := b.ultimoServicio) == b
  }

  /** `UPDATE vehicles SET kilometros_actuales = km [, fecha_ultimo_servicio = stamp]
      WHERE id = vehicleId AND kilometros_actuales < km`; `stamp` is `None`
      when the statement does not set the service date. Deleted vehicles
      are not excluded. */
  function Ratchet(vs: seq<Vehicle>, r: Reading, stamp: Option<string>): (out: seq<Vehicle>)
    ensures |out| == |vs|
    ensures forall k :: 0 <= k < |vs|
                        ==> out[k].km == (if k + 1 == r.vehicleId then Max(vs[k].km, r.km) else vs[k].km)
    ensures forall k :: 0 <= k < |vs|
                        ==> out[k].ultimoServicio
                            == (if out[k].km != vs[k].km && stamp.Some? then stamp else vs[k].ultimoServicio)
    ensures forall k :: 0 <= k < |vs| ==> SameButOdometer(out[k], vs[k])
  {
    seq(|vs|, k requires 0 <= k < |vs| =>
      if k + 1 == r.vehicleId && vs[k].km < r.km
      then vs[k].(km := r.km, ultimoServicio := if stamp.Some? then stamp else vs[k].ultimoServicio)
      else vs[k])
  }

  /** The ratchet applied for each reading in turn. An odometer never goes down. */
  function RatchetAll(vs: seq<Vehicle>, rs: seq<Reading>, stamp: Option<string>): (out: seq<Vehicle>)
    ensures |out| == |vs|
    ensures forall k :: 0 <= k < |vs| ==> out[k].km >= vs[k].km
  {
    if rs == [] then vs
    else Ratchet(RatchetAll(vs, rs[..|rs| - 1], stamp), rs[|rs| - 1], stamp)
  }

  /** Every reading given for a vehicle is reached. */
  lemma {:induction false} RatchetReaches(vs: seq<Vehicle>, rs: seq<Reading>, stamp: Option<string>, j: nat, k: nat)
    requires j < |rs| && k < |vs| && rs[j].vehicleId == k + 1
    ensures RatchetAll(vs, rs, stamp)[k].km >= rs[j].km
  {
    var init := rs[..|rs| - 1];
    var mid := RatchetAll(vs, init, stamp);
    assert RatchetAll(vs, rs, stamp) == Ratchet(mid, rs[|rs| - 1], stamp);
    if j < |rs| - 1 {
      assert init[j] == rs[j];
      RatchetReaches(vs, init, stamp, j, k);
    }
  }

  /** The final odometer is the old one or one of the readings given for
      that vehicle: with `RatchetReaches`, it is the maximum of the two. */
  lemma {:induction false} RatchetAttained(vs: seq<Vehicle>, rs: seq<Reading>, stamp: Option<string>)
    ensures var out := RatchetAll(vs, rs, stamp);
            forall k :: 0 <= k < |vs|
                        ==> out[k].km == vs[k].km
                            || exists j :: 0 <= j < |rs| && rs[j].vehicleId == k + 1 && rs[j].km == out[k].km
  {
    if rs != [] {
      var init := rs[..|rs| - 1];
      RatchetAttained(vs, init, stamp);
      var mid := RatchetAll(vs, init, stamp);
      var out := RatchetAll(vs, rs, stamp);
      forall k | 0 <= k < |vs|
        ensures out[k].km == vs[k].km
                || exists j :: 0 <= j < |rs| && rs[j].vehicleId == k + 1 && rs[j].km == out[k].km
      {
        if out[k].km != mid[k].km {
          assert rs[|rs| - 1].vehicleId == k + 1 && rs[|rs| - 1].km == out[k].km;
        } else if mid[k].km != vs[k].km {
          var j :| 0 <= j < |init| && init[j].vehicleId == k + 1 && init[j].km == mid[k].km;
          assert rs[j] == init[j];
        }
      }
    }
  }

  /** With a stamp, the service date is set exactly on the vehicles whose
      odometer rose; without one it is never touched. Nothing else in a
      vehicle row changes. */
  lemma {:induction false} RatchetStamp(vs: seq<Vehicle>, rs: seq<Reading>, stamp: Option<string>)
    ensures var out := RatchetAll(vs, rs, stamp);
            forall k :: 0 <= k < |vs|
                        ==> && out[k].ultimoServicio
                               == (if out[k].km != vs[k].km && stamp.Some? then stamp else vs[k].ultimoServicio)
                            && SameButOdometer(out[k], vs[k])
  {
    if rs != [] {
      var init := rs[..|rs| - 1];
      RatchetStamp(vs, init, stamp);
      var mid := RatchetAll(vs, init, stamp);
      var out := RatchetAll(vs, rs, stamp);
      forall k | 0 <= k < |vs|
        ensures out[k].ultimoServicio
                == (if out[k].km != vs[k].km && stamp.Some? then stamp else vs[k].ultimoServicio)
      {
        assert out[k].km >= mid[k].km >= vs[k].km;
      }
    }
  }

  /** A vehicle no reading names keeps its row. */
  lemma {:induction false} RatchetUntouched(vs: seq<Vehicle>, rs: seq<Reading>, stamp: Option<string>, k: nat)
    requires k < |vs|
    requires forall j :: 0 <= j < |rs| ==> rs[j].vehicleId != k + 1
    ensures RatchetAll(vs, rs, stamp)[k] == vs[k]
  {
    if rs != [] {
      var init := rs[..|rs| - 1];
      forall j | 0 <= j < |init| ensures init[j].vehicleId != k + 1 {
        assert init[j] == rs[j];
      }
      RatchetUntouched(vs, init, stamp, k);
    }
  }

  // ---------------------------------------------------------------------
  // Assignment and personnel rows
  // ---------------------------------------------------------------------

  /** An entry of the request's `vehiculos` list. */
  datatype VehicleReq = VehicleReq(vehicleId: Option<int>, responsable: Option<int>, kmInicio: Option<int>)

  /** Every entry names a vehicle and a person in charge: an absent one is an
      `undefined` bind parameter, which the driver refuses. */
  predicate Bound(vs: seq<VehicleReq>) {
    forall i :: 0 <= i < |vs| ==> vs[i].vehicleId.Some? && vs[i].responsable.Some?
  }

  /** The `trabajo_vehiculos` rows inserted for `vehiculos`, in order; a
      falsy `kilometros_inicio` is stored as NULL. */
  function Assignments(id: int, vs: seq<VehicleReq>): (r: seq<Assignment>)
    requires Bound(vs)
    ensures |r| == |vs|
    ensures forall i :: 0 <= i < |vs|
                        ==> && r[i].trabajoId == id && r[i].vehicleId == vs[i].vehicleId.value
                            && r[i].responsable == vs[i].responsable.value && r[i].kmFin.None?
                            && (r[i].kmInicio.Some? <==> TruthyInt(vs[i].kmInicio))
                            && (r[i].kmInicio.Some? ==> r[i].kmInicio == vs[i].kmInicio)
  {
    seq(|vs|, i requires 0 <= i < |vs| && Bound(vs) =>
      Assignment(id, vs[i].vehicleId.value, vs[i].responsable.value,
                 if TruthyInt(vs[i].kmInicio) then vs[i].kmInicio else None, None))
  }

  /** The readings creation ratchets: one per entry with a truthy
      `kilometros_inicio`, in order. */
  function StartReadings(vs: seq<VehicleReq>): (r: seq<Reading>)
    requires Bound(vs)
    ensures |r| <= |vs|
    ensures forall x :: x in r <==> exists i :: 0 <= i < |vs| && TruthyInt(vs[i].kmInicio)
                                              && x == Reading(vs[i].vehicleId.value, vs[i].kmInicio.value)
  {
    if vs == [] then []
    else
      var init := vs[..|vs| - 1];
      var last := vs[|vs| - 1];
      assert forall i :: 0 <= i < |init| ==> init[i] == vs[i];
      StartReadings(init)
      + (if TruthyInt(last.kmInicio) then [Reading(last.vehicleId.value, last.kmInicio.value)] else [])
  }

  /** The `trabajo_usuarios` pairs `INSERT IGNORE` leaves for `usuarios`:
      one per distinct user. */
  function Personnel(id: int, us: seq<int>): (r: set<(int, int)>)
    ensures forall p :: p in r <==> p.0 == id && p.1 in us
  {
    var r := set u | u in us :: (id, u);
    assert forall u :: u in us ==> (id, u) in r;
    r
  }

  /** `DELETE FROM trabajo_vehiculos WHERE trabajo_id = ?`, keeping the
      order of the other rows. */
  function Unassign(rows: seq<Assignment>, id: int): (r: seq<Assignment>)
    ensures |r| <= |rows|
    ensures forall a :: a in r <==> a in rows && a.trabajoId != id
  {
    if rows == [] then []
    else
      var init := rows[..|rows| - 1];
      var last := rows[|rows| - 1];
      assert rows == init + [last];
      Unassign(init, id) + (if last.trabajoId != id then [last] else [])
  }

  /** `DELETE FROM trabajo_usuarios WHERE trabajo_id = ?`. */
  function Unstaff(personnel: set<(int, int)>, id: int): (r: set<(int, int)>)
    ensures forall p :: p in r <==> p in personnel && p.0 != id
  {
    set p | p in personnel && p.0 != id
  }

  /** Replacing the vehicle list leaves exactly the new rows for the job,
      and the other jobs' rows as they were. */
  lemma ReplaceAssignments(rows: seq<Assignment>, id: int, vs: seq<VehicleReq>)
    requires Bound(vs)
    ensures var r := Unassign(rows, id) + Assignments(id, vs);
            && (forall a :: a in r && a.trabajoId != id <==> a in rows && a.trabajoId != id)
            && (forall a :: a in r && a.trabajoId == id <==> a in Assignments(id, vs))
  {
  }

  /** Replacing the personnel list leaves exactly the listed users on the
      job, each once, and the other jobs' staff rows as they were. */
  lemma ReplacePersonnel(personnel: set<(int, int)>, id: int, us: seq<int>)
    ensures var r := Unstaff(personnel, id) + Personnel(id, us);
            && (forall u :: (id, u) in r <==> u in us)
            && (forall p :: p in r && p.0 != id <==> p in personnel && p.0 != id)
  {
  }

  // ---------------------------------------------------------------------
  // Update
  // ---------------------------------------------------------------------

  /** The body of an update; `None` is a field the body leaves out. */
  datatype UpdateReq = UpdateReq(nombre: Option<string>, tipo: Option<string>,
                                 fechaInicio: Option<int>, fechaFin: Option<int>,
                                 estado: Option<string>,
                                 vehiculos: Option<seq<VehicleReq>>, usuarios: Option<seq<int>>)

  /** The states an update may write: `programado` and `activo`; any other
      value is dropped without an error. */
  function WritableEstado(e: Option<string>): (r: Option<Estado>)
    ensures r.Some? <==> e == Some("programado") || e == Some("activo")
    ensures r.Some? ==> !Terminal(r.value)
    ensures r == Some(Programado) <==> e == Some("programado")
  {
    if e == Some("programado") then Some(Programado)
    else if e == Some("activo") then Some(Activo)
    else None
  }

  /** The `UPDATE trabajos SET ...` built from the fields present. */
  function ApplyUpdate(j: Job, req: UpdateReq): (r: Job)
    ensures r.identificador == j.identificador && r.createdBy == j.createdBy
    ensures r.motivo == j.motivo && r.deletedAt == j.deletedAt
  {
    var e := WritableEstado(req.estado);
    j.(nombre := Pick(req.nombre, j.nombre), tipo := Pick(req.tipo, j.tipo),
       fechaInicio := Pick(req.fechaInicio, j.fechaInicio), fechaFin := Pick(req.fechaFin, j.fechaFin),
       estado := Pick(e, j.estado))
  }

  /** A field left out of the body keeps its value; a field given takes it. */
  lemma UpdateOnlySupplied(j: Job, req: UpdateReq)
    ensures var r := ApplyUpdate(j, req);
            && (req.nombre.None? ==> r.nombre == j.nombre) && (req.nombre.Some? ==> r.nombre == req.nombre.value)
            && (req.tipo.None? ==> r.tipo == j.tipo) && (req.tipo.Some? ==> r.tipo == req.tipo.value)
            && (req.fechaInicio.None? ==> r.fechaInicio == j.fechaInicio)
            && (req.fechaInicio.Some? ==> r.fechaInicio == req.fechaInicio.value)
            && (req.fechaFin.None? ==> r.fechaFin == j.fechaFin)
            && (req.fechaFin.Some? ==> r.fechaFin == req.fechaFin.value)
            && (WritableEstado(req.estado).None? ==> r.estado == j.estado)
  {
  }

  /** An update never puts a job in a finished state. */
  lemma UpdateNeverFinalizes(j: Job, req: UpdateReq)
    requires !Terminal(j.estado)
    ensures !Terminal(ApplyUpdate(j, req).estado)
  {
  }

  /** Unlike creation, an update does not compare the dates: an end before
      the start is stored. */
  lemma UpdateSkipsDateCheck(j: Job, req: UpdateReq)
    requires req.fechaInicio.None? && req.fechaFin == Some(j.fechaInicio - 1)
    ensures ApplyUpdate(j, req).fechaFin < ApplyUpdate(j, req).fechaInicio
  {
  }

  // ---------------------------------------------------------------------
  // Finalization checks
  // ---------------------------------------------------------------------

  /** An entry of `vehiculos_km`. */
  datatype KmReading = KmReading(vehicleId: Option<int>, kmFin: Option<int>)

  datatype FinalizeReq = FinalizeReq(motivo: Option<string>, kms: seq<KmReading>)

  /** The distinct truthy vehicle ids of the job's assignment rows, in the
      order they first appear (`[...new Set(ids.filter(Boolean))]`). */
  function AssignedVehicles(rows: seq<Assignment>, id: int): (r: seq<int>)
    ensures forall v :: v in r <==> v != 0 && exists k :: 0 <= k < |rows| && rows[k].trabajoId == id
                                                        && rows[k].vehicleId == v
    ensures forall i, j :: 0 <= i < j < |r| ==> r[i] != r[j]
  {
    if rows == [] then []
    else
      var init := rows[..|rows| - 1];
      var last := rows[|rows| - 1];
      var rest := AssignedVehicles(init, id);
      assert forall k :: 0 <= k < |init| ==> init[k] == rows[k];
      if last.trabajoId == id && last.vehicleId != 0 && last.vehicleId !in rest then rest + [last.vehicleId]
      else rest
  }

  /** `existing.some(row => row.responsable_user_id === req.user.id)`. */
  predicate IsResponsible(rows: seq<Assignment>, id: int, userId: int) {
    exists k :: 0 <= k < |rows| && rows[k].trabajoId == id && rows[k].responsable == userId
  }

  /** `vehiculos_km.find(v => v.vehicle_id === vehicleId)`. */
  function FindKm(kms: seq<KmReading>, vehicleId: int): (r: Option<nat>)
    ensures r.Some? ==> r.value < |kms| && kms[r.value].vehicleId == Some(vehicleId)
    ensures r.Some? ==> forall k :: 0 <= k < r.value ==> kms[k].vehicleId != Some(vehicleId)
    ensures r.None? ==> forall k :: 0 <= k < |kms| ==> kms[k].vehicleId != Some(vehicleId)
  {
    if kms == [] then None
    else if kms[0].vehicleId == Some(vehicleId) then Some(0)
    else
      var r := FindKm(kms[1..], vehicleId);
      if r.Some? then Some(r.value + 1) else None
  }

  /** `!kmData?.kilometros_fin`: no entry, or the first one has no truthy
      reading (0 counts as missing). */
  predicate KmMissing(kms: seq<KmReading>, vehicleId: int) {
    var f := FindKm(kms, vehicleId);
    f.None? || !TruthyInt(kms[f.value].kmFin)
  }

  /** The vehicle has every required photo for the job. */
  predicate EvidenceComplete(images: seq<Image>, vehicleId: int, id: int) {
    Missing(Uploaded(images, vehicleId, id)) == []
  }

  /** The first entry of `vids`, in order, that `ok` refuses. */
  function FirstRefused(ok: int -> bool, vids: seq<int>): (r: Option<int>)
    ensures r.Some? ==> r.value in vids && !ok(r.value)
    ensures r.Some? ==> exists i :: 0 <= i < |vids| && vids[i] == r.value
                                    && forall i' :: 0 <= i' < i ==> ok(vids[i'])
    ensures r.None? <==> forall i :: 0 <= i < |vids| ==> ok(vids[i])
  {
    if vids == [] then None
    else if !ok(vids[0]) then Some(vids[0])
    else
      var r := FirstRefused(ok, vids[1..]);
      assert forall i :: 1 <= i < |vids| ==> vids[i] == vids[1..][i - 1];
      if r.Some? then
        var i :| 0 <= i < |vids[1..]| && vids[1..][i] == r.value
                 && forall i' :: 0 <= i' < i ==> ok(vids[1..][i']);
        assert vids[i + 1] == r.value && forall i' :: 0 <= i' < i + 1 ==> ok(vids[i']);
        r
      else r
  }

  /** The first vehicle, in `vids` order, that lacks a required photo for the job. */
  function FirstIncomplete(images: seq<Image>, id: int, vids: seq<int>): (r: Option<int>)
    ensures r.Some? ==> r.value in vids && !EvidenceComplete(images, r.value, id)
    ensures r.Some? ==> exists i :: 0 <= i < |vids| && vids[i] == r.value
                                    && forall i' :: 0 <= i' < i ==> EvidenceComplete(images, vids[i'], id)
    ensures r.None? <==> forall i :: 0 <= i < |vids| ==> EvidenceComplete(images, vids[i], id)
  {
    FirstRefused(v => EvidenceComplete(images, v, id), vids)
  }

  /** The first vehicle, in `vids` order, without a final reading. */
  function FirstWithoutKm(kms: seq<KmReading>, vids: seq<int>): (r: Option<int>)
    ensures r.Some? ==> r.value in vids && KmMissing(kms, r.value)
    ensures r.Some? ==> exists i :: 0 <= i < |vids| && vids[i] == r.value
                                    && forall i' :: 0 <= i' < i ==> !KmMissing(kms, vids[i'])
    ensures r.None? <==> forall i :: 0 <= i < |vids| ==> !KmMissing(kms, vids[i])
  {
    FirstRefused(v => !KmMissing(kms, v), vids)
  }

  /** The scan checks the first vehicle, then moves on to the rest. */
  lemma FirstIncompleteStep(images: seq<Image>, id: int, vids: seq<int>)
    requires vids != []
    ensures FirstIncomplete(images, id, vids)
            == if !EvidenceComplete(images, vids[0], id) then Some(vids[0]) else FirstIncomplete(images, id, vids[1..])
  {
  }

  lemma FirstWithoutKmStep(kms: seq<KmReading>, vids: seq<int>)
    requires vids != []
    ensures FirstWithoutKm(kms, vids)
            == if KmMissing(kms, vids[0]) then Some(vids[0]) else FirstWithoutKm(kms, vids[1..])
  {
  }

  const NOT_RESPONSIBLE := "Solo el responsable puede finalizar este trabajo"
  const ALREADY_FINISHED := "El trabajo ya está finalizado"
  const REASON_REQUIRED := "Es obligatorio indicar el motivo de finalización anticipada"

  function MissingEvidenceMessage(vehicleId: int, missing: seq<Tipo>): string {
    "Faltan evidencias del vehículo " + IntToString(vehicleId) + ": " + Join(Names(missing), ", ")
  }

  function MissingKmMessage(vehicleId: int): string {
    "Faltan kilómetros finales para el vehículo " + IntToString(vehicleId)
  }

  /** `!motivo?.trim()`. */
  predicate Blank(motivo: Option<string>) {
    motivo.None? || Trim(motivo.value) == ""
  }

  /** Every `vehiculos_km` entry has both fields; otherwise the first write
      meets an `undefined` bind parameter. */
  predicate KmsBound(kms: seq<KmReading>) {
    forall i :: 0 <= i < |kms| ==> kms[i].vehicleId.Some? && kms[i].kmFin.Some?
  }

  function Readings(kms: seq<KmReading>): (r: seq<Reading>)
    requires KmsBound(kms)
    ensures |r| == |kms|
    ensures forall i :: 0 <= i < |kms| ==> r[i] == Reading(kms[i].vehicleId.value, kms[i].kmFin.value)
  {
    seq(|kms|, i requires 0 <= i < |kms| && KmsBound(kms) =>
      Reading(kms[i].vehicleId.value, kms[i].kmFin.value))
  }

  /** `UPDATE trabajo_vehiculos SET kilometros_fin = km WHERE trabajo_id = id AND vehicle_id = r.vehicleId`. */
  function SetKmFin(rows: seq<Assignment>, id: int, r: Reading): (out: seq<Assignment>)
    ensures |out| == |rows|
    ensures forall k :: 0 <= k < |rows| && rows[k].trabajoId == id && rows[k].vehicleId == r.vehicleId
                        ==> out[k] == rows[k].(kmFin := Some(r.km))
    ensures forall k :: 0 <= k < |rows| && !(rows[k].trabajoId == id && rows[k].vehicleId == r.vehicleId)
                        ==> out[k] == rows[k]
  {
    seq(|rows|, k requires 0 <= k < |rows| =>
      if rows[k].trabajoId == id && rows[k].vehicleId == r.vehicleId then rows[k].(kmFin := Some(r.km)) else rows[k])
  }

  /** The writes for each reading in turn; only `kilometros_fin` ever changes. */
  function SetKmFinAll(rows: seq<Assignment>, id: int, rs: seq<Reading>): (out: seq<Assignment>)
    ensures |out| == |rows|
    ensures forall k :: 0 <= k < |rows| ==> out[k].(kmFin := rows[k].kmFin) == rows[k]
  {
    if rs == [] then rows
    else SetKmFin(SetKmFinAll(rows, id, rs[..|rs| - 1]), id, rs[|rs| - 1])
  }

  /** A row of another job, or of a vehicle no reading names, is left as it was. */
  lemma {:induction false} SetKmFinAllUntouched(rows: seq<Assignment>, id: int, rs: seq<Reading>, k: nat)
    requires k < |rows|
    requires rows[k].trabajoId != id || forall j :: 0 <= j < |rs| ==> rs[j].vehicleId != rows[k].vehicleId
    ensures SetKmFinAll(rows, id, rs)[k] == rows[k]
  {
    if rs != [] {
      var init := rs[..|rs| - 1];
      assert forall j :: 0 <= j < |init| ==> init[j] == rs[j];
      SetKmFinAllUntouched(rows, id, init, k);
    }
  }

  /** A row of the job ends up with the last reading given for its vehicle. */
  lemma {:induction false} SetKmFinAllRecords(rows: seq<Assignment>, id: int, rs: seq<Reading>, k: nat, j: nat)
    requires k < |rows| && rows[k].trabajoId == id
    requires j < |rs| && rs[j].vehicleId == rows[k].vehicleId
    requires forall j' :: j < j' < |rs| ==> rs[j'].vehicleId != rows[k].vehicleId
    ensures SetKmFinAll(rows, id, rs)[k].kmFin == Some(rs[j].km)
  {
    var init := rs[..|rs| - 1];
    var mid := SetKmFinAll(rows, id, init);
    assert mid[k].trabajoId == id && mid[k].vehicleId == rows[k].vehicleId;
    if j < |rs| - 1 {
      forall j' | j < j' < |init| ensures init[j'].vehicleId != rows[k].vehicleId {
        assert init[j'] == rs[j'];
      }
      SetKmFinAllRecords(rows, id, init, k, j);
    }
  }

  // ---------------------------------------------------------------------
  // Calendar month
  // ---------------------------------------------------------------------

  /** `parseInt(x) || current`: an absent, unparsable or zero query value
      falls back to the current one. */
  function OrCurrent(x: Option<int>, current: int): (r: int)
    ensures TruthyInt(x) ==> r == x.value
    ensures !TruthyInt(x) ==> r == current
  {
    if TruthyInt(x) then x.value else current
  }

  /** The month after `(y, m)`: December rolls over to January of the next year. */
  function NextMonth(y: int, m: int): (r: (int, int))
  {
    if m == 12 then (y + 1, 1) else (y, m + 1)
  }

  /** For a calendar month, the next month is a calendar month and comes
      exactly one month later. */
  lemma NextMonthFollows(y: int, m: int)
    requires 1 <= m <= 12
    ensures 1 <= NextMonth(y, m).1 <= 12
    ensures NextMonth(y, m).0 * 12 + NextMonth(y, m).1 == y * 12 + m + 1
  {
  }

  /** `${y}-${String(m).padStart(2,'0')}-01 00:00:00`. */
  function MonthStart(y: int, m: int): string {
    IntToString(y) + "-" + PadStart(IntToString(m), 2, '0') + "-01 00:00:00"
  }

  /** The `[desde, hasta)` bounds of the calendar query. */
  function CalendarRange(year: Option<int>, month: Option<int>, nowYear: int, nowMonth: int): (string, string)
  {
    var y := OrCurrent(year, nowYear);
    var m := OrCurrent(month, nowMonth);
    var (ny, nm) := NextMonth(y, m);
    (MonthStart(y, m), MonthStart(ny, nm))
  }
}
