/** Photo evidence of a job (`IMAGEN_TIPOS_REQUERIDOS` in
    `backend/src/config/constants.js` and its uses in
    `backend/src/controllers/trabajos.controller.js`): which categories a
    vehicle still lacks, the upsert that keeps one photo per category, and the
    progress record. */
module Evidence {
  import opened Common
  import opened Store

  /** The required categories, in the order they are listed and reported. */
  const TIPOS := [Frontal, LateralDerecho, Trasera, LateralIzquierdo, Liquidos]
  const TIPOS_TEXT := "frontal, lateral_derecho, trasera, lateral_izquierdo, liquidos"

  function TipoName(t: Tipo): string {
    match t
    case Frontal => "frontal"
    case LateralDerecho => "lateral_derecho"
    case Trasera => "trasera"
    case LateralIzquierdo => "lateral_izquierdo"
    case Liquidos => "liquidos"
  }

  /** `IMAGEN_TIPOS_REQUERIDOS.includes(text)`, giving the category. */
  function ParseTipo(text: Option<string>): (r: Option<Tipo>)
    ensures r.Some? ==> text == Some(TipoName(r.value))
    ensures r.None? ==> forall t :: text != Some(TipoName(t))
  {
    if text == Some("frontal") then Some(Frontal)
    else if text == Some("lateral_derecho") then Some(LateralDerecho)
    else if text == Some("trasera") then Some(Trasera)
    else if text == Some("lateral_izquierdo") then Some(LateralIzquierdo)
    else if text == Some("liquidos") then Some(Liquidos)
    else
      assert forall t :: text != Some(TipoName(t)) by {
        forall t ensures text != Some(TipoName(t)) {
          TipoNameCases(t);
        }
      }
      None
  }

  lemma TipoNameCases(t: Tipo)
    ensures TipoName(t) in ["frontal", "lateral_derecho", "trasera", "lateral_izquierdo", "liquidos"]
  {
  }

  /** Every name parses back to its category. */
  lemma ParseTipoName(t: Tipo)
    ensures ParseTipo(Some(TipoName(t))) == Some(t)
  {
    match t
    case Frontal =>
    case LateralDerecho =>
    case Trasera =>
    case LateralIzquierdo =>
    case Liquidos =>
  }

  /** Different categories have different names. */
  lemma TipoNameInjective(a: Tipo, b: Tipo)
    requires a != b
    ensures TipoName(a) != TipoName(b)
  {
    ParseTipoName(a);
    ParseTipoName(b);
  }

  function Rank(t: Tipo): nat {
    match t
    case Frontal => 0
    case LateralDerecho => 1
    case Trasera => 2
    case LateralIzquierdo => 3
    case Liquidos => 4
  }

  /** Categories listed strictly in the required order. */
  predicate InOrder(ts: seq<Tipo>) {
    forall i, j :: 0 <= i < j < |ts| ==> Rank(ts[i]) < Rank(ts[j])
  }

  /** `tiposSubidos`: the categories of the rows for this vehicle and job,
      in row order. */
  function Uploaded(images: seq<Image>, vehicleId: int, trabajoId: int): (r: seq<Tipo>)
    ensures |r| <= |images|
  {
    if images == [] then []
    else
      var last := images[|images| - 1];
      Uploaded(images[..|images| - 1], vehicleId, trabajoId)
      + (if last.vehicleId == vehicleId && last.trabajoId == Some(trabajoId) then [last.tipo] else [])
  }

  /** A category counts as uploaded exactly when a row of this vehicle and
      job has it. */
  lemma {:induction false} UploadedMembers(images: seq<Image>, vehicleId: int, trabajoId: int)
    ensures forall t :: t in Uploaded(images, vehicleId, trabajoId)
                        <==> exists k :: 0 <= k < |images| && images[k].vehicleId == vehicleId
                                         && images[k].trabajoId == Some(trabajoId) && images[k].tipo == t
  {
    if images != [] {
      var init := images[..|images| - 1];
      assert forall k :: 0 <= k < |init| ==> init[k] == images[k];
      UploadedMembers(init, vehicleId, trabajoId);
    }
  }

  lemma EveryTipoListed(t: Tipo)
    ensures t in TIPOS
  {
    assert TIPOS[Rank(t)] == t;
  }

  /** `[t]` when `t` was not uploaded. */
  function Absent(t: Tipo, uploaded: seq<Tipo>): (r: seq<Tipo>)
    ensures r == [] <==> t in uploaded
  {
    if t in uploaded then [] else [t]
  }

  /** `faltantes`: the filter of the required categories by "not uploaded",
      written out over the five of them in required order. */
  function Missing(uploaded: seq<Tipo>): (r: seq<Tipo>)
    ensures |r| <= 5
  {
    Absent(Frontal, uploaded) + Absent(LateralDerecho, uploaded) + Absent(Trasera, uploaded)
    + Absent(LateralIzquierdo, uploaded) + Absent(Liquidos, uploaded)
  }

  /** Appending a category ranked after everything listed keeps the order. */
  lemma InOrderAppend(a: seq<Tipo>, t: Tipo, uploaded: seq<Tipo>)
    requires InOrder(a) && forall x :: x in a ==> Rank(x) < Rank(t)
    ensures InOrder(a + Absent(t, uploaded))
  {
    var r := a + Absent(t, uploaded);
    forall i, j | 0 <= i < j < |r| ensures Rank(r[i]) < Rank(r[j]) {
      if j >= |a| {
        assert r[i] in a;
      }
    }
  }

  /** A category is missing exactly when it was not uploaded, and the
      missing ones are listed in required order. */
  lemma MissingMembers(uploaded: seq<Tipo>)
    ensures forall t :: t in Missing(uploaded) <==> t !in uploaded
    ensures InOrder(Missing(uploaded))
  {
    MissingInOrder(uploaded);
    forall t ensures t in Missing(uploaded) <==> t !in uploaded {
      MissingHas(uploaded, t);
    }
  }

  lemma MissingHas(uploaded: seq<Tipo>, t: Tipo)
    ensures t in Missing(uploaded) <==> t !in uploaded
  {
    var m := Missing(uploaded);
    match t
    case Frontal =>
    case LateralDerecho =>
    case Trasera =>
    case LateralIzquierdo =>
    case Liquidos =>
  }

  lemma MissingInOrder(uploaded: seq<Tipo>)
    ensures InOrder(Missing(uploaded))
  {
    var a1 := Absent(Frontal, uploaded);
    var a2 := a1 + Absent(LateralDerecho, uploaded);
    var a3 := a2 + Absent(Trasera, uploaded);
    var a4 := a3 + Absent(LateralIzquierdo, uploaded);
    InOrderAppend([], Frontal, uploaded);
    InOrderAppend(a1, LateralDerecho, uploaded);
    InOrderAppend(a2, Trasera, uploaded);
    InOrderAppend(a3, LateralIzquierdo, uploaded);
    InOrderAppend(a4, Liquidos, uploaded);
  }

  /** Every category occurs in `ts`. */
  predicate AllPresent(ts: seq<Tipo>) {
    forall t :: t in ts
  }

  /** Nothing is missing exactly when every category has been uploaded. */
  lemma MissingEmptyIffComplete(uploaded: seq<Tipo>)
    ensures Missing(uploaded) == [] <==> AllPresent(uploaded)
  {
    var r := Missing(uploaded);
    MissingMembers(uploaded);
    if r != [] {
      assert r[0] in r;
    }
  }

  function Names(ts: seq<Tipo>): (r: seq<string>)
    ensures |r| == |ts| && forall i :: 0 <= i < |ts| ==> r[i] == TipoName(ts[i])
  {
    seq(|ts|, i requires 0 <= i < |ts| => TipoName(ts[i]))
  }

  /** At most one job photo per (vehicle, job, category). */
  predicate EvidenceKeyed(images: seq<Image>) {
    forall a, b :: 0 <= a < b < |images| && images[a].trabajoId.Some?
                   ==> !(images[a].vehicleId == images[b].vehicleId && images[a].trabajoId == images[b].trabajoId
                         && images[a].tipo == images[b].tipo)
  }

  /** The row `SELECT id ... WHERE vehicle_id = ? AND trabajo_id = ? AND tipo_imagen = ?`
      returns first. */
  function FindImage(images: seq<Image>, vehicleId: int, trabajoId: int, tipo: Tipo): (r: Option<nat>)
    ensures r.Some? ==> r.value < |images| && images[r.value].vehicleId == vehicleId
                        && images[r.value].trabajoId == Some(trabajoId) && images[r.value].tipo == tipo
    ensures r.Some? ==> forall k :: 0 <= k < r.value
                          ==> !(images[k].vehicleId == vehicleId && images[k].trabajoId == Some(trabajoId)
                                && images[k].tipo == tipo)
    ensures r.None? ==> forall k :: 0 <= k < |images|
                          ==> !(images[k].vehicleId == vehicleId && images[k].trabajoId == Some(trabajoId)
                                && images[k].tipo == tipo)
  {
    if images == [] then None
    else if images[0].vehicleId == vehicleId && images[0].trabajoId == Some(trabajoId) && images[0].tipo == tipo
    then Some(0)
    else
      var r := FindImage(images[1..], vehicleId, trabajoId, tipo);
      if r.Some? then Some(r.value + 1) else None
  }

  /** The evidence upload's write: overwrite the existing photo of that
      category, or add the first one. */
  function Upsert(images: seq<Image>, vehicleId: int, trabajoId: int, tipo: Tipo, url: string, uploader: int): (r: seq<Image>)
    ensures FindImage(images, vehicleId, trabajoId, tipo).Some? ==> |r| == |images|
    ensures FindImage(images, vehicleId, trabajoId, tipo).None? ==> |r| == |images| + 1
  {
    match FindImage(images, vehicleId, trabajoId, tipo)
    case Some(k) => images[k := images[k].(url := url, uploadedBy := uploader)]
    case None => images + [Image(vehicleId, tipo, url, Some(trabajoId), uploader)]
  }

  /** The upsert keeps one photo per key, and afterwards the key's photo is
      the new one while every other row is untouched. */
  lemma UpsertKeepsKeyed(images: seq<Image>, vehicleId: int, trabajoId: int, tipo: Tipo, url: string, uploader: int)
    requires EvidenceKeyed(images)
    ensures var r := Upsert(images, vehicleId, trabajoId, tipo, url, uploader);
            && EvidenceKeyed(r)
            && FindImage(r, vehicleId, trabajoId, tipo).Some?
            && r[FindImage(r, vehicleId, trabajoId, tipo).value].url == url
            && forall k :: 0 <= k < |images| && !(images[k].vehicleId == vehicleId
                             && images[k].trabajoId == Some(trabajoId) && images[k].tipo == tipo)
                           ==> r[k] == images[k]
  {
    var r := Upsert(images, vehicleId, trabajoId, tipo, url, uploader);
    match FindImage(images, vehicleId, trabajoId, tipo)
    case Some(k) =>
      assert r[k].url == url;
      var f := FindImage(r, vehicleId, trabajoId, tipo);
      assert f.Some? && f.value <= k;
    case None =>
      assert r[|images|].url == url;
      var f := FindImage(r, vehicleId, trabajoId, tipo);
      assert f.Some?;
  }

  /** `progreso`. */
  datatype Progress = Progress(completado: nat, total: nat, faltantes: seq<string>, completo: bool)

  function ProgressOf(images: seq<Image>, vehicleId: int, trabajoId: int): (p: Progress)
    ensures p.total == |TIPOS| == 5
    ensures p.completado == |Uploaded(images, vehicleId, trabajoId)|
    ensures p.completo <==> p.faltantes == []
    ensures p.faltantes == Names(Missing(Uploaded(images, vehicleId, trabajoId)))
  {
    var uploaded := Uploaded(images, vehicleId, trabajoId);
    var faltantes := Missing(uploaded);
    Progress(|uploaded|, |TIPOS|, Names(faltantes), |faltantes| == 0)
  }

  /** The record says complete exactly when all five categories have a photo. */
  lemma ProgressComplete(images: seq<Image>, vehicleId: int, trabajoId: int)
    ensures ProgressOf(images, vehicleId, trabajoId).completo
            <==> AllPresent(Uploaded(images, vehicleId, trabajoId))
  {
    var u := Uploaded(images, vehicleId, trabajoId);
    var p := ProgressOf(images, vehicleId, trabajoId);
    var m := Missing(u);
    assert p.faltantes == Names(m);
    assert p.completo <==> m == [];
    MissingEmptyIffComplete(u);
  }

  predicate Distinct(s: seq<Tipo>) {
    forall i, j :: 0 <= i < j < |s| ==> s[i] != s[j]
  }

  lemma DistinctAppend(s: seq<Tipo>, x: Tipo)
    requires Distinct(s) && x !in s
    ensures Distinct(s + [x])
  {
    var r := s + [x];
    forall i, j | 0 <= i < j < |r| ensures r[i] != r[j] {
      if j == |s| {
        assert r[i] == s[i];
      } else {
        assert r[i] == s[i] && r[j] == s[j];
      }
    }
  }

  /** With one photo per key the categories uploaded are all different. */
  lemma {:induction false} UploadedDistinct(images: seq<Image>, vehicleId: int, trabajoId: int)
    requires EvidenceKeyed(images)
    ensures Distinct(Uploaded(images, vehicleId, trabajoId))
  {
    if images != [] {
      var init := images[..|images| - 1];
      var last := images[|images| - 1];
      assert EvidenceKeyed(init) by {
        forall a, b | 0 <= a < b < |init| && init[a].trabajoId.Some?
          ensures !(init[a].vehicleId == init[b].vehicleId && init[a].trabajoId == init[b].trabajoId
                    && init[a].tipo == init[b].tipo)
        {
          assert init[a] == images[a] && init[b] == images[b];
        }
      }
      UploadedDistinct(init, vehicleId, trabajoId);
      var u0 := Uploaded(init, vehicleId, trabajoId);
      UploadedMembers(init, vehicleId, trabajoId);
      if last.vehicleId == vehicleId && last.trabajoId == Some(trabajoId) {
        forall k | 0 <= k < |init| && init[k].vehicleId == vehicleId && init[k].trabajoId == Some(trabajoId)
          ensures init[k].tipo != last.tipo
        {
          assert images[k] == init[k];
        }
        assert last.tipo !in u0;
        assert Uploaded(images, vehicleId, trabajoId) == u0 + [last.tipo];
        DistinctAppend(u0, last.tipo);
      } else {
        assert Uploaded(images, vehicleId, trabajoId) == u0;
      }
    }
  }

  lemma {:induction false} DistinctCard(s: seq<Tipo>)
    requires Distinct(s)
    ensures |set x | x in s| == |s|
  {
    if s != [] {
      var init := s[..|s| - 1];
      assert Distinct(init) by {
        forall i, j | 0 <= i < j < |init| ensures init[i] != init[j] {
          assert init[i] == s[i] && init[j] == s[j];
        }
      }
      DistinctCard(init);
      assert (set x | x in s) == (set x | x in init) + {s[|s| - 1]};
      assert s[|s| - 1] !in init;
    }
  }

  /** The categories form a set of five. */
  lemma AllTiposCard()
    ensures |set x | x in TIPOS| == 5
  {
    assert Distinct(TIPOS);
    DistinctCard(TIPOS);
  }

  /** Two sequences of categories with no category in common and every
      category in one of them have lengths adding up to five. */
  lemma PartitionCard(u: seq<Tipo>, m: seq<Tipo>)
    requires Distinct(u) && Distinct(m)
    requires forall t :: t in m <==> t !in u
    ensures |u| + |m| == 5
  {
    DistinctCard(u);
    DistinctCard(m);
    AllTiposCard();
    var su := set x | x in u;
    var sm := set x | x in m;
    var all := set x | x in TIPOS;
    forall t ensures t in TIPOS { EveryTipoListed(t); }
    assert su + sm == all;
    assert su * sm == {};
  }

  /** A sequence in strict required order repeats no category. */
  lemma InOrderDistinct(s: seq<Tipo>)
    requires InOrder(s)
    ensures Distinct(s)
  {
  }

  /** With one photo per key, the photos counted plus the categories missing
      make the five required. */
  lemma ProgressAddsUp(images: seq<Image>, vehicleId: int, trabajoId: int)
    requires EvidenceKeyed(images)
    ensures var p := ProgressOf(images, vehicleId, trabajoId);
            p.completado + |p.faltantes| == p.total
  {
    var u := Uploaded(images, vehicleId, trabajoId);
    var m := Missing(u);
    UploadedDistinct(images, vehicleId, trabajoId);
    InOrderDistinct(m);
    MissingMembers(u);
    PartitionCard(u, m);
  }
}
