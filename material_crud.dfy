/** Study materials (app/crud/material_crud.py): created under a subject id, read, listed per
    subject, patched with the fields the request explicitly sets, and deleted. Every material
    operation that names both a material and a subject first checks that the material belongs
    to that subject. */
module MaterialCrud {
  import opened Errors
  import opened Models
  import opened Schemas
  import opened Tables
  import opened Database
  import opened Attributes

  function Serialize(id: int, m: Material): MaterialRead
  {
    MaterialRead(id, m.subjectId, m.title, m.kind, m.link)
  }

  /** `crud_create_material`: always adds one material with the given fields. The subject id is
      stored as given; with foreign keys unenforced it is not looked up. */
  method CreateMaterial(db: Store, subjectId: int, newMaterial: MaterialCreate) returns (r: MaterialRead)
    requires db.Valid()
    modifies db`materials, db`nextMaterialId
    ensures db.Valid()
    ensures r.id !in old(db.materials)
    ensures db.materials == old(db.materials)[r.id := Material(subjectId, newMaterial.title, newMaterial.kind, newMaterial.link)]
    ensures ReadMaterial(db.materials, r.id, subjectId) == Ok(r)
  {
    var material := Material(subjectId, newMaterial.title, newMaterial.kind, newMaterial.link);
    var id := db.nextMaterialId;
    db.materials := db.materials[id := material];
    db.nextMaterialId := id + 1;
    r := Serialize(id, material);
  }

  /** `_get_material_or_404`: the stored material, or MaterialNotFound. */
  function GetMaterial(materials: map<int, Material>, id: int): (r: Result<Material>)
    ensures r.Ok? <==> id in materials
    ensures r.Ok? ==> r.value == materials[id]
    ensures r.Err? ==> r.error == MaterialNotFound(id)
  {
    if id in materials then Ok(materials[id]) else Err(MaterialNotFound(id))
  }

  /** `crud_read_material`: MaterialNotFound for an unknown id, a 404 when the material belongs to
      another subject, otherwise its stored fields. */
  function ReadMaterial(materials: map<int, Material>, id: int, subjectId: int): (r: Result<MaterialRead>)
    ensures id !in materials ==> r == Err(MaterialNotFound(id))
    ensures id in materials && materials[id].subjectId != subjectId ==> r == Err(MaterialNotInSubject)
    ensures r.Ok? <==> id in materials && materials[id].subjectId == subjectId
    ensures r.Ok? ==>
      && r.value.id == id
      && r.value.subjectId == subjectId
      && r.value.title == materials[id].title
      && r.value.kind == materials[id].kind
      && r.value.link == materials[id].link
  {
    match GetMaterial(materials, id)
    case Err(e) => Err(e)
    case Ok(m) => if m.subjectId != subjectId then Err(MaterialNotInSubject) else Ok(Serialize(id, m))
  }

  /** `crud_read_all_subject_materials`: exactly the materials of the subject, each as reading it
      alone gives it; an empty list, not an error, when there are none. */
  method ReadAllSubjectMaterials(materials: map<int, Material>, subjectId: int) returns (r: seq<MaterialRead>)
    ensures |r| == |Where(materials, (m: Material) => m.subjectId == subjectId)|
    ensures forall i :: 0 <= i < |r| ==> ReadMaterial(materials, r[i].id, subjectId) == Ok(r[i])
    ensures forall id :: id in materials && materials[id].subjectId == subjectId ==> Serialize(id, materials[id]) in r
    ensures forall i, j :: 0 <= i < j < |r| ==> r[i].id != r[j].id
  {
    var owned := Where(materials, (m: Material) => m.subjectId == subjectId);
    var ids := Enumerate(owned);
    r := seq(|ids|, i requires 0 <= i < |ids| => Serialize(ids[i], owned[ids[i]]));
    forall id | id in materials && materials[id].subjectId == subjectId
      ensures Serialize(id, materials[id]) in r
    {
      assert id in owned;
      var i :| 0 <= i < |ids| && ids[i] == id;
      assert r[i] == Serialize(id, materials[id]);
    }
  }

  /** The material object while the update loop runs: its columns may be set to `None` before
      the commit checks them. */
  datatype PendingMaterial = PendingMaterial(subjectId: int, title: Option<string>, kind: Option<MaterialType>, link: Option<string>)

  function Pending(m: Material): PendingMaterial
  {
    PendingMaterial(m.subjectId, Some(m.title), Some(m.kind), Some(m.link))
  }

  /** The commit: every column of the material is NOT NULL, so a pending material with a `None`
      column is refused. */
  function Committed(p: PendingMaterial): (r: Option<Material>)
    ensures r.Some? <==> p.title.Some? && p.kind.Some? && p.link.Some?
    ensures r.Some? ==> Pending(r.value) == p
  {
    if p.title.Some? && p.kind.Some? && p.link.Some? then Some(Material(p.subjectId, p.title.value, p.kind.value, p.link.value))
    else None
  }

  /** One `setattr` of the update loop; `None` is the explicit null. */
  datatype MaterialField = SetTitle(title: Option<string>) | SetKind(kind: Option<MaterialType>) | SetLink(link: Option<string>)

  function SetMaterialAttr(p: PendingMaterial, f: MaterialField): PendingMaterial
  {
    match f
    case SetTitle(v) => p.(title := v)
    case SetKind(v) => p.(kind := v)
    case SetLink(v) => p.(link := v)
  }

  /** The value a patch leaves in a column: unset keeps it, null clears it, a value replaces it. */
  function Patched<T>(p: Patch<T>, current: T): Option<T>
  {
    match p
    case Unset => Some(current)
    case Null => None
    case Value(v) => Some(v)
  }

  /** The entry of the title column in the update dict, if it is set. */
  function TitleData(p: Patch<string>): seq<MaterialField>
  {
    match p
    case Unset => []
    case Null => [SetTitle(None)]
    case Value(v) => [SetTitle(Some(v))]
  }

  function KindData(p: Patch<MaterialType>): seq<MaterialField>
  {
    match p
    case Unset => []
    case Null => [SetKind(None)]
    case Value(v) => [SetKind(Some(v))]
  }

  function LinkData(p: Patch<string>): seq<MaterialField>
  {
    match p
    case Unset => []
    case Null => [SetLink(None)]
    case Value(v) => [SetLink(Some(v))]
  }

  /** `updated.dict(exclude_unset=True)`: the fields the request explicitly sets, null or not. */
  function MaterialUpdateData(u: MaterialUpdate): (data: seq<MaterialField>)
    ensures data == [] <==> u.title.Unset? && u.kind.Unset? && u.link.Unset?
  {
    TitleData(u.title) + KindData(u.kind) + LinkData(u.link)
  }

  /** The material the update loop leaves: each explicitly set field takes the request's value
      (`None` for an explicit null), every other field keeps its value, and the subject never
      changes. */
  lemma MaterialUpdateAssigns(m: Material, u: MaterialUpdate)
    ensures var p := SetAttrs(Pending(m), MaterialUpdateData(u), SetMaterialAttr);
      && p.subjectId == m.subjectId
      && p.title == Patched(u.title, m.title)
      && p.kind == Patched(u.kind, m.kind)
      && p.link == Patched(u.link, m.link)
  {
    var a, b, c := TitleData(u.title), KindData(u.kind), LinkData(u.link);
    SetAttrsThree(Pending(m), a, b, c, SetMaterialAttr);
    var ra := if a == [] then Pending(m) else SetMaterialAttr(Pending(m), a[0]);
    assert ra == Pending(m).(title := Patched(u.title, m.title));
    var rb := if b == [] then ra else SetMaterialAttr(ra, b[0]);
    assert rb == ra.(kind := Patched(u.kind, m.kind));
    var rc := if c == [] then rb else SetMaterialAttr(rb, c[0]);
    assert rc == rb.(link := Patched(u.link, m.link));
  }

  /** `crud_update_material`: the read checks first (not found, other subject); then the
      explicitly set fields are assigned and committed. An explicit null violates a NOT NULL
      column, so the commit fails and is rolled back with a 500. */
  method UpdateMaterial(db: Store, subjectId: int, materialId: int, u: MaterialUpdate) returns (r: Result<MaterialRead>)
    requires db.Valid()
    modifies db`materials
    ensures db.Valid()
    ensures ReadMaterial(old(db.materials), materialId, subjectId).Err? ==>
      r == Err(ReadMaterial(old(db.materials), materialId, subjectId).error)
    ensures ReadMaterial(old(db.materials), materialId, subjectId).Ok? && (u.title.Null? || u.kind.Null? || u.link.Null?)
      ==> r == Err(InternalError)
    ensures r.Ok? <==>
      ReadMaterial(old(db.materials), materialId, subjectId).Ok? && !u.title.Null? && !u.kind.Null? && !u.link.Null?
    ensures r.Err? ==> db.materials == old(db.materials)
    ensures r.Ok? ==>
      && Committed(SetAttrs(Pending(old(db.materials)[materialId]), MaterialUpdateData(u), SetMaterialAttr)).Some?
      && db.materials == old(db.materials)[materialId :=
           Committed(SetAttrs(Pending(old(db.materials)[materialId]), MaterialUpdateData(u), SetMaterialAttr)).value]
      && r == ReadMaterial(db.materials, materialId, subjectId)
  {
    var found := GetMaterial(db.materials, materialId);
    if found.Err? {
      return Err(found.error);
    }
    var original := found.value;
    if original.subjectId != subjectId {
      return Err(MaterialNotInSubject);
    }
    var data := MaterialUpdateData(u);
    var pending := AssignAll(Pending(original), data, SetMaterialAttr);
    MaterialUpdateAssigns(original, u);
    var committed := Committed(pending);
    if committed.None? {
      // a NOT NULL column fails the commit; the transaction is rolled back
      return Err(InternalError);
    }
    db.materials := db.materials[materialId := committed.value];
    r := Ok(Serialize(materialId, committed.value));
  }

  /** `crud_delete_material`: MaterialNotFound for an unknown id, a 403 when the material belongs
      to another subject; otherwise exactly that material is removed and returned as it was. */
  method DeleteMaterial(db: Store, subjectId: int, materialId: int) returns (r: Result<MaterialRead>)
    requires db.Valid()
    modifies db`materials
    ensures db.Valid()
    ensures materialId !in old(db.materials) ==> r == Err(MaterialNotFound(materialId))
    ensures materialId in old(db.materials) && old(db.materials)[materialId].subjectId != subjectId
      ==> r == Err(MaterialForbidden)
    ensures r.Ok? <==> ReadMaterial(old(db.materials), materialId, subjectId).Ok?
    ensures r.Err? ==> db.materials == old(db.materials)
    ensures r.Ok? ==>
      && r == ReadMaterial(old(db.materials), materialId, subjectId)
      && db.materials == old(db.materials) - {materialId}
  {
    var found := GetMaterial(db.materials, materialId);
    if found.Err? {
      return Err(found.error);
    }
    var material := found.value;
    if material.subjectId != subjectId {
      return Err(MaterialForbidden);
    }
    db.materials := db.materials - {materialId};
    r := Ok(Serialize(materialId, material));
  }
}
