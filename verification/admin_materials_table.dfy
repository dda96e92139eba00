/** The administration table of materials: the dialog that creates or
    updates a material through the server, the row that expands into the
    value editors, and the refresh of one row after an editor saved. */
module AdminMaterialsTable {
  import opened Outcomes
  import opened Text
  import opened Rows
  import Catalogue

  /** A material as the page lists it; its values travel with it unchanged
      and are not part of the model. */
  datatype MaterialRow = MaterialRow(id: string, name: string, materialType: string)

  /** The dialog's fields; `id` is the edited material's id, or null. */
  datatype Form = Form(id: Option<string>, name: string, materialType: string)

  datatype FormError = MissingName | MissingType

  /** The server call `handleSubmit` makes. */
  datatype Request = Update(id: string, name: string, materialType: string) | Create(name: string, materialType: string)

  function RowId(m: MaterialRow): string { m.id }

  /** `validateForm`: the name, then the type, must be non-empty after
      JavaScript's `trim()`. */
  function Validate(f: Form): (r: Result<(), FormError>)
    ensures r.Success? <==> JsTrim(f.name) != [] && JsTrim(f.materialType) != []
    ensures JsTrim(f.name) == [] ==> r == Failure(MissingName)
  {
    if JsTrim(f.name) == [] then Failure(MissingName)
    else if JsTrim(f.materialType) == [] then Failure(MissingType)
    else Success(())
  }

  /** `handleSubmit`: an update when editing a material with a non-empty id,
      otherwise a creation; the name and type are sent as typed, untrimmed. */
  function SubmitRequest(f: Form, isEdit: bool): (r: Result<Request, FormError>)
    ensures r.Success? <==> Validate(f).Success?
    ensures r.Success? ==> r.value.name == f.name && r.value.materialType == f.materialType
    ensures r.Success? ==> (r.value.Update? <==> isEdit && f.id.Some? && f.id.value != "")
    ensures r.Success? && r.value.Update? ==> f.id == Some(r.value.id)
  {
    var _ :- Validate(f);
    if isEdit && f.id.Some? && f.id.value != "" then Success(Update(f.id.value, f.name, f.materialType))
    else Success(Create(f.name, f.materialType))
  }

  /** `handleEdit`: the dialog opens on the material's data. */
  function EditForm(m: MaterialRow): (f: Form)
    ensures f.id == Some(m.id)
  {
    Form(Some(m.id), m.name, m.materialType)
  }

  /** Opening a listed material with a non-empty id for editing and
      submitting it unchanged sends an update of that material with its own
      name and type. */
  lemma EditSendsUpdate(m: MaterialRow)
    requires m.id != "" && JsTrim(m.name) != [] && JsTrim(m.materialType) != []
    ensures SubmitRequest(EditForm(m), true) == Success(Update(m.id, m.name, m.materialType))
  {
  }

  /** The body the server receives for a request. */
  function InputOf(r: Request): Catalogue.MaterialInput
  {
    Catalogue.MaterialInput(Some(r.name), Some(r.materialType))
  }

  /** The page's blank check and the server's differ: a name made of a
      control character passes `trim()` in the page and is refused as blank
      by the server, whose `trim()` strips every character up to U+0020. */
  lemma ControlCharacterNameRefusedByServer(c: Catalogue.Catalogue, newId: Catalogue.Uuid)
    requires newId !in c.materials
    ensures var f := Form(None, "\U{1}", "polymer");
            SubmitRequest(f, false) == Success(Create("\U{1}", "polymer"))
            && Catalogue.CreateMaterial(c, Some(InputOf(SubmitRequest(f, false).value)), newId)
               == Failure(Catalogue.BlankField)
  {
    assert JsTrimStart("\U{1}") == "\U{1}";
    assert JsTrimEnd("\U{1}") == "\U{1}";
    assert JsTrimStart("polymer") == "polymer";
    assert JsTrimEnd("polymer") == "polymer";
    assert JavaTrimStart("\U{1}") == [];
  }

  /** And the other way: a name of no-break spaces is blank to the page but
      not to the server, since Java's `trim()` keeps U+00A0, so the server
      stores it. A blank type is refused by both: by the page's check, and
      by the entity's `@NotBlank` when the server saves it. */
  lemma PageStricterThanServer(c: Catalogue.Catalogue, newId: Catalogue.Uuid)
    requires newId !in c.materials
    requires !Catalogue.MaterialNameTaken(c.materials, "\U{A0}")
    requires !Catalogue.MaterialNameTaken(c.materials, "PLA")
    ensures SubmitRequest(Form(None, "\U{A0}", "polymer"), false) == Failure(MissingName)
    ensures Catalogue.CreateMaterial(c, Some(Catalogue.MaterialInput(Some("\U{A0}"), Some("polymer"))), newId).Success?
    ensures SubmitRequest(Form(None, "PLA", " "), false) == Failure(MissingType)
    ensures Catalogue.CreateMaterial(c, Some(Catalogue.MaterialInput(Some("PLA"), Some(" "))), newId)
            == Failure(Catalogue.EntityInvalid)
  {
    assert JsTrimStart("\U{A0}") == [];
    assert JsTrimStart(" ") == [];
    assert JsTrimStart("PLA") == "PLA";
    assert JsTrimEnd("PLA") == "PLA";
    assert JavaTrimStart("\U{A0}") == "\U{A0}";
    assert JavaTrimEnd("\U{A0}") == "\U{A0}";
    assert JavaTrimStart("polymer") == "polymer";
    assert JavaTrimEnd("polymer") == "polymer";
    assert Utf16Length("\U{A0}") == 1;
    assert Utf16Length("polymer") == 7;
    Catalogue.BlankTypeRejected(c, "PLA", newId);
  }

  /** `handleExpandToggle`: the expanded material and the editor tab shown.
      Expanding a material shows the first tab; toggling the expanded one
      collapses it and keeps the tab. */
  function ExpandToggle(expanded: Option<string>, tab: nat, id: string): (r: (Option<string>, nat))
    ensures expanded == Some(id) ==> r == (None, tab)
    ensures expanded != Some(id) ==> r == (Some(id), 0)
  {
    if expanded == Some(id) then (None, tab) else (Some(id), 0)
  }

  /** Toggling the same material twice leaves it as it was when it was
      collapsed, showing the first tab. */
  lemma ToggleTwice(expanded: Option<string>, tab: nat, id: string)
    requires expanded != Some(id)
    ensures var (e1, t1) := ExpandToggle(expanded, tab, id);
            ExpandToggle(e1, t1, id) == (None, 0)
  {
  }

  /** `handleMaterialUpdate`: the row with the updated material's id is
      replaced by it; with distinct ids exactly one row changes. */
  function MaterialUpdate(rows: seq<MaterialRow>, updated: MaterialRow): (r: seq<MaterialRow>)
    ensures |r| == |rows|
    ensures forall j :: 0 <= j < |rows| ==> r[j] == if rows[j].id == updated.id then updated else rows[j]
  {
    var r := ReplaceWhere(rows, RowId, updated.id, _ => updated);
    forall j | 0 <= j < |rows| ensures r[j] == if rows[j].id == updated.id then updated else rows[j] {
      ReplaceWhereAt(rows, RowId, updated.id, _ => updated, j);
    }
    r
  }

  /** A refresh keeps the ids, so it keeps them distinct, and the updated
      material is then found under its id. */
  lemma UpdateKeepsIds(rows: seq<MaterialRow>, updated: MaterialRow)
    requires DistinctKeys(rows, RowId) && FindIndex(rows, RowId, updated.id) >= 0
    ensures DistinctKeys(MaterialUpdate(rows, updated), RowId)
    ensures var r := MaterialUpdate(rows, updated);
            FindIndex(r, RowId, updated.id) >= 0 && r[FindIndex(r, RowId, updated.id)] == updated
  {
    var r := MaterialUpdate(rows, updated);
    assert forall j :: 0 <= j < |rows| ==> r[j].id == rows[j].id;
    FindFirst(r, RowId, updated.id, FindIndex(rows, RowId, updated.id));
  }
}
