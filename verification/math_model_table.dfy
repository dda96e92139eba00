/** The administration table of mathematical-model parameter sets: each row
    ties five positive coefficients to a material of the page's material
    list. */
module MathModelTable {
  import opened Outcomes
  import opened JsNumbers
  import opened Rows
  import opened FormChecks

  datatype Row = Row(id: int, consistencyCoefficient: JsNum, tempViscosityCoefficient: JsNum,
                     castingTemperature: JsNum, flowIndex: JsNum, coverHeatTransferCoefficient: JsNum,
                     materialId: int, materialName: string)

  /** The dialog's fields as typed; `id` is set when a row is being edited. */
  datatype Form = Form(id: Option<int>, consistencyCoefficient: string, tempViscosityCoefficient: string,
                       castingTemperature: string, flowIndex: string, coverHeatTransferCoefficient: string,
                       materialId: int)

  /** An entry of the page's material list. */
  datatype MaterialChoice = MaterialChoice(id: int, name: string)

  datatype TableError = NoMaterialSelected | NotPositive(field: string) | MaterialNotFound

  function RowId(r: Row): int { r.id }

  function ChoiceId(m: MaterialChoice): int { m.id }

  /** The numeric fields in the order the form checks them. */
  function NumericFields(f: Form): seq<Field>
  {
    [Field("consistencyCoefficient", f.consistencyCoefficient),
     Field("tempViscosityCoefficient", f.tempViscosityCoefficient),
     Field("castingTemperature", f.castingTemperature),
     Field("flowIndex", f.flowIndex),
     Field("coverHeatTransferCoefficient", f.coverHeatTransferCoefficient)]
  }

  /** `validateForm`: a material must be chosen (id 0 is none), then each
      numeric field must pass `validateNumericInput`, reported in order. */
  function Validate(f: Form): (r: Result<(), TableError>)
    ensures r.Success? <==> f.materialId != 0 && forall i :: 0 <= i < 5 ==> FieldValid(NumericFields(f)[i])
    ensures f.materialId == 0 ==> r == Failure(NoMaterialSelected)
    ensures r.Failure? && f.materialId != 0 ==>
              exists i :: 0 <= i < 5 && r.error == NotPositive(NumericFields(f)[i].name)
                          && !FieldValid(NumericFields(f)[i])
                          && forall j :: 0 <= j < i ==> FieldValid(NumericFields(f)[j])
  {
    if f.materialId == 0 then Failure(NoMaterialSelected)
    else
      match FirstInvalid(NumericFields(f))
      case Some(i) => Failure(NotPositive(NumericFields(f)[i].name))
      case None => Success(())
  }

  /** The row the form describes, under `id`, for the chosen material. */
  function RowOf(f: Form, id: int, material: MaterialChoice): Row
  {
    Row(id, ParseFloat(f.consistencyCoefficient), ParseFloat(f.tempViscosityCoefficient),
        ParseFloat(f.castingTemperature), ParseFloat(f.flowIndex), ParseFloat(f.coverHeatTransferCoefficient),
        f.materialId, material.name)
  }

  /** `handleSubmit`: after validation the chosen material is looked up;
      editing rewrites the rows with the form's id (none when it is null),
      adding appends a row under the next id. */
  function Submit(rows: seq<Row>, f: Form, isEdit: bool, materials: seq<MaterialChoice>): (r: Result<seq<Row>, TableError>)
    ensures r.Success? <==> Validate(f).Success? && FindIndex(materials, ChoiceId, f.materialId) >= 0
    ensures r.Success? && !isEdit ==> |r.value| == |rows| + 1 && r.value[..|rows|] == rows
    ensures r.Success? && isEdit ==> |r.value| == |rows|
  {
    var _ :- Validate(f);
    var i := FindIndex(materials, ChoiceId, f.materialId);
    if i < 0 then Failure(MaterialNotFound)
    else if isEdit then
      if f.id.None? then Success(rows)
      else Success(ReplaceWhere(rows, RowId, f.id.value, (row: Row) => RowOf(f, row.id, materials[i])))
    else
      assert (rows + [RowOf(f, NextId(Keys(rows, RowId)), materials[i])])[..|rows|] == rows;
      Success(rows + [RowOf(f, NextId(Keys(rows, RowId)), materials[i])])
  }

  /** Adding keeps the ids distinct and puts the new row under an id above
      every existing one; deleting that id (`handleDelete`, the
      filter `Rows.Remove` by id) gives the table back. */
  lemma AddThenDelete(rows: seq<Row>, f: Form, materials: seq<MaterialChoice>)
    requires DistinctKeys(rows, RowId)
    requires Submit(rows, f, false, materials).Success?
    ensures var r := Submit(rows, f, false, materials).value;
            DistinctKeys(r, RowId)
            && (forall j :: 0 <= j < |rows| ==> rows[j].id < r[|rows|].id)
            && Remove(r, RowId, r[|rows|].id) == rows
  {
    var i := FindIndex(materials, ChoiceId, f.materialId);
    var added := RowOf(f, NextId(Keys(rows, RowId)), materials[i]);
    AppendNextId(rows, RowId, added);
    RemoveAdded(rows, added, RowId);
  }

  /** Editing keeps every id and rewrites exactly the row with the form's id:
      its values become the parsed fields and its material the chosen one. */
  lemma EditRewritesRow(rows: seq<Row>, f: Form, materials: seq<MaterialChoice>, j: nat)
    requires Submit(rows, f, true, materials).Success? && j < |rows|
    ensures var r := Submit(rows, f, true, materials).value;
            r[j].id == rows[j].id
            && (DistinctKeys(rows, RowId) ==> DistinctKeys(r, RowId))
            && (f.id == Some(rows[j].id) ==>
                  r[j] == RowOf(f, rows[j].id, materials[FindIndex(materials, ChoiceId, f.materialId)]))
            && (f.id != Some(rows[j].id) ==> r[j] == rows[j])
  {
    if f.id.Some? {
      var i := FindIndex(materials, ChoiceId, f.materialId);
      var update := (row: Row) => RowOf(f, row.id, materials[i]);
      ReplaceWhereAt(rows, RowId, f.id.value, update, j);
      ReplaceKeepsKeys(rows, RowId, f.id.value, update);
    }
  }
}
