/** The user-facing materials table: a name and three positive physical
    values per row. */
module UserMaterialsTable {
  import opened Outcomes
  import opened JsNumbers
  import opened Rows
  import opened FormChecks

  datatype Row = Row(id: int, name: string, density: JsNum, heatCapacity: JsNum, meltingTemperature: JsNum)

  /** The dialog's fields as typed; `id` is set when a row is being edited. */
  datatype Form = Form(id: Option<int>, name: string, density: string, heatCapacity: string,
                       meltingTemperature: string)

  datatype TableError = MissingName | NotPositive(field: string)

  function RowId(r: Row): int { r.id }

  /** The table's rows before any edit. */
  function InitialRows(): (r: seq<Row>)
    ensures DistinctKeys(r, RowId)
    ensures NextId(Keys(r, RowId)) == 4
  {
    var r := [Row(1, "PLA", Num(1.24), Num(1800.0), Num(160.0)),
              Row(2, "ABS", Num(1.04), Num(1470.0), Num(230.0)),
              Row(3, "PET", Num(1.38), Num(1200.0), Num(250.0))];
    ThreeIds(Keys(r, RowId));
    r
  }

  function NumericFields(f: Form): seq<Field>
  {
    [Field("density", f.density), Field("heatCapacity", f.heatCapacity),
     Field("meltingTemperature", f.meltingTemperature)]
  }

  /** `validateForm`: the name must be non-empty (it is not trimmed), then the
      density, heat capacity and melting temperature must each pass
      `validateNumericInput`, reported in that order. */
  function Validate(f: Form): (r: Result<(), TableError>)
    ensures r.Success? <==> f.name != "" && forall i :: 0 <= i < 3 ==> FieldValid(NumericFields(f)[i])
    ensures f.name == "" ==> r == Failure(MissingName)
    ensures r.Failure? && f.name != "" ==>
              exists i :: 0 <= i < 3 && r.error == NotPositive(NumericFields(f)[i].name)
                          && !FieldValid(NumericFields(f)[i])
                          && forall j :: 0 <= j < i ==> FieldValid(NumericFields(f)[j])
  {
    if f.name == "" then Failure(MissingName)
    else
      match FirstInvalid(NumericFields(f))
      case Some(i) => Failure(NotPositive(NumericFields(f)[i].name))
      case None => Success(())
  }

  function RowOf(f: Form, id: int): Row
  {
    Row(id, f.name, ParseFloat(f.density), ParseFloat(f.heatCapacity), ParseFloat(f.meltingTemperature))
  }

  /** `handleSubmit`: editing rewrites the row with the form's id (none when
      it is null), adding appends a row under the next id. */
  function Submit(rows: seq<Row>, f: Form, isEdit: bool): (r: Result<seq<Row>, TableError>)
    ensures r.Success? <==> Validate(f).Success?
    ensures r.Success? && !isEdit ==> |r.value| == |rows| + 1 && r.value[..|rows|] == rows
    ensures r.Success? && isEdit ==> |r.value| == |rows|
  {
    var _ :- Validate(f);
    if isEdit then
      if f.id.None? then Success(rows)
      else Success(ReplaceWhere(rows, RowId, f.id.value, (row: Row) => RowOf(f, row.id)))
    else
      assert (rows + [RowOf(f, NextId(Keys(rows, RowId)))])[..|rows|] == rows;
      Success(rows + [RowOf(f, NextId(Keys(rows, RowId)))])
  }

  /** Adding keeps the ids distinct, under an id above every existing one,
      with the form's values; deleting that id (`handleDelete`, the filter
      `Rows.Remove` by id) gives the table back. */
  lemma AddThenDelete(rows: seq<Row>, f: Form)
    requires DistinctKeys(rows, RowId)
    requires Submit(rows, f, false).Success?
    ensures var r := Submit(rows, f, false).value;
            DistinctKeys(r, RowId)
            && (forall j :: 0 <= j < |rows| ==> rows[j].id < r[|rows|].id)
            && r[|rows|] == RowOf(f, r[|rows|].id)
            && Remove(r, RowId, r[|rows|].id) == rows
  {
    var added := RowOf(f, NextId(Keys(rows, RowId)));
    AppendNextId(rows, RowId, added);
    RemoveAdded(rows, added, RowId);
  }

  /** Editing keeps every id and rewrites exactly the row with the form's
      id. */
  lemma EditRewritesRow(rows: seq<Row>, f: Form, j: nat)
    requires Submit(rows, f, true).Success? && j < |rows|
    ensures var r := Submit(rows, f, true).value;
            r[j].id == rows[j].id
            && (DistinctKeys(rows, RowId) ==> DistinctKeys(r, RowId))
            && (f.id == Some(rows[j].id) ==> r[j] == RowOf(f, rows[j].id))
            && (f.id != Some(rows[j].id) ==> r[j] == rows[j])
  {
    if f.id.Some? {
      var update := (row: Row) => RowOf(f, row.id);
      ReplaceWhereAt(rows, RowId, f.id.value, update, j);
      ReplaceKeepsKeys(rows, RowId, f.id.value, update);
    }
  }

  /** The name is not trimmed: a name of spaces alone passes the name check
      and is stored as typed. */
  lemma BlankNameAccepted(f: Form)
    requires f.name == " " && forall i :: 0 <= i < 3 ==> FieldValid(NumericFields(f)[i])
    ensures Submit([], f, false) == Success([RowOf(f, 1)])
  {
  }
}
