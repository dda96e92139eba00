/** The administration table of process parameters: a cover speed and a cover
    temperature per row, both positive. */
module ProcessParamsTable {
  import opened Outcomes
  import opened JsNumbers
  import opened Rows
  import opened FormChecks

  datatype Row = Row(id: int, coverSpeed: JsNum, coverTemperature: JsNum)

  /** The dialog's fields as typed; `id` is set when a row is being edited. */
  datatype Form = Form(id: Option<int>, coverSpeed: string, coverTemperature: string)

  datatype TableError = NotPositive(field: string)

  function RowId(r: Row): int { r.id }

  /** The table's rows before any edit. */
  function InitialRows(): (r: seq<Row>)
    ensures DistinctKeys(r, RowId)
    ensures NextId(Keys(r, RowId)) == 4
  {
    var r := [Row(1, Num(0.1), Num(120.0)), Row(2, Num(0.2), Num(150.0)), Row(3, Num(0.3), Num(180.0))];
    ThreeIds(Keys(r, RowId));
    r
  }

  function NumericFields(f: Form): seq<Field>
  {
    [Field("coverSpeed", f.coverSpeed), Field("coverTemperature", f.coverTemperature)]
  }

  /** `validateForm`: the cover speed, then the cover temperature, must pass
      `validateNumericInput`. */
  function Validate(f: Form): (r: Result<(), TableError>)
    ensures r.Success? <==> ValidNumericInput(f.coverSpeed) && ValidNumericInput(f.coverTemperature)
    ensures !ValidNumericInput(f.coverSpeed) ==> r == Failure(NotPositive("coverSpeed"))
    ensures ValidNumericInput(f.coverSpeed) && !ValidNumericInput(f.coverTemperature) ==>
              r == Failure(NotPositive("coverTemperature"))
  {
    var fields := NumericFields(f);
    assert fields[0].text == f.coverSpeed && fields[1].text == f.coverTemperature;
    match FirstInvalid(fields)
    case Some(i) => Failure(NotPositive(fields[i].name))
    case None => Success(())
  }

  /** `handleSubmit`: editing sets both values of the row with the form's id
      (none when it is null), adding appends a row under the next id. */
  function Submit(rows: seq<Row>, f: Form, isEdit: bool): (r: Result<seq<Row>, TableError>)
    ensures r.Success? <==> Validate(f).Success?
    ensures r.Success? && !isEdit ==> |r.value| == |rows| + 1 && r.value[..|rows|] == rows
    ensures r.Success? && isEdit ==> |r.value| == |rows|
  {
    var _ :- Validate(f);
    if isEdit then
      if f.id.None? then Success(rows)
      else
        Success(ReplaceWhere(rows, RowId, f.id.value,
                             (row: Row) => row.(coverSpeed := ParseFloat(f.coverSpeed),
                                                coverTemperature := ParseFloat(f.coverTemperature))))
    else
      var added := Row(NextId(Keys(rows, RowId)), ParseFloat(f.coverSpeed), ParseFloat(f.coverTemperature));
      assert (rows + [added])[..|rows|] == rows;
      Success(rows + [added])
  }

  /** Adding keeps the ids distinct, under an id above every existing one,
      with the parsed values; deleting that id (`handleDelete`, the filter
      `Rows.Remove` by id) gives the table back. */
  lemma AddThenDelete(rows: seq<Row>, f: Form)
    requires DistinctKeys(rows, RowId)
    requires Submit(rows, f, false).Success?
    ensures var r := Submit(rows, f, false).value;
            DistinctKeys(r, RowId)
            && (forall j :: 0 <= j < |rows| ==> rows[j].id < r[|rows|].id)
            && r[|rows|].coverSpeed == ParseFloat(f.coverSpeed)
            && r[|rows|].coverTemperature == ParseFloat(f.coverTemperature)
            && Remove(r, RowId, r[|rows|].id) == rows
  {
    var added := Row(NextId(Keys(rows, RowId)), ParseFloat(f.coverSpeed), ParseFloat(f.coverTemperature));
    AppendNextId(rows, RowId, added);
    RemoveAdded(rows, added, RowId);
  }

  /** Editing keeps every id and sets the values of exactly the row with the
      form's id. */
  lemma EditRewritesRow(rows: seq<Row>, f: Form, j: nat)
    requires Submit(rows, f, true).Success? && j < |rows|
    ensures var r := Submit(rows, f, true).value;
            r[j].id == rows[j].id
            && (DistinctKeys(rows, RowId) ==> DistinctKeys(r, RowId))
            && (f.id == Some(rows[j].id) ==>
                  r[j] == Row(rows[j].id, ParseFloat(f.coverSpeed), ParseFloat(f.coverTemperature)))
            && (f.id != Some(rows[j].id) ==> r[j] == rows[j])
  {
    if f.id.Some? {
      var update := (row: Row) => row.(coverSpeed := ParseFloat(f.coverSpeed),
                                       coverTemperature := ParseFloat(f.coverTemperature));
      ReplaceWhereAt(rows, RowId, f.id.value, update, j);
      ReplaceKeepsKeys(rows, RowId, f.id.value, update);
    }
  }
}
