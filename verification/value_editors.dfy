/** The administration dialogs that edit one material's property values and
    coefficient values: checking the typed value, saving it over the entry
    for the same property or coefficient or as a new entry, and deleting. */
module ValueEditors {
  import opened Outcomes
  import opened Text
  import opened JsNumbers
  import opened Rows

  /** A property or coefficient of the catalogue, as the page lists them. */
  datatype Definition = Definition(id: string, name: string, unit: string)

  /** A material's value for one property or coefficient. */
  datatype Entry = Entry(definition: Definition, value: JsNum)

  function DefinitionId(d: Definition): string { d.id }

  function EntryId(e: Entry): string { e.definition.id }

  datatype EditorError = NothingSelected | EmptyValue | NotANumber | UnknownDefinition

  /** `validateForm`: something must be selected (an empty id is none), the
      text must not be blank, and `Number(text)` must not be NaN. */
  function Validate(selected: string, text: string): (r: Result<JsNum, EditorError>)
    ensures r.Success? <==> selected != "" && JsTrim(text) != [] && !NumberOf(text).NaN?
    ensures r.Success? ==> r.value == NumberOf(text)
    ensures selected == "" ==> r == Failure(NothingSelected)
    ensures selected != "" && JsTrim(text) == [] ==> r == Failure(EmptyValue)
  {
    if selected == "" then Failure(NothingSelected)
    else if JsTrim(text) == [] then Failure(EmptyValue)
    else if NumberOf(text).NaN? then Failure(NotANumber)
    else Success(NumberOf(text))
  }

  /** Digits are accepted as their value; a value with trailing text is not,
      since `Number` needs the whole text to be a number. */
  lemma ValidateDigits(selected: string, digits: string)
    requires selected != "" && |digits| > 0 && AllDigits(digits)
    ensures Validate(selected, digits) == Success(Num(DigitsValue(digits) as real))
  {
    JsTrimOfDigits(digits);
    NumberOfDigits(digits);
  }

  /** `handleAddCoefficientValue`: the value replaces the value of the entry
      for the same coefficient, keeping the entry's coefficient, or is
      appended as a new entry for the selected coefficient. */
  function SaveCoefficientValue(entries: seq<Entry>, catalogue: seq<Definition>, selected: string, text: string)
    : (r: Result<seq<Entry>, EditorError>)
    ensures r.Success? ==> Validate(selected, text).Success?
    ensures r.Success? <==> Validate(selected, text).Success? && FindIndex(catalogue, DefinitionId, selected) >= 0
  {
    var v :- Validate(selected, text);
    var i := FindIndex(catalogue, DefinitionId, selected);
    if i < 0 then Failure(UnknownDefinition)
    else
      var k := FindIndex(entries, EntryId, selected);
      if k >= 0 then Success(entries[k := entries[k].(value := v)])
      else Success(entries + [Entry(catalogue[i], v)])
  }

  /** After a save the list holds the value under the selected coefficient,
      exactly once if it held each coefficient at most once, and every other
      entry is unchanged. */
  lemma SavedCoefficientValue(entries: seq<Entry>, catalogue: seq<Definition>, selected: string, text: string)
    requires SaveCoefficientValue(entries, catalogue, selected, text).Success?
    ensures var r := SaveCoefficientValue(entries, catalogue, selected, text).value;
            var k := FindIndex(r, EntryId, selected);
            k >= 0 && r[k].value == NumberOf(text)
            && (DistinctKeys(entries, EntryId) ==> DistinctKeys(r, EntryId))
            && forall j :: 0 <= j < |entries| && EntryId(entries[j]) != selected ==> r[j] == entries[j]
  {
    var v := NumberOf(text);
    var k := FindIndex(entries, EntryId, selected);
    if k >= 0 {
      UpdateFound(entries, EntryId, selected, entries[k].(value := v));
    } else {
      var i := FindIndex(catalogue, DefinitionId, selected);
      AppendNew(entries, EntryId, Entry(catalogue[i], v));
    }
  }

  /** `handleAddPropertyValue`: the entry the server returns for the saved
      value (`saved`) replaces the entry for the same property or is
      appended. */
  function SavePropertyValue(entries: seq<Entry>, catalogue: seq<Definition>, selected: string, text: string, saved: Entry)
    : (r: Result<seq<Entry>, EditorError>)
    ensures r.Success? <==> Validate(selected, text).Success? && FindIndex(catalogue, DefinitionId, selected) >= 0
    ensures r.Success? ==> saved in r.value
  {
    var _ :- Validate(selected, text);
    if FindIndex(catalogue, DefinitionId, selected) < 0 then Failure(UnknownDefinition)
    else
      var k := FindIndex(entries, EntryId, selected);
      if k >= 0 then
        assert entries[k := saved][k] == saved;
        Success(entries[k := saved])
      else Success(entries + [saved])
  }

  /** When the server returns the value for the property that was saved, the
      list keeps at most one entry per property and changes in one place. */
  lemma SavedPropertyValue(entries: seq<Entry>, catalogue: seq<Definition>, selected: string, text: string, saved: Entry)
    requires EntryId(saved) == selected
    requires SavePropertyValue(entries, catalogue, selected, text, saved).Success?
    ensures var r := SavePropertyValue(entries, catalogue, selected, text, saved).value;
            (DistinctKeys(entries, EntryId) ==> DistinctKeys(r, EntryId))
            && FindIndex(r, EntryId, selected) >= 0 && r[FindIndex(r, EntryId, selected)] == saved
            && forall j :: 0 <= j < |entries| && EntryId(entries[j]) != selected ==> r[j] == entries[j]
  {
    if FindIndex(entries, EntryId, selected) >= 0 {
      UpdateFound(entries, EntryId, selected, saved);
    } else {
      AppendNew(entries, EntryId, saved);
    }
  }

  /** `handleDelete…Value`: every entry for that property or coefficient
      goes. */
  function DeleteValue(entries: seq<Entry>, id: string): (r: seq<Entry>)
    ensures FindIndex(r, EntryId, id) == -1
  {
    Remove(entries, EntryId, id)
  }

  /** Deleting a value just added for a new coefficient gives the list back. */
  lemma DeleteUndoesNewCoefficient(entries: seq<Entry>, catalogue: seq<Definition>, selected: string, text: string)
    requires FindIndex(entries, EntryId, selected) == -1
    requires SaveCoefficientValue(entries, catalogue, selected, text).Success?
    ensures DeleteValue(SaveCoefficientValue(entries, catalogue, selected, text).value, selected) == entries
  {
    var i := FindIndex(catalogue, DefinitionId, selected);
    var added := Entry(catalogue[i], NumberOf(text));
    assert SaveCoefficientValue(entries, catalogue, selected, text).value == entries + [added];
    RemoveAdded(entries, added, EntryId);
  }
}
