/** The read-only pages that compare materials side by side: the comparison
    table, with one column per property and one per coefficient any material
    has a value for, and the unified table, whose columns mix both kinds. */
module MaterialsOverview {
  import opened Outcomes
  import opened Rows

  /** A property or coefficient as it arrives with a material's values. */
  datatype Definition = Definition(id: string, name: string, unit: string)

  datatype Entry = Entry(definition: Definition, value: real)

  /** A listed material; either list of values may be absent. */
  datatype Material = Material(id: string, name: string,
                               propertyValues: Option<seq<Entry>>, coefficientValues: Option<seq<Entry>>)

  datatype Kind = Property | Coefficient

  /** A column of the unified table. */
  datatype Column = Column(id: string, name: string, unit: string, kind: Kind)

  function DefinitionId(d: Definition): string { d.id }

  function ColumnId(c: Column): string { c.id }

  function EntryId(e: Entry): string { e.definition.id }

  /** The entries of an optional list; an absent list is skipped. */
  function EntriesOf(values: Option<seq<Entry>>): seq<Entry>
  {
    if values.Some? then values.value else []
  }

  function Definitions(entries: seq<Entry>): (r: seq<Definition>)
    ensures |r| == |entries| && forall j :: 0 <= j < |entries| ==> r[j] == entries[j].definition
  {
    seq(|entries|, j requires 0 <= j < |entries| => entries[j].definition)
  }

  /** The materials' items, material after material, as the nested
      `forEach` visits them. */
  function Flatten<T>(ms: seq<Material>, items: Material -> seq<T>): (r: seq<T>)
  {
    if |ms| == 0 then [] else Flatten(ms[..|ms| - 1], items) + items(ms[|ms| - 1])
  }

  /** Every item of every material is visited. */
  lemma {:induction false} FlattenHas<T>(ms: seq<Material>, items: Material -> seq<T>, m: nat, k: nat)
    requires m < |ms| && k < |items(ms[m])|
    ensures items(ms[m])[k] in Flatten(ms, items)
  {
    var n := |ms| - 1;
    if m < n {
      FlattenHas(ms[..n], items, m, k);
    } else {
      assert Flatten(ms, items)[|Flatten(ms[..n], items)| + k] == items(ms[m])[k];
    }
  }

  function PropertyDefinitions(m: Material): seq<Definition>
  {
    Definitions(EntriesOf(m.propertyValues))
  }

  function CoefficientDefinitions(m: Material): seq<Definition>
  {
    Definitions(EntriesOf(m.coefficientValues))
  }

  /** `getAllUniqueProperties`: each property once, the first time a
      material's values mention it. */
  function UniqueProperties(ms: seq<Material>): (r: seq<Definition>)
    ensures DistinctKeys(r, DefinitionId)
  {
    FirstSeen(Flatten(ms, PropertyDefinitions), DefinitionId)
  }

  /** `getAllUniqueCoefficients`: the same for coefficients (whose name the
      page shows under the property's field name). */
  function UniqueCoefficients(ms: seq<Material>): (r: seq<Definition>)
    ensures DistinctKeys(r, DefinitionId)
  {
    FirstSeen(Flatten(ms, CoefficientDefinitions), DefinitionId)
  }

  /** The comparison table has a column for every property any material has
      a value for, and only for those. */
  lemma PropertyColumnsComplete(ms: seq<Material>, m: nat, k: nat)
    requires m < |ms| && k < |EntriesOf(ms[m].propertyValues)|
    ensures FindIndex(UniqueProperties(ms), DefinitionId, EntriesOf(ms[m].propertyValues)[k].definition.id) >= 0
  {
    var all := Flatten(ms, PropertyDefinitions);
    FlattenHas(ms, PropertyDefinitions, m, k);
    FirstSeenCovers(all, DefinitionId);
    var p :| 0 <= p < |all| && all[p] == PropertyDefinitions(ms[m])[k];
  }

  /** Each column of the comparison table is the first definition the
      materials give for its id, and the columns come in the order their
      ids first appear. */
  lemma PropertyColumnsFirstSeen(ms: seq<Material>, i: nat, j: nat)
    requires i < j < |UniqueProperties(ms)|
    ensures var all := Flatten(ms, PropertyDefinitions);
            var r := UniqueProperties(ms);
            FindIndex(all, DefinitionId, r[i].id) >= 0
            && r[i] == all[FindIndex(all, DefinitionId, r[i].id)]
            && FindIndex(all, DefinitionId, r[i].id) < FindIndex(all, DefinitionId, r[j].id)
  {
    var all := Flatten(ms, PropertyDefinitions);
    FirstSeenIsFirst(all, DefinitionId, i);
    FirstSeenOrder(all, DefinitionId, i, j);
  }

  /** The value of the first entry for `id`, or none (`null`) when the list
      is absent or has no entry for it. */
  function ValueOf(values: Option<seq<Entry>>, id: string): (r: Option<real>)
    ensures r.None? <==> values.None? || forall j :: 0 <= j < |values.value| ==> EntryId(values.value[j]) != id
    ensures r.Some? ==> exists j :: 0 <= j < |values.value| && values.value[j] == Entry(values.value[j].definition, r.value)
                                    && EntryId(values.value[j]) == id
                                    && forall i :: 0 <= i < j ==> EntryId(values.value[i]) != id
  {
    if values.None? then None
    else
      var i := FindIndex(values.value, EntryId, id);
      if i < 0 then None else Some(values.value[i].value)
  }

  /** `getPropertyValue`. */
  function PropertyValue(m: Material, id: string): Option<real>
  {
    ValueOf(m.propertyValues, id)
  }

  /** `getCoefficientValue`. */
  function CoefficientValue(m: Material, id: string): Option<real>
  {
    ValueOf(m.coefficientValues, id)
  }

  /** A material's cell in a property column is filled exactly when the
      material has a value for that property. */
  lemma EntryCellFilled(m: Material, k: nat)
    requires k < |EntriesOf(m.propertyValues)|
    ensures PropertyValue(m, EntriesOf(m.propertyValues)[k].definition.id).Some?
  {
  }

  function PropertyColumn(d: Definition): Column
  {
    Column(d.id, d.name, d.unit, Property)
  }

  function CoefficientColumn(d: Definition): Column
  {
    Column(d.id, d.name, d.unit, Coefficient)
  }

  /** A material's candidate columns: its properties, then its
      coefficients. */
  function ColumnsOf(m: Material): (r: seq<Column>)
    ensures |r| == |PropertyDefinitions(m)| + |CoefficientDefinitions(m)|
  {
    seq(|PropertyDefinitions(m)|, j requires 0 <= j < |PropertyDefinitions(m)| => PropertyColumn(PropertyDefinitions(m)[j]))
    + seq(|CoefficientDefinitions(m)|, j requires 0 <= j < |CoefficientDefinitions(m)| => CoefficientColumn(CoefficientDefinitions(m)[j]))
  }

  /** `getAllColumns`: one map for both kinds, so an id is a column once,
      of the kind that came first. */
  function Columns(ms: seq<Material>): (r: seq<Column>)
    ensures DistinctKeys(r, ColumnId)
  {
    FirstSeen(Flatten(ms, ColumnsOf), ColumnId)
  }

  /** `getCellValue`: the column's kind picks the list searched. */
  function CellValue(m: Material, c: Column): (r: Option<real>)
    ensures c.kind == Property ==> r == PropertyValue(m, c.id)
    ensures c.kind == Coefficient ==> r == CoefficientValue(m, c.id)
  {
    if c.kind == Property then ValueOf(m.propertyValues, c.id) else ValueOf(m.coefficientValues, c.id)
  }

  /** Every property and every coefficient of every material has a column,
      and each column is the first candidate for its id. */
  lemma ColumnsComplete(ms: seq<Material>, m: nat, k: nat)
    requires m < |ms| && k < |ColumnsOf(ms[m])|
    ensures FindIndex(Columns(ms), ColumnId, ColumnsOf(ms[m])[k].id) >= 0
  {
    var all := Flatten(ms, ColumnsOf);
    FlattenHas(ms, ColumnsOf, m, k);
    FirstSeenCovers(all, ColumnId);
    var p :| 0 <= p < |all| && all[p] == ColumnsOf(ms[m])[k];
  }

  /** One material alone: its first property value makes the first column,
      and the cell shows that value. */
  lemma ColumnCellFilled(m: Material)
    requires |EntriesOf(m.propertyValues)| > 0
    ensures var c := Columns([m])[0];
            c.kind == Property && CellValue(m, c) == Some(EntriesOf(m.propertyValues)[0].value)
  {
    FlattenOne(m, ColumnsOf);
    FirstSeenHead(ColumnsOf(m), ColumnId);
  }

  lemma FlattenOne<T>(m: Material, items: Material -> seq<T>)
    ensures Flatten([m], items) == items(m)
  {
    assert [m][..0] == [];
  }

  /** The shared map drops a coefficient whose id a property already used:
      its values get no column of their own. */
  lemma SharedIdHidesCoefficient(d: Definition, e: Definition, v: real, w: real)
    requires d.id == e.id
    ensures var m := Material("m", "m", Some([Entry(d, v)]), Some([Entry(e, w)]));
            Columns([m]) == [PropertyColumn(d)]
  {
    var m := Material("m", "m", Some([Entry(d, v)]), Some([Entry(e, w)]));
    FlattenOne(m, ColumnsOf);
    var all := ColumnsOf(m);
    assert all == [PropertyColumn(d), CoefficientColumn(e)];
    assert all[..1] == [PropertyColumn(d)];
    assert all[..1][..0] == [];
    assert FirstSeen(all[..1], ColumnId) == [PropertyColumn(d)];
    assert FindIndex([PropertyColumn(d)], ColumnId, e.id) == 0;
  }
}
