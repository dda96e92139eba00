/** The material catalogue: materials, material properties and empirical
    coefficients, each identified by a UUID and carrying a unique name, and
    the numeric values a material has for a property or a coefficient, at
    most one per (material, property) and per (material, coefficient) pair.
    The JPA repositories become finite maps and every service operation a
    transition from one catalogue state to the next, or a failure that
    leaves the state alone (each operation runs in one transaction). */
module Catalogue {
  import opened Outcomes
  import opened Text

  /** A UUID; only its identity matters. */
  type Uuid = nat

  datatype Material = Material(name: string, materialType: string)

  /** A material property or an empirical coefficient: the two entities have
      the same shape (a name and a unit of measurement) and the same service
      logic. */
  datatype Definition = Definition(name: string, unit: string)

  /** The key of a value: the material and the property or coefficient. */
  datatype Key = Key(material: Uuid, definition: Uuid)

  /** A request body as the services receive it; Java's null is `None`. */
  datatype MaterialInput = MaterialInput(name: Option<string>, materialType: Option<string>)
  datatype DefinitionInput = DefinitionInput(name: Option<string>, unit: Option<string>)

  /** Why an operation failed. Every service catches its own exceptions and
      rethrows them as a plain `RuntimeException` whose message names the
      cause, so callers can tell the causes apart only by the message. */
  datatype Cause =
    | NullArgument      // an id, a request body or a value is null
    | BlankField        // a name or a unit is null or blank after trimming
    | NotFound          // no material, property or coefficient has the id
    | DuplicateName     // the name is already used by another entity
    | DuplicateValue    // the pair already has a value
    | ValueNotFound     // the pair has no value
    | EntityInvalid     // the entity breaks a Bean Validation constraint when saved

  datatype Catalogue = Catalogue(
    materials: map<Uuid, Material>,
    properties: map<Uuid, Definition>,
    coefficients: map<Uuid, Definition>,
    propertyValues: map<Key, real>,
    coefficientValues: map<Key, real>)

  // ---------------------------------------------------------------------
  // Invariant
  // ---------------------------------------------------------------------

  predicate DistinctMaterialNames(m: map<Uuid, Material>)
  {
    forall a, b :: a in m && b in m && m[a].name == m[b].name ==> a == b
  }

  predicate DistinctDefinitionNames(d: map<Uuid, Definition>)
  {
    forall a, b :: a in d && b in d && d[a].name == d[b].name ==> a == b
  }

  /** Every value belongs to an existing material and definition. */
  predicate Referenced(values: map<Key, real>, materials: map<Uuid, Material>, defs: map<Uuid, Definition>)
  {
    forall k :: k in values ==> k.material in materials && k.definition in defs
  }

  /** Names are unique within each kind of entity, and no value outlives its
      material, property or coefficient. */
  predicate Valid(c: Catalogue)
  {
    DistinctMaterialNames(c.materials)
    && DistinctDefinitionNames(c.properties)
    && DistinctDefinitionNames(c.coefficients)
    && Referenced(c.propertyValues, c.materials, c.properties)
    && Referenced(c.coefficientValues, c.materials, c.coefficients)
  }

  // ---------------------------------------------------------------------
  // Field checks
  // ---------------------------------------------------------------------

  /** `s == null || s.trim().isEmpty()`. */
  predicate Blank(s: Option<string>)
  {
    s.None? || JavaTrim(s.value) == []
  }

  /** A present string is blank exactly when it holds nothing but characters
      up to U+0020. */
  lemma BlankMeansControlOnly(s: string)
    ensures Blank(Some(s)) <==> forall k :: 0 <= k < |s| ==> IsJavaTrimmed(s[k])
  {
    JavaTrimEmpty(s);
  }

  /** The `@Size(max = …)` limits of the entities, counted as Java's
      `length()` counts. */
  const MaxNameLength := 255
  const MaxMaterialTypeLength := 255
  const MaxUnitLength := 50

  /** The Bean Validation constraints of the `Material` entity, checked when
      it is written: `@NotBlank` (Java's `trim()` leaves something) and
      `@Size(max = 255)` on the name and on the type. */
  predicate MaterialEntityValid(m: Material)
  {
    !Blank(Some(m.name)) && Utf16Length(m.name) <= MaxNameLength
    && !Blank(Some(m.materialType)) && Utf16Length(m.materialType) <= MaxMaterialTypeLength
  }

  /** The same for `MaterialProperty` and `EmpiricalCoefficient`: `@NotBlank`
      on both fields, `@Size(max = 255)` on the name and `@Size(max = 50)` on
      the unit. */
  predicate DefinitionEntityValid(d: Definition)
  {
    !Blank(Some(d.name)) && Utf16Length(d.name) <= MaxNameLength
    && !Blank(Some(d.unit)) && Utf16Length(d.unit) <= MaxUnitLength
  }

  predicate MaterialNameTaken(m: map<Uuid, Material>, name: string)
  {
    exists id :: id in m && m[id].name == name
  }

  predicate DefinitionNameTaken(d: map<Uuid, Definition>, name: string)
  {
    exists id :: id in d && d[id].name == name
  }

  // ---------------------------------------------------------------------
  // Materials
  // ---------------------------------------------------------------------

  /** `getMaterialById`. */
  function GetMaterial(c: Catalogue, id: Option<Uuid>): (r: Result<Material, Cause>)
    ensures r.Success? <==> id.Some? && id.value in c.materials
    ensures r.Success? ==> r.value == c.materials[id.value]
    ensures id.None? ==> r == Failure(NullArgument)
  {
    if id.None? then Failure(NullArgument)
    else if id.value !in c.materials then Failure(NotFound)
    else Success(c.materials[id.value])
  }

  /** The reason `createMaterial` and `updateMaterial` reject a request body
      before looking at the stored materials; of the type only null is
      refused here, a blank or over-long one is refused by the entity's
      validation when it is saved. */
  function MaterialFieldsError(input: Option<MaterialInput>): Option<Cause>
  {
    if input.None? then Some(NullArgument)
    else if Blank(input.value.name) then Some(BlankField)
    else if input.value.materialType.None? then Some(NullArgument)
    else None
  }

  /** `createMaterial`: the new material is stored under `newId`, the UUID
      the database generates for it. The entity is validated last, when the
      `save` is written; its failure rolls the transaction back like any
      other. */
  function CreateMaterial(c: Catalogue, input: Option<MaterialInput>, newId: Uuid): (r: Result<Catalogue, Cause>)
    requires newId !in c.materials
    ensures r.Success? <==> MaterialFieldsError(input).None? && !MaterialNameTaken(c.materials, input.value.name.value)
                            && MaterialEntityValid(Material(input.value.name.value, input.value.materialType.value))
    ensures MaterialFieldsError(input).None? && !MaterialNameTaken(c.materials, input.value.name.value)
            && !MaterialEntityValid(Material(input.value.name.value, input.value.materialType.value))
            ==> r == Failure(EntityInvalid)
    ensures r.Success? ==> r.value == c.(materials := c.materials[newId := Material(input.value.name.value, input.value.materialType.value)])
    ensures Valid(c) && r.Success? ==> Valid(r.value)
  {
    match MaterialFieldsError(input)
    case Some(cause) => Failure(cause)
    case None =>
      var name := input.value.name.value;
      var m := Material(name, input.value.materialType.value);
      if MaterialNameTaken(c.materials, name) then Failure(DuplicateName)
      else if !MaterialEntityValid(m) then Failure(EntityInvalid)
      else Success(c.(materials := c.materials[newId := m]))
  }

  /** `updateMaterial`: the name and type of an existing material are
      replaced; keeping its own name is allowed, taking another material's
      name is not, and the entity is validated when it is saved. */
  function UpdateMaterial(c: Catalogue, id: Option<Uuid>, input: Option<MaterialInput>): (r: Result<Catalogue, Cause>)
    ensures id.None? ==> r == Failure(NullArgument)
    ensures r.Success? <==>
              id.Some? && MaterialFieldsError(input).None? && id.value in c.materials
              && (input.value.name.value == c.materials[id.value].name
                  || !MaterialNameTaken(c.materials, input.value.name.value))
              && MaterialEntityValid(Material(input.value.name.value, input.value.materialType.value))
    ensures r.Success? ==>
              r.value == c.(materials := c.materials[id.value := Material(input.value.name.value, input.value.materialType.value)])
    ensures Valid(c) && r.Success? ==> Valid(r.value)
  {
    if id.None? then Failure(NullArgument)
    else if input.None? then Failure(NullArgument)
    else if Blank(input.value.name) then Failure(BlankField)
    else if input.value.materialType.None? then Failure(NullArgument)
    else
      var existing :- GetMaterial(c, id);
      var name := input.value.name.value;
      var m := Material(name, input.value.materialType.value);
      if existing.name != name && MaterialNameTaken(c.materials, name) then Failure(DuplicateName)
      else if !MaterialEntityValid(m) then Failure(EntityInvalid)
      else Success(c.(materials := c.materials[id.value := m]))
  }

  /** `deleteMaterial`: all values of the material go first, through the
      deletion service, then the material itself. */
  function DeleteMaterial(c: Catalogue, id: Option<Uuid>): (r: Result<Catalogue, Cause>)
    ensures r.Success? <==> id.Some? && id.value in c.materials
    ensures r.Success? ==> r.value.materials == c.materials - {id.value}
    ensures r.Success? ==> r.value.properties == c.properties && r.value.coefficients == c.coefficients
    ensures r.Success? ==> forall k :: k in r.value.propertyValues <==> k in c.propertyValues && k.material != id.value
    ensures r.Success? ==> forall k :: k in r.value.coefficientValues <==> k in c.coefficientValues && k.material != id.value
    ensures Valid(c) && r.Success? ==> Valid(r.value)
  {
    if id.None? then Failure(NullArgument)
    else
      var _ :- GetMaterial(c, id);
      var cleared := DeleteAllMaterialValues(c, id).value;
      Success(cleared.(materials := cleared.materials - {id.value}))
  }

  // ---------------------------------------------------------------------
  // Properties and coefficients
  // ---------------------------------------------------------------------

  /** `getMaterialPropertyById` and `getEmpiricalCoefficientById`. */
  function GetDefinition(d: map<Uuid, Definition>, id: Option<Uuid>): (r: Result<Definition, Cause>)
    ensures r.Success? <==> id.Some? && id.value in d
    ensures r.Success? ==> r.value == d[id.value]
    ensures id.None? ==> r == Failure(NullArgument)
  {
    if id.None? then Failure(NullArgument)
    else if id.value !in d then Failure(NotFound)
    else Success(d[id.value])
  }

  /** The reason a property or coefficient request body is rejected before
      the stored entities are looked at: both the name and the unit must be
      non-blank. */
  function DefinitionFieldsError(input: Option<DefinitionInput>): Option<Cause>
  {
    if input.None? then Some(NullArgument)
    else if Blank(input.value.name) then Some(BlankField)
    else if Blank(input.value.unit) then Some(BlankField)
    else None
  }

  /** `createMaterialProperty` and `createEmpiricalCoefficient` over the
      entities of one kind. */
  function CreateDefinition(d: map<Uuid, Definition>, input: Option<DefinitionInput>, newId: Uuid)
    : (r: Result<map<Uuid, Definition>, Cause>)
    requires newId !in d
    ensures r.Success? <==> DefinitionFieldsError(input).None? && !DefinitionNameTaken(d, input.value.name.value)
                            && DefinitionEntityValid(Definition(input.value.name.value, input.value.unit.value))
    ensures DefinitionFieldsError(input).None? && !DefinitionNameTaken(d, input.value.name.value)
            && !DefinitionEntityValid(Definition(input.value.name.value, input.value.unit.value))
            ==> r == Failure(EntityInvalid)
    ensures r.Success? ==> r.value == d[newId := Definition(input.value.name.value, input.value.unit.value)]
    ensures DistinctDefinitionNames(d) && r.Success? ==> DistinctDefinitionNames(r.value)
  {
    match DefinitionFieldsError(input)
    case Some(cause) => Failure(cause)
    case None =>
      var name := input.value.name.value;
      var e := Definition(name, input.value.unit.value);
      if DefinitionNameTaken(d, name) then Failure(DuplicateName)
      else if !DefinitionEntityValid(e) then Failure(EntityInvalid)
      else Success(d[newId := e])
  }

  /** `updateMaterialProperty` and `updateEmpiricalCoefficient` over the
      entities of one kind. */
  function UpdateDefinition(d: map<Uuid, Definition>, id: Option<Uuid>, input: Option<DefinitionInput>)
    : (r: Result<map<Uuid, Definition>, Cause>)
    ensures id.None? ==> r == Failure(NullArgument)
    ensures r.Success? <==>
              id.Some? && DefinitionFieldsError(input).None? && id.value in d
              && (input.value.name.value == d[id.value].name || !DefinitionNameTaken(d, input.value.name.value))
              && DefinitionEntityValid(Definition(input.value.name.value, input.value.unit.value))
    ensures r.Success? ==> r.value == d[id.value := Definition(input.value.name.value, input.value.unit.value)]
    ensures DistinctDefinitionNames(d) && r.Success? ==> DistinctDefinitionNames(r.value)
  {
    if id.None? then Failure(NullArgument)
    else if input.None? then Failure(NullArgument)
    else if Blank(input.value.name) then Failure(BlankField)
    else if Blank(input.value.unit) then Failure(BlankField)
    else
      var existing :- GetDefinition(d, id);
      var name := input.value.name.value;
      var e := Definition(name, input.value.unit.value);
      if existing.name != name && DefinitionNameTaken(d, name) then Failure(DuplicateName)
      else if !DefinitionEntityValid(e) then Failure(EntityInvalid)
      else Success(d[id.value := e])
  }

  /** `createMaterialProperty`. */
  function CreateProperty(c: Catalogue, input: Option<DefinitionInput>, newId: Uuid): (r: Result<Catalogue, Cause>)
    requires newId !in c.properties
    ensures r.Success? <==> CreateDefinition(c.properties, input, newId).Success?
    ensures r.Success? ==> r.value == c.(properties := CreateDefinition(c.properties, input, newId).value)
    ensures Valid(c) && r.Success? ==> Valid(r.value)
  {
    var properties :- CreateDefinition(c.properties, input, newId);
    Success(c.(properties := properties))
  }

  /** `updateMaterialProperty`. */
  function UpdateProperty(c: Catalogue, id: Option<Uuid>, input: Option<DefinitionInput>): (r: Result<Catalogue, Cause>)
    ensures r.Success? <==> UpdateDefinition(c.properties, id, input).Success?
    ensures r.Success? ==> r.value == c.(properties := UpdateDefinition(c.properties, id, input).value)
    ensures Valid(c) && r.Success? ==> Valid(r.value)
  {
    var properties :- UpdateDefinition(c.properties, id, input);
    Success(c.(properties := properties))
  }

  /** `deleteMaterialProperty`: the values of the property go first, then the
      property itself; coefficient values are not touched. */
  function DeleteProperty(c: Catalogue, id: Option<Uuid>): (r: Result<Catalogue, Cause>)
    ensures r.Success? <==> id.Some? && id.value in c.properties
    ensures r.Success? ==> r.value.properties == c.properties - {id.value}
    ensures r.Success? ==> r.value.materials == c.materials && r.value.coefficients == c.coefficients
                           && r.value.coefficientValues == c.coefficientValues
    ensures r.Success? ==> forall k :: k in r.value.propertyValues <==> k in c.propertyValues && k.definition != id.value
    ensures Valid(c) && r.Success? ==> Valid(r.value)
  {
    if id.None? then Failure(NullArgument)
    else
      var _ :- GetDefinition(c.properties, id);
      var cleared := DeleteAllPropertyValues(c, id).value;
      Success(cleared.(properties := cleared.properties - {id.value}))
  }

  /** `createEmpiricalCoefficient`. */
  function CreateCoefficient(c: Catalogue, input: Option<DefinitionInput>, newId: Uuid): (r: Result<Catalogue, Cause>)
    requires newId !in c.coefficients
    ensures r.Success? <==> CreateDefinition(c.coefficients, input, newId).Success?
    ensures r.Success? ==> r.value == c.(coefficients := CreateDefinition(c.coefficients, input, newId).value)
    ensures Valid(c) && r.Success? ==> Valid(r.value)
  {
    var coefficients :- CreateDefinition(c.coefficients, input, newId);
    Success(c.(coefficients := coefficients))
  }

  /** `updateEmpiricalCoefficient`. */
  function UpdateCoefficient(c: Catalogue, id: Option<Uuid>, input: Option<DefinitionInput>): (r: Result<Catalogue, Cause>)
    ensures r.Success? <==> UpdateDefinition(c.coefficients, id, input).Success?
    ensures r.Success? ==> r.value == c.(coefficients := UpdateDefinition(c.coefficients, id, input).value)
    ensures Valid(c) && r.Success? ==> Valid(r.value)
  {
    var coefficients :- UpdateDefinition(c.coefficients, id, input);
    Success(c.(coefficients := coefficients))
  }

  /** `deleteEmpiricalCoefficient`: the values of the coefficient go first,
      then the coefficient itself; property values are not touched. */
  function DeleteCoefficient(c: Catalogue, id: Option<Uuid>): (r: Result<Catalogue, Cause>)
    ensures r.Success? <==> id.Some? && id.value in c.coefficients
    ensures r.Success? ==> r.value.coefficients == c.coefficients - {id.value}
    ensures r.Success? ==> r.value.materials == c.materials && r.value.properties == c.properties
                           && r.value.propertyValues == c.propertyValues
    ensures r.Success? ==> forall k :: k in r.value.coefficientValues <==> k in c.coefficientValues && k.definition != id.value
    ensures Valid(c) && r.Success? ==> Valid(r.value)
  {
    if id.None? then Failure(NullArgument)
    else
      var _ :- GetDefinition(c.coefficients, id);
      var cleared := DeleteAllCoefficientValues(c, id).value;
      Success(cleared.(coefficients := cleared.coefficients - {id.value}))
  }

  // ---------------------------------------------------------------------
  // Values
  // ---------------------------------------------------------------------

  /** The values whose key satisfies neither `k.material == m` (when `m` is
      given) nor `k.definition == d` (when `d` is given). */
  function Without(values: map<Key, real>, m: Option<Uuid>, d: Option<Uuid>): (r: map<Key, real>)
    ensures forall k :: k in r <==> k in values && Some(k.material) != m && Some(k.definition) != d
    ensures forall k :: k in r ==> r[k] == values[k]
  {
    map k | k in values && Some(k.material) != m && Some(k.definition) != d :: values[k]
  }

  /** `findByMaterialId`: the values of one material. */
  function ValuesOf(values: map<Key, real>, m: Uuid): (r: map<Key, real>)
    ensures forall k :: k in r <==> k in values && k.material == m
    ensures forall k :: k in r ==> r[k] == values[k]
  {
    map k | k in values && k.material == m :: values[k]
  }

  /** `addPropertyValue` and `addCoefficientValue` over the definitions and
      values of one kind: the value must be present, the material and the
      definition must exist, and the pair must not have a value yet. */
  function AddValue(materials: map<Uuid, Material>, defs: map<Uuid, Definition>, values: map<Key, real>,
                    m: Option<Uuid>, d: Option<Uuid>, value: Option<real>): (r: Result<map<Key, real>, Cause>)
    ensures r.Success? <==>
              value.Some? && m.Some? && m.value in materials && d.Some? && d.value in defs
              && Key(m.value, d.value) !in values
    ensures r.Success? ==> r.value == values[Key(m.value, d.value) := value.value]
    ensures value.None? ==> r == Failure(NullArgument)
  {
    if value.None? then Failure(NullArgument)
    else if m.None? then Failure(NullArgument)
    else if m.value !in materials then Failure(NotFound)
    else
      var _ :- GetDefinition(defs, d);
      if Key(m.value, d.value) in values then Failure(DuplicateValue)
      else Success(values[Key(m.value, d.value) := value.value])
  }

  /** `updatePropertyValue` and `updateCoefficientValue`: only the value of
      an existing pair changes. */
  function UpdateValue(materials: map<Uuid, Material>, defs: map<Uuid, Definition>, values: map<Key, real>,
                       m: Option<Uuid>, d: Option<Uuid>, value: Option<real>): (r: Result<map<Key, real>, Cause>)
    ensures r.Success? <==>
              value.Some? && m.Some? && m.value in materials && d.Some? && d.value in defs
              && Key(m.value, d.value) in values
    ensures r.Success? ==> r.value == values[Key(m.value, d.value) := value.value]
    ensures r.Success? ==> r.value.Keys == values.Keys
  {
    if value.None? then Failure(NullArgument)
    else if m.None? then Failure(NullArgument)
    else if m.value !in materials then Failure(NotFound)
    else
      var _ :- GetDefinition(defs, d);
      if Key(m.value, d.value) !in values then Failure(ValueNotFound)
      else Success(values[Key(m.value, d.value) := value.value])
  }

  /** `getMaterialProperties` and `getMaterialCoefficients`: the values of
      an existing material. */
  function GetValues(materials: map<Uuid, Material>, values: map<Key, real>, m: Option<Uuid>)
    : (r: Result<map<Key, real>, Cause>)
    ensures r.Success? <==> m.Some? && m.value in materials
    ensures r.Success? ==> forall k :: k in r.value <==> k in values && k.material == m.value
    ensures r.Success? ==> forall k :: k in r.value ==> r.value[k] == values[k]
  {
    if m.None? then Failure(NullArgument)
    else if m.value !in materials then Failure(NotFound)
    else Success(ValuesOf(values, m.value))
  }

  /** `deletePropertyValue` and `deleteCoefficientValue`: exactly the pair
      goes, and only if it has a value. */
  function DeleteValue(materials: map<Uuid, Material>, defs: map<Uuid, Definition>, values: map<Key, real>,
                       m: Option<Uuid>, d: Option<Uuid>): (r: Result<map<Key, real>, Cause>)
    ensures r.Success? <==>
              m.Some? && m.value in materials && d.Some? && d.value in defs && Key(m.value, d.value) in values
    ensures r.Success? ==> r.value == values - {Key(m.value, d.value)}
    ensures m.None? || d.None? ==> r == Failure(NullArgument)
  {
    if m.None? || d.None? then Failure(NullArgument)
    else if m.value !in materials then Failure(NotFound)
    else if d.value !in defs then Failure(NotFound)
    else if Key(m.value, d.value) !in values then Failure(ValueNotFound)
    else Success(values - {Key(m.value, d.value)})
  }

  /** `deleteAllMaterialPropertyValues` and
      `deleteAllMaterialCoefficientValues`: the values of an existing
      material go, every other value stays. */
  function DeleteValuesOfMaterial(materials: map<Uuid, Material>, values: map<Key, real>, m: Option<Uuid>)
    : (r: Result<map<Key, real>, Cause>)
    ensures r.Success? <==> m.Some? && m.value in materials
    ensures r.Success? ==> forall k :: k in r.value <==> k in values && k.material != m.value
    ensures r.Success? ==> forall k :: k in r.value ==> r.value[k] == values[k]
  {
    if m.None? then Failure(NullArgument)
    else if m.value !in materials then Failure(NotFound)
    else Success(Without(values, m, None))
  }

  /** `deleteAllPropertyValues` and `deleteAllCoefficientValues` of the value
      services: the values of an existing definition go, every other value
      stays. */
  function DeleteValuesOfDefinition(defs: map<Uuid, Definition>, values: map<Key, real>, d: Option<Uuid>)
    : (r: Result<map<Key, real>, Cause>)
    ensures r.Success? <==> d.Some? && d.value in defs
    ensures r.Success? ==> forall k :: k in r.value <==> k in values && k.definition != d.value
    ensures r.Success? ==> forall k :: k in r.value ==> r.value[k] == values[k]
  {
    if d.None? then Failure(NullArgument)
    else if d.value !in defs then Failure(NotFound)
    else Success(Without(values, None, d))
  }

  /** `addPropertyValue`. */
  function AddPropertyValue(c: Catalogue, m: Option<Uuid>, p: Option<Uuid>, value: Option<real>): (r: Result<Catalogue, Cause>)
    ensures r.Success? <==> AddValue(c.materials, c.properties, c.propertyValues, m, p, value).Success?
    ensures r.Success? ==> r.value == c.(propertyValues := c.propertyValues[Key(m.value, p.value) := value.value])
    ensures Valid(c) && r.Success? ==> Valid(r.value)
  {
    var values :- AddValue(c.materials, c.properties, c.propertyValues, m, p, value);
    Success(c.(propertyValues := values))
  }

  /** `updatePropertyValue`. */
  function UpdatePropertyValue(c: Catalogue, m: Option<Uuid>, p: Option<Uuid>, value: Option<real>): (r: Result<Catalogue, Cause>)
    ensures r.Success? <==> UpdateValue(c.materials, c.properties, c.propertyValues, m, p, value).Success?
    ensures r.Success? ==> r.value == c.(propertyValues := c.propertyValues[Key(m.value, p.value) := value.value])
    ensures Valid(c) && r.Success? ==> Valid(r.value)
  {
    var values :- UpdateValue(c.materials, c.properties, c.propertyValues, m, p, value);
    Success(c.(propertyValues := values))
  }

  /** `deletePropertyValue`. */
  function DeletePropertyValue(c: Catalogue, m: Option<Uuid>, p: Option<Uuid>): (r: Result<Catalogue, Cause>)
    ensures r.Success? <==> DeleteValue(c.materials, c.properties, c.propertyValues, m, p).Success?
    ensures r.Success? ==> r.value == c.(propertyValues := c.propertyValues - {Key(m.value, p.value)})
    ensures Valid(c) && r.Success? ==> Valid(r.value)
  {
    var values :- DeleteValue(c.materials, c.properties, c.propertyValues, m, p);
    Success(c.(propertyValues := values))
  }

  /** `addCoefficientValue`. */
  function AddCoefficientValue(c: Catalogue, m: Option<Uuid>, e: Option<Uuid>, value: Option<real>): (r: Result<Catalogue, Cause>)
    ensures r.Success? <==> AddValue(c.materials, c.coefficients, c.coefficientValues, m, e, value).Success?
    ensures r.Success? ==> r.value == c.(coefficientValues := c.coefficientValues[Key(m.value, e.value) := value.value])
    ensures Valid(c) && r.Success? ==> Valid(r.value)
  {
    var values :- AddValue(c.materials, c.coefficients, c.coefficientValues, m, e, value);
    Success(c.(coefficientValues := values))
  }

  /** `updateCoefficientValue`. */
  function UpdateCoefficientValue(c: Catalogue, m: Option<Uuid>, e: Option<Uuid>, value: Option<real>): (r: Result<Catalogue, Cause>)
    ensures r.Success? <==> UpdateValue(c.materials, c.coefficients, c.coefficientValues, m, e, value).Success?
    ensures r.Success? ==> r.value == c.(coefficientValues := c.coefficientValues[Key(m.value, e.value) := value.value])
    ensures Valid(c) && r.Success? ==> Valid(r.value)
  {
    var values :- UpdateValue(c.materials, c.coefficients, c.coefficientValues, m, e, value);
    Success(c.(coefficientValues := values))
  }

  /** `deleteCoefficientValue`. */
  function DeleteCoefficientValue(c: Catalogue, m: Option<Uuid>, e: Option<Uuid>): (r: Result<Catalogue, Cause>)
    ensures r.Success? <==> DeleteValue(c.materials, c.coefficients, c.coefficientValues, m, e).Success?
    ensures r.Success? ==> r.value == c.(coefficientValues := c.coefficientValues - {Key(m.value, e.value)})
    ensures Valid(c) && r.Success? ==> Valid(r.value)
  {
    var values :- DeleteValue(c.materials, c.coefficients, c.coefficientValues, m, e);
    Success(c.(coefficientValues := values))
  }

  // ---------------------------------------------------------------------
  // The deletion service
  // ---------------------------------------------------------------------

  /** `MaterialDeletionService.deleteAllMaterialValues`: the property and the
      coefficient values of the material go; the material need not exist. */
  function DeleteAllMaterialValues(c: Catalogue, m: Option<Uuid>): (r: Result<Catalogue, Cause>)
    ensures r.Success? <==> m.Some?
    ensures r.Success? ==> r.value.materials == c.materials && r.value.properties == c.properties
                           && r.value.coefficients == c.coefficients
    ensures r.Success? ==> forall k :: k in r.value.propertyValues <==> k in c.propertyValues && k.material != m.value
    ensures r.Success? ==> forall k :: k in r.value.coefficientValues <==> k in c.coefficientValues && k.material != m.value
    ensures r.Success? ==> forall k :: k in r.value.propertyValues ==> r.value.propertyValues[k] == c.propertyValues[k]
    ensures r.Success? ==> forall k :: k in r.value.coefficientValues ==> r.value.coefficientValues[k] == c.coefficientValues[k]
  {
    if m.None? then Failure(NullArgument)
    else Success(c.(propertyValues := Without(c.propertyValues, m, None),
                    coefficientValues := Without(c.coefficientValues, m, None)))
  }

  /** `MaterialDeletionService.deleteAllPropertyValues`: only property values
      of that property go. */
  function DeleteAllPropertyValues(c: Catalogue, p: Option<Uuid>): (r: Result<Catalogue, Cause>)
    ensures r.Success? <==> p.Some?
    ensures r.Success? ==> r.value.materials == c.materials && r.value.properties == c.properties
                           && r.value.coefficients == c.coefficients && r.value.coefficientValues == c.coefficientValues
    ensures r.Success? ==> forall k :: k in r.value.propertyValues <==> k in c.propertyValues && k.definition != p.value
    ensures r.Success? ==> forall k :: k in r.value.propertyValues ==> r.value.propertyValues[k] == c.propertyValues[k]
  {
    if p.None? then Failure(NullArgument)
    else Success(c.(propertyValues := Without(c.propertyValues, None, p)))
  }

  /** `MaterialDeletionService.deleteAllCoefficientValues`: only coefficient
      values of that coefficient go. */
  function DeleteAllCoefficientValues(c: Catalogue, e: Option<Uuid>): (r: Result<Catalogue, Cause>)
    ensures r.Success? <==> e.Some?
    ensures r.Success? ==> r.value.materials == c.materials && r.value.properties == c.properties
                           && r.value.coefficients == c.coefficients && r.value.propertyValues == c.propertyValues
    ensures r.Success? ==> forall k :: k in r.value.coefficientValues <==> k in c.coefficientValues && k.definition != e.value
    ensures r.Success? ==> forall k :: k in r.value.coefficientValues ==> r.value.coefficientValues[k] == c.coefficientValues[k]
  {
    if e.None? then Failure(NullArgument)
    else Success(c.(coefficientValues := Without(c.coefficientValues, None, e)))
  }

  // ---------------------------------------------------------------------
  // Properties relating several operations
  // ---------------------------------------------------------------------

  /** A material with a fresh, non-blank name is created exactly when the
      entity is valid, and is then found under its new id with the submitted
      name and type. */
  lemma CreateThenGetMaterial(c: Catalogue, name: string, materialType: string, newId: Uuid)
    requires newId !in c.materials
    requires !Blank(Some(name)) && !MaterialNameTaken(c.materials, name)
    ensures CreateMaterial(c, Some(MaterialInput(Some(name), Some(materialType))), newId).Success?
            <==> MaterialEntityValid(Material(name, materialType))
    ensures MaterialEntityValid(Material(name, materialType)) ==>
              GetMaterial(CreateMaterial(c, Some(MaterialInput(Some(name), Some(materialType))), newId).value, Some(newId))
              == Success(Material(name, materialType))
  {
  }

  /** A material whose type is blank but not null passes the service's own
      checks and is refused when the entity is validated. */
  lemma BlankTypeRejected(c: Catalogue, name: string, newId: Uuid)
    requires newId !in c.materials
    requires !Blank(Some(name)) && !MaterialNameTaken(c.materials, name)
    ensures MaterialFieldsError(Some(MaterialInput(Some(name), Some(" ")))).None?
    ensures CreateMaterial(c, Some(MaterialInput(Some(name), Some(" "))), newId) == Failure(EntityInvalid)
  {
    assert JavaTrimStart(" ") == [];
  }

  /** A unit longer than fifty characters passes the service's own checks and
      is refused when the entity is validated. */
  lemma LongUnitRejected(d: map<Uuid, Definition>, name: string, unit: string, newId: Uuid)
    requires newId !in d
    requires !Blank(Some(name)) && !Blank(Some(unit)) && !DefinitionNameTaken(d, name)
    requires |unit| > MaxUnitLength
    ensures DefinitionFieldsError(Some(DefinitionInput(Some(name), Some(unit)))).None?
    ensures CreateDefinition(d, Some(DefinitionInput(Some(name), Some(unit))), newId) == Failure(EntityInvalid)
  {
  }

  /** Re-submitting a material with its own name is never a duplicate: it
      succeeds exactly when the entity with the new type is valid. */
  lemma UpdateKeepingName(c: Catalogue, id: Uuid, materialType: string)
    requires id in c.materials && !Blank(Some(c.materials[id].name))
    ensures UpdateMaterial(c, Some(id), Some(MaterialInput(Some(c.materials[id].name), Some(materialType)))).Success?
            <==> MaterialEntityValid(Material(c.materials[id].name, materialType))
    ensures UpdateMaterial(c, Some(id), Some(MaterialInput(Some(c.materials[id].name), Some(materialType)))).Failure?
            ==> UpdateMaterial(c, Some(id), Some(MaterialInput(Some(c.materials[id].name), Some(materialType))))
                == Failure(EntityInvalid)
  {
  }

  /** Under the invariant, renaming a material to the name of a different
      material fails. */
  lemma UpdateToOtherNameFails(c: Catalogue, id: Uuid, other: Uuid, materialType: string)
    requires DistinctMaterialNames(c.materials)
    requires id in c.materials && other in c.materials && id != other
    ensures UpdateMaterial(c, Some(id), Some(MaterialInput(Some(c.materials[other].name), Some(materialType))))
         == Failure(if Blank(Some(c.materials[other].name)) then BlankField else DuplicateName)
  {
    assert c.materials[other].name != c.materials[id].name;
  }

  /** Adding a value to a pair and deleting the pair again restores the
      catalogue. */
  lemma AddThenDeletePropertyValue(c: Catalogue, m: Uuid, p: Uuid, value: real)
    requires AddPropertyValue(c, Some(m), Some(p), Some(value)).Success?
    ensures DeletePropertyValue(AddPropertyValue(c, Some(m), Some(p), Some(value)).value, Some(m), Some(p)) == Success(c)
  {
    var added := AddPropertyValue(c, Some(m), Some(p), Some(value)).value;
    assert added.propertyValues - {Key(m, p)} == c.propertyValues;
  }

  /** A pair that has a value cannot be given a second one: adding fails and
      leaves the catalogue as it was, and only an update changes the value. */
  lemma AddTwiceFails(c: Catalogue, m: Uuid, p: Uuid, v1: real, v2: real)
    requires AddPropertyValue(c, Some(m), Some(p), Some(v1)).Success?
    ensures AddPropertyValue(AddPropertyValue(c, Some(m), Some(p), Some(v1)).value, Some(m), Some(p), Some(v2))
         == Failure(DuplicateValue)
    ensures UpdatePropertyValue(AddPropertyValue(c, Some(m), Some(p), Some(v1)).value, Some(m), Some(p), Some(v2))
         == AddPropertyValue(c, Some(m), Some(p), Some(v2))
  {
    var added := AddPropertyValue(c, Some(m), Some(p), Some(v1)).value;
    assert added.propertyValues[Key(m, p) := v2] == c.propertyValues[Key(m, p) := v2];
  }

  /** Updating a value twice keeps only the second value. */
  lemma UpdateTwice(c: Catalogue, m: Uuid, e: Uuid, v1: real, v2: real)
    requires UpdateCoefficientValue(c, Some(m), Some(e), Some(v1)).Success?
    ensures UpdateCoefficientValue(UpdateCoefficientValue(c, Some(m), Some(e), Some(v1)).value, Some(m), Some(e), Some(v2))
         == UpdateCoefficientValue(c, Some(m), Some(e), Some(v2))
  {
    var once := UpdateCoefficientValue(c, Some(m), Some(e), Some(v1)).value;
    assert once.coefficientValues[Key(m, e) := v2] == c.coefficientValues[Key(m, e) := v2];
  }

  /** After a material is deleted, none of its values can be read any more
      and its name is free again. */
  lemma DeletedMaterialLeavesNothing(c: Catalogue, id: Uuid, name: string, materialType: string)
    requires Valid(c) && id in c.materials && c.materials[id].name == name && !Blank(Some(name))
    ensures DeleteMaterial(c, Some(id)).Success?
    ensures var after := DeleteMaterial(c, Some(id)).value;
      (forall k :: k in after.propertyValues ==> k.material != id)
      && (forall k :: k in after.coefficientValues ==> k.material != id)
      && !MaterialNameTaken(after.materials, name)
  {
  }
}
