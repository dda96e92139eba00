/** The simulation page's parameter form: typing into a field, and filling
    the form from a material's stored property and coefficient values, which
    are recognised by keywords in their (Russian) names. */
module SimulationForm {
  import opened Outcomes
  import opened Text
  import opened JsNumbers

  /** The form's state: parameter name to value. */
  type Model = map<string, JsNum>

  /** The sixteen parameters and the values the page starts with. */
  function DefaultModel(): (m: Model)
    ensures TargetFields() <= m.Keys
  {
    map[
      "width" := Num(0.1), "depth" := Num(0.01), "length" := Num(1.0),
      "density" := Num(1000.0), "heatCapacity" := Num(2000.0),
      "glassTransitionTemp" := Num(100.0), "meltingTemp" := Num(200.0),
      "coverSpeed" := Num(0.1), "coverTemp" := Num(150.0), "mu0" := Num(10000.0),
      "firstConstantVLF" := Num(8.86), "secondConstantVLF" := Num(101.6),
      "castingTemp" := Num(190.0), "flowIndex" := Num(0.3), "heatTransfer" := Num(1000.0),
      "step" := Num(0.01)
    ]
  }

  /** `handleInputChange`: the named field takes `parseFloat` of the typed
      text; a field left empty or starting with a letter becomes NaN. */
  function HandleInputChange(m: Model, name: string, value: string): (r: Model)
    ensures name in r && r[name] == ParseFloat(value)
    ensures r.Keys == m.Keys + {name}
    ensures forall f :: f in m && f != name ==> r[f] == m[f]
  {
    m[name := ParseFloat(value)]
  }

  /** Clearing a field stores NaN; typing digits stores their value. */
  lemma ClearedFieldIsNaN(m: Model, name: string, digits: string)
    requires |digits| > 0 && AllDigits(digits)
    ensures HandleInputChange(m, name, "")[name] == NaN
    ensures HandleInputChange(m, name, digits)[name] == Num(DigitsValue(digits) as real)
  {
    ParseFloatOfDigits(digits);
  }

  // ---------------------------------------------------------------------
  // Keyword rules
  // ---------------------------------------------------------------------

  /** A keyword and the parameter it fills. */
  datatype Rule = Rule(keyword: string, field: string)

  /** Checked in this order against a property's lower-cased name. */
  function PropertyRules(): seq<Rule>
  {
    [Rule("плотность", "density"), Rule("теплоемкость", "heatCapacity"),
     Rule("стеклования", "glassTransitionTemp"), Rule("плавления", "meltingTemp")]
  }

  /** Checked in this order against a coefficient's lower-cased name. */
  function CoefficientRules(): seq<Rule>
  {
    [Rule("консистенции", "mu0"), Rule("c1", "firstConstantVLF"), Rule("c2", "secondConstantVLF"),
     Rule("течения", "flowIndex"), Rule("теплоотдачи", "heatTransfer")]
  }

  function TargetFields(): set<string>
  {
    {"density", "heatCapacity", "glassTransitionTemp", "meltingTemp",
     "mu0", "firstConstantVLF", "secondConstantVLF", "flowIndex", "heatTransfer"}
  }

  /** The field of the first rule whose keyword occurs in `name`. */
  function FirstMatch(rules: seq<Rule>, name: string): (r: Option<string>)
    ensures r.None? <==> forall i :: 0 <= i < |rules| ==> !Contains(name, rules[i].keyword)
    ensures r.Some? ==> exists i :: 0 <= i < |rules| && rules[i].field == r.value
                                    && Contains(name, rules[i].keyword)
                                    && forall j :: 0 <= j < i ==> !Contains(name, rules[j].keyword)
  {
    if |rules| == 0 then None
    else if Contains(name, rules[0].keyword) then Some(rules[0].field)
    else
      var r := FirstMatch(rules[1..], name);
      assert forall i :: 1 <= i < |rules| ==> rules[i] == rules[1..][i - 1];
      r
  }

  /** A stored value together with the name of its property or coefficient. */
  datatype NamedValue = NamedValue(name: string, value: real)

  /** The `forEach` over a material's values: each value whose lower-cased
      name matches a rule overwrites that rule's field, in list order. */
  function ApplyValues(m: Model, rules: seq<Rule>, values: seq<NamedValue>): (r: Model)
    decreases |values|
  {
    if |values| == 0 then m
    else
      var before := ApplyValues(m, rules, values[..|values| - 1]);
      var last := values[|values| - 1];
      match FirstMatch(rules, ToLower(last.name))
      case Some(f) => before[f := Num(last.value)]
      case None => before
  }

  /** The fields a rule list can fill. */
  function Fields(rules: seq<Rule>): set<string>
  {
    set i | 0 <= i < |rules| :: rules[i].field
  }

  /** A material as the page receives it; either list may be missing. */
  datatype Material = Material(propertyValues: Option<seq<NamedValue>>, coefficientValues: Option<seq<NamedValue>>)

  /** `applyMaterialProperties`: properties first, then coefficients; a
      missing list changes nothing. */
  function ApplyMaterialProperties(m: Model, material: Material): Model
  {
    var afterProperties := match material.propertyValues
      case Some(values) => ApplyValues(m, PropertyRules(), values)
      case None => m;
    match material.coefficientValues
    case Some(values) => ApplyValues(afterProperties, CoefficientRules(), values)
    case None => afterProperties
  }

  // ---------------------------------------------------------------------
  // Properties
  // ---------------------------------------------------------------------

  /** The index of the last value that fills `f`, as a reference for
      `ApplyValues`. */
  predicate LastFilling(rules: seq<Rule>, values: seq<NamedValue>, f: string, i: nat)
  {
    i < |values| && FirstMatch(rules, ToLower(values[i].name)) == Some(f)
    && forall j :: i < j < |values| ==> FirstMatch(rules, ToLower(values[j].name)) != Some(f)
  }

  /** A field ends with the value of the last entry that fills it. */
  lemma {:induction false} LastValueWins(m: Model, rules: seq<Rule>, values: seq<NamedValue>, f: string, i: nat)
    requires LastFilling(rules, values, f, i)
    ensures f in ApplyValues(m, rules, values)
    ensures ApplyValues(m, rules, values)[f] == Num(values[i].value)
    decreases |values|
  {
    var front := values[..|values| - 1];
    if i < |values| - 1 {
      assert LastFilling(rules, front, f, i) by {
        forall j | i < j < |front| ensures FirstMatch(rules, ToLower(front[j].name)) != Some(f) {
          assert front[j] == values[j];
        }
      }
      LastValueWins(m, rules, front, f, i);
    }
  }

  /** A field no entry fills keeps its value (or stays absent). */
  lemma {:induction false} UnfilledFieldKept(m: Model, rules: seq<Rule>, values: seq<NamedValue>, f: string)
    requires forall j :: 0 <= j < |values| ==> FirstMatch(rules, ToLower(values[j].name)) != Some(f)
    ensures (f in ApplyValues(m, rules, values)) == (f in m)
    ensures f in m ==> ApplyValues(m, rules, values)[f] == m[f]
    decreases |values|
  {
    if |values| > 0 {
      var front := values[..|values| - 1];
      assert forall j :: 0 <= j < |front| ==> front[j] == values[j];
      UnfilledFieldKept(m, rules, front, f);
    }
  }

  /** Only the rules' fields change, and no field is added beyond them. */
  lemma {:induction false} OnlyRuleFieldsChange(m: Model, rules: seq<Rule>, values: seq<NamedValue>)
    ensures ApplyValues(m, rules, values).Keys <= m.Keys + Fields(rules)
    ensures forall f :: f in m && f !in Fields(rules) ==>
              f in ApplyValues(m, rules, values) && ApplyValues(m, rules, values)[f] == m[f]
    decreases |values|
  {
    if |values| > 0 {
      OnlyRuleFieldsChange(m, rules, values[..|values| - 1]);
      MatchInFields(rules, ToLower(values[|values| - 1].name));
    }
  }

  /** The field a rule list picks is one of its fields. */
  lemma MatchInFields(rules: seq<Rule>, name: string)
    ensures FirstMatch(rules, name).Some? ==> FirstMatch(rules, name).value in Fields(rules)
  {
    if FirstMatch(rules, name).Some? {
      var i :| 0 <= i < |rules| && rules[i].field == FirstMatch(rules, name).value;
      assert rules[i].field in Fields(rules);
    }
  }

  lemma PropertyAndCoefficientFieldsDisjoint()
    ensures Fields(PropertyRules()) == {"density", "heatCapacity", "glassTransitionTemp", "meltingTemp"}
    ensures Fields(CoefficientRules()) == {"mu0", "firstConstantVLF", "secondConstantVLF", "flowIndex", "heatTransfer"}
    ensures Fields(PropertyRules()) !! Fields(CoefficientRules())
  {
    var p := PropertyRules();
    assert Fields(p) == {p[0].field, p[1].field, p[2].field, p[3].field};
    var c := CoefficientRules();
    assert Fields(c) == {c[0].field, c[1].field, c[2].field, c[3].field, c[4].field};
  }

  /** Applying a material to the default form keeps exactly the sixteen
      parameters; the geometry, the cover and casting conditions and the step
      are never taken from a material. */
  lemma ApplyKeepsParameters(material: Material)
    ensures ApplyMaterialProperties(DefaultModel(), material).Keys == DefaultModel().Keys
    ensures forall f :: f in DefaultModel() && f !in TargetFields() ==>
              ApplyMaterialProperties(DefaultModel(), material)[f] == DefaultModel()[f]
  {
    var m := DefaultModel();
    PropertyAndCoefficientFieldsDisjoint();
    var afterProperties := match material.propertyValues
      case Some(values) => ApplyValues(m, PropertyRules(), values)
      case None => m;
    if material.propertyValues.Some? {
      OnlyRuleFieldsChange(m, PropertyRules(), material.propertyValues.value);
      StaysIn(m, PropertyRules(), material.propertyValues.value);
    }
    assert afterProperties.Keys == m.Keys;
    if material.coefficientValues.Some? {
      OnlyRuleFieldsChange(afterProperties, CoefficientRules(), material.coefficientValues.value);
      StaysIn(afterProperties, CoefficientRules(), material.coefficientValues.value);
    }
  }

  /** Filling fields that are already present adds no key. */
  lemma {:induction false} StaysIn(m: Model, rules: seq<Rule>, values: seq<NamedValue>)
    requires Fields(rules) <= m.Keys
    ensures ApplyValues(m, rules, values).Keys == m.Keys
    decreases |values|
  {
    if |values| > 0 {
      StaysIn(m, rules, values[..|values| - 1]);
      MatchInFields(rules, ToLower(values[|values| - 1].name));
    }
  }

  /** Coefficients are applied after properties but never touch a property
      field, so a property value that fills a field survives them. */
  lemma CoefficientsKeepProperties(m: Model, props: seq<NamedValue>, coefs: seq<NamedValue>, f: string, i: nat)
    requires LastFilling(PropertyRules(), props, f, i)
    ensures f in ApplyMaterialProperties(m, Material(Some(props), Some(coefs)))
    ensures ApplyMaterialProperties(m, Material(Some(props), Some(coefs)))[f] == Num(props[i].value)
  {
    var after := ApplyValues(m, PropertyRules(), props);
    LastValueWins(m, PropertyRules(), props, f, i);
    PropertyAndCoefficientFieldsDisjoint();
    MatchInFields(PropertyRules(), ToLower(props[i].name));
    forall j | 0 <= j < |coefs|
      ensures FirstMatch(CoefficientRules(), ToLower(coefs[j].name)) != Some(f)
    {
      MatchInFields(CoefficientRules(), ToLower(coefs[j].name));
    }
    UnfilledFieldKept(after, CoefficientRules(), coefs, f);
  }

  /** A name matching an earlier rule is never taken by a later one: a
      property called "плотность и теплоемкость" fills only the density. */
  lemma EarlierRuleWins(rules: seq<Rule>, name: string, i: nat)
    requires i < |rules| && Contains(name, rules[i].keyword)
    ensures FirstMatch(rules, name).Some?
    ensures forall j ::
              (0 <= j < |rules| && FirstMatch(rules, name) == Some(rules[j].field)
               && forall k :: 0 <= k < j ==> rules[k].field != rules[j].field) ==> j <= i
  {
    var r := FirstMatch(rules, name);
    var w :| 0 <= w < |rules| && rules[w].field == r.value && Contains(name, rules[w].keyword)
             && forall j :: 0 <= j < w ==> !Contains(name, rules[j].keyword);
    assert w <= i;
  }
}
