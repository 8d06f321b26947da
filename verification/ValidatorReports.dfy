/** Where the validator's errors point, and how its reading of a schema relates to that of JSON Schema. */
module ValidatorReports {
  import opened JsonValues
  import opened StructuredValidator
  import opened ValidatorExactness

  // ----- Error paths -----

  // Following the steps stays inside the value; the last step of a missing member leads just outside of it.
  ghost predicate Leads(v: Json, steps: seq<Step>, problem: Problem)
    decreases |steps|
  {
    if steps == [] then problem != MissingMember && problem != ExtraMember
    else if steps[0].At? then
      v.List? && steps[0].index < |v.items| && Leads(v.items[steps[0].index], steps[1..], problem)
    else if problem == MissingMember && |steps| == 1 then
      v.Dict? && !(steps[0].key.Text? && Has(v.fields, steps[0].key.s))
    else
      && v.Dict? && steps[0].key.Text? && Has(v.fields, steps[0].key.s)
      && ((problem == ExtraMember && |steps| == 1) || Leads(Get(v.fields, steps[0].key.s), steps[1..], problem))
  }

  ghost predicate Located(v: Json, path: seq<Step>, verdict: Verdict) {
    verdict.Misfit? ==> path <= verdict.path && Leads(v, verdict.path[|path|..], verdict.problem)
  }

  lemma {:induction false} OptionsAreLocated(v: Json, options: Json, path: seq<Step>, i: nat)
    requires options.List? && i <= |options.items|
    ensures Located(v, path, FirstOption(v, options, path, i))
    decreases |options.items| - i
  {
    if i < |options.items| { OptionsAreLocated(v, options, path, i + 1); }
  }

  lemma {:induction false} RequiredIsLocated(v: Json, required: seq<Json>, path: seq<Step>)
    requires v.Dict?
    ensures Located(v, path, CheckRequired(v.fields, required, path))
  {
    if required != [] { RequiredIsLocated(v, required[1..], path); }
  }

  lemma {:induction false} MembersAreLocated(v: Json, props: Json, path: seq<Step>, i: nat)
    requires WellFormed(v) && v.Dict? && i <= |v.fields|
    ensures Located(v, path, CheckMembers(v, props, path, i))
    decreases props, 0, |v.fields| - i
  {
    if i < |v.fields| {
      var key, child := v.fields[i].key, v.fields[i].value;
      var here := path + [Member(Text(key))];
      if props.Dict? && Has(props.fields, key) {
        var property := props.fields[IndexOf(props.fields, key)].value;
        ErrorsAreLocated(child, property, here);
        MembersAreLocated(v, props, path, i + 1);
      }
    }
  }

  lemma {:induction false} ElementsAreLocated(v: Json, element: Json, path: seq<Step>, i: nat)
    requires WellFormed(v) && v.List? && i <= |v.items|
    ensures Located(v, path, CheckElements(v, element, path, i))
    decreases element, 3, |v.items| - i
  {
    if i < |v.items| {
      ErrorsAreLocated(v.items[i], element, path + [At(i)]);
      ElementsAreLocated(v, element, path, i + 1);
    }
  }

  lemma {:induction false} PartsAreLocated(v: Json, rule: Json, path: seq<Step>)
    requires WellFormed(v) && rule.Dict? && TypeVerdict(v, TypeOf(rule), path).Fits?
    ensures Located(v, path, CheckParts(v, rule, path))
    decreases rule, 1, 0
  {
    if TypeOf(rule) == Text("object") {
      var required := Iterate(if Has(rule.fields, "required") then Get(rule.fields, "required") else List([]));
      if required.Yields? { RequiredIsLocated(v, required.items, path); }
      if Has(rule.fields, "properties") { MembersAreLocated(v, Get(rule.fields, "properties"), path, 0); }
    } else if TypeOf(rule) == Text("array") && Has(rule.fields, "items") {
      ElementsAreLocated(v, Get(rule.fields, "items"), path, 0);
    }
  }

  lemma OwnErrorsAreLocated(v: Json, rule: Json, path: seq<Step>)
    requires rule.Dict?
    ensures Located(v, path, CheckOptions(v, rule, path)) && Located(v, path, CheckEnum(v, rule, path))
    ensures Located(v, path, TypeVerdict(v, TypeOf(rule), path))
  {
    if Has(rule.fields, "anyOf") && Get(rule.fields, "anyOf").List? {
      OptionsAreLocated(v, Get(rule.fields, "anyOf"), path, 0);
    }
  }

  /** For every schema, accepted or not, an error names a place: inside the value, or a member that is really
      missing. */
  lemma {:induction false} ErrorsAreLocated(v: Json, rule: Json, path: seq<Step>)
    requires WellFormed(v)
    ensures Located(v, path, Check(v, rule, path))
    decreases rule, 2, 0
  {
    if rule.Dict? {
      OwnErrorsAreLocated(v, rule, path);
      if TypeVerdict(v, TypeOf(rule), path).Fits? { PartsAreLocated(v, rule, path); }
      CheckInOrder(v, rule, path);
    }
  }

  // ----- The reading of JSON Schema -----

  /** What a schema or a value may hold of the things that the validator and JSON Schema take differently: nodes without
      a type that have `items`, that have `additionalProperties: false`, or an `additionalProperties` other than false
      and true; whole numbers written as floats; and integers too large for a float. */
  datatype Allowed = Allowed(items: bool, closed: bool, others: bool, wholes: bool, oversized: bool)

  const NOTHING := Allowed(false, false, false, false, false)

  predicate Plain(schema: Json, allowed: Allowed)
    decreases schema, 1
  {
    schema.Dict? ==>
      && (TypeOf(schema).Null? ==> UntypedPlain(schema.fields, allowed))
      && (Has(schema.fields, "items") ==> Plain(Get(schema.fields, "items"), allowed))
      && (Has(schema.fields, "anyOf") ==> PlainParts(Get(schema.fields, "anyOf"), allowed))
      && (Has(schema.fields, "properties") ==> PlainParts(Get(schema.fields, "properties"), allowed))
  }

  predicate UntypedPlain(fields: seq<Field>, allowed: Allowed) {
    && (Has(fields, "items") ==> allowed.items)
    && (Has(fields, "additionalProperties") ==>
          match Get(fields, "additionalProperties")
          case Bool(open) => open || allowed.closed
          case _ => allowed.others)
  }

  predicate PlainParts(j: Json, allowed: Allowed)
    decreases j, 0
  {
    && (j.List? ==> forall i :: 0 <= i < |j.items| ==> Plain(j.items[i], allowed))
    && (j.Dict? ==> forall i :: 0 <= i < |j.fields| ==> Plain(j.fields[i].value, allowed))
  }

  // No whole number is written as a float.
  ghost predicate WholeFree(v: Json) {
    match v
    case Float(_) => !IsWhole(v)
    case List(items) => forall i :: 0 <= i < |items| ==> WholeFree(items[i])
    case Dict(fields) => forall i :: 0 <= i < |fields| ==> WholeFree(fields[i].value)
    case _ => true
  }

  lemma {:induction false} OptionCarriesOver(v: Json, options: Json, from: bool, to: bool)
    requires OptionsOk(options) && (if from then WholeFree(v) else PlainParts(options, NOTHING))
    requires SomeOption(v, options, 0, from)
    ensures SomeOption(v, options, 0, to)
    decreases options, 3
  {
    var j :| 0 <= j < |options.items| && Belongs(v, options.items[j], from);
    ReadingCarriesOver(v, options.items[j], from, to);
  }

  lemma {:induction false} ItemsCarryOver(v: Json, element: Json, from: bool, to: bool)
    requires NodeOk(element) && (if from then WholeFree(v) else Plain(element, NOTHING))
             && v.List? && AllBelong(v.items, element, 0, from)
    ensures AllBelong(v.items, element, 0, to)
    decreases element, 3
  {
    forall j | 0 <= j < |v.items| ensures Belongs(v.items[j], element, to) {
      assert Belongs(v.items[j], element, from);
      ReadingCarriesOver(v.items[j], element, from, to);
    }
  }

  lemma {:induction false} PropertiesCarryOver(v: Json, schema: Json, from: bool, to: bool)
    requires schema.Dict? && Has(schema.fields, "properties") && PropertiesOk(Get(schema.fields, "properties"))
    requires if from then WholeFree(v) else PlainParts(Get(schema.fields, "properties"), NOTHING)
    requires PropertiesHold(v, schema, from)
    ensures PropertiesHold(v, schema, to)
    decreases schema, 1
  {
    if v.Dict? {
      var props := Get(schema.fields, "properties").fields;
      forall k | k in Keys(v.fields) && k in Keys(props) ensures Belongs(Get(v.fields, k), Get(props, k), to) {
        assert Belongs(Get(v.fields, k), Get(props, k), from);
        ReadingCarriesOver(Get(v.fields, k), props[IndexOf(props, k)].value, from, to);
      }
    }
  }

  lemma TypeCarriesOver(v: Json, kind: string, from: bool, to: bool)
    requires (from ==> WholeFree(v)) && OfType(v, kind, from)
    ensures OfType(v, kind, to)
  {
  }

  lemma RestCarriesOver(v: Json, schema: Json, from: bool, to: bool)
    requires NodeOk(schema) && (from || Plain(schema, NOTHING)) && Belongs(v, schema, from)
    ensures to || TypeOf(schema) == Text("object") ==> NothingElse(v, schema.fields)
    ensures to ==> OthersBelong(v, schema, to)
  {
  }

  lemma {:induction false} ReadingCarriesOver(v: Json, schema: Json, from: bool, to: bool)
    requires NodeOk(schema) && (if from then WholeFree(v) else Plain(schema, NOTHING)) && Belongs(v, schema, from)
    ensures Belongs(v, schema, to)
    decreases schema, 2
  {
    var fields := schema.fields;
    if from != to {
      if TypeOf(schema).Text? { TypeCarriesOver(v, TypeOf(schema).s, from, to); }
      if Has(fields, "anyOf") { OptionCarriesOver(v, Get(fields, "anyOf"), from, to); }
      if v.List? && Has(fields, "items") && ItemsHold(v, schema, from) {
        ItemsCarryOver(v, Get(fields, "items"), from, to);
      }
      if Has(fields, "properties") { PropertiesCarryOver(v, schema, from, to); }
      RestCarriesOver(v, schema, from, to);
    }
  }

  /** The validator never refuses what JSON Schema admits, unless the value holds a whole float; and it admits nothing
      else, unless an untyped node has `items`, or an `additionalProperties` other than true. */
  lemma ReadingsAgree(v: Json, schema: Json)
    requires NodeOk(schema)
    ensures WholeFree(v) && Belongs(v, schema, true) ==> Belongs(v, schema, false)
    ensures Plain(schema, NOTHING) && Belongs(v, schema, false) ==> Belongs(v, schema, true)
  {
    if WholeFree(v) && Belongs(v, schema, true) { ReadingCarriesOver(v, schema, true, false); }
    if Plain(schema, NOTHING) && Belongs(v, schema, false) { ReadingCarriesOver(v, schema, false, true); }
  }
}
