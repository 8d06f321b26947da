/** Which schemas structured completions accept, and how a value is checked against one. */
module StructuredValidator {
  import opened JsonValues

  const KEYWORDS := {"type", "properties", "required", "additionalProperties", "items", "enum", "const",
                     "anyOf", "description", "title"}

  const TYPES := {"object", "array", "string", "number", "integer", "boolean", "null"}

  // A missing member reads as null.
  function Lookup(fields: seq<Field>, key: string): Json {
    if Has(fields, key) then Get(fields, key) else Null
  }

  function TypeOf(node: Json): Json
    requires node.Dict?
  {
    Lookup(node.fields, "type")
  }

  // ----- Acceptance of schemas -----

  /** The contract shared with extraction: at every depth, inside any value, no lists of types and no open objects. */
  predicate MeetsContract(node: Json) {
    match node
    case List(items) => forall i :: 0 <= i < |items| ==> MeetsContract(items[i])
    case Dict(fields) =>
      && !TypeOf(node).List?
      && (TypeOf(node) == Text("object") ==> Lookup(fields, "additionalProperties") == Bool(false))
      && forall i :: 0 <= i < |fields| ==> MeetsContract(fields[i].value)
    case _ => true
  }

  // `required` lists the properties, each once, in any order.
  predicate RequiresAll(required: Json, props: Json)
    requires props.Dict?
  {
    && required.List?
    && Elements(required.items) == Names(props.fields)
    && |required.items| == |props.fields|
  }

  function Elements(items: seq<Json>): (elements: set<Json>)
    ensures forall j :: j in elements <==> j in items
  {
    set j | j in items
  }

  function Names(fields: seq<Field>): (names: set<Json>)
    ensures forall j :: j in names <==> j.Text? && j.s in Keys(fields)
  {
    set k | k in Keys(fields) :: Text(k)
  }

  predicate ObjectNodeOk(node: Json)
    requires node.Dict?
    decreases node, 0
  {
    var props := Lookup(node.fields, "properties");
    && props.Dict? && Lookup(node.fields, "additionalProperties") == Bool(false)
    && RequiresAll(Lookup(node.fields, "required"), props)
    && PropertiesOk(props)
  }

  predicate PropertiesOk(props: Json) {
    props.Dict? && forall i :: 0 <= i < |props.fields| ==> NodeOk(props.fields[i].value)
  }

  predicate OptionsOk(options: Json) {
    options.List? && options.items != [] && forall i :: 0 <= i < |options.items| ==> NodeOk(options.items[i])
  }

  predicate OnlyKnown(fields: seq<Field>) {
    fields == [] || (fields[0].key in KEYWORDS && OnlyKnown(fields[1..]))
  }

  // What does not look into nested schemas.
  predicate KeywordsOk(fields: seq<Field>, kind: Json) {
    && OnlyKnown(fields)
    && (kind.Null? || (kind.Text? && kind.s in TYPES))
    && (kind.Null? ==> Has(fields, "anyOf"))
    && (Has(fields, "enum") ==> Get(fields, "enum").List? && Get(fields, "enum").items != [])
    && (Has(fields, "description") ==> Get(fields, "description").Text?)
    && (Has(fields, "title") ==> Get(fields, "title").Text?)
    && (kind == Text("array") ==> Has(fields, "items"))
    && (kind != Text("object") ==> !Has(fields, "properties") && !Has(fields, "required"))
  }

  predicate NodeOk(node: Json)
    decreases node, 1
  {
    && node.Dict? && KeywordsOk(node.fields, TypeOf(node))
    && (TypeOf(node) == Text("object") ==> ObjectNodeOk(node))
    && (Has(node.fields, "items") ==> Get(node.fields, "items").Dict? && NodeOk(Get(node.fields, "items")))
    && (Has(node.fields, "anyOf") ==> OptionsOk(Get(node.fields, "anyOf")))
  }

  predicate CheckSchema(schema: Json) {
    schema.Dict? && MeetsContract(schema) && TypeOf(schema) == Text("object") && NodeOk(schema)
  }

  // ----- Checking a value -----

  datatype Step = Member(key: Json) | At(index: nat)

  datatype Problem = NoOption | NotTheConstant | NotInTheEnum | WrongType | MissingMember | ExtraMember | Unchecked

  // `Raised`: an exception leaves the check; its caller turns it into a refusal.
  datatype Verdict = Fits | Misfit(path: seq<Step>, problem: Problem) | Raised

  // The magnitude from which no integer converts to a float: halfway from the largest float to the next power of two.
  const FLOAT_LIMIT: int := Power(1024) - Power(970)

  function Power(n: nat): (p: int)
    ensures p > 0
  {
    if n == 0 then 1 else 2 * Power(n - 1)
  }

  predicate TooLarge(n: int) { n >= FLOAT_LIMIT || -n >= FLOAT_LIMIT }

  predicate Falsy(j: Json) {
    match j
    case Null => true
    case Bool(b) => !b
    case Int(n) => n == 0
    case Float(x) => x == 0.0
    case Text(s) => s == ""
    case List(items) => items == []
    case Dict(fields) => fields == []
    case _ => false
  }

  // What iterating over a value yields; None where the value cannot be iterated.
  datatype Iterated = Yields(items: seq<Json>) | NotIterable

  function Iterate(j: Json): Iterated {
    match j
    case List(items) => Yields(items)
    case Text(s) => Yields(seq(|s|, i requires 0 <= i < |s| => Text([s[i]])))
    case Dict(fields) => Yields(seq(|fields|, i requires 0 <= i < |fields| => Text(fields[i].key)))
    case _ => NotIterable
  }

  predicate Within(part: string, s: string) {
    part <= s || (s != "" && Within(part, s[1..]))
  }

  function TypeVerdict(item: Json, kind: Json, path: seq<Step>): Verdict {
    if Falsy(kind) then Fits
    else if !kind.Text? || kind.s !in TYPES then Raised
    else if kind.s == "number" && item.Int? && TooLarge(item.n) then Raised
    else if HasType(item, kind.s) then Fits
    else Misfit(path, WrongType)
  }

  predicate HasType(item: Json, kind: string) {
    match item
    case Null => kind == "null"
    case Bool(_) => kind == "boolean"
    case Int(_) => kind == "integer" || kind == "number"
    case Float(_) => kind == "number"
    case Text(_) => kind == "string"
    case List(_) => kind == "array"
    case Dict(_) => kind == "object"
    case _ => false
  }

  function Check(item: Json, rule: Json, path: seq<Step>): Verdict
    decreases rule, 2, 0
  {
    if !rule.Dict? then Raised
    else
      var options := CheckOptions(item, rule, path);
      if !options.Fits? then options
      else if Has(rule.fields, "const") && !Same(item, Get(rule.fields, "const")) then Misfit(path, NotTheConstant)
      else
        var listed := CheckEnum(item, rule, path);
        if !listed.Fits? then listed
        else
          var typed := TypeVerdict(item, TypeOf(rule), path);
          if typed.Fits? then CheckParts(item, rule, path) else typed
  }

  // A value of the node's type; only objects and arrays have parts to check.
  function CheckParts(item: Json, rule: Json, path: seq<Step>): Verdict
    requires rule.Dict? && TypeVerdict(item, TypeOf(rule), path).Fits?
    decreases rule, 1, 1
  {
    if TypeOf(rule) == Text("object") then CheckObject(item, rule, path)
    else if TypeOf(rule) == Text("array") then CheckArray(item, rule, path)
    else Fits
  }

  function CheckOptions(item: Json, rule: Json, path: seq<Step>): Verdict
    requires rule.Dict?
    decreases rule, 1, 0
  {
    if !Has(rule.fields, "anyOf") then Fits
    else
      var options := Get(rule.fields, "anyOf");
      if options.List? then FirstOption(item, options, path, 0)
      else if Iterate(options) == Yields([]) then Misfit(path, NoOption)
      else Raised
  }

  function FirstOption(item: Json, options: Json, path: seq<Step>, i: nat): Verdict
    requires options.List? && i <= |options.items|
    decreases options, 0, |options.items| - i
  {
    if i == |options.items| then Misfit(path, NoOption)
    else
      var verdict := Check(item, options.items[i], path);
      if verdict.Misfit? then FirstOption(item, options, path, i + 1) else verdict
  }

  function CheckEnum(item: Json, rule: Json, path: seq<Step>): Verdict
    requires rule.Dict?
  {
    if !Has(rule.fields, "enum") then Fits
    else
      match Iterate(Get(rule.fields, "enum"))
      case NotIterable => Raised
      case Yields(options) =>
        if exists i :: 0 <= i < |options| && Same(item, options[i]) then Fits else Misfit(path, NotInTheEnum)
  }

  function CheckObject(item: Json, rule: Json, path: seq<Step>): Verdict
    requires rule.Dict? && item.Dict?
    decreases rule, 1, 0
  {
    match Iterate(if Has(rule.fields, "required") then Get(rule.fields, "required") else List([]))
    case NotIterable => Raised
    case Yields(required) =>
      var present := CheckRequired(item.fields, required, path);
      if !present.Fits? then present
      else if Has(rule.fields, "properties") then CheckMembers(item, Get(rule.fields, "properties"), path, 0)
      else if item.fields == [] then Fits
      else Misfit(path + [Member(Text(item.fields[0].key))], ExtraMember)
  }

  function CheckRequired(fields: seq<Field>, required: seq<Json>, path: seq<Step>): Verdict {
    if required == [] then Fits
    else if required[0].List? || required[0].Dict? then Raised
    else if required[0].Text? && Has(fields, required[0].s) then CheckRequired(fields, required[1..], path)
    else Misfit(path + [Member(required[0])], MissingMember)
  }

  // The members from the i-th on, against `properties`.
  function CheckMembers(item: Json, props: Json, path: seq<Step>, i: nat): Verdict
    requires item.Dict? && i <= |item.fields|
    decreases props, 0, |item.fields| - i
  {
    if i == |item.fields| then Fits
    else
      var key := item.fields[i].key;
      var here := path + [Member(Text(key))];
      match props
      case Dict(properties) =>
        if !Has(properties, key) then Misfit(here, ExtraMember)
        else
          var verdict := Check(item.fields[i].value, properties[IndexOf(properties, key)].value, here);
          if verdict.Fits? then CheckMembers(item, props, path, i + 1) else verdict
      case List(items) => if Text(key) in items then Raised else Misfit(here, ExtraMember)
      case Text(s) => if Within(key, s) then Raised else Misfit(here, ExtraMember)
      case _ => Raised
  }

  function CheckArray(item: Json, rule: Json, path: seq<Step>): Verdict
    requires rule.Dict? && item.List?
    decreases rule, 1, 0
  {
    if Has(rule.fields, "items") then CheckElements(item, Get(rule.fields, "items"), path, 0)
    else if item.items == [] then Fits
    else Raised
  }

  function CheckElements(item: Json, element: Json, path: seq<Step>, i: nat): Verdict
    requires item.List? && i <= |item.items|
    decreases element, 3, |item.items| - i
  {
    if i == |item.items| then Fits
    else
      var verdict := Check(item.items[i], element, path + [At(i)]);
      if verdict.Fits? then CheckElements(item, element, path, i + 1) else verdict
  }

  /** The validator's answer: no error exactly for `Fits`. */
  function ValidationError(value: Json, schema: Json): (v: Verdict)
    ensures !v.Raised?
  {
    var verdict := Check(value, schema, []);
    if verdict.Raised? then Misfit([], Unchecked) else verdict
  }

  // ----- What a schema means -----

  // What a type name asks of a value's meaning.
  ghost predicate IsOfKind(m: Meaning, kind: string) {
    || (kind == "null" && m.Nothing?) || (kind == "boolean" && m.Truth?) || (kind == "string" && m.Characters?)
    || (kind == "array" && m.Sequence?) || (kind == "object" && m.Mapping?) || (kind == "number" && m.Number?)
    || (kind == "integer" && m.Number? && m.x.Floor as real == m.x)
  }

  // To JSON Schema a whole number is an integer even when it is written as a float.
  ghost predicate OfType(v: Json, kind: string, standard: bool) {
    IsOfKind(MeaningOf(v), kind) && (kind == "integer" && !standard ==> v.Int?)
  }

  predicate IsWhole(v: Json) { v.Float? && v.x.Floor as real == v.x }

  /** The values of a schema. Every keyword constrains the value on its own. With `standard` this is the reading of
      JSON Schema: true and false are schemas, `1.0` is an integer, `items` speaks about every array, and
      `additionalProperties` about every object, be it false or a schema. Otherwise it is the validator's: no float is
      an integer, and the two keywords speak only under the matching type. */
  ghost predicate Belongs(v: Json, schema: Json, standard: bool)
    decreases schema, 2
  {
    if schema.Bool? then
      standard && schema.b
    else
      && schema.Dict?
      && (TypeOf(schema).Text? ==> OfType(v, TypeOf(schema).s, standard))
      && ConstHolds(v, schema.fields)
      && EnumHolds(v, schema.fields)
      && AnyOfHolds(v, schema, standard)
      && (standard || TypeOf(schema) == Text("array") ==> ItemsHold(v, schema, standard))
      && RequiredHolds(v, schema.fields)
      && PropertiesHold(v, schema, standard)
      && (standard || TypeOf(schema) == Text("object") ==> NothingElse(v, schema.fields))
      && (standard ==> OthersBelong(v, schema, standard))
  }

  ghost predicate ConstHolds(v: Json, fields: seq<Field>) {
    Has(fields, "const") ==> Equal(v, Get(fields, "const"))
  }

  ghost predicate EnumHolds(v: Json, fields: seq<Field>) {
    Has(fields, "enum") && Get(fields, "enum").List? ==>
      exists i :: 0 <= i < |Get(fields, "enum").items| && Equal(v, Get(fields, "enum").items[i])
  }

  ghost predicate AnyOfHolds(v: Json, schema: Json, standard: bool)
    requires schema.Dict?
    decreases schema, 1
  {
    Has(schema.fields, "anyOf") && Get(schema.fields, "anyOf").List? ==>
      SomeOption(v, Get(schema.fields, "anyOf"), 0, standard)
  }

  ghost predicate SomeOption(v: Json, options: Json, i: nat, standard: bool)
    requires options.List?
    decreases options, 0
  {
    exists j :: i <= j < |options.items| && Belongs(v, options.items[j], standard)
  }

  ghost predicate ItemsHold(v: Json, schema: Json, standard: bool)
    requires schema.Dict?
    decreases schema, 1
  {
    v.List? && Has(schema.fields, "items") ==> AllBelong(v.items, Get(schema.fields, "items"), 0, standard)
  }

  ghost predicate AllBelong(items: seq<Json>, schema: Json, i: nat, standard: bool)
    decreases schema, 3
  {
    forall j :: i <= j < |items| ==> Belongs(items[j], schema, standard)
  }

  ghost predicate RequiredHolds(v: Json, fields: seq<Field>) {
    v.Dict? && Has(fields, "required") && Get(fields, "required").List? ==>
      forall k :: Text(k) in Get(fields, "required").items ==> k in Keys(v.fields)
  }

  ghost predicate PropertiesHold(v: Json, schema: Json, standard: bool)
    requires schema.Dict?
    decreases schema, 1
  {
    v.Dict? && Has(schema.fields, "properties") && Get(schema.fields, "properties").Dict? ==>
      forall k :: k in Keys(v.fields) && k in Keys(Get(schema.fields, "properties").fields) ==>
        Belongs(Get(v.fields, k), Get(Get(schema.fields, "properties").fields, k), standard)
  }

  // `additionalProperties: false`.
  ghost predicate NothingElse(v: Json, fields: seq<Field>) {
    v.Dict? && Lookup(fields, "additionalProperties") == Bool(false) ==>
      forall k :: k in Keys(v.fields) ==> IsProperty(fields, k)
  }

  ghost predicate IsProperty(fields: seq<Field>, key: string) {
    Has(fields, "properties") && Get(fields, "properties").Dict? && key in Keys(Get(fields, "properties").fields)
  }

  // `additionalProperties` with a schema.
  ghost predicate OthersBelong(v: Json, schema: Json, standard: bool)
    requires schema.Dict?
    decreases schema, 1
  {
    v.Dict? && Has(schema.fields, "additionalProperties") && Get(schema.fields, "additionalProperties").Dict? ==>
      forall k :: k in Keys(v.fields) && !IsProperty(schema.fields, k) ==>
        Belongs(Get(v.fields, k), Get(schema.fields, "additionalProperties"), standard)
  }
}
