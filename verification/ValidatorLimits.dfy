/** Exactly where the validator leaves the reading of accepted schemas: at integers that no float can hold; and, for
    JSON Schema's own reading, at `items` and `additionalProperties` of nodes without a type, and at whole floats. */
module ValidatorLimits {
  import opened JsonValues
  import opened StructuredValidator
  import opened ValidatorExactness
  import opened ValidatorReports

  // No further constraint on values, and nothing unknown.
  ghost predicate Silent(fields: seq<Field>) {
    && OnlyKnown(fields) && Unique(fields)
    && !Has(fields, "const") && !Has(fields, "enum") && !Has(fields, "description") && !Has(fields, "title")
  }

  ghost predicate NoObjectKeywords(fields: seq<Field>) {
    !Has(fields, "properties") && !Has(fields, "required") && !Has(fields, "additionalProperties")
  }

  ghost predicate Usable(node: Json) { WellFormed(node) && MeetsContract(node) && NodeOk(node) }

  // ----- A node with nothing but a type -----

  ghost predicate TypedFields(f: seq<Field>, kind: string) {
    && Silent(f) && NoObjectKeywords(f) && Has(f, "type") && Get(f, "type") == Text(kind)
    && !Has(f, "anyOf") && !Has(f, "items")
    && |f| == 1 && f[0].value == Text(kind)
  }

  lemma TypedFieldsExist(kind: string) returns (f: seq<Field>)
    ensures TypedFields(f, kind)
  {
    f := [Field("type", Text(kind))];
    assert f[0].key == "type";
    assert IndexOf(f, "type") == 0;
    forall k | k != "type" ensures !Has(f, k) {}
  }

  ghost predicate MeansType(node: Json, kind: string) {
    forall v, e :: Belongs(v, node, e) <==> OfType(v, kind, e)
  }

  lemma AllOfType(items: seq<Json>, node: Json, kind: string, standard: bool)
    requires MeansType(node, kind)
    ensures AllBelong(items, node, 0, standard) <==> forall i :: 0 <= i < |items| ==> OfType(items[i], kind, standard)
  {
    forall i | 0 <= i < |items| ensures Belongs(items[i], node, standard) <==> OfType(items[i], kind, standard) {}
  }

  lemma TypedNode(kind: string) returns (node: Json)
    requires kind in TYPES && kind != "object" && kind != "array"
    ensures Usable(node) && MeansType(node, kind) && Plain(node, NOTHING)
    ensures kind == "number" ==> forall n, path :: TooLarge(n) ==> Check(Int(n), node, path).Raised?
  {
    var f := TypedFieldsExist(kind);
    node := Dict(f);
    forall v, e ensures Belongs(v, node, e) <==> OfType(v, kind, e) {}
    if kind == "number" {
      forall n, path | TooLarge(n) ensures Check(Int(n), node, path).Raised? {}
    }
  }

  // ----- An object with the one member `a` -----

  ghost predicate OneMember(v: Json, inner: Json) {
    v.Dict? && |v.fields| == 1 && v.fields[0] == Field("a", inner) && Get(v.fields, "a") == inner
    && forall k :: Has(v.fields, k) <==> k == "a"
  }

  lemma OneMemberExists(inner: Json) returns (v: Json)
    ensures OneMember(v, inner)
    ensures (WellFormed(inner) ==> WellFormed(v)) && (FloatSized(inner) ==> FloatSized(v))
    ensures WholeFree(inner) ==> WholeFree(v)
  {
    v := Dict([Field("a", inner)]);
    assert v.fields[0].key == "a" && IndexOf(v.fields, "a") == 0;
    forall k | k != "a" ensures !Has(v.fields, k) {}
  }

  ghost predicate ObjectFields(f: seq<Field>, props: Json) {
    && Silent(f) && !Has(f, "anyOf") && !Has(f, "items")
    && Has(f, "type") && Get(f, "type") == Text("object")
    && Has(f, "additionalProperties") && Get(f, "additionalProperties") == Bool(false)
    && Has(f, "required") && Get(f, "required") == List([Text("a")])
    && Has(f, "properties") && Get(f, "properties") == props
    && forall i :: 0 <= i < |f| ==>
         f[i].value == Text("object") || f[i].value == Bool(false)
         || f[i].value == List([Text("a")]) || f[i].value == props
  }

  lemma ObjectFieldsExist(props: Json) returns (f: seq<Field>)
    ensures ObjectFields(f, props)
  {
    f := [Field("type", Text("object")), Field("additionalProperties", Bool(false)),
          Field("required", List([Text("a")])), Field("properties", props)];
    assert Unique(f);
    assert OnlyKnown(f[3..]);
    assert f[2..][1..] == f[3..] && OnlyKnown(f[2..]);
    assert f[1..][1..] == f[2..] && OnlyKnown(f[1..]);
  }

  lemma ObjectMeetsContract(f: seq<Field>, props: Json, node: Json)
    requires ObjectFields(f, props) && OneMember(props, node) && WellFormed(node) && MeetsContract(node)
    ensures MeetsContract(Dict(f)) && WellFormed(Dict(f))
  {
    assert MeetsContract(props) && WellFormed(props);
  }

  lemma ObjectIsAccepted(f: seq<Field>, props: Json, node: Json)
    requires ObjectFields(f, props) && OneMember(props, node) && NodeOk(node)
    ensures ObjectNodeOk(Dict(f))
  {
    assert Names(props.fields) == Elements([Text("a")]);
    assert PropertiesOk(props);
  }

  lemma ObjectNode(f: seq<Field>, props: Json)
    requires ObjectFields(f, props) && ObjectNodeOk(Dict(f))
    ensures NodeOk(Dict(f)) && TypeOf(Dict(f)) == Text("object")
  {
    assert KeywordsOk(f, Text("object"));
  }

  lemma ObjectPartsMean(f: seq<Field>, props: Json, node: Json, v: Json, inner: Json, standard: bool)
    requires ObjectFields(f, props) && OneMember(props, node) && OneMember(v, inner)
    ensures RequiredHolds(v, f) && NothingElse(v, f)
    ensures PropertiesHold(v, Dict(f), standard) <==> Belongs(inner, node, standard)
  {
    assert "a" in Keys(v.fields) && "a" in Keys(props.fields);
  }

  lemma ObjectMeans(f: seq<Field>, props: Json, v: Json, standard: bool)
    requires ObjectFields(f, props) && v.Dict? && RequiredHolds(v, f) && NothingElse(v, f)
    ensures Belongs(v, Dict(f), standard) <==> PropertiesHold(v, Dict(f), standard)
  {
    assert TypeOf(Dict(f)) == Text("object") && OfType(v, "object", standard);
    assert ConstHolds(v, f) && EnumHolds(v, f) && AnyOfHolds(v, Dict(f), standard) && ItemsHold(v, Dict(f), standard);
    assert OthersBelong(v, Dict(f), standard);
  }

  lemma ObjectPasses(f: seq<Field>, props: Json, node: Json, v: Json, inner: Json)
    requires ObjectFields(f, props) && OneMember(props, node) && OneMember(v, inner) && Check(v, Dict(f), []).Fits?
    ensures Check(inner, node, [Member(Text("a"))]).Fits?
  {
    CheckInOrder(v, Dict(f), []);
    assert CheckMembers(v, props, [], 0).Fits?;
    assert [] + [Member(Text("a"))] == [Member(Text("a"))];
  }

  lemma ObjectIsPlain(f: seq<Field>, props: Json, node: Json, allowed: Allowed)
    requires ObjectFields(f, props) && OneMember(props, node) && Plain(node, allowed)
    ensures Plain(Dict(f), allowed)
  {
    assert PlainParts(props, allowed);
  }

  // The accepted schema whose only property is `a`, and what it makes of one value.
  lemma ObjectSchema(node: Json, v: Json, inner: Json, allowed: Allowed) returns (schema: Json)
    requires Usable(node) && OneMember(v, inner) && Plain(node, allowed)
    ensures WellFormed(schema) && CheckSchema(schema) && Plain(schema, allowed)
    ensures Belongs(v, schema, true) <==> Belongs(inner, node, true)
    ensures Belongs(v, schema, false) <==> Belongs(inner, node, false)
    ensures Check(v, schema, []).Fits? ==> Check(inner, node, [Member(Text("a"))]).Fits?
  {
    var props := OneMemberExists(node);
    var f := ObjectFieldsExist(props);
    schema := Dict(f);
    ObjectIsPlain(f, props, node, allowed);
    ObjectMeetsContract(f, props, node);
    ObjectIsAccepted(f, props, node);
    ObjectNode(f, props);
    ObjectPartsMean(f, props, node, v, inner, true);
    ObjectPartsMean(f, props, node, v, inner, false);
    ObjectMeans(f, props, v, true);
    ObjectMeans(f, props, v, false);
    if Check(v, schema, []).Fits? { ObjectPasses(f, props, node, v, inner); }
  }

  /** A number of that size is a number to every reader of the schema, but the check of its finiteness fails, and the
      value is refused. */
  lemma OversizedIntegersAreRefused(n: int) returns (value: Json, schema: Json)
    requires TooLarge(n)
    ensures OneMember(value, Int(n)) && WellFormed(value) && WholeFree(value)
    ensures WellFormed(schema) && CheckSchema(schema) && Plain(schema, NOTHING)
    ensures Belongs(value, schema, true) && Belongs(value, schema, false) && !ValidationError(value, schema).Fits?
  {
    var number := NumberNode(n, [Member(Text("a"))]);
    value := OneMemberExists(Int(n));
    schema := ObjectSchema(number, value, Int(n), NOTHING);
  }

  lemma NumberNode(n: int, path: seq<Step>) returns (node: Json)
    requires TooLarge(n)
    ensures Usable(node) && Plain(node, NOTHING)
    ensures Belongs(Int(n), node, true) && Belongs(Int(n), node, false) && Check(Int(n), node, path).Raised?
  {
    node := TypedNode("number");
    assert forall e :: OfType(Int(n), "number", e);
  }

  // Every integer in the value is one of these.
  ghost predicate IntegersIn(j: Json, integers: iset<int>) {
    match j
    case Int(n) => n in integers
    case List(items) => forall i :: 0 <= i < |items| ==> IntegersIn(items[i], integers)
    case Dict(fields) => forall i :: 0 <= i < |fields| ==> IntegersIn(fields[i].value, integers)
    case _ => true
  }

  lemma {:induction false} SmallIntegersFit(j: Json, integers: iset<int>)
    requires IntegersIn(j, integers) && forall n :: n in integers ==> !TooLarge(n)
    ensures FloatSized(j)
  {
    match j
    case List(items) =>
      forall i | 0 <= i < |items| ensures FloatSized(items[i]) { SmallIntegersFit(items[i], integers); }
    case Dict(fields) =>
      forall i | 0 <= i < |fields| ensures FloatSized(fields[i].value) { SmallIntegersFit(fields[i].value, integers); }
    case _ =>
  }

  lemma OneInteger(value: Json, n: int, integers: iset<int>)
    requires OneMember(value, Int(n)) && n in integers
    ensures IntegersIn(value, integers)
  {
  }

  // Every accepted schema judges these values as it should.
  ghost predicate ExactOn(integers: iset<int>) {
    forall value, schema ::
      (WellFormed(value) && IntegersIn(value, integers) && WellFormed(schema) && CheckSchema(schema)) ==>
        (ValidationError(value, schema).Fits? <==> Belongs(value, schema, false))
  }

  /** Whatever integers values may hold: validation by every accepted schema is exact on all of them if and only if none
      of the integers is too large for a float. */
  lemma ExactForFloatSizedIntegers(integers: iset<int>)
    ensures ExactOn(integers) <==> forall n :: n in integers ==> !TooLarge(n)
  {
    if n :| n in integers && TooLarge(n) {
      var value, schema := OversizedIntegersAreRefused(n);
      OneInteger(value, n, integers);
    } else {
      forall value, schema | WellFormed(value) && IntegersIn(value, integers)
                             && WellFormed(schema) && CheckSchema(schema)
        ensures ValidationError(value, schema).Fits? <==> Belongs(value, schema, false)
      {
        SmallIntegersFit(value, integers);
        ValidationIsExact(value, schema);
      }
    }
  }

  // ----- `items` beside `anyOf`, without a type -----

  const LOOSE := NOTHING.(items := true)

  ghost predicate ArrayFields(f: seq<Field>, element: Json) {
    && Silent(f) && NoObjectKeywords(f) && !Has(f, "anyOf")
    && Has(f, "type") && Get(f, "type") == Text("array") && Has(f, "items") && Get(f, "items") == element
    && TwoValues(f, Text("array"), element)
  }

  ghost predicate LooseFields(f: seq<Field>, options: Json, element: Json) {
    && Silent(f) && NoObjectKeywords(f) && !Has(f, "type")
    && Has(f, "anyOf") && Get(f, "anyOf") == options && Has(f, "items") && Get(f, "items") == element
    && TwoValues(f, options, element)
  }

  ghost predicate TwoValues(f: seq<Field>, v: Json, w: Json) {
    forall i :: 0 <= i < |f| ==> f[i].value == v || f[i].value == w
  }

  lemma PairIs(k: string, v: Json, l: string, w: Json) returns (f: seq<Field>)
    requires k != l && k in KEYWORDS && l in KEYWORDS
    ensures f == [Field(k, v), Field(l, w)] && TwoValues(f, v, w) && Unique(f) && OnlyKnown(f)
    ensures Has(f, k) && Has(f, l) && Get(f, k) == v && Get(f, l) == w
    ensures forall x :: Has(f, x) ==> x == k || x == l
  {
    f := [Field(k, v), Field(l, w)];
    assert Unique(f);
    assert OnlyKnown(f[1..]);
    forall x | Has(f, x) ensures x == k || x == l { assert f[IndexOf(f, x)].key == x; }
  }

  lemma ArrayFieldsExist(element: Json) returns (f: seq<Field>)
    ensures ArrayFields(f, element)
  {
    f := PairIs("type", Text("array"), "items", element);
  }

  lemma LooseFieldsExist(options: Json, element: Json) returns (f: seq<Field>)
    ensures LooseFields(f, options, element)
  {
    f := PairIs("anyOf", options, "items", element);
  }

  lemma LooseMeans(f: seq<Field>, options: Json, element: Json, v: Json, standard: bool)
    requires LooseFields(f, options, element) && options.List? && v.List?
    ensures Belongs(v, Dict(f), standard)
            <==> SomeOption(v, options, 0, standard) && (standard ==> AllBelong(v.items, element, 0, standard))
  {
    assert ItemsHold(v, Dict(f), standard) <==> AllBelong(v.items, element, 0, standard);
  }

  lemma ArrayNode(element: Json, v: Json) returns (node: Json)
    requires Usable(element) && v.List?
    ensures Usable(node) && (Belongs(v, node, false) <==> AllBelong(v.items, element, 0, false))
    ensures Plain(element, NOTHING) ==> Plain(node, NOTHING)
  {
    var f := ArrayFieldsExist(element);
    node := Dict(f);
    assert MeetsContract(node) && WellFormed(node);
    assert ItemsHold(v, node, false) <==> AllBelong(v.items, element, 0, false);
  }

  lemma LooseIsUsable(f: seq<Field>, options: Json, option: Json, element: Json)
    requires LooseFields(f, options, element) && options == List([option]) && Usable(option) && Usable(element)
    ensures Usable(Dict(f))
  {
    assert MeetsContract(options) && WellFormed(options) && OptionsOk(options);
    assert MeetsContract(Dict(f)) && WellFormed(Dict(f));
  }

  // An untyped node with one option.
  lemma LooseNode(option: Json, element: Json, v: Json) returns (node: Json)
    requires Usable(option) && Usable(element) && v.List?
    ensures Usable(node) && (Belongs(v, option, false) ==> Belongs(v, node, false))
    ensures Belongs(v, node, true) ==> AllBelong(v.items, element, 0, true)
    ensures Plain(option, LOOSE) && Plain(element, LOOSE) ==> Plain(node, LOOSE)
  {
    var options := List([option]);
    var f := LooseFieldsExist(options, element);
    node := Dict(f);
    assert Plain(option, LOOSE) ==> PlainParts(options, LOOSE);
    LooseIsUsable(f, options, option, element);
    LooseMeans(f, options, element, v, false);
    LooseMeans(f, options, element, v, true);
    assert options.items[0] == option;
  }

  ghost predicate AllowsMore(few: Allowed, more: Allowed) {
    (few.items ==> more.items) && (few.closed ==> more.closed) && (few.others ==> more.others)
  }

  // Letting untyped nodes say more rules no schema out.
  lemma {:induction false} PlainForMore(schema: Json, few: Allowed, more: Allowed)
    requires Plain(schema, few) && AllowsMore(few, more)
    ensures Plain(schema, more)
    decreases schema, 1
  {
    if schema.Dict? {
      if Has(schema.fields, "items") { PlainForMore(Get(schema.fields, "items"), few, more); }
      if Has(schema.fields, "anyOf") { PlainPartsForMore(Get(schema.fields, "anyOf"), few, more); }
      if Has(schema.fields, "properties") { PlainPartsForMore(Get(schema.fields, "properties"), few, more); }
    }
  }

  lemma {:induction false} PlainPartsForMore(j: Json, few: Allowed, more: Allowed)
    requires PlainParts(j, few) && AllowsMore(few, more)
    ensures PlainParts(j, more)
    decreases j, 0
  {
    if j.List? {
      forall i | 0 <= i < |j.items| ensures Plain(j.items[i], more) { PlainForMore(j.items[i], few, more); }
    } else if j.Dict? {
      forall i | 0 <= i < |j.fields| ensures Plain(j.fields[i].value, more) {
        PlainForMore(j.fields[i].value, few, more);
      }
    }
  }

  lemma AllTexts(items: seq<Json>, texts: Json)
    requires MeansType(texts, "string") && forall i :: 0 <= i < |items| ==> items[i].Text?
    ensures AllBelong(items, texts, 0, false)
  {
    AllOfType(items, texts, "string", false);
  }

  lemma StringsNode(v: Json) returns (node: Json)
    requires v.List? && forall i :: 0 <= i < |v.items| ==> v.items[i].Text?
    ensures Usable(node) && Belongs(v, node, false) && Plain(node, NOTHING)
  {
    var texts := TypedNode("string");
    AllTexts(v.items, texts);
    node := ArrayNode(texts, v);
  }

  lemma IntegersOnly(items: seq<Json>) returns (node: Json)
    requires items != [] && items[0].Text?
    ensures Usable(node) && !AllBelong(items, node, 0, true) && Plain(node, NOTHING)
  {
    node := TypedNode("integer");
    AllOfType(items, node, "integer", true);
    assert !OfType(items[0], "integer", true);
  }

  // Lists of strings, by an untyped node whose elements should be integers.
  lemma StringsOrIntegers(v: Json) returns (node: Json)
    requires v.List? && v.items != [] && forall i :: 0 <= i < |v.items| ==> v.items[i].Text?
    ensures Usable(node) && Belongs(v, node, false) && !Belongs(v, node, true) && Plain(node, LOOSE)
  {
    var list := StringsNode(v);
    var integers := IntegersOnly(v.items);
    PlainForMore(list, NOTHING, LOOSE);
    PlainForMore(integers, NOTHING, LOOSE);
    node := LooseNode(list, integers, v);
  }

  lemma TextsInside(list: Json) returns (value: Json)
    requires list.List? && forall i :: 0 <= i < |list.items| ==> list.items[i].Text?
    ensures OneMember(value, list) && WellFormed(value) && FloatSized(value) && WholeFree(value)
  {
    assert FloatSized(list) && WellFormed(list) && WholeFree(list);
    value := OneMemberExists(list);
  }

  lemma TextInside(word: string) returns (value: Json, inner: Json)
    ensures OneMember(value, inner) && OneMember(inner, Text(word))
    ensures WellFormed(value) && FloatSized(value) && WholeFree(value)
  {
    inner := OneMemberExists(Text(word));
    value := OneMemberExists(inner);
  }

  /** For every list of strings an accepted schema whose option asks for such a list and whose own `items` asks for
      integers, without a type: the validator passes the list, JSON Schema admits none but the empty one. */
  lemma UntypedItemsAreIgnored(list: Json) returns (value: Json, schema: Json)
    requires list.List? && list.items != [] && forall i :: 0 <= i < |list.items| ==> list.items[i].Text?
    ensures OneMember(value, list) && WellFormed(value) && FloatSized(value)
    ensures WellFormed(schema) && CheckSchema(schema) && Plain(schema, LOOSE) && WholeFree(value)
    ensures ValidationError(value, schema).Fits? && !Belongs(value, schema, true)
  {
    var node := StringsOrIntegers(list);
    value := TextsInside(list);
    schema := ObjectSchema(node, value, list, LOOSE);
    ValidationIsExact(value, schema);
  }

  // ----- `additionalProperties` beside `anyOf`, without a type -----

  // What it takes for an untyped node to have this `additionalProperties`.
  function Rest(extra: Json): Allowed { NOTHING.(closed := extra == Bool(false), others := !extra.Bool?) }

  ghost predicate RestFields(f: seq<Field>, options: Json, extra: Json) {
    && Silent(f) && !Has(f, "type") && !Has(f, "items") && !Has(f, "properties") && !Has(f, "required")
    && Has(f, "anyOf") && Get(f, "anyOf") == options
    && Has(f, "additionalProperties") && Get(f, "additionalProperties") == extra
    && TwoValues(f, options, extra)
  }

  lemma RestFieldsExist(options: Json, extra: Json) returns (f: seq<Field>)
    ensures RestFields(f, options, extra)
  {
    f := PairIs("anyOf", options, "additionalProperties", extra);
  }

  lemma RestIsUsable(f: seq<Field>, options: Json, option: Json, extra: Json)
    requires RestFields(f, options, extra) && options == List([option]) && Usable(option)
    requires WellFormed(extra) && MeetsContract(extra)
    ensures Usable(Dict(f))
  {
    assert MeetsContract(options) && WellFormed(options) && OptionsOk(options);
    assert MeetsContract(Dict(f)) && WellFormed(Dict(f));
  }

  lemma RestMeans(f: seq<Field>, options: Json, option: Json, extra: Json, v: Json, inner: Json)
    requires RestFields(f, options, extra) && options == List([option]) && OneMember(v, inner)
    requires (extra == Bool(false) || extra.Dict?) && !Belongs(inner, extra, true)
    ensures Belongs(v, option, false) ==> Belongs(v, Dict(f), false)
    ensures !Belongs(v, Dict(f), true)
  {
    assert options.items[0] == option;
    assert Belongs(v, option, false) ==> SomeOption(v, options, 0, false);
    assert "a" in Keys(v.fields) && !IsProperty(f, "a") && Get(v.fields, "a") == inner;
    assert extra == Bool(false) ==> !NothingElse(v, f);
    assert extra.Dict? ==> !OthersBelong(v, Dict(f), true);
  }

  lemma RestIsPlain(f: seq<Field>, options: Json, option: Json, extra: Json)
    requires RestFields(f, options, extra) && options == List([option]) && Plain(option, Rest(extra))
    requires extra != Bool(true)
    ensures Plain(Dict(f), Rest(extra))
  {
    assert PlainParts(options, Rest(extra));
  }

  lemma TextNode(word: string) returns (texts: Json)
    ensures Usable(texts) && Belongs(Text(word), texts, false) && Plain(texts, NOTHING)
  {
    texts := TypedNode("string");
    assert OfType(Text(word), "string", false);
  }

  lemma TextMember(word: string, inner: Json) returns (option: Json)
    requires OneMember(inner, Text(word))
    ensures Usable(option) && Belongs(inner, option, false) && Plain(option, NOTHING)
  {
    var texts := TextNode(word);
    option := ObjectSchema(texts, inner, Text(word), NOTHING);
  }

  // Objects with one text, by an untyped node whose `additionalProperties` does not admit the text.
  lemma RestNode(word: string, extra: Json, inner: Json) returns (node: Json)
    requires OneMember(inner, Text(word)) && WellFormed(extra) && MeetsContract(extra)
    requires (extra == Bool(false) || extra.Dict?) && !Belongs(Text(word), extra, true)
    ensures Usable(node) && Belongs(inner, node, false) && !Belongs(inner, node, true) && Plain(node, Rest(extra))
  {
    var option := TextMember(word, inner);
    var options := List([option]);
    var f := RestFieldsExist(options, extra);
    RestIsUsable(f, options, option, extra);
    PlainForMore(option, NOTHING, Rest(extra));
    RestIsPlain(f, options, option, extra);
    RestMeans(f, options, option, extra, inner, Text(word));
    node := Dict(f);
  }

  /** For every text and every `additionalProperties`, false or a schema, that does not admit it: an accepted schema
      whose option asks for an object with one text and which has this `additionalProperties`, without a type. The
      validator passes the object, JSON Schema does not. */
  lemma UntypedAdditionsAreIgnored(word: string, extra: Json) returns (value: Json, inner: Json, schema: Json)
    requires WellFormed(extra) && MeetsContract(extra)
    requires (extra == Bool(false) || extra.Dict?) && !Belongs(Text(word), extra, true)
    ensures OneMember(value, inner) && OneMember(inner, Text(word)) && WellFormed(value) && FloatSized(value)
    ensures WellFormed(schema) && CheckSchema(schema) && Plain(schema, Rest(extra)) && WholeFree(value)
    ensures ValidationError(value, schema).Fits? && !Belongs(value, schema, true)
  {
    value, inner := TextInside(word);
    var node := RestNode(word, extra, inner);
    schema := ObjectSchema(node, value, inner, Rest(extra));
    ValidationIsExact(value, schema);
  }

  /** In particular for every text and the `additionalProperties` that admits nothing. */
  lemma UntypedClosednessIsIgnored(word: string) returns (value: Json, inner: Json, schema: Json)
    ensures OneMember(value, inner) && OneMember(inner, Text(word)) && WellFormed(value) && FloatSized(value)
    ensures WellFormed(schema) && CheckSchema(schema) && Plain(schema, Rest(Bool(false))) && WholeFree(value)
    ensures ValidationError(value, schema).Fits? && !Belongs(value, schema, true)
  {
    value, inner, schema := UntypedAdditionsAreIgnored(word, Bool(false));
  }

  /** And for every text and the `additionalProperties` that admits null only. */
  lemma UntypedNullsAreIgnored(word: string) returns (value: Json, inner: Json, schema: Json)
    ensures OneMember(value, inner) && OneMember(inner, Text(word)) && WellFormed(value) && FloatSized(value)
    ensures WellFormed(schema) && CheckSchema(schema) && Plain(schema, Rest(Dict([]))) && WholeFree(value)
    ensures ValidationError(value, schema).Fits? && !Belongs(value, schema, true)
  {
    var nulls := TypedNode("null");
    assert !OfType(Text(word), "null", true);
    value, inner, schema := UntypedAdditionsAreIgnored(word, nulls);
  }

  // ----- Whole numbers written as floats -----

  /** Every whole number written as a float is an integer to JSON Schema, and refused as one here. */
  lemma WholeFloatsAreRefused(n: int) returns (value: Json, schema: Json)
    ensures OneMember(value, Float(n as real)) && WellFormed(value) && FloatSized(value)
    ensures WellFormed(schema) && CheckSchema(schema) && Plain(schema, NOTHING)
    ensures !ValidationError(value, schema).Fits? && Belongs(value, schema, true)
  {
    var whole := Float(n as real);
    var integers := TypedNode("integer");
    assert OfType(whole, "integer", true) && !OfType(whole, "integer", false);
    value := OneMemberExists(whole);
    schema := ObjectSchema(integers, value, whole, NOTHING);
    ValidationIsExact(value, schema);
  }

  // ----- Exactly what is read as JSON Schema reads it -----

  // Accepted schemas and values with nothing but what is allowed of the things read differently.
  ghost predicate ReadAsStandard(allowed: Allowed) {
    forall value, schema ::
      (WellFormed(value) && WellFormed(schema) && CheckSchema(schema) && Plain(schema, allowed)
       && (WholeFree(value) || allowed.wholes) && (FloatSized(value) || allowed.oversized)) ==>
        (ValidationError(value, schema).Fits? <==> Belongs(value, schema, true))
  }

  /** The validator reads all accepted schemas as JSON Schema does if and only if none of the five is allowed: `items`,
      `additionalProperties: false`, or another `additionalProperties` than true in an untyped node, whole floats, and
      integers too large for a float. */
  lemma ReadAsStandardExactly(allowed: Allowed)
    ensures ReadAsStandard(allowed) <==> allowed == NOTHING
  {
    if allowed.items {
      var list := List([Text("")]);
      var value, schema := UntypedItemsAreIgnored(list);
      PlainForMore(schema, LOOSE, allowed);
    } else if allowed.closed {
      var value, inner, schema := UntypedClosednessIsIgnored("");
      PlainForMore(schema, Rest(Bool(false)), allowed);
    } else if allowed.others {
      var value, inner, schema := UntypedNullsAreIgnored("");
      PlainForMore(schema, Rest(Dict([])), allowed);
    } else if allowed.wholes {
      var value, schema := WholeFloatsAreRefused(0);
      PlainForMore(schema, NOTHING, allowed);
    } else if allowed.oversized {
      var value, schema := OversizedIntegersAreRefused(FLOAT_LIMIT);
      PlainForMore(schema, NOTHING, allowed);
    } else {
      forall value, schema | WellFormed(value) && WellFormed(schema) && CheckSchema(schema)
                             && Plain(schema, NOTHING) && WholeFree(value) && FloatSized(value)
        ensures ValidationError(value, schema).Fits? <==> Belongs(value, schema, true)
      {
        ValidationIsExact(value, schema);
        ReadingsAgree(value, schema);
      }
    }
  }
}
