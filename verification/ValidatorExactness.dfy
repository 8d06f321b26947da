/** The validator accepts exactly the values that belong to the schema. */
module ValidatorExactness {
  import opened JsonValues
  import opened StructuredValidator

  // Every integer converts to a float.
  ghost predicate FloatSized(j: Json) {
    match j
    case Int(n) => !TooLarge(n)
    case List(items) => forall i :: 0 <= i < |items| ==> FloatSized(items[i])
    case Dict(fields) => forall i :: 0 <= i < |fields| ==> FloatSized(fields[i].value)
    case _ => true
  }

  // A verdict on v is right about `belongs`, and an exception is due to an oversized integer.
  ghost predicate Right(verdict: Verdict, belongs: bool, v: Json) {
    && (verdict.Fits? ==> belongs) && (verdict.Misfit? ==> !belongs) && (verdict.Raised? ==> !FloatSized(v))
  }

  lemma OneOptionMore(v: Json, options: Json, i: nat)
    requires options.List? && i < |options.items|
    ensures SomeOption(v, options, i, false)
            <==> Belongs(v, options.items[i], false) || SomeOption(v, options, i + 1, false)
  {
  }

  lemma {:induction false} FirstOptionIsRight(v: Json, options: Json, path: seq<Step>, i: nat)
    requires WellFormed(v) && WellFormed(options) && OptionsOk(options) && i <= |options.items|
    ensures Right(FirstOption(v, options, path, i), SomeOption(v, options, i, false), v)
    decreases options, 0, |options.items| - i
  {
    if i < |options.items| {
      CheckIsRight(v, options.items[i], path);
      FirstOptionIsRight(v, options, path, i + 1);
      OneOptionMore(v, options, i);
    }
  }

  lemma {:induction false} RequiredIsRight(fields: seq<Field>, required: seq<Json>, path: seq<Step>)
    requires forall j :: j in required ==> j.Text?
    ensures !CheckRequired(fields, required, path).Raised?
    ensures CheckRequired(fields, required, path).Fits? <==> forall k :: Text(k) in required ==> Has(fields, k)
  {
    if required != [] {
      var first, rest := required[0], required[1..];
      RequiredIsRight(fields, rest, path);
      assert required == [first] + rest;
      assert first in required && forall j :: j in rest ==> j in required;
    }
  }

  ghost predicate MembersBelong(v: Json, props: seq<Field>, i: nat)
    requires v.Dict?
  {
    forall j :: i <= j < |v.fields| ==>
      Has(props, v.fields[j].key) && Belongs(v.fields[j].value, Get(props, v.fields[j].key), false)
  }

  lemma {:induction false} MembersAreRight(v: Json, props: Json, path: seq<Step>, i: nat)
    requires WellFormed(v) && WellFormed(props) && PropertiesOk(props) && v.Dict? && i <= |v.fields|
    ensures Right(CheckMembers(v, props, path, i), MembersBelong(v, props.fields, i), v)
    decreases props, 0, |v.fields| - i
  {
    if i < |v.fields| {
      var key := v.fields[i].key;
      if Has(props.fields, key) {
        CheckIsRight(v.fields[i].value, props.fields[IndexOf(props.fields, key)].value, path + [Member(Text(key))]);
        MembersAreRight(v, props, path, i + 1);
      }
    }
  }

  lemma {:induction false} ElementsAreRight(v: Json, element: Json, path: seq<Step>, i: nat)
    requires WellFormed(v) && WellFormed(element) && v.List? && i <= |v.items| && NodeOk(element)
    ensures Right(CheckElements(v, element, path, i), AllBelong(v.items, element, i, false), v)
    decreases element, 3, |v.items| - i
  {
    if i < |v.items| {
      CheckIsRight(v.items[i], element, path + [At(i)]);
      ElementsAreRight(v, element, path, i + 1);
    }
  }

  lemma {:induction false} OptionsAreRight(v: Json, rule: Json, path: seq<Step>)
    requires WellFormed(v) && WellFormed(rule) && rule.Dict?
    requires Has(rule.fields, "anyOf") ==> OptionsOk(Get(rule.fields, "anyOf"))
    ensures Right(CheckOptions(v, rule, path), AnyOfHolds(v, rule, false), v)
    decreases rule, 1, 2
  {
    if Has(rule.fields, "anyOf") { FirstOptionIsRight(v, Get(rule.fields, "anyOf"), path, 0); }
  }

  lemma ConstIsRight(v: Json, rule: Json)
    requires WellFormed(v) && WellFormed(rule) && rule.Dict?
    ensures ConstHolds(v, rule.fields) <==> (Has(rule.fields, "const") ==> Same(v, Get(rule.fields, "const")))
  {
    if Has(rule.fields, "const") { SameIsEqual(v, Get(rule.fields, "const")); }
  }

  lemma TypeIsRight(v: Json, rule: Json, path: seq<Step>)
    requires rule.Dict? && KeywordsOk(rule.fields, TypeOf(rule))
    ensures Right(TypeVerdict(v, TypeOf(rule), path), TypeOf(rule).Text? ==> OfType(v, TypeOf(rule).s, false), v)
  {
  }

  // ----- What the names of types admit -----

  // `true` is neither an integer nor a number, and what is not finite is no number.
  predicate Admits(kind: string, v: Json) {
    || (kind == "null" && v.Null?) || (kind == "boolean" && v.Bool?) || (kind == "integer" && v.Int?)
    || (kind == "number" && (v.Float? || (v.Int? && -FLOAT_LIMIT < v.n < FLOAT_LIMIT)))
    || (kind == "string" && v.Text?) || (kind == "array" && v.List?) || (kind == "object" && v.Dict?)
  }

  /** Each type name admits exactly its kind of value; only an oversized integer checked as a number raises. */
  lemma TypeNamesAreExact(v: Json, kind: string, path: seq<Step>)
    requires kind in TYPES
    ensures TypeVerdict(v, Text(kind), path).Fits? <==> Admits(kind, v)
    ensures TypeVerdict(v, Text(kind), path).Raised?
            <==> kind == "number" && v.Int? && !(-FLOAT_LIMIT < v.n < FLOAT_LIMIT)
    ensures TypeVerdict(v, Text(kind), path).Misfit? ==> TypeVerdict(v, Text(kind), path) == Misfit(path, WrongType)
  {
    var admitted := ["null", "boolean", "integer", "number", "string", "array", "object"];
    assert kind in admitted;
  }

  lemma {:induction false} PowersMultiply(m: nat, n: nat)
    ensures Power(m + n) == Power(m) * Power(n) && Power(1) == 2
  {
    if m > 0 {
      PowersMultiply(m - 1, n);
      assert Power(m + n) == 2 * Power(m - 1 + n);
    }
  }

  /** The largest float is the one power of two less a bit of the last place; the limit lies halfway to that power. */
  lemma LimitIsHalfway()
    ensures var largest := Power(1024) - Power(971);
            FLOAT_LIMIT - largest == Power(1024) - FLOAT_LIMIT > 0
  {
    assert Power(971) == 2 * Power(970);
  }

  // The order in which a node's constraints are looked at.
  lemma CheckInOrder(v: Json, rule: Json, path: seq<Step>)
    requires rule.Dict?
    ensures Check(v, rule, path)
            == if !CheckOptions(v, rule, path).Fits? then CheckOptions(v, rule, path)
               else if Has(rule.fields, "const") && !Same(v, Get(rule.fields, "const"))
                    then Misfit(path, NotTheConstant)
               else if !CheckEnum(v, rule, path).Fits? then CheckEnum(v, rule, path)
               else if TypeVerdict(v, TypeOf(rule), path).Fits? then CheckParts(v, rule, path)
               else TypeVerdict(v, TypeOf(rule), path)
  {
  }

  // The constraints of a node taken together.
  lemma Combine(v: Json, rule: Json)
    requires rule.Dict?
    ensures Belongs(v, rule, false)
            <==> AnyOfHolds(v, rule, false) && ConstHolds(v, rule.fields) && EnumHolds(v, rule.fields)
                 && (TypeOf(rule).Text? ==> OfType(v, TypeOf(rule).s, false)) && PartsHold(v, rule)
  {
  }

  // Nested schemas of an accepted node are accepted.
  lemma NestedNodes(node: Json)
    requires NodeOk(node) && WellFormed(node)
    ensures KeywordsOk(node.fields, TypeOf(node))
    ensures TypeOf(node) == Text("object") ==> ObjectNodeOk(node)
    ensures TypeOf(node) == Text("array") ==> Has(node.fields, "items") && NodeOk(Get(node.fields, "items"))
    ensures Has(node.fields, "anyOf") ==> OptionsOk(Get(node.fields, "anyOf"))
  {
  }

  /** Every node's verdict is right. */
  lemma {:induction false} CheckIsRight(v: Json, rule: Json, path: seq<Step>)
    requires WellFormed(v) && WellFormed(rule) && NodeOk(rule)
    ensures Right(Check(v, rule, path), Belongs(v, rule, false), v)
    decreases rule, 2, 0
  {
    NestedNodes(rule);
    OptionsAreRight(v, rule, path);
    ConstIsRight(v, rule);
    EnumIsRight(v, rule, path);
    TypeIsRight(v, rule, path);
    if TypeVerdict(v, TypeOf(rule), path).Fits? { PartsAreRight(v, rule, path); }
    CheckInOrder(v, rule, path);
    Combine(v, rule);
  }

  ghost predicate PartsHold(v: Json, rule: Json)
    requires rule.Dict?
  {
    && (TypeOf(rule) == Text("array") ==> ItemsHold(v, rule, false))
    && RequiredHolds(v, rule.fields) && PropertiesHold(v, rule, false)
    && (TypeOf(rule) == Text("object") ==> NothingElse(v, rule.fields))
  }

  lemma {:induction false} ObjectPartsAreRight(v: Json, rule: Json, path: seq<Step>)
    requires WellFormed(v) && WellFormed(rule) && rule.Dict? && ObjectNodeOk(rule)
             && v.Dict? && TypeOf(rule) == Text("object")
    ensures Right(CheckObject(v, rule, path), PartsHold(v, rule), v)
    decreases rule, 1, 1
  {
    ObjectIsRight(v, rule, path);
  }

  lemma {:induction false} ArrayPartsAreRight(v: Json, rule: Json, path: seq<Step>)
    requires WellFormed(v) && WellFormed(rule) && rule.Dict? && v.List? && TypeOf(rule) == Text("array")
    requires Has(rule.fields, "items") && NodeOk(Get(rule.fields, "items"))
    ensures Right(CheckArray(v, rule, path), PartsHold(v, rule), v)
    decreases rule, 1, 1
  {
    ElementsAreRight(v, Get(rule.fields, "items"), path, 0);
  }

  lemma {:induction false} PartsAreRight(v: Json, rule: Json, path: seq<Step>)
    requires WellFormed(v) && WellFormed(rule) && rule.Dict? && TypeVerdict(v, TypeOf(rule), path).Fits?
    requires KeywordsOk(rule.fields, TypeOf(rule)) && (TypeOf(rule) == Text("object") ==> ObjectNodeOk(rule))
    requires TypeOf(rule) == Text("array") ==> Has(rule.fields, "items") && NodeOk(Get(rule.fields, "items"))
    ensures Right(CheckParts(v, rule, path), PartsHold(v, rule), v)
    decreases rule, 1, 2
  {
    if TypeOf(rule) == Text("object") {
      ObjectPartsAreRight(v, rule, path);
    } else if TypeOf(rule) == Text("array") {
      ArrayPartsAreRight(v, rule, path);
    } else {
    }
  }

  lemma {:induction false} EnumIsRight(v: Json, rule: Json, path: seq<Step>)
    requires WellFormed(v) && WellFormed(rule) && rule.Dict?
             && (Has(rule.fields, "enum") ==> Get(rule.fields, "enum").List?)
    ensures CheckEnum(v, rule, path) == if EnumHolds(v, rule.fields) then Fits else Misfit(path, NotInTheEnum)
  {
    if Has(rule.fields, "enum") {
      var options := Get(rule.fields, "enum");
      assert WellFormed(options);
      forall i | 0 <= i < |options.items| ensures Same(v, options.items[i]) <==> Equal(v, options.items[i]) {
        SameIsEqual(v, options.items[i]);
      }
    }
  }

  // The key sets agree and every member belongs to its property.
  ghost predicate ObjectBelongs(v: Json, rule: Json)
    requires v.Dict? && rule.Dict? && ObjectNodeOk(rule)
  {
    var props := Get(rule.fields, "properties").fields;
    Keys(v.fields) == Keys(props) && forall k :: k in Keys(props) ==> Belongs(Get(v.fields, k), Get(props, k), false)
  }

  lemma {:induction false} ObjectIsRight(v: Json, rule: Json, path: seq<Step>)
    requires WellFormed(v) && WellFormed(rule) && rule.Dict? && ObjectNodeOk(rule) && v.Dict?
    ensures Right(CheckObject(v, rule, path), ObjectBelongs(v, rule), v)
    decreases rule, 1, 0
  {
    var props, required := Get(rule.fields, "properties").fields, Get(rule.fields, "required").items;
    forall j | j in required ensures j.Text? && j.s in Keys(props) { assert j in Elements(required); }
    forall k | k in Keys(props) ensures Text(k) in required { assert Text(k) in Names(props); }
    RequiredIsRight(v.fields, required, path);
    MembersAreRight(v, Get(rule.fields, "properties"), path, 0);
    if MembersBelong(v, props, 0) {
      forall k | k in Keys(v.fields) ensures k in Keys(props) && Belongs(Get(v.fields, k), Get(props, k), false) {
        assert v.fields[IndexOf(v.fields, k)].key == k;
      }
    }
    if ObjectBelongs(v, rule) {
      forall j | 0 <= j < |v.fields|
        ensures Has(props, v.fields[j].key) && Belongs(v.fields[j].value, Get(props, v.fields[j].key), false)
      {
        assert v.fields[j].key in Keys(v.fields);
      }
    }
  }

  /** For every accepted schema: a value without oversized integers is checked without an exception, and it is found
      free of errors exactly if it belongs to the schema. */
  lemma ValidationIsExact(value: Json, schema: Json)
    requires WellFormed(value) && WellFormed(schema) && CheckSchema(schema) && FloatSized(value)
    ensures !Check(value, schema, []).Raised?
    ensures ValidationError(value, schema).Fits? <==> Belongs(value, schema, false)
  {
    CheckIsRight(value, schema, []);
  }

  /** Nothing outside an accepted schema ever passes, whatever the size of its integers. */
  lemma NothingElsePasses(value: Json, schema: Json)
    requires WellFormed(value) && WellFormed(schema) && CheckSchema(schema) && ValidationError(value, schema).Fits?
    ensures Belongs(value, schema, false)
  {
    CheckIsRight(value, schema, []);
  }
}
