/** Which schemas are accepted, said of their parts one by one. */
module SchemaAcceptance {
  import opened JsonValues
  import opened StructuredValidator

  // ----- The contract: about everything inside, schema or not -----

  // `part` stands in j, however deep.
  ghost predicate Contains(j: Json, part: Json) {
    j == part ||
    match j
    case List(items) => exists i :: 0 <= i < |items| && Contains(items[i], part)
    case Dict(fields) => exists i :: 0 <= i < |fields| && Contains(fields[i].value, part)
    case _ => false
  }

  // An object does not list types, and one that calls itself an object type is closed.
  ghost predicate Contracted(part: Json) {
    part.Dict? && Has(part.fields, "type") ==>
      && !Get(part.fields, "type").List?
      && (Get(part.fields, "type") == Text("object") ==>
            Has(part.fields, "additionalProperties") && Get(part.fields, "additionalProperties") == Bool(false))
  }

  lemma {:induction false} ContractIsOfParts(j: Json)
    ensures MeetsContract(j) <==> forall part :: Contains(j, part) ==> Contracted(part)
  {
    assert Contains(j, j);
    match j
    case List(items) =>
      forall i | 0 <= i < |items|
        ensures MeetsContract(items[i]) <==> forall part :: Contains(items[i], part) ==> Contracted(part)
      {
        ContractIsOfParts(items[i]);
      }
      PartsOfList(items);
    case Dict(fields) =>
      forall i | 0 <= i < |fields|
        ensures MeetsContract(fields[i].value) <==> forall part :: Contains(fields[i].value, part) ==> Contracted(part)
      {
        ContractIsOfParts(fields[i].value);
      }
      PartsOfDict(fields);
      ContractOfOne(fields);
    case _ =>
  }

  lemma ContractOfOne(fields: seq<Field>)
    ensures Contracted(Dict(fields))
            <==> !TypeOf(Dict(fields)).List?
                 && (TypeOf(Dict(fields)) == Text("object") ==> Lookup(fields, "additionalProperties") == Bool(false))
  {
  }

  lemma PartsOfList(items: seq<Json>)
    ensures forall i, part :: 0 <= i < |items| && Contains(items[i], part) ==> Contains(List(items), part)
  {
  }

  lemma PartsOfDict(fields: seq<Field>)
    ensures forall i, part :: 0 <= i < |fields| && Contains(fields[i].value, part) ==> Contains(Dict(fields), part)
  {
  }

  // ----- The nodes of a schema -----

  // A schema and the schemas below it: of elements, of options, of properties.
  ghost predicate HasNode(schema: Json, node: Json)
    decreases schema, 1
  {
    schema == node
    || (schema.Dict? && Has(schema.fields, "items") && HasNode(Get(schema.fields, "items"), node))
    || (schema.Dict? && Has(schema.fields, "anyOf") && OneHasNode(Get(schema.fields, "anyOf"), node))
    || (schema.Dict? && Has(schema.fields, "properties") && OneHasNode(Get(schema.fields, "properties"), node))
  }

  ghost predicate OneHasNode(schemas: Json, node: Json)
    decreases schemas, 0
  {
    || (schemas.List? && exists i :: 0 <= i < |schemas.items| && HasNode(schemas.items[i], node))
    || (schemas.Dict? && exists i :: 0 <= i < |schemas.fields| && HasNode(schemas.fields[i].value, node))
  }

  predicate IsKeyword(key: string) {
    || key == "type" || key == "properties" || key == "required" || key == "additionalProperties" || key == "items"
    || key == "enum" || key == "const" || key == "anyOf" || key == "description" || key == "title"
  }

  predicate IsTypeName(kind: string) {
    || kind == "object" || kind == "array" || kind == "string" || kind == "number" || kind == "integer"
    || kind == "boolean" || kind == "null"
  }

  ghost predicate IsTyped(f: seq<Field>, kind: string) { Has(f, "type") && Get(f, "type") == Text(kind) }

  /** A node on its own: it has only known keywords, a type or options, and what either asks for. */
  ghost predicate WellPut(node: Json) {
    && node.Dict? && KeywordsPut(node.fields)
    && var f := node.fields;
       && (Has(f, "items") ==> Get(f, "items").Dict?)
       && (Has(f, "anyOf") ==> Get(f, "anyOf").List? && Get(f, "anyOf").items != [])
       && (IsTyped(f, "object") ==> ClosedObject(f))
  }

  ghost predicate KeywordsPut(f: seq<Field>) {
    && (forall i :: 0 <= i < |f| ==> IsKeyword(f[i].key))
    && (Has(f, "type") && !Get(f, "type").Null? ==> Get(f, "type").Text? && IsTypeName(Get(f, "type").s))
    && (!Has(f, "type") || Get(f, "type").Null? ==> Has(f, "anyOf"))
    && (Has(f, "enum") ==> Get(f, "enum").List? && Get(f, "enum").items != [])
    && (Has(f, "description") ==> Get(f, "description").Text?) && (Has(f, "title") ==> Get(f, "title").Text?)
    && (IsTyped(f, "array") ==> Has(f, "items"))
    && (Has(f, "properties") || Has(f, "required") ==> IsTyped(f, "object"))
  }

  /** An object has no other members than its properties, and requires each of them once. */
  ghost predicate ClosedObject(f: seq<Field>) {
    && Has(f, "additionalProperties") && Get(f, "additionalProperties") == Bool(false)
    && Has(f, "properties") && Get(f, "properties").Dict? && Has(f, "required") && Get(f, "required").List?
    && var props, required := Get(f, "properties").fields, Get(f, "required").items;
       && |required| == |props| && (forall j :: j in required ==> j.Text?)
       && forall k :: Text(k) in required <==> Has(props, k)
  }

  lemma {:induction false} KnownKeys(fields: seq<Field>)
    ensures OnlyKnown(fields) <==> forall i :: 0 <= i < |fields| ==> IsKeyword(fields[i].key)
  {
    if fields != [] {
      KnownKeys(fields[1..]);
      assert forall i :: 0 <= i < |fields[1..]| ==> fields[1..][i] == fields[i + 1];
    }
  }

  lemma NamesOfTypes(kind: string)
    ensures kind in TYPES <==> IsTypeName(kind)
  {
  }

  lemma KeywordsAgree(f: seq<Field>)
    ensures KeywordsOk(f, Lookup(f, "type")) <==> KeywordsPut(f)
  {
    KnownKeys(f);
    if Has(f, "type") && Get(f, "type").Text? { NamesOfTypes(Get(f, "type").s); }
  }

  lemma ObjectsAgree(f: seq<Field>)
    requires IsTyped(f, "object")
    ensures ObjectNodeOk(Dict(f)) <==> ClosedObject(f) && AllOk(Get(f, "properties"))
  {
    if Has(f, "properties") && Get(f, "properties").Dict? && Has(f, "required") && Get(f, "required").List? {
      RequiredNames(Get(f, "required").items, Get(f, "properties").fields);
    }
  }

  lemma RequiredNames(required: seq<Json>, props: seq<Field>)
    ensures Elements(required) == Names(props)
            <==> (forall j :: j in required ==> j.Text?) && forall k :: Text(k) in required <==> Has(props, k)
  {
    var elements, names := Elements(required), Names(props);
    if elements == names {
      forall j | j in required ensures j.Text? { assert j in elements; }
      forall k ensures Text(k) in required <==> Has(props, k) { assert Text(k) in elements <==> Text(k) in names; }
    }
    if (forall j :: j in required ==> j.Text?) && forall k :: Text(k) in required <==> Has(props, k) {
      forall j ensures j in elements <==> j in names {
        if j.Text? { assert Text(j.s) == j; }
      }
    }
  }

  // What a node asks of itself, and of the nodes right below it.
  lemma OneNode(node: Json)
    ensures NodeOk(node)
            <==> WellPut(node) && (Has(node.fields, "items") ==> NodeOk(Get(node.fields, "items")))
                 && (Has(node.fields, "anyOf") ==> AllOk(Get(node.fields, "anyOf")))
                 && (Has(node.fields, "properties") ==> AllOk(Get(node.fields, "properties")))
  {
    if node.Dict? {
      var f := node.fields;
      KeywordsAgree(f);
      if IsTyped(f, "object") { ObjectsAgree(f); }
    }
  }

  ghost predicate AllOk(schemas: Json) {
    && (schemas.List? ==> forall i :: 0 <= i < |schemas.items| ==> NodeOk(schemas.items[i]))
    && (schemas.Dict? ==> forall i :: 0 <= i < |schemas.fields| ==> NodeOk(schemas.fields[i].value))
  }

  ghost predicate AllWellPut(schema: Json) { forall node :: HasNode(schema, node) ==> WellPut(node) }

  lemma {:induction false} NodesAreWellPut(schema: Json)
    ensures NodeOk(schema) <==> AllWellPut(schema)
    decreases schema, 1
  {
    OneNode(schema);
    if schema.Dict? {
      var f := schema.fields;
      if Has(f, "items") { NodesAreWellPut(Get(f, "items")); }
      if Has(f, "anyOf") { SeveralAreWellPut(Get(f, "anyOf")); }
      if Has(f, "properties") { SeveralAreWellPut(Get(f, "properties")); }
    }
    assert HasNode(schema, schema);
  }

  lemma {:induction false} SeveralAreWellPut(schemas: Json)
    ensures AllOk(schemas) <==> forall node :: OneHasNode(schemas, node) ==> WellPut(node)
    decreases schemas, 0
  {
    if schemas.List? {
      forall i | 0 <= i < |schemas.items| ensures NodeOk(schemas.items[i]) <==> AllWellPut(schemas.items[i]) {
        NodesAreWellPut(schemas.items[i]);
      }
    } else if schemas.Dict? {
      forall i | 0 <= i < |schemas.fields|
        ensures NodeOk(schemas.fields[i].value) <==> AllWellPut(schemas.fields[i].value)
      {
        NodesAreWellPut(schemas.fields[i].value);
      }
    }
  }

  /** A schema is accepted if and only if it is of type object, everything inside keeps the contract, and each node is
      well put. */
  lemma AcceptedExactly(schema: Json)
    ensures CheckSchema(schema)
            <==> schema.Dict? && IsTyped(schema.fields, "object")
                 && (forall part :: Contains(schema, part) ==> Contracted(part)) && AllWellPut(schema)
  {
    ContractIsOfParts(schema);
    NodesAreWellPut(schema);
  }
}
