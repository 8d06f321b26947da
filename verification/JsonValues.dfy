/** JSON values as the parser delivers them, and the equality that `const` and `enum` use. */
module JsonValues {
  /** Objects keep the order of their members; the parser also lets infinities and not-a-number through. */
  datatype Json =
    | Null
    | Bool(b: bool)
    | Int(n: int)
    | Float(x: real)
    | Infinite(positive: bool)
    | NotANumber
    | Text(s: string)
    | List(items: seq<Json>)
    | Dict(fields: seq<Field>)

  datatype Field = Field(key: string, value: Json)

  // ----- Members of objects -----

  /** Where a key stands among the members; their number if it does not. */
  function IndexOf(fields: seq<Field>, key: string): (i: nat)
    ensures i <= |fields| && (i < |fields| ==> fields[i].key == key)
    ensures forall j :: 0 <= j < i ==> fields[j].key != key
  {
    if fields == [] || fields[0].key == key then 0 else 1 + IndexOf(fields[1..], key)
  }

  predicate Has(fields: seq<Field>, key: string) { IndexOf(fields, key) < |fields| }

  function Get(fields: seq<Field>, key: string): Json
    requires Has(fields, key)
  {
    fields[IndexOf(fields, key)].value
  }

  function Keys(fields: seq<Field>): (keys: set<string>)
    ensures forall k :: k in keys <==> Has(fields, k)
  {
    var keys := set i | 0 <= i < |fields| :: fields[i].key;
    assert forall k :: Has(fields, k) ==> fields[IndexOf(fields, k)].key in keys;
    assert forall i :: 0 <= i < |fields| ==> IndexOf(fields, fields[i].key) <= i;
    keys
  }

  ghost predicate Unique(fields: seq<Field>) {
    forall i, j :: 0 <= i < j < |fields| ==> fields[i].key != fields[j].key
  }

  // No object, at any depth, has a key twice.
  ghost predicate WellFormed(j: Json) {
    match j
    case List(items) => forall i :: 0 <= i < |items| ==> WellFormed(items[i])
    case Dict(fields) => Unique(fields) && forall i :: 0 <= i < |fields| ==> WellFormed(fields[i].value)
    case _ => true
  }

  // ----- Equality -----

  predicate Numeric(j: Json) { j.Int? || j.Float? || j.Infinite? || j.NotANumber? }

  // Comparing two numbers is exact, whichever of the two kinds they are.
  predicate SameNumber(a: Json, b: Json)
    requires Numeric(a) && Numeric(b)
  {
    match (a, b)
    case (Int(m), Int(n)) => m == n
    case (Int(m), Float(y)) => m as real == y
    case (Float(x), Int(n)) => x == n as real
    case (Float(x), Float(y)) => x == y
    case (Infinite(p), Infinite(q)) => p == q
    case (_, _) => false
  }

  /** The comparison the validator makes. */
  predicate Same(a: Json, b: Json)
    decreases a
  {
    if a.Bool? || b.Bool? then a.Bool? && b.Bool? && a.b == b.b
    else if Numeric(a) && Numeric(b) then SameNumber(a, b)
    else if a.List? && b.List? then
      |a.items| == |b.items| && forall i :: 0 <= i < |a.items| ==> Same(a.items[i], b.items[i])
    else if a.Dict? && b.Dict? then
      Keys(a.fields) == Keys(b.fields)
      && forall i :: 0 <= i < |a.fields| ==>
           Has(b.fields, a.fields[i].key) && Same(a.fields[i].value, Get(b.fields, a.fields[i].key))
    else (a.Null? && b.Null?) || (a.Text? && b.Text? && a.s == b.s)
  }

  /** What a JSON text means: numbers are numbers however written, objects have no order. */
  datatype Meaning =
    | Nothing
    | Truth(b: bool)
    | Number(x: real)
    | Unbounded(positive: bool)
    | Undefined
    | Characters(s: string)
    | Sequence(items: seq<Meaning>)
    | Mapping(members: map<string, Meaning>)

  ghost function MeaningOf(j: Json): Meaning {
    match j
    case Null => Nothing
    case Bool(b) => Truth(b)
    case Int(n) => Number(n as real)
    case Float(x) => Number(x)
    case Infinite(p) => Unbounded(p)
    case NotANumber => Undefined
    case Text(s) => Characters(s)
    case List(items) => Sequence(seq(|items|, i requires 0 <= i < |items| => MeaningOf(items[i])))
    case Dict(fields) => Mapping(map k | k in Keys(fields) :: MeaningOf(fields[IndexOf(fields, k)].value))
  }

  ghost predicate NumbersAreDefined(j: Json) {
    match j
    case NotANumber => false
    case List(items) => forall i :: 0 <= i < |items| ==> NumbersAreDefined(items[i])
    case Dict(fields) => forall i :: 0 <= i < |fields| ==> NumbersAreDefined(fields[i].value)
    case _ => true
  }

  /** Equal in the sense of JSON: the same meaning; not-a-number equals nothing. */
  ghost predicate Equal(a: Json, b: Json) { MeaningOf(a) == MeaningOf(b) && NumbersAreDefined(a) }

  lemma {:induction false} SameIsEqual(a: Json, b: Json)
    requires WellFormed(a) && WellFormed(b)
    ensures Same(a, b) <==> Equal(a, b)
    decreases a
  {
    if a.List? && b.List? {
      SameLists(a, b);
    } else if a.Dict? && b.Dict? {
      SameDicts(a, b);
    }
  }

  lemma {:induction false} SameLists(a: Json, b: Json)
    requires a.List? && b.List? && WellFormed(a) && WellFormed(b)
    ensures Same(a, b) <==> Equal(a, b)
    decreases a, 0
  {
    forall i | 0 <= i < |a.items| && i < |b.items|
      ensures Same(a.items[i], b.items[i]) <==> Equal(a.items[i], b.items[i])
    {
      SameIsEqual(a.items[i], b.items[i]);
    }
    var x, y := MeaningOf(a).items, MeaningOf(b).items;
    if Same(a, b) {
      assert forall i :: 0 <= i < |x| ==> x[i] == MeaningOf(a.items[i]) && y[i] == MeaningOf(b.items[i]);
      assert x == y;
    }
    if Equal(a, b) {
      assert |x| == |y|;
      forall i | 0 <= i < |x| ensures Same(a.items[i], b.items[i]) {
        assert x[i] == y[i];
        assert x[i] == MeaningOf(a.items[i]);
        assert y[i] == MeaningOf(b.items[i]);
      }
    }
  }

  // Members found under the same key compare as they mean.
  ghost predicate MembersCompare(a: Json, b: Json)
    requires a.Dict? && b.Dict?
  {
    forall i :: 0 <= i < |a.fields| && Has(b.fields, a.fields[i].key) ==>
      (Same(a.fields[i].value, Get(b.fields, a.fields[i].key))
       <==> Equal(a.fields[i].value, Get(b.fields, a.fields[i].key)))
  }

  lemma MeaningOfDict(j: Json, k: string)
    requires j.Dict?
    ensures k in MeaningOf(j).members <==> Has(j.fields, k)
    ensures Has(j.fields, k) ==> MeaningOf(j).members[k] == MeaningOf(Get(j.fields, k))
  {
  }

  lemma MeaningsAgree(a: Json, b: Json)
    requires a.Dict? && b.Dict? && Keys(a.fields) == Keys(b.fields)
    requires forall k :: k in Keys(a.fields) ==> MeaningOf(Get(a.fields, k)) == MeaningOf(Get(b.fields, k))
    ensures MeaningOf(a) == MeaningOf(b)
  {
    var x, y := MeaningOf(a).members, MeaningOf(b).members;
    forall k ensures (k in x <==> k in y) && (k in x ==> x[k] == y[k]) {
      MeaningOfDict(a, k);
      MeaningOfDict(b, k);
      assert k in Keys(a.fields) <==> k in Keys(b.fields);
    }
    assert x == y;
  }

  lemma SameDictsAreEqual(a: Json, b: Json)
    requires a.Dict? && b.Dict? && Unique(a.fields) && MembersCompare(a, b) && Same(a, b)
    ensures Equal(a, b)
  {
    forall k | k in Keys(a.fields) ensures MeaningOf(Get(a.fields, k)) == MeaningOf(Get(b.fields, k)) {
    }
    MeaningsAgree(a, b);
    forall i | 0 <= i < |a.fields| ensures NumbersAreDefined(a.fields[i].value) {
    }
  }

  lemma EqualDictsAreSame(a: Json, b: Json)
    requires a.Dict? && b.Dict? && Unique(a.fields) && MembersCompare(a, b) && Equal(a, b)
    ensures Same(a, b)
  {
    forall k ensures k in Keys(a.fields) <==> k in Keys(b.fields) {
      MeaningOfDict(a, k);
      MeaningOfDict(b, k);
    }
    assert Keys(a.fields) == Keys(b.fields);
    forall i | 0 <= i < |a.fields|
      ensures Has(b.fields, a.fields[i].key) && Same(a.fields[i].value, Get(b.fields, a.fields[i].key))
    {
      var k := a.fields[i].key;
      assert k in Keys(a.fields);
      MeaningOfDict(a, k);
      MeaningOfDict(b, k);
    }
  }

  lemma {:induction false} SameDicts(a: Json, b: Json)
    requires a.Dict? && b.Dict? && WellFormed(a) && WellFormed(b)
    ensures Same(a, b) <==> Equal(a, b)
    decreases a, 0
  {
    forall i | 0 <= i < |a.fields| && Has(b.fields, a.fields[i].key)
      ensures Same(a.fields[i].value, Get(b.fields, a.fields[i].key))
              <==> Equal(a.fields[i].value, Get(b.fields, a.fields[i].key))
    {
      SameIsEqual(a.fields[i].value, Get(b.fields, a.fields[i].key));
    }
    assert MembersCompare(a, b);
    if Same(a, b) { SameDictsAreEqual(a, b); }
    if Equal(a, b) { EqualDictsAreSame(a, b); }
  }
}
