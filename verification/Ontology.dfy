/** Property values, ontology entities and the coercion of record properties. */
module Ontology {
  import opened Basics

  const ONTOLOGY_ID := "ambient-context"
  const USER_CONTEXT_SCOPE := "user_context"
  const NAMESPACE := "namespace"

  datatype Float = Finite(r: real) | PositiveInfinity | NegativeInfinity | NotANumber

  /** A decoded JSON value. */
  datatype Value =
    | Null
    | Bool(b: bool)
    | Int(i: int)
    | Num(f: Float)
    | Str(s: string)
    | Arr(items: seq<Value>)
    | Obj(fields: map<string, Value>)

  type Props = map<string, Value>

  datatype PropType = PString | PInteger | PNumber | PBoolean

  /** One row of the schema table. */
  datatype Schema = Schema(
    id: string,
    name: string,
    description: string,
    properties: map<string, PropType>,
    isCore: bool,
    ontologyId: string,
    ontologyIri: string,
    source: string,
    equivalentTo: seq<string>,
    subclassOf: Option<string>,
    isAbstract: bool,
    dataScope: string,
    createdAt: string)

  type Schemas = map<string, Schema>

  /** The host language's conversions, which the program calls and does not define. */
  datatype Host = Host(
    show: Value -> string,
    lower: string -> string,
    parseInt: string -> Option<int>,
    parseFloat: string -> Option<Float>,
    floatOfInt: int -> Option<Float>)

  function Truncate(r: real): int {
    if r >= 0.0 then r.Floor else -((-r).Floor)
  }

  function ToInt(h: Host, v: Value): Option<int> {
    match v
    case Bool(b) => Some(if b then 1 else 0)
    case Int(i) => Some(i)
    case Num(Finite(r)) => Some(Truncate(r))
    case Str(s) => h.parseInt(s)
    case _ => None
  }

  function ToFloat(h: Host, v: Value): Option<Float> {
    match v
    case Bool(b) => Some(Finite(if b then 1.0 else 0.0))
    case Int(i) => h.floatOfInt(i)
    case Num(f) => Some(f)
    case Str(s) => h.parseFloat(s)
    case _ => None
  }

  /** `str(value)`, which leaves a string alone. */
  function ToStr(h: Host, v: Value): string {
    if v.Str? then v.s else h.show(v)
  }

  function ToBool(h: Host, v: Value): Option<bool> {
    if v.Bool? then Some(v.b)
    else
      var text := h.lower(ToStr(h, v));
      if text in {"true", "1", "yes"} then Some(true)
      else if text in {"false", "0", "no"} then Some(false)
      else None
  }

  /** The stored form of one value under its declared type, or None when it has none. */
  function CoerceValue(h: Host, expected: PropType, v: Value): Option<Value> {
    match expected
    case PString => Some(Str(ToStr(h, v)))
    case PInteger => var n := ToInt(h, v); if n.Some? then Some(Int(n.value)) else None
    case PNumber => var f := ToFloat(h, v); if f.Some? then Some(Num(f.value)) else None
    case PBoolean => var b := ToBool(h, v); if b.Some? then Some(Bool(b.value)) else None
  }

  /** Declared properties, with the system property `namespace` underneath. */
  function Declared(s: Schema): map<string, PropType> {
    map[NAMESPACE := PString] + s.properties
  }

  predicate Usable(s: Schema) {
    s.ontologyId == ONTOLOGY_ID && !s.isAbstract && s.dataScope == USER_CONTEXT_SCOPE
  }

  /** What a batch stores for `properties` under `schema`, key by key. */
  function Coerce(h: Host, schema: Option<Schema>, properties: Props): Result<Props> {
    if schema.None? then Err(Unregistered)
    else if schema.value.ontologyId != ONTOLOGY_ID then Err(ForeignOntology)
    else if schema.value.isAbstract then Err(AbstractEntity)
    else if schema.value.dataScope != USER_CONTEXT_SCOPE then Err(NotUserContext)
    else
      var declared := Declared(schema.value);
      if !(properties.Keys <= declared.Keys) then Err(UnknownProperty)
      else if exists k :: k in properties && CoerceValue(h, declared[k], properties[k]).None? then Err(BadValue)
      else Ok(map k | k in properties :: CoerceValue(h, declared[k], properties[k]).value)
  }

  /** The coercion loop: a copy of the input, overwritten one key at a time. */
  method CoerceEntityProperties(h: Host, schema: Option<Schema>, properties: Props) returns (r: Result<Props>)
    ensures r == Coerce(h, schema, properties)
  {
    if schema.None? { return Err(Unregistered); }
    if schema.value.ontologyId != ONTOLOGY_ID { return Err(ForeignOntology); }
    if schema.value.isAbstract { return Err(AbstractEntity); }
    if schema.value.dataScope != USER_CONTEXT_SCOPE { return Err(NotUserContext); }
    var declared := Declared(schema.value);
    if !(properties.Keys <= declared.Keys) { return Err(UnknownProperty); }
    var validated := properties;
    var pending := properties.Keys;
    while pending != {}
      invariant pending <= properties.Keys == validated.Keys
      invariant forall k | k in properties.Keys - pending ::
          CoerceValue(h, declared[k], properties[k]) == Some(validated[k])
    {
      var key :| key in pending;
      var coerced := CoerceValue(h, declared[key], properties[key]);
      if coerced.None? { return Err(BadValue); }
      validated := validated[key := coerced.value];
      pending := pending - {key};
    }
    assert validated == map k | k in properties :: CoerceValue(h, declared[k], properties[k]).value;
    return Ok(validated);
  }

  /** The value has the constructor its declared type calls for. */
  predicate HasType(expected: PropType, v: Value) {
    match expected
    case PString => v.Str?
    case PInteger => v.Int?
    case PNumber => v.Num?
    case PBoolean => v.Bool?
  }

  /** Properties a record of this entity may hold, with no mention of coercion. */
  predicate Typed(s: Schema, properties: Props) {
    && Usable(s)
    && forall k | k in properties :: k in Declared(s) && HasType(Declared(s)[k], properties[k])
  }

  /** Coercion yields only well-typed properties, under the keys it was given. */
  lemma CoercionTypes(h: Host, s: Schema, p: Props)
    requires Coerce(h, Some(s), p).Ok?
    ensures Coerce(h, Some(s), p).value.Keys == p.Keys
    ensures Typed(s, Coerce(h, Some(s), p).value)
  {
    var q := Coerce(h, Some(s), p).value;
    forall k | k in q ensures HasType(Declared(s)[k], q[k]) {
      assert q[k] == CoerceValue(h, Declared(s)[k], p[k]).value;
    }
  }

  /** The fixpoints of coercion are exactly the well-typed property maps. */
  lemma CoercionFixpoints(h: Host, s: Schema, p: Props)
    ensures Coerce(h, Some(s), p) == Ok(p) <==> Typed(s, p)
  {
    if Coerce(h, Some(s), p) == Ok(p) {
      CoercionTypes(h, s, p);
    }
    if Typed(s, p) {
      forall k | k in p ensures CoerceValue(h, Declared(s)[k], p[k]) == Some(p[k]) {
        assert HasType(Declared(s)[k], p[k]);
      }
      assert Coerce(h, Some(s), p).value == p;
    }
  }

  /** Coercing twice is coercing once. */
  lemma CoercionIdempotent(h: Host, s: Schema, p: Props)
    requires Coerce(h, Some(s), p).Ok?
    ensures Coerce(h, Some(s), Coerce(h, Some(s), p).value) == Coerce(h, Some(s), p)
  {
    CoercionTypes(h, s, p);
    CoercionFixpoints(h, s, Coerce(h, Some(s), p).value);
  }

  // ---- What is stored, in plain terms ----------------------------------------------------------------

  /** The boolean a text stands for. */
  ghost predicate Says(text: string, b: bool) {
    if b then text == "true" || text == "1" || text == "yes" else text == "false" || text == "0" || text == "no"
  }

  /** The integer of a number: its fraction is dropped towards zero. */
  ghost predicate IntegerPart(x: real, n: int) {
    if 0.0 <= x then n as real <= x < n as real + 1.0 else n as real - 1.0 < x <= n as real
  }

  /** `r` is what a value is stored as under its declared type. */
  ghost predicate Stores(h: Host, expected: PropType, v: Value, r: Value) {
    match (expected, v)
    case (PString, Str(s)) => r == v
    case (PString, _) => r == Str(h.show(v))
    case (PInteger, Bool(b)) => r == Int(if b then 1 else 0)
    case (PInteger, Int(i)) => r == v
    case (PInteger, Num(Finite(x))) => r.Int? && IntegerPart(x, r.i)
    case (PInteger, Str(s)) => r.Int? && h.parseInt(s) == Some(r.i)
    case (PNumber, Bool(b)) => r == Num(Finite(if b then 1.0 else 0.0))
    case (PNumber, Int(i)) => r.Num? && h.floatOfInt(i) == Some(r.f)
    case (PNumber, Num(f)) => r == v
    case (PNumber, Str(s)) => r.Num? && h.parseFloat(s) == Some(r.f)
    case (PBoolean, Bool(b)) => r == v
    case (PBoolean, Str(s)) => r.Bool? && Says(h.lower(s), r.b)
    case (PBoolean, _) => r.Bool? && Says(h.lower(h.show(v)), r.b)
    case _ => false
  }

  lemma TruncateIsIntegerPart(x: real, n: int)
    ensures IntegerPart(x, n) <==> n == Truncate(x)
  {
    if x < 0.0 {
      var up := -x;
      assert up.Floor as real <= up < up.Floor as real + 1.0;
    }
  }

  lemma ValueStored(h: Host, expected: PropType, v: Value, r: Value)
    ensures CoerceValue(h, expected, v) == Some(r) <==> Stores(h, expected, v, r)
  {
    if expected == PInteger && v.Num? && v.f.Finite? && r.Int? {
      TruncateIsIntegerPart(v.f.r, r.i);
    }
  }

  /** What coercion accepts and stores: the entity is usable, the keys stay, each is declared, and each value
      is what its declared type makes of the one given. */
  lemma CoercionMeans(h: Host, s: Schema, p: Props, q: Props)
    ensures Coerce(h, Some(s), p) == Ok(q) <==>
            && Usable(s) && q.Keys == p.Keys
            && forall k | k in p :: k in Declared(s) && Stores(h, Declared(s)[k], p[k], q[k])
  {
    forall k | k in p && k in q && k in Declared(s)
      ensures CoerceValue(h, Declared(s)[k], p[k]) == Some(q[k]) <==> Stores(h, Declared(s)[k], p[k], q[k])
    {
      ValueStored(h, Declared(s)[k], p[k], q[k]);
    }
    if Coerce(h, Some(s), p) == Ok(q) {
      forall k | k in p ensures k in Declared(s) && Stores(h, Declared(s)[k], p[k], q[k]) {
        assert k in q;
      }
    }
    if Usable(s) && q.Keys == p.Keys && forall k | k in p :: k in Declared(s) && Stores(h, Declared(s)[k], p[k], q[k]) {
      assert Coerce(h, Some(s), p).Ok?;
      assert Coerce(h, Some(s), p).value == q;
    }
  }

  /** The reason of a refusal names its cause: the first of a missing, foreign, abstract or foreign-scope
      entity, an undeclared key, and a value that has no stored form. */
  lemma RefusalMeans(h: Host, schema: Option<Schema>, p: Props)
    ensures Coerce(h, schema, p) == Err(Unregistered) <==> schema == None
    ensures schema.Some? && !Usable(schema.value) ==>
              var s := schema.value;
              Coerce(h, schema, p) == Err(if s.ontologyId != ONTOLOGY_ID then ForeignOntology
                                          else if s.isAbstract then AbstractEntity else NotUserContext)
    ensures schema.Some? && Usable(schema.value) ==>
              var d := Declared(schema.value);
              && (Coerce(h, schema, p) == Err(UnknownProperty) <==> exists k :: k in p && k !in d)
              && (Coerce(h, schema, p) == Err(BadValue) <==>
                  && p.Keys <= d.Keys
                  && exists k :: k in p && forall r :: !Stores(h, d[k], p[k], r))
  {
    if schema.Some? && Usable(schema.value) {
      var d := Declared(schema.value);
      forall k | k in p && k in d
        ensures CoerceValue(h, d[k], p[k]).None? <==> forall r :: !Stores(h, d[k], p[k], r)
      {
        forall r ensures Stores(h, d[k], p[k], r) <==> CoerceValue(h, d[k], p[k]) == Some(r) {
          ValueStored(h, d[k], p[k], r);
        }
        if CoerceValue(h, d[k], p[k]).Some? {
          assert Stores(h, d[k], p[k], CoerceValue(h, d[k], p[k]).value);
        }
      }
    }
  }
}
