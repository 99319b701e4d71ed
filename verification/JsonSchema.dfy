/** JSON values, the part of JSON Schema the structured-output path relies on, and the strict-mode
    rewriter of app/services/llm_clients.py. */
module JsonSchema {
  import opened Wrappers

  datatype Json =
    | Null
    | Bool(b: bool)
    | Num(n: real)
    | Str(s: string)
    | Arr(elems: seq<Json>)
    | Obj(fields: map<string, Json>)

  /** The `type` keyword: absent, one name, or a list of names. */
  datatype TypeKeyword = Untyped | One(name: string) | Many(names: seq<string>)

  datatype Properties = NoProperties | Properties(of: map<string, Schema>)

  datatype Items = NoItems | Items(schema: Schema)

  datatype Additional = AnyAdditional | NoAdditional | AdditionalSchema(schema: Schema)

  datatype Schema = Schema(
    types: TypeKeyword,
    properties: Properties,
    required: Option<set<string>>,
    items: Items,
    enumeration: Option<seq<Json>>,
    additional: Additional
  ) {
    function Declared(): map<string, Schema> {
      if properties.Properties? then properties.of else map[]
    }

    function Required(): set<string> {
      required.GetOr({})
    }

    predicate ObjectLike() {
      types == One("object") || properties.Properties?
    }

    predicate ArrayLike() {
      types == One("array") && items.Items?
    }
  }

  // ----- validation, as JSON Schema 2020-12 defines it for these keywords

  predicate HasType(name: string, v: Json) {
    match v
    case Null => name == "null"
    case Bool(_) => name == "boolean"
    case Num(n) => name == "number" || (name == "integer" && n == n.Floor as real)
    case Str(_) => name == "string"
    case Arr(_) => name == "array"
    case Obj(_) => name == "object"
  }

  predicate TypeHolds(types: TypeKeyword, v: Json) {
    match types
    case Untyped => true
    case One(name) => HasType(name, v)
    case Many(names) => exists i :: 0 <= i < |names| && HasType(names[i], v)
  }

  predicate EnumHolds(s: Schema, v: Json) {
    s.enumeration.Some? ==> v in s.enumeration.value
  }

  predicate Valid(s: Schema, v: Json)
    decreases s
  {
    && TypeHolds(s.types, v)
    && EnumHolds(s, v)
    && (v.Obj? ==> s.Required() <= v.fields.Keys)
    && (v.Obj? ==> forall k | k in s.Declared() && k in v.fields :: Valid(s.Declared()[k], v.fields[k]))
    && (v.Obj? ==> forall k | k in v.fields && k !in s.Declared() :: ValidAdditional(s.additional, v.fields[k]))
    && (v.Arr? && s.items.Items? ==> forall i | 0 <= i < |v.elems| :: Valid(s.items.schema, v.elems[i]))
  }

  predicate ValidAdditional(a: Additional, v: Json)
    decreases a
  {
    match a
    case AnyAdditional => true
    case NoAdditional => false
    case AdditionalSchema(s) => Valid(s, v)
  }

  // ----- the rewriter

  function Nullable(s: Schema): Schema {
    var types :=
      match s.types
      case Many(names) => if "null" in names then s.types else Many(names + ["null"])
      case One(name) => if name != "" then Many([name, "null"]) else Many(["null"])
      case Untyped => Many(["null"]);
    var enumeration :=
      if s.enumeration.Some? && Null !in s.enumeration.value
      then Some(s.enumeration.value + [Null]) else s.enumeration;
    s.(types := types, enumeration := enumeration)
  }

  function NullableExcept(properties: map<string, Schema>, kept: set<string>): map<string, Schema> {
    map k | k in properties :: if k in kept then properties[k] else Nullable(properties[k])
  }

  function Normalize(s: Schema, requireAll: bool): Schema
    decreases s
  {
    var asObject :=
      if s.ObjectLike() then
        var declared := s.Declared();
        var original := s.Required();
        var rewritten := map k | k in declared :: Normalize(declared[k], requireAll);
        var closed := s.(additional := NoAdditional);
        if requireAll then
          closed.(properties := Properties(NullableExcept(rewritten, original)), required := Some(declared.Keys))
        else if original != {} then
          closed.(properties := Properties(NullableExcept(rewritten, original)))
        else if s.required.Some? then
          closed.(properties := Properties(NullableExcept(rewritten, {})), required := Some({}))
        else
          closed.(properties := Properties(rewritten))
      else s;
    if s.ArrayLike() then asObject.(items := Items(Normalize(s.items.schema, requireAll))) else asObject
  }

  /** The schema a parsed reply is checked against: an object schema without properties means "no check". */
  function ValidationSchema(s: Schema): Option<Schema> {
    if s.ObjectLike() && s.Declared() == map[] then None else Some(Normalize(s, false))
  }

  // ----- the value transformations the rewriting is meant to be undone by

  /** `v` without the null values of declared optional keys, at every object the rewriter reaches. */
  function DropNulls(s: Schema, v: Json): Json
    decreases s
  {
    match v
    case Obj(fields) =>
      if s.ObjectLike() then
        Obj(map k | k in fields && !(fields[k].Null? && k in s.Declared() && k !in s.Required()) ::
          if k in s.Declared() then DropNulls(s.Declared()[k], fields[k]) else fields[k])
      else v
    case Arr(elems) =>
      if s.ArrayLike() then Arr(seq(|elems|, i requires 0 <= i < |elems| => DropNulls(s.items.schema, elems[i]))) else v
    case _ => v
  }

  /** `v` with, in the mode that requires every property, null for each missing optional key. */
  function FillNulls(s: Schema, requireAll: bool, v: Json): Json
    decreases s
  {
    match v
    case Obj(fields) =>
      if s.ObjectLike() then
        var declared := s.Declared();
        Obj(map k | k in fields.Keys + (if requireAll then declared.Keys else {}) ::
          if k !in fields then Null
          else if k in declared then FillNulls(declared[k], requireAll, fields[k])
          else fields[k])
      else v
    case Arr(elems) =>
      if s.ArrayLike()
      then Arr(seq(|elems|, i requires 0 <= i < |elems| => FillNulls(s.items.schema, requireAll, elems[i]))) else v
    case _ => v
  }

  /** `required` names declared properties only, at every object the rewriter reaches. */
  predicate RequiredDeclared(s: Schema)
    decreases s
  {
    && (s.ObjectLike() ==> s.Required() <= s.Declared().Keys)
    && (forall k | k in s.Declared() :: RequiredDeclared(s.Declared()[k]))
    && (s.items.Items? ==> RequiredDeclared(s.items.schema))
  }

  /** The enumerations of `s` hold of `v` wherever the rewriter reaches. */
  predicate EnumsHold(s: Schema, v: Json)
    decreases s
  {
    && EnumHolds(s, v)
    && (v.Obj? && s.ObjectLike() ==>
          forall k | k in s.Declared() && k in v.fields :: EnumsHold(s.Declared()[k], v.fields[k]))
    && (v.Arr? && s.ArrayLike() ==>
          forall i | 0 <= i < |v.elems| :: EnumsHold(s.items.schema, v.elems[i]))
  }

  /** No enumerated value is changed by `DropNulls`; enumerations of scalars have this property. */
  predicate EnumsStable(s: Schema)
    decreases s
  {
    && (s.enumeration.Some? ==> forall e | e in s.enumeration.value :: DropNulls(s, e) == e)
    && (forall k | k in s.Declared() :: EnumsStable(s.Declared()[k]))
    && (s.items.Items? ==> EnumsStable(s.items.schema))
  }

  /** Whether an optional property is given the extra "null" alternative. */
  predicate MarksOptional(s: Schema, requireAll: bool) {
    requireAll || s.required.Some?
  }

  predicate Typed(s: Schema) {
    match s.types
    case Untyped => false
    case One(name) => name != ""
    case Many(_) => true
  }

  /** What a valid value must also satisfy to survive the rewriting: declared keys only, a type on each
      optional property that carries a value, and enumerations that list the filled value. */
  predicate Expressible(s: Schema, requireAll: bool, v: Json)
    decreases s
  {
    && EnumHolds(s, FillNulls(s, requireAll, v))
    && (v.Obj? && s.ObjectLike() ==>
          && v.fields.Keys <= s.Declared().Keys
          && forall k | k in v.fields && k in s.Declared() ::
               if k !in s.Required() && MarksOptional(s, requireAll)
               then v.fields[k] == Null || (Typed(s.Declared()[k]) && Expressible(s.Declared()[k], requireAll, v.fields[k]))
               else Expressible(s.Declared()[k], requireAll, v.fields[k]))
    && (v.Arr? && s.ArrayLike() ==>
          forall i | 0 <= i < |v.elems| :: Expressible(s.items.schema, requireAll, v.elems[i]))
  }
}
