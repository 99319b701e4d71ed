/** The rewriter preserves meaning up to nulls: what each mode accepts, and how values travel both ways. */
module SchemaMeaning {
  import opened Wrappers
  import opened JsonSchema

  /** The schema a declared property ends up with. */
  function Rewritten(s: Schema, requireAll: bool, k: string): Schema
    requires k in s.Declared()
  {
    var n := Normalize(s.Declared()[k], requireAll);
    if k !in s.Required() && MarksOptional(s, requireAll) then Nullable(n) else n
  }

  lemma {:induction false} NormalizedShape(s: Schema, requireAll: bool)
    ensures var n := Normalize(s, requireAll);
      && n.types == s.types
      && n.enumeration == s.enumeration
      && n.ObjectLike() == s.ObjectLike()
      && n.Declared().Keys == s.Declared().Keys
      && n.Required() == (if s.ObjectLike() && requireAll then s.Declared().Keys else s.Required())
      && n.additional == (if s.ObjectLike() then NoAdditional else s.additional)
      && n.items == (if s.ArrayLike() then Items(Normalize(s.items.schema, requireAll)) else s.items)
    ensures forall k | k in s.Declared() :: Normalize(s, requireAll).Declared()[k] == Rewritten(s, requireAll, k)
  {
  }

  lemma {:induction false} NullableTypes(s: Schema, v: Json)
    ensures TypeHolds(Nullable(s).types, Null)
    ensures v != Null ==> (TypeHolds(Nullable(s).types, v) <==> Typed(s) && TypeHolds(s.types, v))
  {
    var n := Nullable(s);
    match s.types {
      case Many(names) =>
        if "null" in names {
          var i :| 0 <= i < |names| && names[i] == "null";
          assert HasType(n.types.names[i], Null);
        } else {
          assert n.types.names[|names|] == "null" && HasType(n.types.names[|names|], Null);
          forall i | 0 <= i < |names| ensures n.types.names[i] == names[i] {}
          assert v != Null ==> !HasType("null", v);
        }
      case One(name) =>
        if name != "" {
          assert n.types.names == [name, "null"] && HasType(n.types.names[1], Null);
          assert HasType(n.types.names[0], v) == HasType(name, v);
        } else {
          assert n.types.names == ["null"] && HasType(n.types.names[0], Null);
        }
      case Untyped => assert n.types.names == ["null"] && HasType(n.types.names[0], Null);
    }
  }

  lemma {:induction false} NullableMeaning(s: Schema, v: Json)
    ensures Valid(Nullable(s), Null)
    ensures v != Null ==> (Valid(Nullable(s), v) <==> Typed(s) && Valid(s, v))
  {
    NullableTypes(s, v);
  }

  lemma {:induction false} StripKeepsType(s: Schema, v: Json, name: string)
    ensures HasType(name, DropNulls(s, v)) == HasType(name, v)
    ensures DropNulls(s, v) == Null <==> v == Null
  {
  }

  lemma {:induction false} StripKeepsTypes(s: Schema, v: Json, types: TypeKeyword)
    ensures TypeHolds(types, DropNulls(s, v)) == TypeHolds(types, v)
  {
    forall name: string { StripKeepsType(s, v, name); }
  }

  /** At every object of `v` that the rewriter reaches, `required` names declared properties only. */
  predicate RequiredDeclaredAt(s: Schema, v: Json)
    decreases s
  {
    && (v.Obj? && s.ObjectLike() ==>
          && s.Required() <= s.Declared().Keys
          && forall k | k in s.Declared() && k in v.fields :: RequiredDeclaredAt(s.Declared()[k], v.fields[k]))
    && (v.Arr? && s.ArrayLike() ==>
          forall i | 0 <= i < |v.elems| :: RequiredDeclaredAt(s.items.schema, v.elems[i]))
  }

  /** What a value the rewritten schema accepts must meet to satisfy the original: the enumerations list it
      once its optional nulls are dropped and, in the all-required mode, no requirement was forgotten. */
  predicate Kept(s: Schema, requireAll: bool, v: Json) {
    EnumsHold(s, DropNulls(s, v)) && (requireAll ==> RequiredDeclaredAt(s, v))
  }

  lemma {:induction false} KeptObject(s: Schema, requireAll: bool, fields: map<string, Json>)
    requires s.ObjectLike()
    ensures var w := DropNulls(s, Obj(fields));
      Kept(s, requireAll, Obj(fields)) <==>
        && EnumHolds(s, w) && (requireAll ==> s.Required() <= s.Declared().Keys)
        && forall k | k in s.Declared() && k in w.fields :: Kept(s.Declared()[k], requireAll, fields[k])
  {
    var w := DropNulls(s, Obj(fields));
    forall k | k in s.Declared() && k in fields && k !in w.fields ensures RequiredDeclaredAt(s.Declared()[k], fields[k]) {}
  }

  /** The object case, given what the declared properties keep. */
  lemma {:induction false} StrippedObjectValid(s: Schema, requireAll: bool, fields: map<string, Json>)
    requires s.ObjectLike() && Valid(Normalize(s, requireAll), Obj(fields))
    requires var w := DropNulls(s, Obj(fields)).fields;
      forall k | k in s.Declared() && k in w ::
        Valid(s.Declared()[k], w[k]) <==> Kept(s.Declared()[k], requireAll, fields[k])
    ensures Valid(s, DropNulls(s, Obj(fields))) <==> Kept(s, requireAll, Obj(fields))
  {
    var w := DropNulls(s, Obj(fields));
    RewrittenObjectMeaning(s, requireAll, fields);
    StripKeepsTypes(s, Obj(fields), s.types);
    KeptObject(s, requireAll, fields);
    assert s.Required() <= w.fields.Keys <==> (requireAll ==> s.Required() <= s.Declared().Keys) by {
      assert forall k | k in s.Required() && k in fields :: k in w.fields;
    }
  }

  /** A value the rewritten schema accepts satisfies the original once its optional nulls are dropped,
      exactly when the enumerations still list it and, in the all-required mode, `required` names declared
      properties only wherever the value has an object. */
  lemma {:induction false} NormalizeIsSound(s: Schema, requireAll: bool, v: Json)
    requires Valid(Normalize(s, requireAll), v)
    ensures Valid(s, DropNulls(s, v)) <==>
      EnumsHold(s, DropNulls(s, v)) && (requireAll ==> RequiredDeclaredAt(s, v))
    decreases s
  {
    var n := Normalize(s, requireAll);
    var w := DropNulls(s, v);
    NormalizedShape(s, requireAll);
    StripKeepsTypes(s, v, s.types);
    match v {
      case Obj(fields) =>
        if s.ObjectLike() {
          forall k | k in s.Declared() && k in w.fields
            ensures Valid(s.Declared()[k], w.fields[k]) <==> Kept(s.Declared()[k], requireAll, fields[k])
          {
            assert Valid(Rewritten(s, requireAll, k), fields[k]);
            RewrittenMeaning(s, requireAll, k, fields[k]);
            NormalizeIsSound(s.Declared()[k], requireAll, fields[k]);
          }
          StrippedObjectValid(s, requireAll, fields);
        } else {
          ValidNotRewritten(s, v);
        }
      case Arr(elems) =>
        if s.ArrayLike() {
          forall i | 0 <= i < |elems|
            ensures Valid(s.items.schema, w.elems[i]) <==> Kept(s.items.schema, requireAll, elems[i])
          {
            NormalizeIsSound(s.items.schema, requireAll, elems[i]);
          }
        }
      case _ =>
    }
  }

  lemma {:induction false} ValidNotRewritten(s: Schema, v: Json)
    requires v.Obj? && !s.ObjectLike()
    ensures DropNulls(s, v) == v
    ensures EnumsHold(s, v) <==> EnumHolds(s, v)
  {
  }

  lemma {:induction false} StableEnumsHold(s: Schema, requireAll: bool, v: Json)
    requires EnumsStable(s)
    requires Valid(Normalize(s, requireAll), v)
    ensures EnumsHold(s, DropNulls(s, v))
    decreases s
  {
    var n := Normalize(s, requireAll);
    NormalizedShape(s, requireAll);
    match v {
      case Obj(fields) =>
        if s.ObjectLike() {
          forall k | k in s.Declared() && k in DropNulls(s, v).fields
            ensures EnumsHold(s.Declared()[k], DropNulls(s, v).fields[k])
          {
            var child := s.Declared()[k];
            assert Valid(n.Declared()[k], fields[k]);
            if k in s.Required() || !MarksOptional(s, requireAll) {
              StableEnumsHold(child, requireAll, fields[k]);
            } else {
              NullableMeaning(Normalize(child, requireAll), fields[k]);
              StableEnumsHold(child, requireAll, fields[k]);
            }
          }
        }
      case Arr(elems) =>
        if s.ArrayLike() {
          forall i | 0 <= i < |elems| ensures EnumsHold(s.items.schema, DropNulls(s, v).elems[i]) {
            StableEnumsHold(s.items.schema, requireAll, elems[i]);
          }
        }
      case _ =>
    }
  }

  /** Main soundness result: with enumerations that dropping nulls does not change, an accepted value
      satisfies the original exactly when no requirement was forgotten; validation mode forgets none. */
  lemma {:induction false} StrictReplySatisfiesOriginal(s: Schema, requireAll: bool, v: Json)
    requires EnumsStable(s)
    requires Valid(Normalize(s, requireAll), v)
    ensures Valid(s, DropNulls(s, v)) <==> (requireAll ==> RequiredDeclaredAt(s, v))
  {
    NormalizeIsSound(s, requireAll, v);
    StableEnumsHold(s, requireAll, v);
  }

  /** A schema whose `required` names declared properties only forgets nothing of any value. */
  lemma {:induction false} RequiredDeclaredEverywhere(s: Schema, v: Json)
    requires RequiredDeclared(s)
    ensures RequiredDeclaredAt(s, v)
    decreases s
  {
    match v {
      case Obj(fields) =>
        forall k | k in s.Declared() && k in fields ensures RequiredDeclaredAt(s.Declared()[k], fields[k]) {
          RequiredDeclaredEverywhere(s.Declared()[k], fields[k]);
        }
      case Arr(elems) =>
        if s.items.Items? {
          forall i | 0 <= i < |elems| ensures RequiredDeclaredAt(s.items.schema, elems[i]) {
            RequiredDeclaredEverywhere(s.items.schema, elems[i]);
          }
        }
      case _ =>
    }
  }

  lemma {:induction false} FillKeepsType(s: Schema, requireAll: bool, v: Json, name: string)
    ensures HasType(name, FillNulls(s, requireAll, v)) == HasType(name, v)
    ensures FillNulls(s, requireAll, v) == Null <==> v == Null
  {
  }

  lemma {:induction false} FillKeepsTypes(s: Schema, requireAll: bool, v: Json, types: TypeKeyword)
    ensures TypeHolds(types, FillNulls(s, requireAll, v)) == TypeHolds(types, v)
  {
    forall name: string { FillKeepsType(s, requireAll, v, name); }
  }

  lemma {:induction false} RewrittenMeaning(s: Schema, requireAll: bool, k: string, v: Json)
    requires k in s.Declared()
    ensures Valid(Rewritten(s, requireAll, k), v) <==>
              if k !in s.Required() && MarksOptional(s, requireAll)
              then v == Null || (Typed(s.Declared()[k]) && Valid(Normalize(s.Declared()[k], requireAll), v))
              else Valid(Normalize(s.Declared()[k], requireAll), v)
  {
    NormalizedShape(s.Declared()[k], requireAll);
    NullableMeaning(Normalize(s.Declared()[k], requireAll), v);
  }

  /** What is asked of the value a present key carries. */
  predicate ExpressibleAt(s: Schema, requireAll: bool, k: string, v: Json)
    requires k in s.Declared()
  {
    if k !in s.Required() && MarksOptional(s, requireAll)
    then v == Null || (Typed(s.Declared()[k]) && Expressible(s.Declared()[k], requireAll, v))
    else Expressible(s.Declared()[k], requireAll, v)
  }

  /** What a rewritten object schema accepts. */
  lemma {:induction false} RewrittenObjectMeaning(s: Schema, requireAll: bool, w: map<string, Json>)
    requires s.ObjectLike()
    ensures Valid(Normalize(s, requireAll), Obj(w)) <==>
      && TypeHolds(s.types, Obj(w)) && EnumHolds(s, Obj(w))
      && (if requireAll then s.Declared().Keys else s.Required()) <= w.Keys <= s.Declared().Keys
      && forall k | k in s.Declared() && k in w :: Valid(Rewritten(s, requireAll, k), w[k])
  {
    NormalizedShape(s, requireAll);
  }

  /** The object case, given what the declared properties accept. */
  lemma {:induction false} FilledObjectAccepted(s: Schema, requireAll: bool, fields: map<string, Json>)
    requires s.ObjectLike() && Valid(s, Obj(fields))
    requires var w := FillNulls(s, requireAll, Obj(fields)).fields;
      forall k | k in s.Declared() && k in w ::
        Valid(Rewritten(s, requireAll, k), w[k]) <==> (k in fields ==> ExpressibleAt(s, requireAll, k, fields[k]))
    ensures Valid(Normalize(s, requireAll), FillNulls(s, requireAll, Obj(fields))) <==> Expressible(s, requireAll, Obj(fields))
  {
    var w := FillNulls(s, requireAll, Obj(fields));
    RewrittenObjectMeaning(s, requireAll, w.fields);
    FillKeepsTypes(s, requireAll, Obj(fields), s.types);
    assert w.fields.Keys <= s.Declared().Keys <==> fields.Keys <= s.Declared().Keys;
  }

  /** A value of the original schema, once filled, is accepted in a mode exactly when it is expressible there. */
  lemma {:induction false} NormalizeAcceptsExactly(s: Schema, requireAll: bool, v: Json)
    requires Valid(s, v)
    ensures Valid(Normalize(s, requireAll), FillNulls(s, requireAll, v)) <==> Expressible(s, requireAll, v)
    decreases s
  {
    var n := Normalize(s, requireAll);
    var w := FillNulls(s, requireAll, v);
    NormalizedShape(s, requireAll);
    FillKeepsTypes(s, requireAll, v, s.types);
    match v {
      case Obj(fields) =>
        if s.ObjectLike() {
          forall k | k in s.Declared() && k in w.fields
            ensures Valid(Rewritten(s, requireAll, k), w.fields[k]) <==>
              (k in fields ==> ExpressibleAt(s, requireAll, k, fields[k]))
          {
            RewrittenMeaning(s, requireAll, k, w.fields[k]);
            if k in fields {
              FillKeepsType(s.Declared()[k], requireAll, fields[k], "");
              NormalizeAcceptsExactly(s.Declared()[k], requireAll, fields[k]);
            }
          }
          FilledObjectAccepted(s, requireAll, fields);
        } else {
          assert n == s && w == v;
        }
      case Arr(elems) =>
        if s.ArrayLike() {
          forall i | 0 <= i < |elems|
            ensures Valid(n.items.schema, w.elems[i]) <==> Expressible(s.items.schema, requireAll, elems[i])
          {
            NormalizeAcceptsExactly(s.items.schema, requireAll, elems[i]);
          }
        }
      case _ =>
    }
  }

  lemma {:induction false} FilledFields(s: Schema, fields: map<string, Json>)
    requires s.ObjectLike() && fields.Keys == s.Declared().Keys
    requires var w := DropNulls(s, Obj(fields)).fields;
      forall k | k in w :: FillNulls(s.Declared()[k], true, w[k]) == fields[k]
    ensures FillNulls(s, true, DropNulls(s, Obj(fields))) == Obj(fields)
  {
    var filled := FillNulls(s, true, DropNulls(s, Obj(fields))).fields;
    assert filled.Keys == fields.Keys;
    forall k | k in fields ensures filled[k] == fields[k] {}
  }

  /** Filling undoes stripping on everything the all-required schema accepts: no information is lost. */
  lemma {:induction false} FillUndoesStrip(s: Schema, v: Json)
    requires Valid(Normalize(s, true), v)
    ensures FillNulls(s, true, DropNulls(s, v)) == v
    decreases s
  {
    var n := Normalize(s, true);
    var w := DropNulls(s, v);
    NormalizedShape(s, true);
    match v {
      case Obj(fields) =>
        if s.ObjectLike() {
          assert fields.Keys == s.Declared().Keys;
          forall k | k in w.fields ensures FillNulls(s.Declared()[k], true, w.fields[k]) == fields[k] {
            assert Valid(n.Declared()[k], fields[k]);
            RewrittenMeaning(s, true, k, fields[k]);
            FillUndoesStrip(s.Declared()[k], fields[k]);
          }
          FilledFields(s, fields);
        }
      case Arr(elems) =>
        if s.ArrayLike() {
          forall i | 0 <= i < |elems| ensures FillNulls(s, true, w).elems[i] == elems[i] {
            FillUndoesStrip(s.items.schema, elems[i]);
          }
          assert FillNulls(s, true, w).elems == elems;
        }
      case _ =>
    }
  }

  /** An optional property without a type accepts null only, whatever the original accepted. */
  lemma {:induction false} UntypedOptionalAcceptsOnlyNull(s: Schema, requireAll: bool, k: string,
                                                          fields: map<string, Json>)
    requires s.ObjectLike() && k in s.Declared() && k in fields
    requires k !in s.Required() && MarksOptional(s, requireAll) && !Typed(s.Declared()[k])
    requires Valid(Normalize(s, requireAll), Obj(fields))
    ensures fields[k] == Null
  {
    NormalizedShape(s, requireAll);
    assert Valid(Normalize(s, requireAll).Declared()[k], fields[k]);
    RewrittenMeaning(s, requireAll, k, fields[k]);
  }

  // ----- why the conditions are there

  function Plain(types: TypeKeyword): Schema {
    Schema(types, NoProperties, None, NoItems, None, AnyAdditional)
  }

  /** An input on which the all-required mode forgets a requirement. */
  lemma {:induction false} UndeclaredRequirementIsLost() returns (s: Schema, v: Json)
    ensures !RequiredDeclaredAt(s, v) && EnumsStable(s)
    ensures Valid(Normalize(s, true), v) && !Valid(s, DropNulls(s, v))
  {
    s := Plain(One("object")).(required := Some({"a"}));
    v := Obj(map[]);
    NormalizedShape(s, true);
    assert "a" in s.Required();
  }

  lemma {:induction false} OptionalNullAccepted(s: Schema, k: string, v: Json)
    requires s.types == One("object") && s.Declared().Keys == {k} && s.Required() == {}
    requires v == Obj(map[k := Null]) && s.enumeration == Some([v])
    ensures Valid(Normalize(s, true), v)
  {
    RewrittenMeaning(s, true, k, Null);
    RewrittenObjectMeaning(s, true, v.fields);
    assert s.enumeration.value[0] == v;
  }

  /** Without `EnumsStable`, dropping a null can leave the enumeration. */
  lemma {:induction false} UnstableEnumIsLeft() returns (s: Schema, v: Json)
    ensures RequiredDeclared(s) && !EnumsStable(s)
    ensures Valid(Normalize(s, true), v) && !Valid(s, DropNulls(s, v))
  {
    v := Obj(map["a" := Null]);
    s := Plain(One("object")).(
      properties := Properties(map["a" := Plain(One("string"))]), enumeration := Some([v]));
    OptionalNullAccepted(s, "a", v);
    assert "a" !in DropNulls(s, v).fields && "a" in v.fields;
    assert s.enumeration.value[0] == v;
  }

  /** Without filling there is nothing to fill. */
  lemma {:induction false} FillNothing(s: Schema, v: Json)
    ensures FillNulls(s, false, v) == v
    decreases s
  {
    match v {
      case Obj(fields) =>
        if s.ObjectLike() {
          var filled := FillNulls(s, false, v).fields;
          forall k | k in fields ensures filled[k] == fields[k] {
            if k in s.Declared() {
              FillNothing(s.Declared()[k], fields[k]);
            }
          }
          assert filled == fields;
        }
      case Arr(elems) =>
        if s.ArrayLike() {
          forall i | 0 <= i < |elems| ensures FillNulls(s, false, v).elems[i] == elems[i] {
            FillNothing(s.items.schema, elems[i]);
          }
          assert FillNulls(s, false, v).elems == elems;
        }
      case _ =>
    }
  }

  /** Of the values the requested schema accepts, the reply check lets by exactly those expressible in
      validation mode; an object schema without properties checks nothing. */
  lemma {:induction false} CheckAcceptsExactly(s: Schema, v: Json)
    requires Valid(s, v)
    ensures ValidationSchema(s).None? <==> s.ObjectLike() && s.Declared() == map[]
    ensures ValidationSchema(s).Some? ==> (Valid(ValidationSchema(s).value, v) <==> Expressible(s, false, v))
  {
    FillNothing(s, v);
    NormalizeAcceptsExactly(s, false, v);
  }

  /** An undeclared key is enough for the check to refuse what the requested schema accepts. */
  lemma {:induction false} ExtraKeyIsRefused() returns (s: Schema, v: Json)
    ensures Valid(s, v) && ValidationSchema(s).Some? && !Valid(ValidationSchema(s).value, v)
  {
    s := Plain(One("object")).(properties := Properties(map["a" := Plain(One("string"))]));
    v := Obj(map["a" := Str("x"), "b" := Str("y")]);
    assert "a" in s.Declared() && "b" in v.fields && "b" !in s.Declared();
    CheckAcceptsExactly(s, v);
  }

  /** The reply check keeps its promise: an accepted reply satisfies the requested schema once stripped,
      unless the schema is an object schema without properties, which is never checked. */
  lemma {:induction false} CheckedReply(s: Schema, v: Json)
    requires EnumsStable(s)
    ensures ValidationSchema(s).None? <==> s.ObjectLike() && s.Declared().Keys == {}
    ensures ValidationSchema(s).Some? && Valid(ValidationSchema(s).value, v) ==> Valid(s, DropNulls(s, v))
  {
    if ValidationSchema(s).Some? && Valid(ValidationSchema(s).value, v) {
      StrictReplySatisfiesOriginal(s, false, v);
    }
  }
}
