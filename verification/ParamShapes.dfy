/** The natural shape of a parameter object: declared members by their own schemas, all others by the
    schema for additional properties. The rebuild applies the latter to declared members as well
    (internal/platform/validator/req_resp_decoder.go), so the shape alone is not enough. */
module ParamShapes {
  import opened Text
  import opened NestedMaps
  import opened ParamObjects
  import opened ParamFlat

  predicate Shaped(schema: Schema, v: Value)
    decreases schema
  {
    match schema
    case TextSchema => v.Str?
    case ArraySchema(items) => v.Arr? && forall i :: 0 <= i < |v.items| ==> Shaped(items, v.items[i])
    case ObjectSchema(properties, additional) =>
      v.Obj? && forall k :: k in v.members ==>
        if k in properties then Shaped(properties[k], v.members[k])
        else additional.Some? && Shaped(additional.value, v.members[k])
  }

  /** Nothing disturbs the rebuild of a shaped value: no property on the way is nameless, and a
      declared member next to a schema for additional properties fits that schema too. */
  ghost predicate Undisturbed(schema: Schema, v: Value)
    requires Shaped(schema, v)
    decreases schema
  {
    match schema
    case TextSchema => true
    case ArraySchema(items) => forall i :: 0 <= i < |v.items| ==> Undisturbed(items, v.items[i])
    case ObjectSchema(properties, additional) =>
      && "" !in properties
      && forall k :: k in v.members ==>
           if k !in properties then Undisturbed(additional.value, v.members[k])
           else if additional.None? then Undisturbed(properties[k], v.members[k])
           else Fits(additional.value, v.members[k]) && Accepts(properties[k], v.members[k])
  }

  lemma {:induction false} ShapedFitsIff(schema: Schema, v: Value)
    requires Shaped(schema, v)
    ensures Fits(schema, v) <==> Undisturbed(schema, v)
    decreases schema
  {
    hide Accepts;
    match schema
    case TextSchema =>
    case ArraySchema(items) =>
      forall i | 0 <= i < |v.items| ensures Fits(items, v.items[i]) <==> Undisturbed(items, v.items[i]) {
        ShapedFitsIff(items, v.items[i]);
      }
    case ObjectSchema(properties, additional) =>
      forall k | k in v.members && (k !in properties || additional.None?)
        ensures var s := if k in properties then properties[k] else additional.value;
                Fits(s, v.members[k]) <==> Undisturbed(s, v.members[k])
      {
        ShapedFitsIff(if k in properties then properties[k] else additional.value, v.members[k]);
      }
  }

  /** The round trip for the natural shape, with its exact condition. */
  lemma ShapedRoundTrip(schema: Schema, m: map<string, Value>)
    requires schema.ObjectSchema? && Flattenable(Obj(m)) && Shaped(schema, Obj(m))
    ensures exists t :: Tells(t, Flatten(Obj(m)))
    ensures ObjectOf(Flatten(Obj(m)), schema) == Made(m) <==> Undisturbed(schema, Obj(m))
  {
    hide Flattenable, Shaped, Flatten, Tells, ObjectOf, Fits, Accepts, Undisturbed;
    ShapedFitsIff(schema, Obj(m));
    ObjectRoundTrip(schema, m);
  }

  /** Nowhere a nameless property, and nowhere declared properties next to a schema for additional
      ones. */
  predicate Separate(schema: Schema) {
    match schema
    case TextSchema => true
    case ArraySchema(items) => Separate(items)
    case ObjectSchema(properties, additional) =>
      && "" !in properties && (additional.None? || properties == map[])
      && (forall k :: k in properties ==> Separate(properties[k])) && (additional.Some? ==> Separate(additional.value))
  }

  /** Under such a schema every value of its shape is undisturbed. */
  lemma {:induction false} SeparateUndisturbed(schema: Schema, v: Value)
    requires Separate(schema) && Shaped(schema, v)
    ensures Undisturbed(schema, v)
    decreases schema
  {
    match schema
    case TextSchema =>
    case ArraySchema(items) =>
      forall i | 0 <= i < |v.items| ensures Undisturbed(items, v.items[i]) {
        SeparateUndisturbed(items, v.items[i]);
      }
    case ObjectSchema(properties, additional) =>
      forall k | k in v.members
        ensures Undisturbed(if k in properties then properties[k] else additional.value, v.members[k])
      {
        SeparateUndisturbed(if k in properties then properties[k] else additional.value, v.members[k]);
      }
  }

  /** Declared properties next to a schema for additional ones, with separate schemas inside: the
      object comes back exactly when no property is nameless and every declared member fits the
      schema for additional properties too. */
  lemma MixedRoundTrip(schema: Schema, m: map<string, Value>)
    requires schema.ObjectSchema? && Flattenable(Obj(m)) && Shaped(schema, Obj(m)) && schema.additional.Some?
    requires Separate(schema.additional.value) && forall k :: k in schema.properties ==> Separate(schema.properties[k])
    ensures exists t :: Tells(t, Flatten(Obj(m)))
    ensures ObjectOf(Flatten(Obj(m)), schema) == Made(m) <==>
            "" !in schema.properties && forall k :: k in m && k in schema.properties ==> Fits(schema.additional.value, m[k])
  {
    hide Flattenable, Flatten, Tells, ObjectOf, Fits, Accepts, Separate;
    ShapedRoundTrip(schema, m);
    forall k | k in m && k !in schema.properties ensures Undisturbed(schema.additional.value, m[k]) {
      hide Shaped, Undisturbed;
      SeparateUndisturbed(schema.additional.value, m[k]);
    }
    forall k | k in m && k in schema.properties ensures Accepts(schema.properties[k], m[k]) {
      hide Shaped, Undisturbed;
      SeparateUndisturbed(schema.properties[k], m[k]);
      ShapedFitsIff(schema.properties[k], m[k]);
      PlainPart(Obj(m), k);
      FitsAccepted(schema.properties[k], m[k]);
    }
  }

  /** What comes back is accepted. */
  lemma FitsAccepted(schema: Schema, v: Value)
    requires Flattenable(v) && Fits(schema, v)
    ensures Accepts(schema, v)
  {
    hide Flattenable, Fits, Accepts, TreeOf;
    var params: Tree := map["v" := TreeOf(v)];
    assert DeepGet(params, ["v"]) == Some(TreeOf(v));
    Rebuilds(params, ["v"], schema, v);
  }

  // ---------------------------------------------------------------- where it fails

  /** Additional properties that are texts refuse every object with an array or an object among its
      members, even one that is declared with a schema that fits it. */
  lemma AdditionalTextRefuses(schema: Schema, m: map<string, Value>, k: string)
    requires schema.ObjectSchema? && schema.additional == Some(TextSchema) && Flattenable(Obj(m)) && k in m && !m[k].Str?
    ensures exists t :: Tells(t, Flatten(Obj(m)))
    ensures ObjectOf(Flatten(Obj(m)), schema) == Rejected
  {
    hide Flattenable, Flatten, Tells, ObjectOf, Fits;
    ObjectRoundTrip(schema, m);
    ObjectParts(m);
    assert !Accepts(TextSchema, Parts(Obj(m))[k]);
  }

  const TAGS: map<string, Value> := map["tags" := Arr([Str("a")])]
  const TAGGED: Schema := ObjectSchema(map["tags" := ArraySchema(TextSchema)], Some(TextSchema))

  /** Such an input: it has the natural shape of its schema and is refused. */
  lemma DeclaredIsRefused()
    ensures Flattenable(Obj(TAGS)) && Shaped(TAGGED, Obj(TAGS)) && exists t :: Tells(t, Flatten(Obj(TAGS)))
    ensures ObjectOf(Flatten(Obj(TAGS)), TAGGED) == Rejected
  {
    hide Flatten, Tells, ObjectOf;
    assert Flattenable(Str("a")) && Flattenable(TAGS["tags"]);
    AdditionalTextRefuses(TAGGED, TAGS, "tags");
  }
}
