/** What the schema-directed rebuild makes of any nested map, said path by path: which paths of the
    result hold a text, an array, an object or nothing, and which mismatch of schema and nested map
    makes it report an error (`buildResObj` in internal/platform/validator/req_resp_decoder.go). */
module ParamPaths {
  import opened Text
  import opened NestedMaps
  import opened ParamObjects
  import opened ParamFlat
  import opened ParamOrders

  /** What is found at a path: nothing, a text or a nested map. */
  type Found = Option<Item<string>>

  function Child(t: Tree, k: string): Found {
    if k in t then Some(t[k]) else None
  }

  /** What a member is built from; a property without a name is built from the whole object. */
  function Part(t: Tree, k: string): Found {
    if k == "" then Some(Sub(t)) else Child(t, k)
  }

  // ---------------------------------------------------------------- the result along a path

  datatype Kind = Text(s: string) | Array(n: nat) | Object | Nothing

  function KindOf(v: Value): Kind {
    match v
    case Nil => Nothing
    case Str(s) => Text(s)
    case Arr(vs) => Array(|vs|)
    case Obj(_) => Object
  }

  /** What stands in a value at a path of member names and array indexes; None where there is no such
      member or index. */
  function KindAt(v: Value, p: seq<string>): Option<Kind>
    decreases |p|
  {
    if p == [] then Some(KindOf(v))
    else match v
      case Arr(vs) => if p[0] in IndexKeys(|vs|) then KindAt(vs[Decimal(p[0])], p[1..]) else None
      case Obj(m) => if p[0] in m then KindAt(m[p[0]], p[1..]) else None
      case _ => None
  }

  // ---------------------------------------------------------------- what is expected

  /** What a schema gives for what was found: an empty text is nothing where a text is asked for, and an
      object schema passes every text on. */
  ghost function Here(schema: Schema, found: Found): Kind {
    match found
    case None => Nothing
    case Some(Leaf(s)) => if schema.TextSchema? && s == "" then Nothing else Text(s)
    case Some(Sub(t)) =>
      if schema.ArraySchema? && SliceLength(t.Keys).Some? then Array(SliceLength(t.Keys).value) else Object
  }

  /** The schema that a member of the result comes from: the one for additional properties wherever it
      gives something, else the declared one; None where neither gives anything. */
  ghost function Chosen(schema: Schema, t: Tree, k: string): Option<Schema>
    requires schema.ObjectSchema?
  {
    if schema.additional.Some? && k in t && Here(schema.additional.value, Part(t, k)) != Nothing then schema.additional
    else if k in schema.properties && Here(schema.properties[k], Part(t, k)) != Nothing then Some(schema.properties[k])
    else None
  }

  /** What the result is expected to hold at a path. */
  ghost function Expected(schema: Schema, found: Found, p: seq<string>): Option<Kind>
    decreases |p|
  {
    if p == [] then Some(Here(schema, found))
    else match found
      case Some(Sub(t)) =>
        (match schema
         case ArraySchema(items) =>
           if SliceLength(t.Keys).Some? && p[0] in IndexKeys(SliceLength(t.Keys).value) then Expected(items, Child(t, p[0]), p[1..]) else None
         case ObjectSchema(_, _) =>
           if Chosen(schema, t, p[0]).Some? then Expected(Chosen(schema, t, p[0]).value, Part(t, p[0]), p[1..]) else None
         case TextSchema => None)
      case _ => None
  }

  /** Schema and nested map do not go together: a map where a text is asked for, a text where an array is
      asked for, or a key of an array that is no integer. */
  ghost predicate Mismatch(schema: Schema, found: Found) {
    match schema
    case TextSchema => found.Some? && found.value.Sub?
    case ArraySchema(_) => found.Some? && (found.value.Leaf? || exists k :: k in found.value.entries && Atoi(k).None?)
    case ObjectSchema(_, _) => false
  }

  /** A path leads to a mismatch, each member under its declared schema and under the one for additional
      properties. */
  ghost predicate Clashes(schema: Schema, found: Found, p: seq<string>)
    decreases |p|
  {
    if p == [] then Mismatch(schema, found)
    else
      && found.Some? && found.value.Sub?
      && var t, k := found.value.entries, p[0];
         match schema
         case ArraySchema(items) =>
           SliceLength(t.Keys).Some? && k in IndexKeys(SliceLength(t.Keys).value) && Clashes(items, Child(t, k), p[1..])
         case ObjectSchema(properties, additional) =>
           || (k in properties && Clashes(properties[k], Part(t, k), p[1..]))
           || (additional.Some? && k in t && Clashes(additional.value, Part(t, k), p[1..]))
         case TextSchema => false
  }

  ghost predicate Mismatched(schema: Schema, found: Found) {
    exists p :: Clashes(schema, found, p)
  }

  // ---------------------------------------------------------------- the rebuild

  /** The rebuild reports an error exactly if some path leads to a mismatch, and else every path of the
      result holds what is expected there. */
  ghost predicate AsExpected(schema: Schema, found: Found, b: Built) {
    && (b.Refused? <==> Mismatched(schema, found))
    && (b.Built? ==> forall p :: KindAt(b.value, p) == Expected(schema, found, p))
  }

  lemma {:induction false} RebuiltAsExpected(params: Tree, keys: seq<string>, schema: Schema)
    ensures AsExpected(schema, DeepGet(params, keys), BuildRes(params, keys, schema))
    decreases schema, 1
  {
    hide DeepGet, SliceLength, IndexKeys, Itoa, AsExpected;
    var found := DeepGet(params, keys);
    if found.Some? && found.value.Sub? {
      var t := found.value.entries;
      match schema
      case TextSchema => MapForText(t);
      case ArraySchema(items) => ArrayAsExpected(params, keys, items, t);
      case ObjectSchema(_, _) => ObjectAsExpected(params, keys, schema, t);
    } else {
      NoMapAsExpected(schema, found, BuildRes(params, keys, schema));
    }
  }

  lemma MapForText(t: Tree)
    ensures AsExpected(TextSchema, Some(Sub(t)), Refused)
  {
    assert Clashes(TextSchema, Some(Sub(t)), []);
  }

  /** Where there is no map the value is nothing, a text, or an error for an array. */
  lemma NoMapAsExpected(schema: Schema, found: Found, b: Built)
    requires found.None? || found.value.Leaf?
    requires b == match found
                  case None => Built(Nil)
                  case Some(Leaf(s)) =>
                    (match schema
                     case TextSchema => Built(if s == "" then Nil else Str(s))
                     case ArraySchema(_) => Refused
                     case ObjectSchema(_, _) => Built(Str(s)))
                  case Some(Sub(_)) => Refused
    ensures AsExpected(schema, found, b)
  {
    if b.Refused? {
      assert Clashes(schema, found, []);
    }
  }

  // ---------------------------------------------------------------- arrays

  lemma {:induction false} ArrayAsExpected(params: Tree, keys: seq<string>, items: Schema, t: Tree)
    requires DeepGet(params, keys) == Some(Sub(t))
    ensures AsExpected(ArraySchema(items), Some(Sub(t)), BuildRes(params, keys, ArraySchema(items)))
    decreases items, 2
  {
    hide DeepGet, SliceLength, IndexKeys, Itoa, AsExpected;
    var schema := ArraySchema(items);
    if SliceLength(t.Keys).None? {
      NotIndexed(items, t);
    } else {
      var n := SliceLength(t.Keys).value;
      var built := seq(n, i requires 0 <= i < n => BuildRes(params, keys + [Itoa(i)], items));
      forall i | 0 <= i < n ensures AsExpected(items, Child(t, Itoa(i)), built[i]) {
        GetSnoc(params, keys, Itoa(i));
        RebuiltAsExpected(params, keys + [Itoa(i)], items);
      }
      BuildArray(params, keys, items, built);
      hide BuildRes;
      TogetherAsExpected(items, t, built);
    }
  }

  lemma NotIndexed(items: Schema, t: Tree)
    requires SliceLength(t.Keys).None?
    ensures AsExpected(ArraySchema(items), Some(Sub(t)), Refused)
  {
    hide Atoi;
    assert exists k :: k in t && Atoi(k).None?;
    assert Clashes(ArraySchema(items), Some(Sub(t)), []);
  }

  lemma IndexKey(n: nat, k: string) returns (i: nat)
    requires k in IndexKeys(n)
    ensures i < n && k == Itoa(i) && AllDigits(k) && Decimal(k) == i
  {
    i := Decimal(k);
  }

  lemma {:induction false} TogetherAsExpected(items: Schema, t: Tree, built: seq<Built>)
    requires SliceLength(t.Keys) == Some(|built|)
    requires forall i :: 0 <= i < |built| ==> AsExpected(items, Child(t, Itoa(i)), built[i])
    ensures AsExpected(ArraySchema(items), Some(Sub(t)), Together(built))
  {
    hide SliceLength, IndexKeys, Itoa, AsExpected;
    var schema, found, b, n := ArraySchema(items), Some(Sub(t)), Together(built), |built|;
    AllIndexes(t, n);
    if b.Refused? {
      var i :| 0 <= i < n && built[i].Refused?;
      ItemClashes(items, t, n, i, built[i]);
    } else {
      forall p ensures !Clashes(schema, found, p) && KindAt(b.value, p) == Expected(schema, found, p) {
        if p != [] && p[0] in IndexKeys(n) {
          var i := IndexKey(n, p[0]);
          ItemExpected(items, t, i, built[i], p[1..]);
          assert b.value.items[i] == ValueOf(built[i]);
        }
      }
      NoClash(schema, found, b);
    }
  }

  lemma NoClash(schema: Schema, found: Found, b: Built)
    requires b.Built? && forall p :: !Clashes(schema, found, p) && KindAt(b.value, p) == Expected(schema, found, p)
    ensures AsExpected(schema, found, b)
  {}

  /** All keys of a map with a length are integers. */
  lemma AllIndexes(t: Tree, n: nat)
    requires SliceLength(t.Keys) == Some(n)
    ensures forall k :: k in t ==> Atoi(k).Some?
  {
    hide Atoi;
  }

  lemma ItemClashes(items: Schema, t: Tree, n: nat, i: nat, b: Built)
    requires SliceLength(t.Keys) == Some(n) && i < n && b.Refused? && AsExpected(items, Child(t, Itoa(i)), b)
    ensures AsExpected(ArraySchema(items), Some(Sub(t)), Refused)
  {
    hide SliceLength, Itoa, IndexKeys;
    var p :| Clashes(items, Child(t, Itoa(i)), p);
    assert Itoa(i) in IndexKeys(n) by { IndexThere(n, i); }
    assert ([Itoa(i)] + p)[1..] == p;
    assert Clashes(ArraySchema(items), Some(Sub(t)), [Itoa(i)] + p);
  }

  lemma IndexThere(n: nat, i: nat)
    requires i < n
    ensures Itoa(i) in IndexKeys(n)
  {}

  lemma ItemExpected(items: Schema, t: Tree, i: nat, b: Built, p: seq<string>)
    requires b.Built? && AsExpected(items, Child(t, Itoa(i)), b)
    ensures KindAt(b.value, p) == Expected(items, Child(t, Itoa(i)), p) && !Clashes(items, Child(t, Itoa(i)), p)
  {}

  // ---------------------------------------------------------------- objects

  lemma {:induction false} ObjectAsExpected(params: Tree, keys: seq<string>, schema: Schema, t: Tree)
    requires schema.ObjectSchema? && DeepGet(params, keys) == Some(Sub(t))
    ensures AsExpected(schema, Some(Sub(t)), BuildRes(params, keys, schema))
    decreases schema, 0
  {
    hide DeepGet, SliceLength, IndexKeys, Itoa, AsExpected, AnyRefused, Kept;
    var ps := schema.properties;
    var declared := map k | k in ps :: BuildRes(params, Extend(keys, k), ps[k]);
    var extra := if schema.additional.None? then map[] else map k | k in t :: BuildRes(params, Extend(keys, k), schema.additional.value);
    assert BuildRes(params, keys, schema) == Assemble(declared, extra);
    forall k | k in ps ensures AsExpected(ps[k], Part(t, k), declared[k]) {
      PartFound(params, keys, t, k);
      RebuiltAsExpected(params, Extend(keys, k), ps[k]);
    }
    forall k | k in extra ensures AsExpected(schema.additional.value, Part(t, k), extra[k]) {
      PartFound(params, keys, t, k);
      RebuiltAsExpected(params, Extend(keys, k), schema.additional.value);
    }
    hide BuildRes;
    AssembledAsExpected(schema, t, declared, extra);
  }

  lemma PartFound(params: Tree, keys: seq<string>, t: Tree, k: string)
    requires DeepGet(params, keys) == Some(Sub(t))
    ensures DeepGet(params, Extend(keys, k)) == Part(t, k)
  {
    hide DeepGet;
    if k != "" {
      GetSnoc(params, keys, k);
    }
  }

  /** The results that an object is assembled of. */
  ghost predicate Results(schema: Schema, t: Tree, declared: map<string, Built>, extra: map<string, Built>)
    requires schema.ObjectSchema?
  {
    && declared.Keys == schema.properties.Keys
    && extra.Keys == (if schema.additional.Some? then t.Keys else {})
    && (forall k :: k in declared ==> AsExpected(schema.properties[k], Part(t, k), declared[k]))
    && (forall k :: k in extra ==> AsExpected(schema.additional.value, Part(t, k), extra[k]))
  }

  lemma {:induction false} AssembledAsExpected(schema: Schema, t: Tree, declared: map<string, Built>, extra: map<string, Built>)
    requires schema.ObjectSchema? && Results(schema, t, declared, extra)
    ensures AsExpected(schema, Some(Sub(t)), Assemble(declared, extra))
  {
    hide AsExpected, Kept;
    var found, b := Some(Sub(t)), Assemble(declared, extra);
    if AnyRefused(declared) {
      var k :| k in declared && declared[k].Refused?;
      DeclaredClashes(schema, t, k, declared[k]);
    } else if AnyRefused(extra) {
      var k :| k in extra && extra[k].Refused?;
      ExtraClashes(schema, t, k, extra[k]);
    } else {
      var m := Kept(declared) + Kept(extra);
      forall p ensures !Clashes(schema, found, p) && KindAt(b.value, p) == Expected(schema, found, p) {
        if p != [] {
          MemberExpected(schema, t, declared, extra, p);
        }
      }
      NoClash(schema, found, b);
    }
  }

  lemma DeclaredClashes(schema: Schema, t: Tree, k: string, b: Built)
    requires schema.ObjectSchema? && k in schema.properties && b.Refused? && AsExpected(schema.properties[k], Part(t, k), b)
    ensures AsExpected(schema, Some(Sub(t)), Refused)
  {
    var p :| Clashes(schema.properties[k], Part(t, k), p);
    assert ([k] + p)[1..] == p;
    assert Clashes(schema, Some(Sub(t)), [k] + p);
  }

  lemma ExtraClashes(schema: Schema, t: Tree, k: string, b: Built)
    requires schema.ObjectSchema? && schema.additional.Some? && k in t && b.Refused? && AsExpected(schema.additional.value, Part(t, k), b)
    ensures AsExpected(schema, Some(Sub(t)), Refused)
  {
    var p :| Clashes(schema.additional.value, Part(t, k), p);
    assert ([k] + p)[1..] == p;
    assert Clashes(schema, Some(Sub(t)), [k] + p);
  }

  /** A part that was built holds what is expected, and is nothing exactly where nothing is expected. */
  lemma PartExpected(schema: Schema, found: Found, b: Built, p: seq<string>)
    requires b.Built? && AsExpected(schema, found, b)
    ensures KindAt(b.value, p) == Expected(schema, found, p) && !Clashes(schema, found, p)
    ensures b.value == Nil <==> Here(schema, found) == Nothing
  {
    assert KindAt(b.value, []) == Expected(schema, found, []);
  }

  lemma {:induction false} MemberExpected(schema: Schema, t: Tree, declared: map<string, Built>, extra: map<string, Built>, p: seq<string>)
    requires schema.ObjectSchema? && Results(schema, t, declared, extra) && !AnyRefused(declared) && !AnyRefused(extra) && p != []
    ensures !Clashes(schema, Some(Sub(t)), p)
    ensures KindAt(Obj(Kept(declared) + Kept(extra)), p) == Expected(schema, Some(Sub(t)), p)
  {
    hide AsExpected, Here;
    var k, q := p[0], p[1..];
    if k in declared {
      PartExpected(schema.properties[k], Part(t, k), declared[k], q);
    }
    if k in extra {
      PartExpected(schema.additional.value, Part(t, k), extra[k], q);
    }
  }

  // ---------------------------------------------------------------- objects from properties

  /** What `makeObject` comes to for properties that a nested map tells, empty texts included: it is refused
      exactly if a value contains the delimiter or some path leads to a mismatch, and else every path of
      the object holds what is expected there. */
  lemma ObjectPaths(t: Tree, props: map<string, string>, schema: Schema)
    requires schema.ObjectSchema? && Tells(t, props)
    ensures ObjectOf(props, schema) == Rejected <==> (exists kk :: kk in props && '\U{1F}' in props[kk]) || Mismatched(schema, Some(Sub(t)))
    ensures ObjectOf(props, schema).Made? ==>
              forall p :: KindAt(Obj(ObjectOf(props, schema).members), p) == Expected(schema, Some(Sub(t)), p)
    ensures ObjectOf(props, schema) != Panicked
  {
    hide Tells, PlainValues, BuildRes, Mismatched, KindAt, Expected;
    ObjectOfIs(t, props, schema);
    PlainIff(props);
    assert DeepGet(t, []) == Some(Sub(t));
    RebuiltAsExpected(t, [], schema);
    ObjectIsObject(t, schema);
  }

  lemma PlainIff(props: map<string, string>)
    ensures PlainValues(props) <==> forall kk :: kk in props ==> '\U{1F}' !in props[kk]
  {
    forall kk | kk in props ensures Index(props[kk], DELIMITER) < 0 <==> '\U{1F}' !in props[kk] {
      var s := props[kk];
      assert forall i :: 0 <= i < |s| && s[i] == '\U{1F}' ==> s[i..i + 1] == DELIMITER && OccursAt(s, DELIMITER, i);
      assert forall i :: OccursAt(s, DELIMITER, i) ==> s[i] == s[i..i + 1][0];
    }
  }

  const TWO_TEXTS: Schema := ObjectSchema(map["a" := TextSchema, "b" := TextSchema], None)

  /** A text that was given empty is left out. */
  lemma EmptyTextLeftOut()
    ensures var props := map["a" := "", "b" := "2"];
            && (exists t :: Tells(t, props))
            && ObjectOf(props, TWO_TEXTS) == Made(map["b" := Str("2")])
  {
    hide Tells, Mismatched, Expected, PlainValues, ObjectOf;
    var props := map["a" := "", "b" := "2"];
    var t: Tree := map["a" := Leaf(""), "b" := Leaf("2")];
    TwoTell(t, props);
    ObjectPaths(t, props, TWO_TEXTS);
    TwoPaths(t);
    var made := ObjectOf(props, TWO_TEXTS);
    OnlyB(made.members);
  }

  lemma TwoTell(t: Tree, props: map<string, string>)
    requires props == map["a" := "", "b" := "2"] && t == map["a" := Leaf(""), "b" := Leaf("2")]
    ensures Tells(t, props) && PlainValues(props)
  {
    hide Split, Index;
    NotSplit("a");
    NotSplit("b");
    NoDelimiter("");
    NoDelimiter("2");
    forall p | At(t, p).Some? ensures p == ["a"] || p == ["b"] {
      assert p == [p[0]];
    }
  }

  lemma {:induction false} TwoPaths(t: Tree)
    requires t == map["a" := Leaf(""), "b" := Leaf("2")]
    ensures !Mismatched(TWO_TEXTS, Some(Sub(t)))
    ensures forall p :: Expected(TWO_TEXTS, Some(Sub(t)), p) ==
                        if p == [] then Some(Object) else if p == ["b"] then Some(Text("2")) else None
  {
    forall p ensures !Clashes(TWO_TEXTS, Some(Sub(t)), p) {
      if p != [] && |p| > 1 {
        assert p[1..] != [];
      }
    }
    forall p ensures Expected(TWO_TEXTS, Some(Sub(t)), p) ==
                     if p == [] then Some(Object) else if p == ["b"] then Some(Text("2")) else None
    {
      if p != [] {
        assert Chosen(TWO_TEXTS, t, p[0]) == if p[0] == "b" then Some(TextSchema) else None;
        assert p == [p[0]] + p[1..];
        assert p[1..] == [] ==> p == [p[0]];
      }
    }
  }

  lemma {:induction false} OnlyB(m: map<string, Value>)
    requires forall p :: KindAt(Obj(m), p) == if p == [] then Some(Object) else if p == ["b"] then Some(Text("2")) else None
    ensures m == map["b" := Str("2")]
  {
    forall k | k in m ensures k == "b" && m[k] == Str("2") {
      assert [k][1..] == [];
      assert KindAt(Obj(m), [k]) == Some(KindOf(m[k]));
    }
    assert "b" in m by {
      assert ["b"][1..] == [] && KindAt(Obj(m), ["b"]) == Some(Text("2"));
    }
  }
}
