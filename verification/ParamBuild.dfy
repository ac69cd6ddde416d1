/** `sliceMapToSlice`, `buildResObj` and `makeObject` as the source runs them: over maps on the
    heap, with loops that take map entries in no particular order. */
module ParamBuild {
  import opened Text
  import opened NestedMaps
  import opened NestedDicts
  import opened ParamObjects
  import opened ParamFlat
  import opened ParamOrders

  type Dictionary = Dict<string>

  /** `sliceMapToSlice`: the entries by index, with gaps; None where a key is no index. */
  method SliceMapToSlice(m: Dictionary) returns (r: Option<seq<Option<Cell<string>>>>)
    ensures r.None? <==> SliceLength(m.cells.Keys).None?
    ensures r.Some? ==> SliceLength(m.cells.Keys) == Some(|r.value|)
    ensures r.Some? ==> forall i :: 0 <= i < |r.value| ==>
              r.value[i] == if Itoa(i) in m.cells then Some(m.cells[Itoa(i)]) else None
  {
    hide Itoa, Atoi, SliceLength;
    var keys: seq<int> := [];
    var todo := m.cells.Keys;
    while todo != {}
      invariant todo <= m.cells.Keys
      invariant forall k :: k in m.cells && k !in todo ==> Atoi(k).Some? && Atoi(k).value in keys
      invariant forall n :: n in keys ==> exists k :: k in m.cells && Atoi(k) == Some(n)
    {
      var k :| k in todo;
      todo := todo - {k};
      var key := Atoi(k);
      if key.None? {
        NoLength(m.cells.Keys, k);
        return None;
      }
      keys := keys + [key.value];
    }
    var max := -1;
    for i := 0 to |keys|
      invariant max >= -1 && (forall j :: 0 <= j < i ==> keys[j] <= max) && (max == -1 || max in keys)
    {
      if keys[i] > max {
        max := keys[i];
      }
    }
    SliceLengthIs(m.cells.Keys, max);
    var result: seq<Option<Cell<string>>> := [];
    for i := 0 to max + 1
      invariant |result| == i
      invariant forall j :: 0 <= j < i ==> result[j] == if Itoa(j) in m.cells then Some(m.cells[Itoa(j)]) else None
    {
      if Itoa(i) !in m.cells {
        result := result + [None];
      } else {
        result := result + [Some(m.cells[Itoa(i)])];
      }
    }
    return Some(result);
  }

  lemma NoLength(keys: set<string>, k: string)
    requires k in keys && Atoi(k).None?
    ensures SliceLength(keys).None?
  {}

  /** `buildResObj`: only its recursion is on the schema; the parameters are read by key path. */
  method BuildResObj(params: Dictionary, ghost all: set<Dictionary>, parentKeys: seq<string>, key: string, schema: Schema)
      returns (r: Built)
    requires AllWhole(all) && params in all
    ensures r == BuildRes(params.model, Extend(parentKeys, key), schema)
    decreases schema, 1
  {
    hide AllWhole, DeepGet, SliceLength, Itoa, Assemble;
    var mapKeys := if key != "" then parentKeys + [key] else parentKeys;
    var found := GetDeep(params, mapKeys, all);
    match schema {
      case TextSchema =>
        if found.None? {
          return Built(Nil);
        }
        if found.value.Nested? {
          return Refused;
        }
        return Built(if found.value.text == "" then Nil else Str(found.value.text));
      case ArraySchema(items) =>
        if found.None? {
          return Built(Nil);
        }
        if found.value.Plain? {
          return Refused;
        }
        r := BuildItems(params, all, mapKeys, found.value.dict, items);
      case ObjectSchema(properties, additional) =>
        if found.None? {
          return Built(Nil);
        }
        if found.value.Plain? {
          return Built(Str(found.value.text));
        }
        r := BuildMembers(params, all, mapKeys, found.value.dict, schema);
    }
  }

  lemma KeysOf(d: Dictionary, all: set<Dictionary>)
    requires AllWhole(all) && d in all
    ensures d.cells.Keys == d.model.Keys
  {}

  /** The array case. */
  method BuildItems(params: Dictionary, ghost all: set<Dictionary>, keys: seq<string>, found: Dictionary, items: Schema) returns (r: Built)
    requires AllWhole(all) && params in all && found in all && DeepGet(params.model, keys) == Some(Sub(found.model))
    ensures r == BuildRes(params.model, keys, ArraySchema(items))
    decreases items, 3
  {
    hide AllWhole, DeepGet, SliceLength, Itoa, BuildRes;
    KeysOf(found, all);
    var arr := SliceMapToSlice(found);
    if arr.None? {
      ArrayRefused(params.model, keys, items);
      return Refused;
    }
    var n := |arr.value|;
    var result: seq<Value> := [];
    for i := 0 to n
      invariant |result| == i
      invariant forall j :: 0 <= j < i ==> BuildRes(params.model, keys + [Itoa(j)], items) == Built(result[j])
    {
      var one := BuildResObj(params, all, keys, Itoa(i), items);
      if one.Refused? {
        ItemRefused(params.model, keys, items, i);
        return Refused;
      }
      result := result + [one.value];
    }
    ItemsBuilt(params.model, keys, items, result);
    return Built(Arr(result));
  }

  lemma ItemsBuilt(params: Tree, keys: seq<string>, items: Schema, vs: seq<Value>)
    requires DeepGet(params, keys).Some? && DeepGet(params, keys).value.Sub?
    requires SliceLength(DeepGet(params, keys).value.entries.Keys) == Some(|vs|)
    requires forall i :: 0 <= i < |vs| ==> BuildRes(params, keys + [Itoa(i)], items) == Built(vs[i])
    ensures BuildRes(params, keys, ArraySchema(items)) == Built(Arr(vs))
  {
    hide DeepGet, SliceLength, Itoa, BuildRes;
    var built := seq(|vs|, i requires 0 <= i < |vs| => Built(vs[i]));
    BuildArray(params, keys, items, built);
    assert Together(built).value.items == vs;
  }

  lemma ArrayRefused(params: Tree, keys: seq<string>, items: Schema)
    requires DeepGet(params, keys).Some? && DeepGet(params, keys).value.Sub?
    requires SliceLength(DeepGet(params, keys).value.entries.Keys).None?
    ensures BuildRes(params, keys, ArraySchema(items)) == Refused
  {
    hide DeepGet, SliceLength;
  }

  lemma ItemRefused(params: Tree, keys: seq<string>, items: Schema, i: nat)
    requires DeepGet(params, keys).Some? && DeepGet(params, keys).value.Sub?
    requires var n := SliceLength(DeepGet(params, keys).value.entries.Keys); n.Some? && i < n.value
    requires BuildRes(params, keys + [Itoa(i)], items).Refused?
    ensures BuildRes(params, keys, ArraySchema(items)) == Refused
  {
    hide DeepGet, SliceLength, Itoa;
  }

  ghost function Declared(params: Tree, keys: seq<string>, schema: Schema): map<string, Built>
    requires schema.ObjectSchema?
  {
    map k | k in schema.properties :: BuildRes(params, Extend(keys, k), schema.properties[k])
  }

  ghost function Extra(params: Tree, keys: seq<string>, schema: Schema, names: set<string>): map<string, Built>
    requires schema.ObjectSchema?
  {
    if schema.additional.None? then map[] else map k | k in names :: BuildRes(params, Extend(keys, k), schema.additional.value)
  }

  lemma BuildIsAssemble(params: Tree, keys: seq<string>, schema: Schema)
    requires schema.ObjectSchema? && DeepGet(params, keys).Some? && DeepGet(params, keys).value.Sub?
    ensures BuildRes(params, keys, schema) ==
            Assemble(Declared(params, keys, schema), Extra(params, keys, schema, DeepGet(params, keys).value.entries.Keys))
  {
    hide DeepGet, Extend, Assemble;
    var t := DeepGet(params, keys).value.entries;
    if schema.additional.Some? {
      assert Extra(params, keys, schema, t.Keys) == map k | k in t :: BuildRes(params, Extend(keys, k), schema.additional.value);
    }
  }

  lemma KeptMore(rs: map<string, Built>, k: string, b: Built)
    requires k !in rs
    ensures Kept(rs[k := b]) == if ValueOf(b) == Nil then Kept(rs) else Kept(rs)[k := ValueOf(b)]
  {}

  /** The object case: the declared properties, then the additional ones. */
  method BuildMembers(params: Dictionary, ghost all: set<Dictionary>, keys: seq<string>, found: Dictionary, schema: Schema) returns (r: Built)
    requires AllWhole(all) && params in all && found in all && DeepGet(params.model, keys) == Some(Sub(found.model))
    requires schema.ObjectSchema?
    ensures r == BuildRes(params.model, keys, schema)
    decreases schema, 0
  {
    hide AllWhole, DeepGet, Extend, BuildRes, Kept;
    KeysOf(found, all);
    BuildIsAssemble(params.model, keys, schema);
    var resultMap: map<string, Value> := map[];
    ghost var declared: map<string, Built> := map[];
    KeptNone();
    var todo := schema.properties.Keys;
    while todo != {}
      invariant todo <= schema.properties.Keys && declared.Keys == schema.properties.Keys - todo
      invariant forall k :: k in declared ==> declared[k].Built? && declared[k] == Declared(params.model, keys, schema)[k]
      invariant resultMap == Kept(declared)
    {
      var k :| k in todo;
      todo := todo - {k};
      var one := BuildResObj(params, all, keys, k, schema.properties[k]);
      if one.Refused? {
        assert Declared(params.model, keys, schema)[k].Refused?;
        return Refused;
      }
      KeptMore(declared, k, one);
      declared := declared[k := one];
      if one.value != Nil {
        resultMap := resultMap[k := one.value];
      }
    }
    assert declared == Declared(params.model, keys, schema);
    if schema.additional.None? {
      assert Kept(declared) + Kept(map[]) == resultMap;
      return Built(Obj(resultMap));
    }
    r := BuildAdditional(params, all, keys, found, schema, resultMap, declared);
  }

  lemma KeptNone()
    ensures Kept(map[]) == map[]
  {}

  method BuildAdditional(params: Dictionary, ghost all: set<Dictionary>, keys: seq<string>, found: Dictionary, schema: Schema,
                         named: map<string, Value>, ghost declared: map<string, Built>) returns (r: Built)
    requires AllWhole(all) && params in all && found in all && schema.ObjectSchema? && schema.additional.Some?
    requires named == Kept(declared) && !AnyRefused(declared)
    ensures r == Assemble(declared, Extra(params.model, keys, schema, found.cells.Keys))
    decreases schema.additional.value, 2
  {
    hide AllWhole, DeepGet, Extend, BuildRes, Kept;
    KeptNone();
    var resultMap := named;
    ghost var extra: map<string, Built> := map[];
    var todo := found.cells.Keys;
    while todo != {}
      invariant todo <= found.cells.Keys && extra.Keys == found.cells.Keys - todo
      invariant forall k :: k in extra ==> extra[k].Built? && extra[k] == Extra(params.model, keys, schema, found.cells.Keys)[k]
      invariant resultMap == named + Kept(extra)
    {
      var k :| k in todo;
      todo := todo - {k};
      var one := BuildResObj(params, all, keys, k, schema.additional.value);
      if one.Refused? {
        assert Extra(params.model, keys, schema, found.cells.Keys)[k].Refused?;
        return Refused;
      }
      KeptMore(extra, k, one);
      extra := extra[k := one];
      if one.value != Nil {
        resultMap := resultMap[k := one.value];
      }
    }
    assert extra == Extra(params.model, keys, schema, found.cells.Keys);
    return Built(Obj(resultMap));
  }

  // ---------------------------------------------------------------- makeObject

  /** `makeObject`: it comes to what some order of the properties comes to, and for properties that
      some nested map tells that is the object the map stands for. */
  method MakeObject(props: map<string, string>, schema: Schema) returns (r: Made)
    ensures Makes(props, schema, r)
    ensures (exists t :: Tells(t, props)) ==> r == ObjectOf(props, schema)
  {
    r := MakeInSomeOrder(props, schema);
    if exists t :: Tells(t, props) {
      MakesIs(props, schema, r);
    }
  }

  method MakeInSomeOrder(props: map<string, string>, schema: Schema) returns (r: Made)
    ensures Makes(props, schema, r)
  {
    hide AllWhole, SetAll, Lists, PathOf, Split, Join, PlainText, BuildRes, Blocked, DeepSet, MakeIn, MakesIn;
    var mobj := new Dict();
    ghost var all := {mobj};
    NewIsWhole(mobj);
    ghost var sets: seq<(seq<string>, string)> := [];
    var todo := props.Keys;
    ListsNothing(props);
    while todo != {}
      invariant todo <= props.Keys && fresh(all) && mobj in all && AllWhole(all) && mobj.parent == null
      invariant Lists(sets, props, props.Keys - todo) && NonEmptyPaths(sets) && PlainTexts(sets)
      invariant SetAll(map[], sets) == Some(mobj.model)
    {
      var kk :| kk in todo;
      var keys := Split(kk, DELIMITER);
      if !PlainText(props[kk]) {
        StopsHere(sets, props, todo, kk, schema, mobj.model);
        return Rejected;
      }
      ghost var was := mobj.model;
      ghost var more := sets + [PathOf(props, kk)];
      ListsMore(sets, props, props.Keys - todo, kk);
      SetOneMore(sets, props, kk, was);
      var ok;
      ok, all := SetDeep(mobj, keys, props[kk], all);
      if !ok {
        StopsHere(sets, props, todo, kk, schema, was);
        return Panicked;
      }
      assert props.Keys - todo + {kk} == props.Keys - (todo - {kk});
      sets, todo := more, todo - {kk};
    }
    assert props.Keys - todo == props.Keys;
    var built := BuildResObj(mobj, all, [], "", schema);
    AllTaken(sets, props, schema);
    if built.Built? && built.value.Obj? {
      return Made(built.value.members);
    }
    return Rejected;
  }

  lemma NewIsWhole(d: Dictionary)
    requires d.cells == map[] && d.model == map[] && d.parent == null
    ensures AllWhole({d})
  {}

  lemma ListsNothing(props: map<string, string>)
    ensures Lists([], props, props.Keys - props.Keys) && SetAll<string>(map[], []) == Some(map[]) && PlainTexts([])
  {}

  lemma SetOneMore(sets: seq<(seq<string>, string)>, props: map<string, string>, kk: string, m: Tree)
    requires kk in props && NonEmptyPaths(sets) && PlainTexts(sets) && SetAll(map[], sets) == Some(m)
    ensures var more := sets + [PathOf(props, kk)];
            && NonEmptyPaths(more) && (PlainText(props[kk]) ==> PlainTexts(more))
            && SetAll(map[], more) == if Blocked(m, Split(kk, DELIMITER)) then None else Some(DeepSet(m, Split(kk, DELIMITER), props[kk]))
  {
    hide Split, Blocked, DeepSet, PlainText;
    var x := PathOf(props, kk);
    SetAllConcat(map[], sets, [x]);
    assert [x][1..] == [];
    assert SetAll(m, [x]) == if Blocked(m, x.0) then None else SetAll(DeepSet(m, x.0, x.1), []);
  }

  /** The loop ends at this property, refused or panicking, whatever would come after it. */
  lemma StopsHere(sets: seq<(seq<string>, string)>, props: map<string, string>, todo: set<string>, kk: string, schema: Schema, m: Tree)
    requires kk in todo && todo <= props.Keys && Lists(sets, props, props.Keys - todo)
    requires NonEmptyPaths(sets) && PlainTexts(sets) && SetAll(map[], sets) == Some(m)
    ensures !PlainText(props[kk]) ==> Makes(props, schema, Rejected)
    ensures PlainText(props[kk]) && Blocked(m, Split(kk, DELIMITER)) ==> Makes(props, schema, Panicked)
  {
    hide Lists, Split, Blocked, DeepSet, PlainText, SetAll, BuildRes;
    var x := PathOf(props, kk);
    ListsMore(sets, props, props.Keys - todo, kk);
    assert props.Keys - todo + {kk} + (todo - {kk}) == props.Keys;
    var more := Complete(sets + [x], props, props.Keys - todo + {kk}, todo - {kk});
    ListsPaths(sets + [x] + more, props, props.Keys);
    var rest := [x] + more;
    assert sets + [x] + more == sets + rest;
    assert NonEmptyPaths(rest) by { assert forall i :: 0 <= i < |rest| ==> rest[i] == (sets + rest)[|sets| + i]; }
    MakeInConcat(map[], sets, rest, schema);
    assert MakesIn(sets + rest, props, schema, MakeIn(m, rest, schema));
    assert rest[0] == x;
  }

  lemma AllTaken(sets: seq<(seq<string>, string)>, props: map<string, string>, schema: Schema)
    requires Lists(sets, props, props.Keys) && NonEmptyPaths(sets) && PlainTexts(sets) && SetAll(map[], sets).Some?
    ensures Makes(props, schema, Finish(BuildRes(SetAll(map[], sets).value, [], schema)))
  {
    hide Lists, SetAll, BuildRes, PlainTexts, MakeIn;
    MakeInRuns(map[], sets, schema);
    assert MakesIn(sets, props, schema, MakeIn(map[], sets, schema));
  }

  /** Some nested map tells the properties exactly when no key path is a proper prefix of another. */
  lemma TellsIff(props: map<string, string>)
    ensures (exists t :: Tells(t, props)) <==> PrefixFreeProps(props)
  {
    hide Tells, Lists, PrefixFreeProps, Spells, Paths, PrefixFree, SetAll;
    if t :| Tells(t, props) {
      TellsPrefixFree(t, props);
    }
    if PrefixFreeProps(props) {
      NoneListed(props);
      assert {} + props.Keys == props.Keys;
      var sets := Complete([], props, {}, props.Keys);
      assert [] + sets == sets;
      ListsPrefixFree(sets, props, props.Keys);
      ListsPaths(sets, props, props.Keys);
      SetAllSpells(sets);
      ListsTells(sets, props, SetAll(map[], sets).value);
    }
  }
}
