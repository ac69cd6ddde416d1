/** `makeObject` takes the properties in the order in which a map is iterated, which is not fixed: what
    it can come to, and when it can crash. */
module ParamOrders {
  import opened Text
  import opened NestedMaps
  import opened ParamObjects
  import opened ParamFlat

  type Settings = seq<(seq<string>, string)>

  predicate NonEmptyPaths(sets: Settings) {
    forall i :: 0 <= i < |sets| ==> sets[i].0 != []
  }

  /** The value does not contain the delimiter. */
  predicate PlainText(s: string) {
    Index(s, DELIMITER) < 0
  }

  predicate PlainTexts(sets: Settings) {
    forall i :: 0 <= i < |sets| ==> PlainText(sets[i].1)
  }

  /** `makeObject` with the properties in this order. */
  ghost function MakeIn(t: Tree, sets: Settings, schema: Schema): Made
    requires NonEmptyPaths(sets)
    decreases |sets|
  {
    if sets == [] then Finish(BuildRes(t, [], schema))
    else if !PlainText(sets[0].1) then Rejected
    else if Blocked(t, sets[0].0) then Panicked
    else MakeIn(DeepSet(t, sets[0].0, sets[0].1), sets[1..], schema)
  }

  /** In this order of the properties `makeObject` comes to this. */
  ghost predicate MakesIn(sets: Settings, props: map<string, string>, schema: Schema, made: Made) {
    Lists(sets, props, props.Keys) && made == MakeIn(map[], sets, schema)
  }

  /** What `makeObject` can come to. */
  ghost predicate Makes(props: map<string, string>, schema: Schema, made: Made) {
    exists sets :: MakesIn(sets, props, schema, made)
  }

  // ---------------------------------------------------------------- one order

  lemma {:induction false} MakeInConcat(t: Tree, a: Settings, b: Settings, schema: Schema)
    requires NonEmptyPaths(a) && NonEmptyPaths(b) && PlainTexts(a) && SetAll(t, a).Some?
    ensures NonEmptyPaths(a + b) && MakeIn(t, a + b, schema) == MakeIn(SetAll(t, a).value, b, schema)
    decreases |a|
  {
    hide DeepSet, Blocked, PlainText;
    if a == [] {
      assert a + b == b;
    } else {
      assert (a + b)[0] == a[0] && (a + b)[1..] == a[1..] + b;
      MakeInConcat(DeepSet(t, a[0].0, a[0].1), a[1..], b, schema);
    }
  }

  lemma {:induction false} MakeInRuns(t: Tree, sets: Settings, schema: Schema)
    requires NonEmptyPaths(sets) && SetAll(t, sets).Some?
    ensures MakeIn(t, sets, schema) == if PlainTexts(sets) then Finish(BuildRes(SetAll(t, sets).value, [], schema)) else Rejected
    decreases |sets|
  {
    hide DeepSet, Blocked, PlainText, BuildRes;
    if sets != [] {
      assert sets == [sets[0]] + sets[1..];
      MakeInRuns(DeepSet(t, sets[0].0, sets[0].1), sets[1..], schema);
      assert PlainTexts(sets) <==> PlainText(sets[0].1) && PlainTexts(sets[1..]);
    }
  }

  lemma {:induction false} MakeInMade(t: Tree, sets: Settings, schema: Schema)
    requires NonEmptyPaths(sets) && MakeIn(t, sets, schema).Made?
    ensures SetAll(t, sets).Some? && MakeIn(t, sets, schema) == Finish(BuildRes(SetAll(t, sets).value, [], schema))
    decreases |sets|
  {
    hide DeepSet, Blocked, PlainText, BuildRes;
    if sets != [] {
      MakeInMade(DeepSet(t, sets[0].0, sets[0].1), sets[1..], schema);
    }
  }

  /** Where an order panics: after some properties the next one is blocked. */
  lemma {:induction false} PanicPoint(t: Tree, sets: Settings, schema: Schema) returns (n: nat)
    requires NonEmptyPaths(sets) && MakeIn(t, sets, schema) == Panicked
    ensures n < |sets| && PlainTexts(sets[..n + 1]) && NonEmptyPaths(sets[..n + 1]) && SetAll(t, sets[..n + 1]).None?
    decreases |sets|
  {
    hide DeepSet, Blocked, PlainText, BuildRes;
    if Blocked(t, sets[0].0) {
      n := 0;
      assert sets[..1][0] == sets[0];
    } else {
      var k := PanicPoint(DeepSet(t, sets[0].0, sets[0].1), sets[1..], schema);
      n := k + 1;
      assert sets[..n + 1][0] == sets[0] && sets[..n + 1][1..] == sets[1..][..k + 1];
    }
  }

  // ---------------------------------------------------------------- orders of the properties

  lemma ListsPaths(sets: Settings, props: map<string, string>, done: set<string>)
    requires Lists(sets, props, done)
    ensures Paths(sets) && NonEmptyPaths(sets)
  {}

  /** An order that has been begun can be completed. */
  lemma {:induction false} Complete(sets: Settings, props: map<string, string>, done: set<string>, todo: set<string>) returns (more: Settings)
    requires Lists(sets, props, done) && done + todo == props.Keys && done !! todo
    ensures Lists(sets + more, props, props.Keys)
    decreases |todo|
  {
    hide Lists, PathOf;
    if todo == {} {
      more := [];
      assert sets + more == sets && done == props.Keys;
    } else {
      var kk :| kk in todo;
      ListsMore(sets, props, done, kk);
      assert done + {kk} + (todo - {kk}) == props.Keys;
      var rest := Complete(sets + [PathOf(props, kk)], props, done + {kk}, todo - {kk});
      more := [PathOf(props, kk)] + rest;
      assert sets + more == sets + [PathOf(props, kk)] + rest;
    }
  }

  lemma NoneListed(props: map<string, string>)
    ensures Lists([], props, {})
  {}

  lemma ListsPlain(sets: Settings, props: map<string, string>)
    requires Lists(sets, props, props.Keys)
    ensures PlainTexts(sets) <==> PlainValues(props)
  {
    hide Split, Join, Index;
    if PlainTexts(sets) {
      forall kk | kk in props ensures Index(props[kk], DELIMITER) < 0 {
        assert PathOf(props, kk) in sets;
        var i :| 0 <= i < |sets| && sets[i] == PathOf(props, kk);
        assert PlainText(sets[i].1);
      }
    }
    if PlainValues(props) {
      forall i | 0 <= i < |sets| ensures PlainText(sets[i].1) {
        assert sets[i] == PathOf(props, Join(sets[i].0, DELIMITER));
      }
    }
  }

  lemma MakesInIs(sets: Settings, props: map<string, string>, schema: Schema, made: Made)
    requires MakesIn(sets, props, schema, made)
    ensures Lists(sets, props, props.Keys) && Paths(sets) && NonEmptyPaths(sets) && made == MakeIn(map[], sets, schema)
  {
    hide MakeIn;
  }

  /** For properties that fit into one nested map every order comes to the same. */
  lemma MakesIs(props: map<string, string>, schema: Schema, made: Made)
    requires Makes(props, schema, made) && exists t :: Tells(t, props)
    ensures made == ObjectOf(props, schema)
  {
    hide Tells, SetAll, Lists, BuildRes, PlainValues, PlainTexts, PrefixFreeProps, Paths, PrefixFree, Spells, NonEmptyPaths, MakeIn, MakesIn, ObjectOf;
    var sets :| MakesIn(sets, props, schema, made);
    MakesInIs(sets, props, schema, made);
    var t :| Tells(t, props);
    TellsPrefixFree(t, props);
    ListsPrefixFree(sets, props, props.Keys);
    ListsPaths(sets, props, props.Keys);
    SetAllSpells(sets);
    var u := SetAll(map[], sets).value;
    ListsTells(sets, props, u);
    ObjectOfIs(u, props, schema);
    ListsPlain(sets, props);
    MakeInRuns(map[], sets, schema);
  }

  // ---------------------------------------------------------------- crashes

  /** Two properties without the delimiter in their values, of which one key path goes through the
      other. */
  predicate Clashing(props: map<string, string>) {
    exists k1, k2 :: k1 in props && k2 in props && PlainText(props[k1]) && PlainText(props[k2])
                     && ProperPrefix(Split(k1, DELIMITER), Split(k2, DELIMITER))
  }

  /** `makeObject` can crash exactly for clashing properties. */
  lemma CrashIff(props: map<string, string>, schema: Schema)
    ensures Makes(props, schema, Panicked) <==> Clashing(props)
  {
    hide Lists, MakesIn, MakeIn, Clashing;
    if Makes(props, schema, Panicked) {
      var sets :| MakesIn(sets, props, schema, Panicked);
      OnlyClashing(props, schema, sets);
    }
    if Clashing(props) {
      CrashingOrder(props, schema);
    }
  }

  lemma OnlyClashing(props: map<string, string>, schema: Schema, sets: Settings)
    requires MakesIn(sets, props, schema, Panicked)
    ensures Clashing(props)
  {
    hide Split, Join, PlainText, MakeIn, SetAll, Spells, ProperPrefix;
    ListsPaths(sets, props, props.Keys);
    var n := PanicPoint(map[], sets, schema);
    var some := sets[..n + 1];
    assert Paths(some);
    if PrefixFree(some) {
      SetAllSpells(some);
    }
    var i, j :| 0 <= i < j < |some| && Clash(some[i].0, some[j].0);
    assert some[i] == sets[i] && some[j] == sets[j];
    assert PlainText(some[i].1) && PlainText(some[j].1);
    FromProps(sets, props, i);
    FromProps(sets, props, j);
    var k1, k2 := Join(sets[i].0, DELIMITER), Join(sets[j].0, DELIMITER);
    assert k1 in props && k2 in props;
  }

  lemma FromProps(sets: Settings, props: map<string, string>, i: nat)
    requires Lists(sets, props, props.Keys) && i < |sets|
    ensures var kk := Join(sets[i].0, DELIMITER); kk in props && Split(kk, DELIMITER) == sets[i].0 && props[kk] == sets[i].1
  {
    hide Split, Join;
    assert sets[i] == PathOf(props, Join(sets[i].0, DELIMITER));
  }

  lemma CrashingOrder(props: map<string, string>, schema: Schema)
    requires Clashing(props)
    ensures Makes(props, schema, Panicked)
  {
    hide Split, Join, PlainText, Lists, SetAll, Blocked, DeepSet, BuildRes, ProperPrefix;
    var k1, k2 :| k1 in props && k2 in props && PlainText(props[k1]) && PlainText(props[k2])
                  && ProperPrefix(Split(k1, DELIMITER), Split(k2, DELIMITER));
    assert k1 != k2 by { NotOwnPrefix(Split(k1, DELIMITER)); }
    var x, y := PathOf(props, k1), PathOf(props, k2);
    NoneListed(props);
    ListsMore([], props, {}, k1);
    assert [] + [x] == [x] && [x] + [y] == [x, y] && {} + {k1} == {k1};
    ListsMore([x], props, {k1}, k2);
    assert {k1} + {k2} + (props.Keys - {k1} - {k2}) == props.Keys;
    var more := Complete([x, y], props, {k1} + {k2}, props.Keys - {k1} - {k2});
    ListsPaths([x, y] + more, props, props.Keys);
    FirstTwoPanic(x, y, more, schema);
    assert MakesIn([x, y] + more, props, schema, Panicked);
  }

  lemma NotOwnPrefix(p: seq<string>)
    ensures !ProperPrefix(p, p)
  {}

  lemma FirstTwoPanic(x: (seq<string>, string), y: (seq<string>, string), more: Settings, schema: Schema)
    requires NonEmptyPaths([x, y] + more) && PlainText(x.1) && PlainText(y.1) && ProperPrefix(x.0, y.0)
    ensures MakeIn(map[], [x, y] + more, schema) == Panicked
  {
    hide PlainText, DeepSet, BuildRes;
    var sets := [x, y] + more;
    assert sets[0] == x && sets[1] == y && sets[1..][0] == y;
    var none: Tree := map[];
    assert !Blocked(none, x.0);
    SetBlocks(none, x.0, x.1, y.0);
    assert MakeIn(DeepSet(none, x.0, x.1), sets[1..], schema) == Panicked;
  }

  /** Names free of the delimiter never clash. */
  lemma FreeNamesNeverClash(props: map<string, string>)
    requires forall k :: k in props ==> DELIMITER[0] !in k
    ensures !Clashing(props)
  {
    hide Split, PlainText;
    forall k | k in props ensures Split(k, DELIMITER) == [k] {
      NotSplit(k);
    }
  }

  lemma NotSplit(k: string)
    requires DELIMITER[0] !in k
    ensures Split(k, DELIMITER) == [k]
  {
    hide Index;
    NoDelimiter(k);
  }

  // ---------------------------------------------------------------- what an object was built from

  /** Every text inside a rebuilt value stands in the nested map at its own key path. */
  lemma {:induction false} BuiltLeaves(params: Tree, keys: seq<string>, schema: Schema, v: Value, p: seq<string>, s: string)
    requires Flattenable(v) && BuildRes(params, keys, schema) == Built(v) && (p, s) in Pairs(v)
    ensures DeepGet(params, keys).Some? && ItemAt(DeepGet(params, keys).value, p, s)
    decreases schema, 1
  {
    hide DeepGet, At, Itoa, SliceLength, Flattenable;
    assert v != Nil by { NotNil(v); }
    match v
    case Str(_) =>
    case Arr(vs) => BuiltItem(params, keys, schema, vs, p, s);
    case Obj(m) => BuiltMember(params, keys, schema, m, p, s);
  }

  lemma NotNil(v: Value)
    requires Flattenable(v)
    ensures v != Nil
  {}

  lemma {:induction false} BuiltItem(params: Tree, keys: seq<string>, schema: Schema, vs: seq<Value>, p: seq<string>, s: string)
    requires Flattenable(Arr(vs)) && BuildRes(params, keys, schema) == Built(Arr(vs)) && (p, s) in Pairs(Arr(vs))
    ensures DeepGet(params, keys).Some? && ItemAt(DeepGet(params, keys).value, p, s)
    decreases schema, 0
  {
    hide DeepGet, At, Itoa, BuildRes;
    var i, x :| 0 <= i < |vs| && x in Pairs(vs[i]) && ([Itoa(i)] + x.0, x.1) == (p, s);
    assert Flattenable(vs[i]);
    hide Flattenable, Pairs;
    NotNil(vs[i]);
    ItemSchema(params, keys, schema, vs, i);
    BuiltLeaves(params, keys + [Itoa(i)], schema.items, vs[i], x.0, s);
    OneStep(params, keys, Itoa(i), x.0, s);
  }

  lemma ItemSchema(params: Tree, keys: seq<string>, schema: Schema, vs: seq<Value>, i: nat)
    requires BuildRes(params, keys, schema) == Built(Arr(vs)) && i < |vs| && vs[i] != Nil
    ensures schema.ArraySchema? && DeepGet(params, keys).Some? && DeepGet(params, keys).value.Sub?
    ensures BuildRes(params, keys + [Itoa(i)], schema.items) == Built(vs[i])
  {
    hide DeepGet, Itoa, SliceLength;
  }

  lemma {:induction false} BuiltMember(params: Tree, keys: seq<string>, schema: Schema, m: map<string, Value>, p: seq<string>, s: string)
    requires Flattenable(Obj(m)) && BuildRes(params, keys, schema) == Built(Obj(m)) && (p, s) in Pairs(Obj(m))
    ensures DeepGet(params, keys).Some? && ItemAt(DeepGet(params, keys).value, p, s)
    decreases schema, 0
  {
    hide DeepGet, At;
    var k, x :| k in m && x in Pairs(m[k]) && ([k] + x.0, x.1) == (p, s);
    assert NameOk(k) && Flattenable(m[k]);
    hide Flattenable, Pairs;
    var inner := MemberSchema(params, keys, schema, m, k);
    BuiltLeaves(params, keys + [k], inner, m[k], x.0, s);
    OneStep(params, keys, k, x.0, s);
  }

  /** A member was built by its declared schema or by that for additional properties. */
  lemma MemberSchema(params: Tree, keys: seq<string>, schema: Schema, m: map<string, Value>, k: string) returns (inner: Schema)
    requires BuildRes(params, keys, schema) == Built(Obj(m)) && k in m && k != ""
    ensures schema.ObjectSchema? && DeepGet(params, keys).Some? && DeepGet(params, keys).value.Sub?
    ensures inner < schema && BuildRes(params, keys + [k], inner) == Built(m[k])
  {
    hide DeepGet, SliceLength, Itoa;
    var t := DeepGet(params, keys).value.entries;
    var declared := map k | k in schema.properties :: BuildRes(params, Extend(keys, k), schema.properties[k]);
    var extra := if schema.additional.None? then map[] else map k | k in t :: BuildRes(params, Extend(keys, k), schema.additional.value);
    assert Built(Obj(m)) == Assemble(declared, extra);
    if k in Kept(extra) {
      inner := schema.additional.value;
    } else {
      inner := schema.properties[k];
    }
  }

  lemma OneStep(params: Tree, keys: seq<string>, k: string, p: seq<string>, s: string)
    requires DeepGet(params, keys).Some? && DeepGet(params, keys).value.Sub?
    requires DeepGet(params, keys + [k]).Some? && ItemAt(DeepGet(params, keys + [k]).value, p, s)
    ensures ItemAt(DeepGet(params, keys).value, [k] + p, s)
  {
    hide DeepGet, At;
    GetSnoc(params, keys, k);
    AtCons(DeepGet(params, keys).value.entries, k, p, s);
  }

  /** So every text of an object that `makeObject` comes to, in whatever order and with or without
      clashes, was given under its own key path. */
  lemma MadeFromProps(props: map<string, string>, schema: Schema, m: map<string, Value>, p: seq<string>, s: string)
    requires Makes(props, schema, Made(m)) && Flattenable(Obj(m)) && (p, s) in Pairs(Obj(m))
    ensures Join(p, DELIMITER) in props && props[Join(p, DELIMITER)] == s
  {
    hide Lists, MakeIn, MakesIn, Flattenable, Pairs, BuildRes, SetAll, At, Join;
    var sets :| MakesIn(sets, props, schema, Made(m));
    MakesInIs(sets, props, schema, Made(m));
    MakeInMade(map[], sets, schema);
    var t := SetAll(map[], sets).value;
    assert DeepGet(t, []) == Some(Sub(t));
    BuiltLeaves(t, [], schema, Obj(m), p, s);
    StoredLeaf(map[], sets, p, s);
    assert At(map[], p) == None by { NoLeaf(p); }
    var i :| 0 <= i < |sets| && sets[i] == (p, s);
    FromProps(sets, props, i);
  }

  lemma NoLeaf(p: seq<string>)
    ensures At(map[], p) == None
  {}
}
