/** Flattened properties: a nested value written as key paths joined by the delimiter, and
    `makeObject`, which takes them in any order and rebuilds the value. */
module ParamFlat {
  import opened Text
  import opened NestedMaps
  import opened ParamObjects

  // ---------------------------------------------------------------- flattening

  /** Every text inside a value with the keys that lead to it. */
  function Pairs(v: Value): set<(seq<string>, string)> {
    match v
    case Nil => {([], "")}
    case Str(s) => {([], s)}
    case Arr(vs) => set i, x | 0 <= i < |vs| && x in Pairs(vs[i]) :: ([Itoa(i)] + x.0, x.1)
    case Obj(m) => set k, x | k in m && x in Pairs(m[k]) :: ([k] + x.0, x.1)
  }

  /** The nested map has this text at this path; an item that is a text has it at no keys. */
  predicate ItemAt(item: Item<string>, p: seq<string>, s: string) {
    match item
    case Leaf(t) => p == [] && s == t
    case Sub(t) => At(t, p) == Some(s)
  }

  lemma AtCons(t: Tree, k: string, p: seq<string>, s: string)
    ensures At(t, [k] + p) == Some(s) <==> k in t && ItemAt(t[k], p, s)
  {
    assert ([k] + p)[1..] == p;
  }

  /** The texts of a value are the leaves of its nested map. */
  lemma {:induction false} PairsAreLeaves(v: Value, p: seq<string>, s: string)
    ensures (p, s) in Pairs(v) <==> ItemAt(TreeOf(v), p, s)
    decreases v
  {
    hide TreeOf, IndexedTrees, At;
    match v
    case Nil =>
      assert TreeOf(v) == Leaf("") by { TreeOfText(v); }
    case Str(t) =>
      assert TreeOf(v) == Leaf(t) by { TreeOfText(v); }
    case Arr(vs) =>
      assert TreeOf(v) == Sub(IndexedTrees(vs)) by { TreeOfArray(vs); }
      if p == [] {
        AtNothing(IndexedTrees(vs));
      } else {
        ArrayLeaves(vs, p, s);
      }
    case Obj(m) =>
      MemberTrees(m);
      if p == [] {
        AtNothing(TreeOf(v).entries);
      } else {
        var k, q := p[0], p[1..];
        assert p == [k] + q;
        AtCons(TreeOf(v).entries, k, q, s);
        if k in m {
          PairsAreLeaves(m[k], q, s);
        }
        assert (p, s) in Pairs(v) <==> k in m && (q, s) in Pairs(m[k]) by { MemberPairs(m, k, q, s); }
      }
  }

  lemma AtNothing(t: Tree)
    ensures At(t, []) == None
  {}

  lemma TreeOfText(v: Value)
    requires v.Nil? || v.Str?
    ensures TreeOf(v) == Leaf(if v.Nil? then "" else v.text)
  {}

  lemma TreeOfArray(vs: seq<Value>)
    ensures TreeOf(Arr(vs)) == Sub(IndexedTrees(vs))
  {}

  lemma MemberPairs(m: map<string, Value>, k: string, q: seq<string>, s: string)
    ensures ([k] + q, s) in Pairs(Obj(m)) <==> k in m && (q, s) in Pairs(m[k])
  {
    if ([k] + q, s) in Pairs(Obj(m)) {
      var k', x :| k' in m && x in Pairs(m[k']) && ([k'] + x.0, x.1) == ([k] + q, s);
      assert ([k'] + x.0)[0] == k' && ([k'] + x.0)[1..] == x.0;
      assert ([k] + q)[0] == k && ([k] + q)[1..] == q;
      assert x == (q, s);
    }
    if k in m && (q, s) in Pairs(m[k]) {
      var x := (q, s);
      assert ([k] + x.0, x.1) in Pairs(Obj(m));
    }
  }

  lemma ItemPairs(vs: seq<Value>, k: string, q: seq<string>, s: string)
    ensures ([k] + q, s) in Pairs(Arr(vs)) <==> exists i :: 0 <= i < |vs| && k == Itoa(i) && (q, s) in Pairs(vs[i])
  {
    hide Itoa;
    if ([k] + q, s) in Pairs(Arr(vs)) {
      var i, x :| 0 <= i < |vs| && x in Pairs(vs[i]) && ([Itoa(i)] + x.0, x.1) == ([k] + q, s);
      assert ([Itoa(i)] + x.0)[0] == Itoa(i) && ([Itoa(i)] + x.0)[1..] == x.0;
      assert ([k] + q)[0] == k && ([k] + q)[1..] == q;
      assert x == (q, s);
    }
    if i :| 0 <= i < |vs| && k == Itoa(i) && (q, s) in Pairs(vs[i]) {
      var x := (q, s);
      assert ([Itoa(i)] + x.0, x.1) in Pairs(Arr(vs));
    }
  }

  lemma {:induction false} ArrayLeaves(vs: seq<Value>, p: seq<string>, s: string)
    requires p != []
    ensures (p, s) in Pairs(Arr(vs)) <==> At(IndexedTrees(vs), p) == Some(s)
    decreases Arr(vs), 0
  {
    hide At, TreeOf, Itoa;
    var k, q := p[0], p[1..];
    assert p == [k] + q;
    var t := IndexedTrees(vs);
    AtCons(t, k, q, s);
    ItemPairs(vs, k, q, s);
    if k in t {
      assert k in IndexKeys(|vs|);
      var n := Decimal(k);
      assert k == Itoa(n) && t[k] == TreeOf(vs[n]);
      PairsAreLeaves(vs[n], q, s);
      forall i | 0 <= i < |vs| && k == Itoa(i) ensures i == n {
        DecimalItoa(i);
      }
    } else {
      assert forall i :: 0 <= i < |vs| ==> Itoa(i) in IndexKeys(|vs|);
    }
  }

  /** The keys on the way to a text, and the text, are free of the delimiter. */
  lemma {:induction false} PairNames(v: Value, p: seq<string>, s: string)
    requires Flattenable(v) && (p, s) in Pairs(v)
    ensures DELIMITER[0] !in s && forall i :: 0 <= i < |p| ==> NameOk(p[i])
    ensures v.Obj? ==> p != []
    decreases v
  {
    hide Itoa;
    match v
    case Str(_) =>
    case Arr(vs) =>
      var i, x :| 0 <= i < |vs| && x in Pairs(vs[i]) && ([Itoa(i)] + x.0, x.1) == (p, s);
      PairNames(vs[i], x.0, x.1);
      assert AllDigits(Itoa(i));
    case Obj(m) =>
      var k, x :| k in m && x in Pairs(m[k]) && ([k] + x.0, x.1) == (p, s);
      PairNames(m[k], x.0, x.1);
  }

  /** No map inside the nested map of a plain value is empty. */
  lemma {:induction false} PlainNoEmpty(v: Value)
    requires Flattenable(v)
    ensures TreeOf(v).Sub? ==> NoEmpty(TreeOf(v).entries) && (NonEmpty(v) ==> TreeOf(v).entries != map[])
    decreases v
  {
    match v
    case Str(_) =>
    case Arr(vs) =>
      var t := IndexedTrees(vs);
      if vs != [] {
        assert Itoa(0) in t;
      }
      forall k | k in t && t[k].Sub? ensures t[k].entries != map[] && NoEmpty(t[k].entries) {
        PlainNoEmpty(vs[Decimal(k)]);
      }
    case Obj(m) =>
      var t := TreeOf(v).entries;
      if m != map[] {
        var k :| k in m;
        assert k in t;
      }
      forall k | k in t && t[k].Sub? ensures t[k].entries != map[] && NoEmpty(t[k].entries) {
        PlainNoEmpty(m[k]);
      }
  }

  /** The flattened form: each text under its keys, joined by the delimiter. */
  ghost function Flatten(v: Value): map<string, string> {
    map kk | kk in (set x | x in Pairs(v) :: Join(x.0, DELIMITER)) :: TextUnder(v, kk)
  }

  ghost function TextUnder(v: Value, kk: string): string
    requires kk in (set x | x in Pairs(v) :: Join(x.0, DELIMITER))
  {
    var x :| x in Pairs(v) && Join(x.0, DELIMITER) == kk;
    x.1
  }

  // ---------------------------------------------------------------- what properties tell

  /** The nested map has exactly the properties as its leaves. */
  ghost predicate Tells(t: Tree, props: map<string, string>) {
    && NoEmpty(t)
    && (forall kk :: kk in props ==> At(t, Split(kk, DELIMITER)) == Some(props[kk]))
    && (forall p :: At(t, p).Some? ==> Join(p, DELIMITER) in props && Split(Join(p, DELIMITER), DELIMITER) == p)
  }

  /** No value contains the delimiter. */
  predicate PlainValues(props: map<string, string>) {
    forall kk :: kk in props ==> Index(props[kk], DELIMITER) < 0
  }

  ghost function Finish(b: Built): Made {
    if b.Built? && b.value.Obj? then Made(b.value.members) else Rejected
  }

  /** What `makeObject` gives for properties that some nested map tells, in whatever order it
      takes them. For others the outcome depends on the order. */
  ghost function ObjectOf(props: map<string, string>, schema: Schema): Made
    requires exists t :: Tells(t, props)
  {
    var t :| Tells(t, props);
    if PlainValues(props) then Finish(BuildRes(t, [], schema)) else Rejected
  }

  lemma TellsUnique(a: Tree, b: Tree, props: map<string, string>)
    requires Tells(a, props) && Tells(b, props)
    ensures a == b
  {
    hide NoEmpty, At, Split, Join;
    forall p ensures At(a, p) == At(b, p) {
      if At(a, p).Some? || At(b, p).Some? {
        var kk := Join(p, DELIMITER);
        assert kk in props && Split(kk, DELIMITER) == p;
      }
    }
    SameLeaves(a, b);
  }

  lemma ObjectOfIs(t: Tree, props: map<string, string>, schema: Schema)
    requires Tells(t, props)
    ensures ObjectOf(props, schema) == if PlainValues(props) then Finish(BuildRes(t, [], schema)) else Rejected
  {
    hide Tells, PlainValues, BuildRes;
    forall t' | Tells(t', props) ensures t' == t {
      TellsUnique(t, t', props);
    }
  }

  lemma SplitPath(p: seq<string>)
    requires p != [] && forall i :: 0 <= i < |p| ==> NameOk(p[i])
    ensures Split(Join(p, DELIMITER), DELIMITER) == p
  {
    hide Split, Join, Splittable;
    FreeOfByte(p, DELIMITER);
    SplitJoin(p, DELIMITER);
  }

  lemma NoDelimiter(s: string)
    requires DELIMITER[0] !in s
    ensures Index(s, DELIMITER) < 0
  {
    assert forall q :: OccursAt(s, DELIMITER, q) ==> s[q..q + 1][0] == s[q];
  }

  /** The nested map of a plain object tells the object's flattened form. */
  lemma FlattenTells(m: map<string, Value>)
    requires Flattenable(Obj(m))
    ensures TreeOf(Obj(m)).Sub? && Tells(TreeOf(Obj(m)).entries, Flatten(Obj(m))) && PlainValues(Flatten(Obj(m)))
  {
    hide Flattenable, NoEmpty, At, Split, Join, Index, TreeOf, Pairs;
    MemberTrees(m);
    PlainNoEmpty(Obj(m));
    var v, props := Obj(m), Flatten(Obj(m));
    var t := TreeOf(v).entries;
    forall kk | kk in props ensures At(t, Split(kk, DELIMITER)) == Some(props[kk]) && Index(props[kk], DELIMITER) < 0 {
      var x :| x in Pairs(v) && Join(x.0, DELIMITER) == kk && props[kk] == x.1;
      PairFacts(m, x.0, x.1);
    }
    forall p | At(t, p).Some? ensures Join(p, DELIMITER) in props && Split(Join(p, DELIMITER), DELIMITER) == p {
      var s := At(t, p).value;
      PairsAreLeaves(v, p, s);
      var x := (p, s);
      assert x in Pairs(v) && Join(x.0, DELIMITER) in props;
      PairFacts(m, p, s);
    }
  }

  lemma PairFacts(m: map<string, Value>, p: seq<string>, s: string)
    requires Flattenable(Obj(m)) && (p, s) in Pairs(Obj(m)) && TreeOf(Obj(m)).Sub?
    ensures Split(Join(p, DELIMITER), DELIMITER) == p && At(TreeOf(Obj(m)).entries, p) == Some(s) && Index(s, DELIMITER) < 0
  {
    hide Flattenable, At, Split, Join, Index, TreeOf, Pairs;
    PairNames(Obj(m), p, s);
    SplitPath(p);
    NoDelimiter(s);
    PairsAreLeaves(Obj(m), p, s);
  }

  /** Nested-object round trip, for every object that can be flattened and every object schema: the
      object, of any depth, flattened to joined key paths, is rebuilt identically exactly when it fits
      the schema, and refused exactly when the schema does not accept it. */
  lemma ObjectRoundTrip(schema: Schema, m: map<string, Value>)
    requires schema.ObjectSchema? && Flattenable(Obj(m))
    ensures exists t :: Tells(t, Flatten(Obj(m)))
    ensures ObjectOf(Flatten(Obj(m)), schema) == Made(m) <==> Fits(schema, Obj(m))
    ensures ObjectOf(Flatten(Obj(m)), schema) == Rejected <==> !Accepts(schema, Obj(m))
  {
    hide Flattenable, TreeOf, BuildRes, Flatten, Tells, PlainValues, Fits, Accepts;
    FlattenTells(m);
    var t := TreeOf(Obj(m)).entries;
    ObjectOfIs(t, Flatten(Obj(m)), schema);
    assert DeepGet(t, []) == Some(Sub(t));
    Rebuilds(t, [], schema, Obj(m));
    ObjectIsObject(t, schema);
  }

  lemma ObjectIsObject(t: Tree, schema: Schema)
    requires schema.ObjectSchema?
    ensures var b := BuildRes(t, [], schema); b.Built? ==> b.value.Obj?
  {
    assert DeepGet(t, []) == Some(Sub(t));
  }

  // ---------------------------------------------------------------- prefix-free properties

  /** No key path of the properties is a proper prefix of another. */
  ghost predicate PrefixFreeProps(props: map<string, string>) {
    forall k1, k2 :: k1 in props && k2 in props ==> !ProperPrefix(Split(k1, DELIMITER), Split(k2, DELIMITER))
  }

  /** The properties in some order, as key paths. */
  ghost predicate Lists(sets: seq<(seq<string>, string)>, props: map<string, string>, done: set<string>) {
    && Paths(sets)
    && (forall i :: 0 <= i < |sets| ==> Join(sets[i].0, DELIMITER) in done && sets[i] == PathOf(props, Join(sets[i].0, DELIMITER)))
    && (forall kk :: kk in done ==> PathOf(props, kk) in sets)
  }

  function PathOf(props: map<string, string>, kk: string): (seq<string>, string) {
    (Split(kk, DELIMITER), if kk in props then props[kk] else "")
  }

  lemma ListsMore(sets: seq<(seq<string>, string)>, props: map<string, string>, done: set<string>, kk: string)
    requires Lists(sets, props, done) && kk in props && kk !in done
    ensures Lists(sets + [PathOf(props, kk)], props, done + {kk})
  {
    hide Split, Join;
    JoinSplit(kk, DELIMITER);
    var more := sets + [PathOf(props, kk)];
    assert forall x :: x in sets ==> x in more;
    assert more[|sets|] == PathOf(props, kk);
  }

  lemma ListsPrefixFree(sets: seq<(seq<string>, string)>, props: map<string, string>, done: set<string>)
    requires Lists(sets, props, done) && done <= props.Keys && PrefixFreeProps(props)
    ensures PrefixFree(sets)
  {
    hide Split, Join, ProperPrefix;
  }

  lemma ListsTells(sets: seq<(seq<string>, string)>, props: map<string, string>, t: Tree)
    requires Lists(sets, props, props.Keys) && Spells(t, sets)
    ensures Tells(t, props)
  {
    hide Split, Join, At, NoEmpty;
    forall kk | kk in props ensures At(t, Split(kk, DELIMITER)) == Some(props[kk]) {
      assert Stores(sets, Split(kk, DELIMITER), props[kk]);
    }
    forall p | At(t, p).Some? ensures Join(p, DELIMITER) in props && Split(Join(p, DELIMITER), DELIMITER) == p {
      assert Stores(sets, p, At(t, p).value);
    }
  }

  /** Leaves of one nested map never clash. */
  lemma {:induction false} LeavesApart<K(!new)>(m: map<K, Item<K>>, p: seq<K>, q: seq<K>)
    requires At(m, p).Some? && At(m, q).Some?
    ensures !ProperPrefix(p, q)
    decreases |p|
  {
    PrefixCons(p, q);
    if p[0] == q[0] && m[p[0]].Sub? {
      LeavesApart(m[p[0]].entries, p[1..], q[1..]);
    }
  }

  lemma TellsPrefixFree(t: Tree, props: map<string, string>)
    requires Tells(t, props)
    ensures PrefixFreeProps(props)
  {
    hide At, NoEmpty, Split, Join, ProperPrefix;
    forall k1, k2 | k1 in props && k2 in props ensures !ProperPrefix(Split(k1, DELIMITER), Split(k2, DELIMITER)) {
      LeavesApart(t, Split(k1, DELIMITER), Split(k2, DELIMITER));
    }
  }

  // ---------------------------------------------------------------- nameless properties

  /** Why names must not be empty: an empty name is left out of the key path, so a text property
      without a name looks at the whole object, and every object is refused, with it or without. */
  lemma NamelessTextRefused(schema: Schema, props: map<string, string>)
    requires schema.ObjectSchema? && "" in schema.properties && schema.properties[""].TextSchema?
    requires exists t :: Tells(t, props)
    ensures ObjectOf(props, schema) == Rejected
  {
    hide Tells, PlainValues;
    var t :| Tells(t, props);
    ObjectOfIs(t, props, schema);
    assert DeepGet(t, []) == Some(Sub(t)) && Extend([], "") == [];
    assert BuildRes(t, [], TextSchema) == Refused;
    var declared := map k | k in schema.properties :: BuildRes(t, Extend([], k), schema.properties[k]);
    assert declared[""] == Refused;
    assert AnyRefused(declared);
  }

  /** The build at a map is refused or gives an array or object, never nothing. */
  lemma MapNotNil(params: Tree, keys: seq<string>, schema: Schema)
    requires DeepGet(params, keys).Some? && DeepGet(params, keys).value.Sub?
    ensures BuildRes(params, keys, schema) != Built(Nil)
  {
    hide DeepGet, SliceLength;
  }

  /** Any property without a name is built from the whole object: it is refused, or it becomes a
      member that the object did not have. */
  lemma NamelessMember(schema: Schema, props: map<string, string>)
    requires schema.ObjectSchema? && "" in schema.properties && exists t :: Tells(t, props)
    ensures ObjectOf(props, schema).Made? ==> "" in ObjectOf(props, schema).members
  {
    hide Tells, PlainValues;
    var t :| Tells(t, props);
    ObjectOfIs(t, props, schema);
    assert DeepGet(t, []) == Some(Sub(t)) && Extend([], "") == [];
    MapNotNil(t, [], schema.properties[""]);
    var declared := map k | k in schema.properties :: BuildRes(t, Extend([], k), schema.properties[k]);
    assert declared[""] == BuildRes(t, [], schema.properties[""]);
    assert !AnyRefused(declared) ==> "" in Kept(declared);
  }

  /** So an object whose members fit the schema comes back exactly when no property is nameless. */
  lemma NamelessIff(schema: Schema, m: map<string, Value>)
    requires schema.ObjectSchema? && Flattenable(Obj(m)) && FitMembers(schema, m)
    ensures exists t :: Tells(t, Flatten(Obj(m)))
    ensures ObjectOf(Flatten(Obj(m)), schema) == Made(m) <==> "" !in schema.properties
  {
    hide Flattenable, Flatten, Tells, ObjectOf, FitMembers;
    ObjectRoundTrip(schema, m);
  }
}
