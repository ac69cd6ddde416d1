/** Nested objects in the query: the style `deepObject`, where `name[key][key]` addresses a text
    (internal/platform/validator/req_resp_decoder.go). */
module ParamQuery {
  import opened Text
  import opened NestedMaps
  import opened ParamObjects
  import opened ParamBrackets
  import opened ParamFlat
  import opened ParamOrders
  import opened ParamBuild
  import opened ParamStyles

  type Query = map<string, seq<string>>

  /** The query key belongs to the parameter and addresses something. */
  predicate Addresses(key: string, param: string) {
    param + "[" <= key && Brackets(key) != []
  }

  function DeepKey(key: string): string {
    Join(Brackets(key), DELIMITER)
  }

  /** These are properties read from the query; where two query keys address the same text either
      one may have been taken. */
  ghost predicate ReadFrom(props: map<string, string>, query: Query, param: string) {
    && (forall kk :: kk in props ==>
          exists key :: key in query && Addresses(key, param) && kk == DeepKey(key) && props[kk] == Join(query[key], DELIMITER))
    && (forall key :: key in query && Addresses(key, param) ==> DeepKey(key) in props)
  }

  method DeepProps(query: Query, param: string) returns (props: map<string, string>)
    ensures ReadFrom(props, query, param)
  {
    hide Addresses, DeepKey, Join;
    props := map[];
    var todo := query.Keys;
    while todo != {}
      invariant todo <= query.Keys
      invariant forall kk :: kk in props ==>
                  exists key :: key in query && Addresses(key, param) && kk == DeepKey(key) && props[kk] == Join(query[key], DELIMITER)
      invariant forall key :: key in query && key !in todo && Addresses(key, param) ==> DeepKey(key) in props
    {
      var key :| key in todo;
      todo := todo - {key};
      if Addresses(key, param) {
        props := props[DeepKey(key) := Join(query[key], DELIMITER)];
      }
    }
  }

  /** Whether `deepGet` finds something in a rebuilt object; it stops at anything but an object. */
  predicate DeepHas(m: map<string, Value>, keys: seq<string>)
    decreases |keys|
  {
    keys == [] || (keys[0] in m && (m[keys[0]].Obj? ==> DeepHas(m[keys[0]].members, keys[1..])))
  }

  /** The value a path of member names leads to, through objects only. */
  function Through(v: Value, path: seq<string>): Option<Value>
    decreases |path|
  {
    if path == [] then Some(v)
    else
      var last := |path| - 1;
      var holder := Through(v, path[..last]);
      if holder.Some? && holder.value.Obj? && path[last] in holder.value.members
      then Some(holder.value.members[path[last]]) else None
  }

  lemma {:induction false} ThroughCons(v: Value, path: seq<string>)
    requires path != []
    ensures Through(v, path) == if v.Obj? && path[0] in v.members then Through(v.members[path[0]], path[1..]) else None
    decreases |path|
  {
    var last := |path| - 1;
    if last > 0 {
      ThroughCons(v, path[..last]);
      assert path[..last][0] == path[0] && path[..last][1..] == path[1..][..last - 1] && path[last] == path[1..][last - 1];
    } else {
      assert path[..last] == [] && path[1..] == [];
    }
  }

  /** Something is found exactly when all the names lead to a value, or the first few of them to one
      that is not an object. */
  lemma {:induction false} DeepHasIff(m: map<string, Value>, keys: seq<string>)
    ensures DeepHas(m, keys) <==>
            exists n :: 0 <= n <= |keys| && Through(Obj(m), keys[..n]).Some? && (n == |keys| || !Through(Obj(m), keys[..n]).value.Obj?)
    decreases |keys|
  {
    if keys == [] {
      assert Through(Obj(m), keys[..0]).Some?;
    } else {
      assert forall n :: 0 < n <= |keys| ==> keys[..n][0] == keys[0] && keys[..n][1..] == keys[1..][..n - 1];
      forall n | 0 < n <= |keys|
        ensures Through(Obj(m), keys[..n]) == if keys[0] in m then Through(m[keys[0]], keys[1..][..n - 1]) else None
      {
        ThroughCons(Obj(m), keys[..n]);
      }
      assert keys[..0] == [];
      if keys[0] in m {
        DeepHasBelow(m, keys);
      }
    }
  }

  lemma {:induction false} DeepHasBelow(m: map<string, Value>, keys: seq<string>)
    requires keys != [] && keys[0] in m
    requires forall n :: 0 < n <= |keys| ==> Through(Obj(m), keys[..n]) == Through(m[keys[0]], keys[1..][..n - 1])
    ensures DeepHas(m, keys) <==>
            exists n :: 0 <= n <= |keys| && Through(Obj(m), keys[..n]).Some? && (n == |keys| || !Through(Obj(m), keys[..n]).value.Obj?)
    decreases |keys|, 0
  {
    hide Through;
    var v, rest := m[keys[0]], keys[1..];
    NoNames(Obj(m), keys);
    NoNames(v, rest);
    if v.Obj? {
      DeepHasIff(v.members, rest);
      assert v == Obj(v.members);
      if n :| 0 <= n <= |rest| && Through(v, rest[..n]).Some? && (n == |rest| || !Through(v, rest[..n]).value.Obj?) {
        assert Through(Obj(m), keys[..n + 1]) == Through(v, rest[..n]);
      }
      if n :| 0 <= n <= |keys| && Through(Obj(m), keys[..n]).Some? && (n == |keys| || !Through(Obj(m), keys[..n]).value.Obj?) {
        assert Through(Obj(m), keys[..n]) == Through(v, rest[..n - 1]);
      }
    } else {
      assert Through(Obj(m), keys[..1]) == Through(v, rest[..0]);
    }
  }

  lemma NoNames(v: Value, keys: seq<string>)
    ensures Through(v, keys[..0]) == Some(v)
  {}

  /** Whether the parameter counts as given: only where the schema declares properties. */
  ghost predicate Given(schema: Schema, props: map<string, string>, val: map<string, Value>)
    requires schema.ObjectSchema?
  {
    exists name :: name in schema.properties &&
      (name in props || exists kk :: kk in props && DeepHas(val, Split(kk, DELIMITER)))
  }

  /** The outcomes of decoding an object parameter in this style, with whether it counts as given. */
  ghost predicate DeepDecodesTo(query: Query, param: string, schema: Schema, r: Decoded<map<string, Value>>, given: bool)
    requires schema.ObjectSchema?
  {
    exists props :: ReadFrom(props, query, param) && PropsDecodeTo(props, schema, r, given)
  }

  ghost predicate PropsDecodeTo(props: map<string, string>, schema: Schema, r: Decoded<map<string, Value>>, given: bool)
    requires schema.ObjectSchema?
  {
    if props == map[] then r == Absent && !given
    else exists made :: Makes(props, schema, made) && r == FromMade(made)
                        && (given <==> made.Made? && Given(schema, props, made.members))
  }

  method DecodeDeepObject(query: Query, param: string, schema: Schema) returns (r: Decoded<map<string, Value>>, given: bool)
    requires schema.ObjectSchema?
    ensures DeepDecodesTo(query, param, schema, r, given)
  {
    hide ReadFrom, Tells, ObjectOf, Given, Makes;
    var props := DeepProps(query, param);
    if props == map[] {
      return Absent, false;
    }
    var made := MakeObject(props, schema);
    if !made.Made? {
      return FromMade(made), false;
    }
    given := IsGiven(schema, props, made.members);
    return Decoded(made.members), given;
  }

  method IsGiven(schema: Schema, props: map<string, string>, val: map<string, Value>) returns (given: bool)
    requires schema.ObjectSchema?
    ensures given <==> Given(schema, props, val)
  {
    hide Split, DeepHas;
    given := false;
    var names := schema.properties.Keys;
    while names != {}
      invariant names <= schema.properties.Keys
      invariant given ==> Given(schema, props, val)
      invariant !given ==> forall name :: name in schema.properties && name !in names ==>
                  name !in props && !exists kk :: kk in props && DeepHas(val, Split(kk, DELIMITER))
    {
      var name :| name in names;
      names := names - {name};
      if name in props {
        return true;
      }
      var keys := props.Keys;
      var hit := false;
      while keys != {} && !hit
        invariant keys <= props.Keys
        invariant hit ==> exists kk :: kk in props && DeepHas(val, Split(kk, DELIMITER))
        invariant !hit ==> forall kk :: kk in props && kk !in keys ==> !DeepHas(val, Split(kk, DELIMITER))
        decreases |keys|
      {
        var kk :| kk in keys;
        keys := keys - {kk};
        if DeepHas(val, Split(kk, DELIMITER)) {
          hit := true;
        }
      }
      if hit {
        given := true;
      }
    }
  }

  // ---------------------------------------------------------------- round trip

  lemma OpensWith(param: string, k: string, tail: string)
    ensures param + "[" <= param + ("[" + k + "]" + tail)
  {
    var s := param + ("[" + k + "]" + tail);
    assert s[..|param| + 1] == param + "[";
  }

  /** The query holds the value under the parameter's name, and what else it holds belongs to other
      parameters. */
  ghost predicate Encodes(query: Query, param: string, v: Value) {
    && (forall x :: x in Pairs(v) ==> param + Bracketed(x.0) in query && query[param + Bracketed(x.0)] == [x.1])
    && (forall key :: key in query && param + "[" <= key ==> exists x :: x in Pairs(v) && key == param + Bracketed(x.0))
  }

  ghost predicate KeysSafe(v: Value) {
    forall x, i :: x in Pairs(v) && 0 <= i < |x.0| ==> KeySafe(x.0[i])
  }

  lemma AddressOf(param: string, path: seq<string>)
    requires Inert(param) && path != [] && forall i :: 0 <= i < |path| ==> KeySafe(path[i])
    ensures var key := param + Bracketed(path); Addresses(key, param) && DeepKey(key) == Join(path, DELIMITER)
  {
    hide Join, Brackets, Bracketed, Inert;
    BracketsOf(param, path);
    BracketedCons(path);
    OpensWith(param, path[0], Bracketed(path[1..]));
  }

  /** What is read from the query is the flattened object. */
  lemma ReadIsFlat(m: map<string, Value>, query: Query, param: string, props: map<string, string>)
    requires Flattenable(Obj(m)) && Inert(param) && KeysSafe(Obj(m))
    requires Encodes(query, param, Obj(m)) && ReadFrom(props, query, param)
    ensures props == Flatten(Obj(m))
  {
    hide Flattenable, Pairs, Join, Addresses, DeepKey, Bracketed, Inert;
    var v, flat := Obj(m), Flatten(Obj(m));
    forall x | x in Pairs(v)
      ensures x.0 != [] && Addresses(param + Bracketed(x.0), param)
              && DeepKey(param + Bracketed(x.0)) == Join(x.0, DELIMITER) && Join(query[param + Bracketed(x.0)], DELIMITER) == x.1
    {
      PairNames(v, x.0, x.1);
      AddressOf(param, x.0);
      JoinOne(x.1);
    }
    forall kk | kk in props ensures kk in flat && props[kk] == flat[kk] {
      var key :| key in query && Addresses(key, param) && kk == DeepKey(key) && props[kk] == Join(query[key], DELIMITER);
      assert param + "[" <= key by { AddressesIs(key, param); }
      var x :| x in Pairs(v) && key == param + Bracketed(x.0);
      FlatAt(m, x.0, x.1);
    }
    forall kk | kk in flat ensures kk in props {
      var x :| x in Pairs(v) && Join(x.0, DELIMITER) == kk;
      assert param + Bracketed(x.0) in query;
    }
  }

  lemma JoinOne(s: string)
    ensures Join([s], DELIMITER) == s
  {}

  lemma AddressesIs(key: string, param: string)
    requires Addresses(key, param)
    ensures param + "[" <= key
  {}

  lemma FlatAt(m: map<string, Value>, p: seq<string>, s: string)
    requires Flattenable(Obj(m)) && (p, s) in Pairs(Obj(m))
    ensures var flat := Flatten(Obj(m)); Join(p, DELIMITER) in flat && flat[Join(p, DELIMITER)] == s
  {
    hide Flattenable, Pairs, Join, Split, At, TreeOf, NoEmpty;
    var flat := Flatten(Obj(m));
    var x := (p, s);
    assert x in Pairs(Obj(m)) && Join(x.0, DELIMITER) in flat;
    FlattenTells(m);
    PairFacts(m, p, s);
  }

  lemma {:induction false} HasPairs(m: map<string, Value>, p: seq<string>, s: string)
    requires (p, s) in Pairs(Obj(m))
    ensures DeepHas(m, p)
    decreases |p|
  {
    var k, x :| k in m && x in Pairs(m[k]) && ([k] + x.0, x.1) == (p, s);
    assert p[1..] == x.0;
    if m[k].Obj? {
      HasPairs(m[k].members, x.0, x.1);
    }
  }

  lemma {:induction false} JoinSafe(path: seq<string>)
    requires forall i :: 0 <= i < |path| ==> KeySafe(path[i])
    ensures KeySafe(Join(path, DELIMITER))
    decreases |path|
  {
    if |path| > 1 {
      JoinSafe(path[1..]);
    }
  }

  lemma {:induction false} SafePart(path: seq<string>, i: nat)
    requires i < |path| && KeySafe(Join(path, DELIMITER))
    ensures KeySafe(path[i])
    decreases |path|
  {
    var s := Join(path, DELIMITER);
    if |path| > 1 {
      var rest := Join(path[1..], DELIMITER);
      assert forall k :: 0 <= k < |path[0]| ==> s[k] == path[0][k];
      assert forall k :: 0 <= k < |rest| ==> s[|path[0]| + 1 + k] == rest[k];
      if i > 0 {
        SafePart(path[1..], i - 1);
      }
    }
  }

  lemma {:induction false} Shortest(pairs: set<(seq<string>, string)>) returns (x: (seq<string>, string))
    requires pairs != {}
    ensures x in pairs && forall y :: y in pairs ==> Length(x.0) <= Length(y.0)
    decreases |pairs|
  {
    hide Length;
    x :| x in pairs;
    if pairs != {x} {
      var y := Shortest(pairs - {x});
      if Length(y.0) < Length(x.0) {
        x := y;
      }
    }
  }

  /** A query key that gave the properties the name of this key path. */
  lemma ReadUnder(m: map<string, Value>, query: Query, param: string, props: map<string, string>, p: seq<string>) returns (y: (seq<string>, string))
    requires Encodes(query, param, Obj(m)) && ReadFrom(props, query, param) && Join(p, DELIMITER) in props
    ensures y in Pairs(Obj(m)) && Join(p, DELIMITER) == Join(Brackets(param + Bracketed(y.0)), DELIMITER)
  {
    hide Pairs, Join, Brackets, Bracketed;
    var kk := Join(p, DELIMITER);
    var key :| key in query && Addresses(key, param) && kk == DeepKey(key) && props[kk] == Join(query[key], DELIMITER);
    y :| y in Pairs(Obj(m)) && key == param + Bracketed(y.0);
  }

  /** If the object comes back, its key paths were read as they were written. */
  lemma OnlyIfRead(m: map<string, Value>, query: Query, param: string, schema: Schema, props: map<string, string>)
    requires Flattenable(Obj(m)) && m != map[] && Encodes(query, param, Obj(m)) && ReadFrom(props, query, param)
    requires Makes(props, schema, Made(m))
    ensures Inert(param) && KeysSafe(Obj(m))
  {
    hide Flattenable, Pairs, Join, Brackets, Bracketed, Encodes, ReadFrom, Makes, Inert, KeySafe;
    forall x, i | x in Pairs(Obj(m)) && 0 <= i < |x.0| ensures KeySafe(x.0[i]) {
      MadeFromProps(props, schema, m, x.0, x.1);
      var y := ReadUnder(m, query, param, props, x.0);
      BracketsSafe(param + Bracketed(y.0));
      JoinSafe(Brackets(param + Bracketed(y.0)));
      SafePart(x.0, i);
    }
    SomePair(m);
    var x := Shortest(Pairs(Obj(m)));
    MadeFromProps(props, schema, m, x.0, x.1);
    var y := ReadUnder(m, query, param, props, x.0);
    PairNames(Obj(m), y.0, y.1);
    if !Inert(param) {
      LongerUnlessInert(param, y.0);
    }
  }

  lemma SomePair(m: map<string, Value>)
    requires Flattenable(Obj(m)) && m != map[]
    ensures Pairs(Obj(m)) != {}
  {
    hide Flattenable, Pairs, Join, DeepHas;
    var kk := SomeFlat(m);
    var x :| x in Pairs(Obj(m)) && Join(x.0, DELIMITER) == kk;
  }

  /** Round trip through the query: an object of any depth comes back exactly when it fits the schema,
      no bracket of the parameter's name is read as one, and no key contains a closing bracket or a
      line break. It then counts as given exactly when the schema declares any property. */
  lemma DeepObjectRoundTrip(query: Query, param: string, schema: Schema, m: map<string, Value>, r: Decoded<map<string, Value>>, given: bool)
    requires schema.ObjectSchema? && Flattenable(Obj(m)) && m != map[]
    requires Encodes(query, param, Obj(m)) && DeepDecodesTo(query, param, schema, r, given)
    ensures r == Decoded(m) <==> Fits(schema, Obj(m)) && Inert(param) && KeysSafe(Obj(m))
    ensures r == Decoded(m) ==> (given <==> schema.properties != map[])
  {
    hide Flattenable, Encodes, ReadFrom, Tells, ObjectOf, KeysSafe, Flatten, Given, Fits, Accepts, Makes, Inert, DeepHas;
    var props :| ReadFrom(props, query, param) && PropsDecodeTo(props, schema, r, given);
    if Inert(param) && KeysSafe(Obj(m)) {
      ReadIsFlat(m, query, param, props);
      ObjectRoundTrip(schema, m);
      var kk := SomeFlat(m);
      GivenIff(schema, m, kk);
      var made :| Makes(props, schema, made) && r == FromMade(made)
                  && (given <==> made.Made? && Given(schema, props, made.members));
      MakesIs(props, schema, made);
    } else if r == Decoded(m) {
      OnlyIfRead(m, query, param, schema, props);
    }
  }

  /** A non-empty object has a text, and `deepGet` finds it in the object. */
  lemma SomeFlat(m: map<string, Value>) returns (kk: string)
    requires Flattenable(Obj(m)) && m != map[]
    ensures kk in Flatten(Obj(m)) && DeepHas(m, Split(kk, DELIMITER))
  {
    hide Flattenable, Pairs, Join, Split, At, TreeOf, NoEmpty, DeepHas;
    FlattenTells(m);
    MemberTrees(m);
    var t := TreeOf(Obj(m)).entries;
    var k :| k in m;
    assert k in t;
    var p := LeafBelow(t);
    PairsAreLeaves(Obj(m), p, At(t, p).value);
    HasPairs(m, p, At(t, p).value);
    kk := Join(p, DELIMITER);
  }

  lemma GivenIff(schema: Schema, m: map<string, Value>, kk: string)
    requires schema.ObjectSchema? && kk in Flatten(Obj(m)) && DeepHas(m, Split(kk, DELIMITER))
    ensures Given(schema, Flatten(Obj(m)), m) <==> schema.properties != map[]
  {
    hide Flatten, DeepHas, Split;
    if schema.properties != map[] {
      var name :| name in schema.properties;
    }
  }

  // ---------------------------------------------------------------- crashes

  /** Two keys of the parameter, with one value each, of which one key path goes through the other. */
  ghost predicate ClashingKeys(query: Query, param: string) {
    exists a, b :: a in query && b in query && ClashAt(query, param, a, b)
  }

  predicate ClashAt(query: Query, param: string, a: string, b: string)
    requires a in query && b in query
  {
    && Addresses(a, param) && Addresses(b, param)
    && PlainText(Join(query[a], DELIMITER)) && PlainText(Join(query[b], DELIMITER))
    && ProperPrefix(Split(DeepKey(a), DELIMITER), Split(DeepKey(b), DELIMITER))
  }

  /** Properties that are read from the query with these two keys taken. */
  lemma ReadWith(query: Query, param: string, a: string, b: string) returns (props: map<string, string>)
    requires a in query && b in query && Addresses(a, param) && Addresses(b, param) && DeepKey(a) != DeepKey(b)
    ensures ReadFrom(props, query, param)
    ensures DeepKey(a) in props && props[DeepKey(a)] == Join(query[a], DELIMITER)
    ensures DeepKey(b) in props && props[DeepKey(b)] == Join(query[b], DELIMITER)
  {
    hide Addresses, DeepKey, Join;
    var names := set key | key in query && Addresses(key, param) :: DeepKey(key);
    props := map kk | kk in names :: Join(query[KeyFor(query, param, kk, a, b)], DELIMITER);
    forall kk | kk in props
      ensures exists key :: key in query && Addresses(key, param) && kk == DeepKey(key) && props[kk] == Join(query[key], DELIMITER)
    {
      var key := KeyFor(query, param, kk, a, b);
    }
  }

  ghost function KeyFor(query: Query, param: string, kk: string, a: string, b: string): (key: string)
    requires a in query && b in query && Addresses(a, param) && Addresses(b, param)
    requires exists key :: key in query && Addresses(key, param) && DeepKey(key) == kk
    ensures key in query && Addresses(key, param) && DeepKey(key) == kk
    ensures kk == DeepKey(a) ==> key == a
    ensures kk == DeepKey(b) && kk != DeepKey(a) ==> key == b
  {
    if kk == DeepKey(a) then a else if kk == DeepKey(b) then b
    else var key :| key in query && Addresses(key, param) && DeepKey(key) == kk; key
  }

  /** The decoder can crash exactly for clashing keys, and then nothing counts as given. */
  lemma QueryCrashIff(query: Query, param: string, schema: Schema, given: bool)
    requires schema.ObjectSchema?
    ensures DeepDecodesTo(query, param, schema, Crashed, given) <==> !given && ClashingKeys(query, param)
  {
    hide ReadFrom, Given, Makes, Clashing, ClashAt;
    if DeepDecodesTo(query, param, schema, Crashed, given) {
      var props :| ReadFrom(props, query, param) && PropsDecodeTo(props, schema, Crashed, given);
      CrashIff(props, schema);
      KeysOfClash(query, param, props);
    }
    if !given && ClashingKeys(query, param) {
      var a, b :| a in query && b in query && ClashAt(query, param, a, b);
      var props := PropsOfClash(query, param, a, b);
      CrashIff(props, schema);
      assert FromMade(Panicked) == Crashed;
      assert PropsDecodeTo(props, schema, Crashed, given);
    }
  }

  lemma KeysOfClash(query: Query, param: string, props: map<string, string>)
    requires ReadFrom(props, query, param) && Clashing(props)
    ensures ClashingKeys(query, param)
  {
    hide Addresses, DeepKey, Join, Split, PlainText, ProperPrefix;
    var k1, k2 :| k1 in props && k2 in props && PlainText(props[k1]) && PlainText(props[k2])
                  && ProperPrefix(Split(k1, DELIMITER), Split(k2, DELIMITER));
    var a :| a in query && Addresses(a, param) && k1 == DeepKey(a) && props[k1] == Join(query[a], DELIMITER);
    var b :| b in query && Addresses(b, param) && k2 == DeepKey(b) && props[k2] == Join(query[b], DELIMITER);
    assert ClashAt(query, param, a, b);
  }

  lemma PropsOfClash(query: Query, param: string, a: string, b: string) returns (props: map<string, string>)
    requires a in query && b in query && ClashAt(query, param, a, b)
    ensures ReadFrom(props, query, param) && Clashing(props) && props != map[]
  {
    hide Addresses, DeepKey, Join, Split, PlainText, ReadFrom, ProperPrefix;
    if DeepKey(a) == DeepKey(b) {
      NotOwnPrefix(Split(DeepKey(a), DELIMITER));
    }
    props := ReadWith(query, param, a, b);
  }

  // ---------------------------------------------------------------- inputs that fail

  lemma OneProp(query: Query, param: string, key: string, v: string, props: map<string, string>)
    requires query == map[key := [v]] && ReadFrom(props, query, param)
    ensures props == if Addresses(key, param) then map[DeepKey(key) := v] else map[]
  {
    hide Addresses, DeepKey, Join;
    JoinOne(v);
  }

  /** The object that was read has nothing under the one declared name. */
  lemma NothingDeclared(props: map<string, string>, m: map<string, Value>, name: string, r: Decoded<map<string, Value>>, given: bool)
    requires Flattenable(Obj(m)) && props == Flatten(Obj(m)) && props != map[] && name != "" && name !in m && name !in props
    requires PropsDecodeTo(props, ObjectSchema(map[name := TextSchema], None), r, given)
    ensures r == Decoded(map[]) && !given
  {
    hide Flattenable, Flatten, Makes, ObjectOf, Tells, TreeOf, PlainValues, Given;
    var schema := ObjectSchema(map[name := TextSchema], None);
    var made :| Makes(props, schema, made) && r == FromMade(made)
                && (given <==> made.Made? && Given(schema, props, made.members));
    FlattenTells(m);
    MakesIs(props, schema, made);
    var t := TreeOf(Obj(m)).entries;
    ObjectOfIs(t, props, schema);
    EmptyBuilt(t, m, name);
    assert !Given(schema, props, map[]) by { NoneGiven(props, name); }
  }

  lemma EmptyBuilt(t: Tree, m: map<string, Value>, name: string)
    requires TreeOf(Obj(m)) == Sub(t) && name != "" && name !in m
    ensures BuildRes(t, [], ObjectSchema(map[name := TextSchema], None)) == Built(Obj(map[]))
  {
    assert DeepGet(t, []) == Some(Sub(t));
    hide BuildRes, TreeOf, DeepGet;
    MemberTrees(m);
    GetSnoc(t, [], name);
    Missing(t, [] + [name], TextSchema);
    var schema := ObjectSchema(map[name := TextSchema], None);
    BuildIsAssemble(t, [], schema);
    assert Kept(Declared(t, [], schema)) + Kept(map[]) == map[];
  }

  lemma NoneGiven(props: map<string, string>, name: string)
    requires name !in props
    ensures !Given(ObjectSchema(map[name := TextSchema], None), props, map[])
  {
    hide Split;
    forall kk | kk in props ensures !DeepHas(map[], Split(kk, DELIMITER)) {
      SplitNotEmpty(kk);
    }
  }

  lemma SplitNotEmpty(s: string)
    ensures Split(s, DELIMITER) != []
  {}

  /** A bracket in the name of the parameter, which OpenAPI allows: for `a[b]` the key `a[b][k]` is
      read as the path from `b` to `k`, so the object comes back without its member and the
      parameter does not count as given. */
  lemma BracketInName(v: string, r: Decoded<map<string, Value>>, given: bool)
    requires v != "" && DELIMITER[0] !in v
    requires DeepDecodesTo(map["a[b][k]" := [v]], "a[b]", ObjectSchema(map["k" := TextSchema], None), r, given)
    ensures r == Decoded(map[]) && !given
  {
    hide Flattenable, Flatten, ReadFrom, PropsDecodeTo;
    var query: Query := map["a[b][k]" := [v]];
    var props :| ReadFrom(props, query, "a[b]") && PropsDecodeTo(props, ObjectSchema(map["k" := TextSchema], None), r, given);
    var m: map<string, Value> := map["b" := Obj(map["k" := Str(v)])];
    ReadNested(query, m, v, props);
    NothingDeclared(props, m, "k", r, given);
  }

  lemma ReadNested(query: Query, m: map<string, Value>, v: string, props: map<string, string>)
    requires query == map["a[b][k]" := [v]] && m == map["b" := Obj(map["k" := Str(v)])] && v != "" && DELIMITER[0] !in v
    requires ReadFrom(props, query, "a[b]")
    ensures Flattenable(Obj(m)) && props == Flatten(Obj(m)) && props != map[] && "k" !in props
  {
    hide Flattenable, Flatten, ReadFrom, Addresses, DeepKey, Inert, KeysSafe, Encodes;
    NestedOne(query, m, v);
    SameAddress();
    LongName();
    OneProp(query, "a[b]", "a[b][k]", v, props);
    assert DeepKey("a[b][k]") in props;
    AlsoUnder(query, v, props);
    ReadIsFlat(m, query, "a", props);
  }

  lemma SameAddress()
    ensures Addresses("a[b][k]", "a[b]") && Addresses("a[b][k]", "a")
  {
    hide Brackets;
    LongName();
    assert "a[b]" + "[" <= "a[b][k]" && "a" + "[" <= "a[b][k]";
  }

  lemma AlsoUnder(query: Query, v: string, props: map<string, string>)
    requires query == map["a[b][k]" := [v]] && ReadFrom(props, query, "a[b]")
    ensures ReadFrom(props, query, "a")
  {
    hide Addresses, DeepKey, Join;
    SameAddress();
  }

  lemma LongName()
    ensures Brackets("a[b][k]") == ["b", "k"] && DeepKey("a[b][k]") != "k"
  {
    hide Brackets;
    BracketedTwo();
    NoneInert("a");
    BracketsOf("a", ["b", "k"]);
    LengthCons("b", ["k"]);
    assert ["b"] + ["k"] == ["b", "k"];
  }

  lemma BracketedTwo()
    ensures "a" + Bracketed(["b", "k"]) == "a[b][k]" && Bracketed(["a"]) == "[a]" && Bracketed(["a", "b"]) == "[a][b]"
  {
    assert ["b", "k"][1..] == ["k"] && ["k"][1..] == [] && ["a", "b"][1..] == ["b"] && ["b"][1..] == [] && ["a"][1..] == [];
    assert Bracketed(["k"]) == "[k]" && Bracketed(["b"]) == "[b]";
  }

  lemma NestedOne(query: Query, m: map<string, Value>, v: string)
    requires query == map["a[b][k]" := [v]] && m == map["b" := Obj(map["k" := Str(v)])] && v != "" && DELIMITER[0] !in v
    ensures Flattenable(Obj(m)) && Encodes(query, "a", Obj(m)) && KeysSafe(Obj(m)) && Inert("a")
  {
    hide Brackets, Bracketed, Pairs, Flattenable, Inert;
    NoneInert("a");
    BracketedTwo();
    NestedFlattenable(v);
    NestedPairs(m, v);
    assert KeySafe("b") && KeySafe("k");
  }

  lemma NestedFlattenable(v: string)
    requires v != "" && DELIMITER[0] !in v
    ensures Flattenable(Obj(map["b" := Obj(map["k" := Str(v)])]))
  {
    var inner := Obj(map["k" := Str(v)]);
    assert Flattenable(Str(v)) && NameOk("k") && NameOk("b");
    assert Flattenable(inner) && "k" in inner.members;
  }

  lemma NestedPairs(m: map<string, Value>, v: string)
    requires m == map["b" := Obj(map["k" := Str(v)])]
    ensures Pairs(Obj(m)) == {(["b", "k"], v)}
  {
    OnePair("k", Str(v), [], v);
    assert ["k"] + [] == ["k"] && ["b"] + ["k"] == ["b", "k"];
    OnePair("b", Obj(map["k" := Str(v)]), ["k"], v);
  }

  lemma OnePair(k: string, x: Value, p: seq<string>, v: string)
    requires Pairs(x) == {(p, v)}
    ensures Pairs(Obj(map[k := x])) == {([k] + p, v)}
  {
    hide Pairs;
    var m := map[k := x];
    MemberPairs(m, k, p, v);
    forall y | y in Pairs(Obj(m)) ensures y == ([k] + p, v) {
      FromMember(m, y);
    }
  }

  lemma FromMember(m: map<string, Value>, y: (seq<string>, string))
    requires y in Pairs(Obj(m))
    ensures exists k, x :: k in m && x in Pairs(m[k]) && y == ([k] + x.0, x.1)
  {}

  /** A closing bracket in a key: `x]y` is read as `x`. */
  lemma BracketInKey(v: string, r: Decoded<map<string, Value>>, given: bool)
    requires v != "" && DELIMITER[0] !in v
    requires DeepDecodesTo(map["p[x]y]" := [v]], "p", ObjectSchema(map["x]y" := TextSchema], None), r, given)
    ensures r == Decoded(map[]) && !given
  {
    hide Flattenable, Flatten, Makes, Brackets, Join, PropsDecodeTo;
    var query: Query := map["p[x]y]" := [v]];
    var props :| ReadFrom(props, query, "p") && PropsDecodeTo(props, ObjectSchema(map["x]y" := TextSchema], None), r, given);
    CutKey();
    assert "p" + "[" <= "p[x]y]";
    OneProp(query, "p", "p[x]y]", v, props);
    JoinOne("x");
    assert props == map["x" := v];
    var m := TextMembers(props);
    FlatTexts(props);
    assert Flattenable(Obj(m)) by { OneText(props, v); }
    assert "x]y" != "x";
    NothingDeclared(props, m, "x]y", r, given);
  }

  lemma OneText(props: map<string, string>, v: string)
    requires props == map["x" := v] && v != "" && DELIMITER[0] !in v
    ensures Flattenable(Obj(TextMembers(props)))
  {
    assert Flattenable(Str(v)) && NameOk("x");
  }

  lemma CutKey()
    ensures Brackets("p[x]y]") == ["x"]
  {
    hide Brackets, Inert;
    var tail := "[" + "x" + "]" + "y]";
    assert "p[x]y]" == "p" + tail;
    PlainFront("p", tail);
    KeyFirst("x", "y]");
    NoneInert("y]");
    assert ["x"] + [] == ["x"];
  }

  /** A line break in a key: the parameter is not found at all. */
  lemma BreakInKey(v: string, schema: Schema, r: Decoded<map<string, Value>>, given: bool)
    requires schema.ObjectSchema? && DeepDecodesTo(map["p[x\ny]" := [v]], "p", schema, r, given)
    ensures r == Absent && !given
  {
    hide Makes, Brackets, Join, Given;
    var query: Query := map["p[x\ny]" := [v]];
    var props :| ReadFrom(props, query, "p") && PropsDecodeTo(props, schema, r, given);
    assert Brackets("p[x\ny]") == [] by { BrokenKey(); }
    OneProp(query, "p", "p[x\ny]", v, props);
  }

  lemma BrokenKey()
    ensures Brackets("p[x\ny]") == []
  {
    hide Brackets, Inert, IndexByte;
    var s := "p[x\ny]";
    assert s[1] == '[' && s[..1] == "p" && s[2..] == "x\ny]";
    BracketsAt(s, 1);
    var rest := "x\ny]";
    assert rest[3] == ']' && rest[..3] == "x\ny" && rest[..3][1] == '\n';
    IndexByteIs(rest, ']', 3);
    NoneInert(rest);
  }

  /** `p[a]=1&p[a][b]=2` can crash the decoder, under every schema. */
  lemma TextAndObjectCrash(schema: Schema)
    requires schema.ObjectSchema?
    ensures DeepDecodesTo(map["p[a]" := ["1"], "p[a][b]" := ["2"]], "p", schema, Crashed, false)
  {
    hide DeepDecodesTo, Brackets, Split, Join;
    var query: Query := map["p[a]" := ["1"], "p[a][b]" := ["2"]];
    QueryCrashIff(query, "p", schema, false);
    ReadBoth();
    JoinOne("1");
    JoinOne("2");
    assert PlainText("1") && PlainText("2") by { NoDelimiter("1"); NoDelimiter("2"); }
    assert "p" + "[" <= "p[a]" && "p" + "[" <= "p[a][b]";
    assert ["a"] <= ["a", "b"];
    assert ClashAt(query, "p", "p[a]", "p[a][b]");
  }

  lemma ReadBoth()
    ensures Brackets("p[a]") == ["a"] && Brackets("p[a][b]") == ["a", "b"]
    ensures Split(DeepKey("p[a]"), DELIMITER) == ["a"] && Split(DeepKey("p[a][b]"), DELIMITER) == ["a", "b"]
  {
    hide Brackets, Split, Join, Bracketed;
    BracketedTwo();
    NoneInert("p");
    assert "p" + "[a]" == "p[a]" && "p" + "[a][b]" == "p[a][b]";
    BracketsOf("p", ["a"]);
    BracketsOf("p", ["a", "b"]);
    SplitPath(["a"]);
    SplitPath(["a", "b"]);
  }
}
