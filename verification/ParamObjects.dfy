/** Rebuilding a nested value from its flattened properties, directed by a schema: `makeObject`,
    `sliceMapToSlice` and `buildResObj` (internal/platform/validator/req_resp_decoder.go). */
module ParamObjects {
  import opened Text
  import opened NestedMaps

  datatype Schema =
    | TextSchema
    | ArraySchema(items: Schema)
    | ObjectSchema(properties: map<string, Schema>, additional: Option<Schema>)

  datatype Value = Nil | Str(text: string) | Arr(items: seq<Value>) | Obj(members: map<string, Value>)

  /** A value, or a parse error. */
  datatype Built = Built(value: Value) | Refused

  /** What `makeObject` comes to: an object, a parse error, or the panic of `deepSet`. */
  datatype Made = Made(members: map<string, Value>) | Rejected | Panicked

  type Tree = map<string, Item<string>>

  const DELIMITER: string := "\U{1F}"

  // ---------------------------------------------------------------- array indexes

  function Digit(d: nat): char
    requires d < 10
  {
    ('0' as int + d) as char
  }

  /** `strconv.Itoa` of a number that is not negative. */
  function Itoa(n: nat): (s: string)
    ensures s != "" && AllDigits(s)
  {
    if n < 10 then [Digit(n)] else Itoa(n / 10) + [Digit(n % 10)]
  }

  predicate AllDigits(s: string) {
    forall i :: 0 <= i < |s| ==> '0' <= s[i] <= '9'
  }

  function Decimal(s: string): nat
    requires AllDigits(s)
  {
    if s == "" then 0 else 10 * Decimal(s[..|s| - 1]) + (s[|s| - 1] as int - '0' as int)
  }

  /** One more than the largest `int`. */
  const INT_LIMIT: nat := 0x8000_0000_0000_0000

  /** `strconv.Atoi`: an optional sign, at least one digit, within the range of `int`. */
  function Atoi(s: string): Option<int> {
    var signed := s != "" && (s[0] == '-' || s[0] == '+');
    var digits := if signed then s[1..] else s;
    if digits == "" || !AllDigits(digits) then None
    else
      var n: int := Decimal(digits);
      if s[0] == '-' then (if n <= INT_LIMIT then Some(-n) else None)
      else if n < INT_LIMIT then Some(n) else None
  }

  /** Digits behind an optional sign, and the number they write, within the range of `int`. */
  predicate Numeral(s: string, digits: string, n: int) {
    && digits != "" && AllDigits(digits) && n < INT_LIMIT && -n <= INT_LIMIT
    && if s == "-" + digits then n == -(Decimal(digits) as int) else n == Decimal(digits) && (s == digits || s == "+" + digits)
  }

  lemma AtoiIff(s: string, n: int)
    ensures Atoi(s) == Some(n) <==> exists digits :: Numeral(s, digits, n)
  {
    hide Decimal;
    var signed := s != "" && (s[0] == '-' || s[0] == '+');
    var digits := if signed then s[1..] else s;
    assert signed ==> s == [s[0]] + digits;
    if Atoi(s) == Some(n) {
      assert Numeral(s, digits, n);
    }
    forall d | Numeral(s, d, n) ensures d == digits {
      assert '0' <= d[0] <= '9';
    }
  }

  lemma {:induction false} DecimalItoa(n: nat)
    ensures Decimal(Itoa(n)) == n
  {
    if n >= 10 {
      DecimalItoa(n / 10);
      var s := Itoa(n);
      assert s[..|s| - 1] == Itoa(n / 10);
    } else {
      assert Itoa(n)[..0] == "";
    }
  }

  lemma AtoiItoa(n: nat)
    ensures Atoi(Itoa(n)) == if n < INT_LIMIT then Some(n) else None
  {
    DecimalItoa(n);
    assert '0' <= Itoa(n)[0] <= '9';
  }

  /** The keys of an array with `n` items. */
  function IndexKeys(n: nat): (ks: set<string>)
    ensures forall k :: k in ks ==> AllDigits(k) && Decimal(k) < n && k == Itoa(Decimal(k))
    ensures forall i :: 0 <= i < n ==> Itoa(i) in ks
  {
    if n == 0 then {}
    else
      DecimalItoa(n - 1);
      IndexKeys(n - 1) + {Itoa(n - 1)}
  }

  /** The largest index among the keys, or -1. */
  ghost function MaxIndex(keys: set<string>): (r: int)
    requires forall k :: k in keys ==> Atoi(k).Some?
    ensures r >= -1 && forall k :: k in keys ==> Atoi(k).value <= r
    ensures r == -1 || exists k :: k in keys && Atoi(k).value == r
  {
    if keys == {} then -1
    else
      var k :| k in keys;
      var r := MaxIndex(keys - {k});
      if Atoi(k).value > r then Atoi(k).value else r
  }

  /** The length of the array that a map with indexes as keys becomes. */
  ghost function SliceLength(keys: set<string>): Option<nat> {
    if forall k :: k in keys ==> Atoi(k).Some? then Some(MaxIndex(keys) + 1) else None
  }

  lemma SliceLengthIs(keys: set<string>, max: int)
    requires forall k :: k in keys ==> Atoi(k).Some? && Atoi(k).value <= max
    requires max == -1 || exists k :: k in keys && Atoi(k).value == max
    ensures max >= -1 ==> SliceLength(keys) == Some(max + 1)
  {
    hide Atoi;
  }

  // ---------------------------------------------------------------- the schema-directed rebuild

  function Extend(keys: seq<string>, key: string): seq<string> {
    if key != "" then keys + [key] else keys
  }

  /** `buildResObj`. Which of several errors is reported depends on the order of iteration over
      a map and is not told apart. */
  ghost function BuildRes(params: Tree, keys: seq<string>, schema: Schema): Built
    decreases schema
  {
    var found := DeepGet(params, keys);
    match schema
    case TextSchema =>
      (match found
       case None => Built(Nil)
       case Some(Leaf(s)) => Built(if s == "" then Nil else Str(s))
       case Some(Sub(_)) => Refused)
    case ArraySchema(items) =>
      (match found
       case None => Built(Nil)
       case Some(Leaf(_)) => Refused
       case Some(Sub(t)) =>
         if SliceLength(t.Keys).None? then Refused
         else
           var n := SliceLength(t.Keys).value;
           if exists i :: 0 <= i < n && BuildRes(params, keys + [Itoa(i)], items).Refused? then Refused
           else Built(Arr(seq(n, i requires 0 <= i < n => ValueOf(BuildRes(params, keys + [Itoa(i)], items))))))
    case ObjectSchema(properties, additional) =>
      (match found
       case None => Built(Nil)
       case Some(Leaf(s)) => Built(Str(s))
       case Some(Sub(t)) =>
         Assemble(map k | k in properties :: BuildRes(params, Extend(keys, k), properties[k]),
                  if additional.None? then map[] else map k | k in t :: BuildRes(params, Extend(keys, k), additional.value)))
  }

  /** The members of an object: the declared properties that have a value, then the additional
      ones, which replace a declared one of the same name. */
  function Assemble(declared: map<string, Built>, extra: map<string, Built>): Built {
    if AnyRefused(declared) || AnyRefused(extra) then Refused else Built(Obj(Kept(declared) + Kept(extra)))
  }

  predicate AnyRefused(rs: map<string, Built>) {
    exists k :: k in rs && rs[k].Refused?
  }

  function Kept(rs: map<string, Built>): map<string, Value> {
    map k | k in rs && ValueOf(rs[k]) != Nil :: ValueOf(rs[k])
  }

  function ValueOf(b: Built): Value {
    if b.Built? then b.value else Nil
  }

  // ---------------------------------------------------------------- values as nested maps

  /** The nested map that stands for a value. */
  function TreeOf(v: Value): Item<string> {
    match v
    case Nil => Leaf("")
    case Str(s) => Leaf(s)
    case Arr(vs) => Sub(IndexedTrees(vs))
    case Obj(m) => Sub(map k | k in m :: TreeOf(m[k]))
  }

  function IndexedTrees(vs: seq<Value>): Tree {
    map k | k in IndexKeys(|vs|) :: TreeOf(vs[Decimal(k)])
  }

  predicate NameOk(k: string) {
    k != "" && DELIMITER[0] !in k
  }

  predicate NonEmpty(v: Value) {
    (v.Arr? ==> v.items != []) && (v.Obj? ==> v.members != map[])
  }

  /** A value that can be written as properties: texts are not empty, texts and names are free of the
      delimiter, and no array or object inside it is empty. */
  predicate Flattenable(v: Value) {
    match v
    case Nil => false
    case Str(s) => s != "" && DELIMITER[0] !in s
    case Arr(vs) => |vs| <= INT_LIMIT && forall i :: 0 <= i < |vs| ==> NonEmpty(vs[i]) && Flattenable(vs[i])
    case Obj(m) => forall k :: k in m ==> NameOk(k) && NonEmpty(m[k]) && Flattenable(m[k])
  }

  /** The values inside an array or object, under the keys that lead to them. */
  function Parts(v: Value): map<string, Value> {
    match v
    case Arr(vs) => map k | k in IndexKeys(|vs|) :: vs[Decimal(k)]
    case Obj(m) => m
    case _ => map[]
  }

  // ---------------------------------------------------------------- what a schema makes of a value

  /** The rebuild reports no error. An object schema passes texts on, and an array schema takes an
      object whose names are numbers. */
  ghost predicate Accepts(schema: Schema, v: Value)
    decreases schema
  {
    match schema
    case TextSchema => v.Str?
    case ArraySchema(items) =>
      && !v.Str? && SliceLength(Parts(v).Keys).Some?
      && forall i :: 0 <= i < SliceLength(Parts(v).Keys).value && Itoa(i) in Parts(v) ==> Accepts(items, Parts(v)[Itoa(i)])
    case ObjectSchema(properties, additional) =>
      v.Str? ||
      (&& (forall k :: k in properties && k in Parts(v) ==> Accepts(properties[k], Parts(v)[k]))
       && ("" in properties ==> Accepts(properties[""], v))
       && (additional.Some? ==> forall k :: k in Parts(v) ==> Accepts(additional.value, Parts(v)[k])))
  }

  /** The rebuild returns the value itself. */
  ghost predicate Fits(schema: Schema, v: Value)
    decreases schema, 1
  {
    match schema
    case TextSchema => v.Str?
    case ArraySchema(items) => v.Arr? && forall i :: 0 <= i < |v.items| ==> Fits(items, v.items[i])
    case ObjectSchema(properties, _) => v.Str? || (v.Obj? && "" !in properties && FitMembers(schema, v.members))
  }

  /** Where there is a schema for additional properties it decides about declared members too: it is
      applied to all of them, and what it gives replaces what the declared schema gave. */
  ghost predicate FitMembers(schema: Schema, m: map<string, Value>)
    requires schema.ObjectSchema?
    decreases schema, 0
  {
    forall k :: k in m ==>
      if schema.additional.Some? then
        Fits(schema.additional.value, m[k]) && (k in schema.properties ==> Accepts(schema.properties[k], m[k]))
      else k in schema.properties && Fits(schema.properties[k], m[k])
  }

  lemma {:induction false} GetSnoc(m: Tree, keys: seq<string>, k: string)
    requires DeepGet(m, keys).Some? && DeepGet(m, keys).value.Sub?
    ensures var t := DeepGet(m, keys).value.entries; DeepGet(m, keys + [k]) == if k in t then Some(t[k]) else None
    decreases |keys|
  {
    if keys == [] {
      assert (keys + [k])[0] == k && (keys + [k])[1..] == [];
    } else {
      assert (keys + [k])[0] == keys[0] && (keys + [k])[1..] == keys[1..] + [k];
      GetSnoc(m[keys[0]].entries, keys[1..], k);
    }
  }

  lemma ArrayLength(n: nat)
    requires n <= INT_LIMIT
    ensures SliceLength(IndexKeys(n)) == Some(n)
  {
    hide Itoa, Atoi;
    forall k | k in IndexKeys(n) ensures Atoi(k).Some? && Atoi(k).value <= n - 1 {
      AtoiItoa(Decimal(k));
    }
    if n > 0 {
      AtoiItoa(n - 1);
      assert Itoa(n - 1) in IndexKeys(n);
    }
    SliceLengthIs(IndexKeys(n), n - 1);
  }

  lemma TreeParts(v: Value)
    requires v.Arr? || v.Obj?
    ensures TreeOf(v).Sub? && TreeOf(v).entries.Keys == Parts(v).Keys
    ensures forall k :: k in Parts(v) ==> TreeOf(v).entries[k] == TreeOf(Parts(v)[k])
  {}

  lemma MemberTrees(m: map<string, Value>)
    ensures TreeOf(Obj(m)).Sub?
    ensures var t := TreeOf(Obj(m)).entries; t.Keys == m.Keys && forall k :: k in m ==> t[k] == TreeOf(m[k])
  {}

  lemma PlainPart(v: Value, k: string)
    requires Flattenable(v) && k in Parts(v)
    ensures k != "" && Flattenable(Parts(v)[k])
  {
    if v.Arr? {
      assert k == Itoa(Decimal(k));
    }
  }

  lemma Missing(params: Tree, keys: seq<string>, schema: Schema)
    requires DeepGet(params, keys).None?
    ensures BuildRes(params, keys, schema) == Built(Nil)
  {
    hide DeepGet;
  }

  lemma {:induction false} TextRebuilt(params: Tree, keys: seq<string>, schema: Schema, s: string)
    requires s != "" && DeepGet(params, keys) == Some(Leaf(s))
    ensures var b := BuildRes(params, keys, schema);
            (b == Built(Str(s)) <==> Fits(schema, Str(s))) && (b.Refused? <==> !Accepts(schema, Str(s))) && b != Built(Nil)
  {
    hide DeepGet;
  }

  /** Wherever the nested map of a value lies, the rebuild under any schema returns exactly the values
      that fit the schema, reports an error exactly for those it does not accept, and never ignores
      a value. */
  lemma {:induction false} Rebuilds(params: Tree, keys: seq<string>, schema: Schema, v: Value)
    requires Flattenable(v) && DeepGet(params, keys) == Some(TreeOf(v))
    ensures var b := BuildRes(params, keys, schema);
            (b == Built(v) <==> Fits(schema, v)) && (b.Refused? <==> !Accepts(schema, v)) && b != Built(Nil)
    decreases schema, 1
  {
    hide DeepGet, Flattenable, Parts, Itoa, SliceLength, IndexKeys;
    if v.Str? {
      TextOrParts(v);
      TextRebuilt(params, keys, schema, v.text);
    } else {
      TextOrParts(v);
      TreeParts(v);
      match schema
      case TextSchema =>
      case ArraySchema(items) => RebuildsArray(params, keys, items, v);
      case ObjectSchema(_, _) => RebuildsObject(params, keys, schema, v);
    }
  }

  lemma TextOrParts(v: Value)
    requires Flattenable(v)
    ensures if v.Str? then v.text != "" && TreeOf(v) == Leaf(v.text) else v.Arr? || v.Obj?
  {}

  /** What lies under a key of a value. */
  lemma {:induction false} RebuildsPart(params: Tree, keys: seq<string>, schema: Schema, v: Value, k: string)
    requires Flattenable(v) && (v.Arr? || v.Obj?) && k != "" && DeepGet(params, keys) == Some(TreeOf(v))
    ensures var b := BuildRes(params, keys + [k], schema);
            if k in Parts(v) then
              && (b == Built(Parts(v)[k]) <==> Fits(schema, Parts(v)[k]))
              && (b.Refused? <==> !Accepts(schema, Parts(v)[k])) && b != Built(Nil)
            else b == Built(Nil)
    decreases schema, 2
  {
    hide DeepGet, Flattenable, Parts, TreeOf, BuildRes, Fits, Accepts;
    TreeParts(v);
    GetSnoc(params, keys, k);
    if k in Parts(v) {
      PlainPart(v, k);
      Rebuilds(params, keys + [k], schema, Parts(v)[k]);
    } else {
      Missing(params, keys + [k], schema);
    }
  }

  // ---------------------------------------------------------------- arrays

  lemma {:induction false} RebuildsArray(params: Tree, keys: seq<string>, items: Schema, v: Value)
    requires Flattenable(v) && (v.Arr? || v.Obj?) && DeepGet(params, keys) == Some(TreeOf(v))
    ensures var b, schema := BuildRes(params, keys, ArraySchema(items)), ArraySchema(items);
            (b == Built(v) <==> Fits(schema, v)) && (b.Refused? <==> !Accepts(schema, v)) && b != Built(Nil)
    decreases items, 3
  {
    hide DeepGet, SliceLength, TreeOf, Itoa, IndexKeys, Flattenable, Parts;
    TreeParts(v);
    if v.Arr? {
      ArrayParts(v.items);
      ArrayLength(|v.items|) by { PlainLength(v); }
    }
    var parts := Parts(v);
    if SliceLength(parts.Keys).Some? {
      var n := SliceLength(parts.Keys).value;
      var built := seq(n, i requires 0 <= i < n => BuildRes(params, keys + [Itoa(i)], items));
      forall i | 0 <= i < n
        ensures if Itoa(i) in parts then
                  && (built[i] == Built(parts[Itoa(i)]) <==> Fits(items, parts[Itoa(i)]))
                  && (built[i].Refused? <==> !Accepts(items, parts[Itoa(i)]))
                else built[i] == Built(Nil)
      {
        RebuildsPart(params, keys, items, v, Itoa(i));
      }
      BuildArray(params, keys, items, built);
      hide BuildRes;
      ItemsTogether(items, v, built);
    }
  }

  lemma PlainLength(v: Value)
    requires Flattenable(v) && v.Arr?
    ensures |v.items| <= INT_LIMIT
  {}

  lemma ArrayParts(vs: seq<Value>)
    ensures Parts(Arr(vs)).Keys == IndexKeys(|vs|)
    ensures forall i :: 0 <= i < |vs| ==> Itoa(i) in Parts(Arr(vs)) && Parts(Arr(vs))[Itoa(i)] == vs[i]
  {
    forall i | 0 <= i < |vs| ensures Itoa(i) in Parts(Arr(vs)) && Parts(Arr(vs))[Itoa(i)] == vs[i] {
      DecimalItoa(i);
    }
  }

  /** An array of the results, unless one of them is an error. */
  function Together(built: seq<Built>): Built {
    if exists i :: 0 <= i < |built| && built[i].Refused? then Refused
    else Built(Arr(seq(|built|, i requires 0 <= i < |built| => ValueOf(built[i]))))
  }

  lemma BuildArray(params: Tree, keys: seq<string>, items: Schema, built: seq<Built>)
    requires DeepGet(params, keys).Some? && DeepGet(params, keys).value.Sub?
    requires SliceLength(DeepGet(params, keys).value.entries.Keys) == Some(|built|)
    requires forall i :: 0 <= i < |built| ==> built[i] == BuildRes(params, keys + [Itoa(i)], items)
    ensures BuildRes(params, keys, ArraySchema(items)) == Together(built)
  {
    hide DeepGet, SliceLength, Itoa;
    var r := BuildRes(params, keys, ArraySchema(items));
    if i :| 0 <= i < |built| && built[i].Refused? {
      assert BuildRes(params, keys + [Itoa(i)], items).Refused?;
    } else {
      assert r.Built? && r.value.Arr? && r.value.items == Together(built).value.items;
    }
  }

  lemma ItemsTogether(items: Schema, v: Value, built: seq<Built>)
    requires (v.Arr? || v.Obj?) && SliceLength(Parts(v).Keys) == Some(|built|)
    requires v.Arr? ==> |built| == |v.items| && forall i :: 0 <= i < |v.items| ==> Itoa(i) in Parts(v) && Parts(v)[Itoa(i)] == v.items[i]
    requires forall i :: 0 <= i < |built| ==>
               if Itoa(i) in Parts(v) then
                 && (built[i] == Built(Parts(v)[Itoa(i)]) <==> Fits(items, Parts(v)[Itoa(i)]))
                 && (built[i].Refused? <==> !Accepts(items, Parts(v)[Itoa(i)]))
               else built[i] == Built(Nil)
    ensures var b, schema := Together(built), ArraySchema(items);
            (b == Built(v) <==> Fits(schema, v)) && (b.Refused? <==> !Accepts(schema, v)) && b != Built(Nil)
  {
    hide SliceLength, Itoa, Parts;
    var b := Together(built);
    if v.Arr? {
      if b == Built(v) {
        forall i | 0 <= i < |v.items| ensures Fits(items, v.items[i]) {
          assert b.value.items[i] == v.items[i] && !built[i].Refused?;
        }
      }
      if forall i :: 0 <= i < |v.items| ==> Fits(items, v.items[i]) {
        assert forall i :: 0 <= i < |built| ==> built[i] == Built(v.items[i]);
        assert b.value.items == v.items;
      }
    }
  }

  // ---------------------------------------------------------------- objects

  lemma {:induction false} RebuildsObject(params: Tree, keys: seq<string>, schema: Schema, v: Value)
    requires schema.ObjectSchema? && Flattenable(v) && (v.Arr? || v.Obj?) && DeepGet(params, keys) == Some(TreeOf(v))
    ensures var b := BuildRes(params, keys, schema);
            (b == Built(v) <==> Fits(schema, v)) && (b.Refused? <==> !Accepts(schema, v)) && b != Built(Nil)
    decreases schema, 0
  {
    hide DeepGet, TreeOf, Flattenable, Parts, AnyRefused, Kept;
    TreeParts(v);
    var parts, ps := Parts(v), schema.properties;
    var declared := map k | k in ps :: BuildRes(params, Extend(keys, k), ps[k]);
    var extra := if schema.additional.None? then map[] else map k | k in parts :: BuildRes(params, Extend(keys, k), schema.additional.value);
    assert BuildRes(params, keys, schema) == Assemble(declared, extra);
    assert "" !in parts by { if "" in parts { PlainPart(v, ""); } }
    forall k | k in ps ensures PartGives(ps[k], v, k, declared[k]) {
      if k == "" {
        Rebuilds(params, keys, ps[k], v);
      } else {
        RebuildsPart(params, keys, ps[k], v, k);
      }
    }
    forall k | k in extra ensures PartGives(schema.additional.value, v, k, extra[k]) {
      RebuildsPart(params, keys, schema.additional.value, v, k);
    }
    hide BuildRes;
    MembersTogether(schema, v, declared, extra);
  }

  /** What a schema gives for the part under a key, or for the whole value under no key. */
  ghost predicate PartGives(schema: Schema, v: Value, k: string, b: Built) {
    if k == "" then (b.Refused? <==> !Accepts(schema, v)) && b != Built(Nil)
    else if k in Parts(v) then
      (b == Built(Parts(v)[k]) <==> Fits(schema, Parts(v)[k])) && (b.Refused? <==> !Accepts(schema, Parts(v)[k])) && b != Built(Nil)
    else b == Built(Nil)
  }

  lemma MembersTogether(schema: Schema, v: Value, declared: map<string, Built>, extra: map<string, Built>)
    requires schema.ObjectSchema? && (v.Arr? || v.Obj?) && "" !in Parts(v)
    requires declared.Keys == schema.properties.Keys
    requires extra.Keys == if schema.additional.Some? then Parts(v).Keys else {}
    requires forall k :: k in declared ==> PartGives(schema.properties[k], v, k, declared[k])
    requires forall k :: k in extra ==> PartGives(schema.additional.value, v, k, extra[k])
    ensures var b := Assemble(declared, extra);
            (b == Built(v) <==> Fits(schema, v)) && (b.Refused? <==> !Accepts(schema, v)) && b != Built(Nil)
  {
    hide Parts, Kept;
    MembersRefused(schema, v, declared, extra);
    if v.Obj? {
      assert Parts(v) == v.members by { ObjectParts(v.members); }
      MembersKept(schema, v.members, declared, extra);
    }
  }

  lemma ObjectParts(m: map<string, Value>)
    ensures Parts(Obj(m)) == m
  {}

  lemma MembersRefused(schema: Schema, v: Value, declared: map<string, Built>, extra: map<string, Built>)
    requires schema.ObjectSchema? && (v.Arr? || v.Obj?) && "" !in Parts(v)
    requires declared.Keys == schema.properties.Keys
    requires extra.Keys == if schema.additional.Some? then Parts(v).Keys else {}
    requires forall k :: k in declared ==> PartGives(schema.properties[k], v, k, declared[k])
    requires forall k :: k in extra ==> PartGives(schema.additional.value, v, k, extra[k])
    ensures AnyRefused(declared) || AnyRefused(extra) <==> !Accepts(schema, v)
  {
    hide Parts, Fits;
    if !Accepts(schema, v) {
      if k :| k in schema.properties && k in Parts(v) && !Accepts(schema.properties[k], Parts(v)[k]) {
        assert declared[k].Refused?;
      } else if "" in schema.properties && !Accepts(schema.properties[""], v) {
        assert declared[""].Refused?;
      } else {
        var k :| k in Parts(v) && !Accepts(schema.additional.value, Parts(v)[k]);
        assert extra[k].Refused?;
      }
    }
  }

  /** The member comes from the schema for additional properties, or else from its declared one. */
  predicate Survives(declared: map<string, Built>, extra: map<string, Built>, more: bool, k: string, x: Value) {
    if more then k in extra && extra[k] == Built(x) && (k in declared ==> !declared[k].Refused?)
    else k in declared && declared[k] == Built(x)
  }

  ghost predicate MapsFor(declared: map<string, Built>, extra: map<string, Built>, m: map<string, Value>, more: bool) {
    && "" !in m && extra.Keys == (if more then m.Keys else {})
    && (forall k :: k in extra ==> extra[k] != Built(Nil))
    && (forall k :: k in declared ==> (declared[k] == Built(Nil) <==> k != "" && k !in m))
  }

  lemma AssembleOnly(declared: map<string, Built>, extra: map<string, Built>, m: map<string, Value>, more: bool)
    requires MapsFor(declared, extra, m, more) && Assemble(declared, extra) == Built(Obj(m))
    ensures "" !in declared && forall k :: k in m ==> Survives(declared, extra, more, k, m[k])
  {
    var all := Kept(declared) + Kept(extra);
    assert "" in declared ==> "" in all;
    forall k | k in m ensures Survives(declared, extra, more, k, m[k]) {
      assert k in all && all[k] == m[k];
    }
  }

  lemma AssembleIf(declared: map<string, Built>, extra: map<string, Built>, m: map<string, Value>, more: bool)
    requires MapsFor(declared, extra, m, more) && "" !in declared
    requires forall k :: k in m ==> Survives(declared, extra, more, k, m[k])
    ensures Assemble(declared, extra) == Built(Obj(m))
  {
    forall k | k in declared ensures !declared[k].Refused? {
      assert k in m ==> Survives(declared, extra, more, k, m[k]);
    }
    forall k | k in extra ensures extra[k] == Built(m[k]) {
      assert Survives(declared, extra, more, k, m[k]);
    }
    var all := Kept(declared) + Kept(extra);
    forall k | k in m ensures k in all && all[k] == m[k] {
      assert Survives(declared, extra, more, k, m[k]);
    }
    assert all == m;
  }

  lemma MembersKept(schema: Schema, m: map<string, Value>, declared: map<string, Built>, extra: map<string, Built>)
    requires schema.ObjectSchema? && "" !in m && Parts(Obj(m)) == m
    requires declared.Keys == schema.properties.Keys
    requires extra.Keys == if schema.additional.Some? then m.Keys else {}
    requires forall k :: k in declared ==> PartGives(schema.properties[k], Obj(m), k, declared[k])
    requires forall k :: k in extra ==> PartGives(schema.additional.value, Obj(m), k, extra[k])
    ensures Assemble(declared, extra) == Built(Obj(m)) <==> Fits(schema, Obj(m))
  {
    hide Parts, Assemble, Fits, Accepts;
    var more := schema.additional.Some?;
    assert MapsFor(declared, extra, m, more);
    if Assemble(declared, extra) == Built(Obj(m)) {
      AssembleOnly(declared, extra, m, more);
    }
    SurviveIff(schema, m, declared, extra);
    if Fits(schema, Obj(m)) {
      AssembleIf(declared, extra, m, more);
    }
  }

  lemma SurviveIff(schema: Schema, m: map<string, Value>, declared: map<string, Built>, extra: map<string, Built>)
    requires schema.ObjectSchema? && "" !in m && Parts(Obj(m)) == m
    requires declared.Keys == schema.properties.Keys
    requires extra.Keys == if schema.additional.Some? then m.Keys else {}
    requires forall k :: k in declared ==> PartGives(schema.properties[k], Obj(m), k, declared[k])
    requires forall k :: k in extra ==> PartGives(schema.additional.value, Obj(m), k, extra[k])
    ensures Fits(schema, Obj(m)) <==>
            "" !in declared && forall k :: k in m ==> Survives(declared, extra, schema.additional.Some?, k, m[k])
  {
    hide Parts, Accepts;
    forall k | k in m
      ensures Survives(declared, extra, schema.additional.Some?, k, m[k]) <==>
              if schema.additional.Some? then
                Fits(schema.additional.value, m[k]) && (k in schema.properties ==> Accepts(schema.properties[k], m[k]))
              else k in schema.properties && Fits(schema.properties[k], m[k])
    {
      hide Fits;
      assert k in declared ==> PartGives(schema.properties[k], Obj(m), k, declared[k]);
      assert k in extra ==> PartGives(schema.additional.value, Obj(m), k, extra[k]);
    }
  }
}
