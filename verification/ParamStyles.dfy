/** The serialization styles of path parameters: simple, label and matrix, exploded or not
    (Parameter Object, section 4.7.12 of OpenAPI 3.0.3; sections 3.2.2, 3.2.5 and 3.2.7 of
    RFC 6570). */
module ParamStyles {
  import opened Text
  import opened TemplateExpansion
  import opened ParamObjects
  import opened ParamFlat
  import opened ParamOrders
  import opened ParamBuild

  datatype Serialization = Serialization(style: Style, explode: bool)

  /** What decoding a parameter comes to: no such parameter, a value (an empty list stands for
      nil), a parse error, a style that does not apply, or the panic of `deepSet`. */
  datatype Decoded<+T> = Absent | Decoded(value: T) | Malformed | Unsupported | Crashed

  // ---------------------------------------------------------------- prefixes and delimiters

  function ValuePrefix(sm: Serialization, param: string): Option<string> {
    match sm.style
    case Simple => Some("")
    case Label => Some(".")
    case Matrix => Some(";" + param + "=")
    case Other => None
  }

  function ArrayDelimiter(sm: Serialization, param: string): (delim: string)
    ensures delim != ""
  {
    match sm.style
    case Simple => ","
    case Label => if sm.explode then "." else ","
    case Matrix => if sm.explode then ";" + param + "=" else ","
    case Other => ","
  }

  function ObjectPrefix(sm: Serialization, param: string): Option<string> {
    if sm.style == Matrix && sm.explode then Some(";") else ValuePrefix(sm, param)
  }

  /** The delimiter between properties, and the one between a name and its value. */
  function ObjectDelimiters(sm: Serialization): (char, char) {
    if !sm.explode then (',', ',')
    else match sm.style
      case Simple => (',', '=')
      case Label => ('.', '=')
      case Matrix => (';', '=')
      case Other => (',', '=')
  }

  /** `cutPrefix`. */
  function CutPrefix(raw: string, prefix: string): (r: Option<string>)
    ensures r.Some? <==> prefix <= raw
    ensures r.Some? ==> raw == prefix + r.value
  {
    if prefix == "" then Some(raw)
    else if |raw| < |prefix| || raw[..|prefix|] != prefix then None
    else Some(raw[|prefix|..])
  }

  lemma CutBack(prefix: string, src: string)
    ensures CutPrefix(prefix + src, prefix) == Some(src)
  {
    assert (prefix + src)[|prefix|..] == src && (prefix + src)[..|prefix|] == prefix;
  }

  /** The raw text of a path parameter; a missing and an empty one are the same. */
  function Raw(params: map<string, string>, param: string): Option<string> {
    if param in params && params[param] != "" then Some(params[param]) else None
  }

  // ---------------------------------------------------------------- primitives

  /** `parsePrimitive`. */
  function ParsePrimitive(raw: string, schema: Schema): Built {
    if raw == "" then Built(Nil) else if schema.TextSchema? then Built(Str(raw)) else Refused
  }

  function DecodePrimitive(params: map<string, string>, param: string, sm: Serialization, schema: Schema): Decoded<Value> {
    match ValuePrefix(sm, param)
    case None => Unsupported
    case Some(prefix) =>
      if Raw(params, param).None? then Absent
      else match CutPrefix(Raw(params, param).value, prefix)
        case None => Malformed
        case Some(src) => if ParsePrimitive(src, schema).Refused? then Malformed else Decoded(ParsePrimitive(src, schema).value)
  }

  /** The decoders cut off what the expansion puts in front. */
  lemma PrefixIsLead(sm: Serialization, param: string)
    ensures ValuePrefix(sm, param) == if sm.style == Other then None else Some(Lead(sm.style, param))
  {}

  /** A text written in a style comes back exactly when it is not empty. */
  lemma PrimitiveRoundTrip(params: map<string, string>, param: string, sm: Serialization, text: string)
    requires sm.style != Other && param in params && params[param] == ExpandText(sm.style, param, text)
    ensures DecodePrimitive(params, param, sm, TextSchema) == Decoded(Str(text)) <==> text != ""
  {
    if text != "" {
      assert ExpandText(sm.style, param, text) == Lead(sm.style, param) + text;
      CutBack(Lead(sm.style, param), text);
    }
  }

  /** What any raw text comes to: an unknown style, nothing given, a text without what the style puts in
      front, or what is behind it. */
  lemma PrimitiveIs(params: map<string, string>, param: string, sm: Serialization)
    ensures DecodePrimitive(params, param, sm, TextSchema) ==
            if sm.style == Other then Unsupported
            else if param !in params || params[param] == "" then Absent
            else if !(Lead(sm.style, param) <= params[param]) then Malformed
            else if params[param] == Lead(sm.style, param) then Decoded(Nil)
            else Decoded(Str(params[param][|Lead(sm.style, param)|..]))
  {
    hide Lead, CutPrefix;
    PrefixIsLead(sm, param);
    if param in params && Lead(sm.style, param) <= params[param] {
      var lead := Lead(sm.style, param);
      var raw := params[param];
      assert raw == lead + raw[|lead|..];
      CutBack(lead, raw[|lead|..]);
    }
  }

  // ---------------------------------------------------------------- arrays

  /** `parseArray`, from the items parsed so far: an error stops it, and an empty item makes the
      whole array nil. */
  function ParseItems(raw: seq<string>, items: Schema, parsed: seq<Value>): Option<seq<Value>>
    decreases |raw|
  {
    if raw == [] then Some(parsed)
    else match ParsePrimitive(raw[0], items)
      case Refused => None
      case Built(v) => if v == Nil then Some([]) else ParseItems(raw[1..], items, parsed + [v])
  }

  method ParseArray(raw: seq<string>, items: Schema) returns (r: Option<seq<Value>>)
    ensures r == ParseItems(raw, items, [])
  {
    var value: seq<Value> := [];
    assert raw[0..] == raw;
    for i := 0 to |raw|
      invariant ParseItems(raw, items, []) == ParseItems(raw[i..], items, value)
    {
      assert raw[i..][1..] == raw[i + 1..];
      var item := ParsePrimitive(raw[i], items);
      if item.Refused? {
        return None;
      }
      if item.value == Nil {
        return Some([]);
      }
      value := value + [item.value];
    }
    return Some(value);
  }

  function Texts(raw: seq<string>): (vs: seq<Value>)
    ensures |vs| == |raw| && forall i :: 0 <= i < |raw| ==> vs[i] == Str(raw[i])
  {
    seq(|raw|, i requires 0 <= i < |raw| => Str(raw[i]))
  }

  lemma {:induction false} ParseTexts(raw: seq<string>, parsed: seq<Value>)
    ensures ParseItems(raw, TextSchema, parsed) == Some(if "" in raw then [] else parsed + Texts(raw))
    decreases |raw|
  {
    hide Texts;
    if raw == [] {
      assert parsed + Texts(raw) == parsed;
    } else if raw[0] == "" {
      assert ParseItems(raw, TextSchema, parsed) == Some([]);
    } else {
      var rest := raw[1..];
      ParseTexts(rest, parsed + [Str(raw[0])]);
      EmptyInRest(raw);
      TextsCons(raw);
      assert parsed + [Str(raw[0])] + Texts(rest) == parsed + Texts(raw);
    }
  }

  lemma EmptyInRest(raw: seq<string>)
    requires raw != [] && raw[0] != ""
    ensures "" in raw <==> "" in raw[1..]
  {
    assert raw == [raw[0]] + raw[1..];
  }

  lemma TextsCons(raw: seq<string>)
    requires raw != []
    ensures Texts(raw) == [Str(raw[0])] + Texts(raw[1..])
  {}

  function DecodedArray(params: map<string, string>, param: string, sm: Serialization, items: Schema): Decoded<seq<Value>> {
    match ValuePrefix(sm, param)
    case None => Unsupported
    case Some(prefix) =>
      if Raw(params, param).None? then Absent
      else match CutPrefix(Raw(params, param).value, prefix)
        case None => Malformed
        case Some(src) =>
          match ParseItems(Split(src, ArrayDelimiter(sm, param)), items, [])
          case None => Malformed
          case Some(vs) => Decoded(vs)
  }

  method DecodeArray(params: map<string, string>, param: string, sm: Serialization, items: Schema) returns (r: Decoded<seq<Value>>)
    ensures r == DecodedArray(params, param, sm, items)
  {
    var prefix := ValuePrefix(sm, param);
    if prefix.None? {
      return Unsupported;
    }
    if param !in params || params[param] == "" {
      return Absent;
    }
    var src := CutPrefix(params[param], prefix.value);
    if src.None? {
      return Malformed;
    }
    var vs := ParseArray(Split(src.value, ArrayDelimiter(sm, param)), items);
    if vs.None? {
      return Malformed;
    }
    return Decoded(vs.value);
  }

  /** What a raw value comes to. */
  lemma DecodedTexts(params: map<string, string>, param: string, sm: Serialization)
    ensures DecodedArray(params, param, sm, TextSchema) ==
            if sm.style == Other then Unsupported
            else if param !in params || params[param] == "" then Absent
            else if !(Lead(sm.style, param) <= params[param]) then Malformed
            else var parts := Split(params[param][|Lead(sm.style, param)|..], ArrayDelimiter(sm, param));
                 Decoded(if "" in parts then [] else Texts(parts))
  {
    hide Split, ParseItems, Texts, CutPrefix, ArrayDelimiter, Lead;
    PrefixIsLead(sm, param);
    if param in params && Lead(sm.style, param) <= params[param] {
      var lead, raw := Lead(sm.style, param), params[param];
      var src := raw[|lead|..];
      assert raw == lead + src;
      CutBack(lead, src);
      var parts := Split(src, ArrayDelimiter(sm, param));
      ParseTexts(parts, []);
      assert [] + Texts(parts) == Texts(parts);
    }
  }

  /** The expansion of a list without empty values. */
  lemma ListWritten(sm: Serialization, param: string, items: seq<string>)
    requires sm.style != Other && items != [] && "" !in items
    ensures ExpandList(sm.style, sm.explode, param, items) == Lead(sm.style, param) + Join(items, ArrayDelimiter(sm, param))
    ensures Splittable(items, ArrayDelimiter(sm, param)) <==> ListApart(sm.style, sm.explode, param, items)
  {
    hide Join, Commas, Each, Named, Splittable;
    CommasJoin(items);
    EachJoin(".", items);
    EachJoin(";" + param + "=", items);
    NamedList(param, items);
    SplittableByte(items, ',');
    SplittableByte(items, '.');
    assert "" + Join(items, ",") == Join(items, ",");
  }

  /** Style round trip for arrays: the expansion of a non-empty list comes back as the list exactly when
      no item is empty and the items can be told apart in it. */
  lemma ArrayRoundTrip(params: map<string, string>, param: string, sm: Serialization, items: seq<string>)
    requires sm.style != Other && items != [] && param in params && params[param] == ExpandList(sm.style, sm.explode, param, items)
    ensures DecodedArray(params, param, sm, TextSchema) == Decoded(Texts(items)) <==>
            "" !in items && ListApart(sm.style, sm.explode, param, items)
  {
    hide Join, Split, Splittable, DecodedArray, Texts, ArrayDelimiter, Lead, ExpandList, ListApart;
    DecodedTexts(params, param, sm);
    if "" in items {
      NoEmptyText(params, param, sm, items);
    } else {
      var lead, delim := Lead(sm.style, param), ArrayDelimiter(sm, param);
      ListWritten(sm, param, items);
      JoinNotEmpty(items, delim);
      var src := Join(items, delim);
      assert (lead + src)[|lead|..] == src && lead <= lead + src;
      SplitJoin(items, delim);
      if Texts(Split(src, delim)) == Texts(items) {
        TextsInjective(Split(src, delim), items);
      }
      assert Texts(items) != [] by { assert |Texts(items)| == |items| by { TextsLength(items); } }
    }
  }

  lemma TextsLength(items: seq<string>)
    ensures |Texts(items)| == |items|
  {}

  /** No array with an empty text is ever decoded. */
  lemma NoEmptyText(params: map<string, string>, param: string, sm: Serialization, items: seq<string>)
    requires "" in items
    ensures DecodedArray(params, param, sm, TextSchema) != Decoded(Texts(items))
  {
    hide Split, DecodedArray, Texts, ArrayDelimiter, Lead;
    DecodedTexts(params, param, sm);
    TextsLength(items);
    if sm.style != Other && param in params && Lead(sm.style, param) <= params[param] {
      var parts := Split(params[param][|Lead(sm.style, param)|..], ArrayDelimiter(sm, param));
      if Texts(parts) == Texts(items) {
        TextsInjective(parts, items);
      }
    }
  }

  lemma TextsInjective(a: seq<string>, b: seq<string>)
    requires Texts(a) == Texts(b)
    ensures a == b
  {
    assert |a| == |Texts(a)| == |Texts(b)| == |b|;
    assert forall i :: 0 <= i < |a| ==> Texts(a)[i] == Str(a[i]) && Texts(b)[i] == Str(b[i]);
  }

  lemma JoinNotEmpty(items: seq<string>, delim: string)
    requires items != [] && "" !in items
    ensures Join(items, delim) != ""
  {
    assert items[0] in items;
  }

  /** Decoding undoes expanding and nothing else: a list comes out exactly when its expansion went in, no
      item is empty and the items can be told apart in it. */
  lemma ArrayIff(params: map<string, string>, param: string, sm: Serialization, items: seq<string>)
    requires items != []
    ensures DecodedArray(params, param, sm, TextSchema) == Decoded(Texts(items)) <==>
            && sm.style != Other && param in params && params[param] == ExpandList(sm.style, sm.explode, param, items)
            && "" !in items && ListApart(sm.style, sm.explode, param, items)
  {
    hide Join, Split, Splittable, DecodedArray, Texts, ArrayDelimiter, Lead, ExpandList, ListApart;
    if DecodedArray(params, param, sm, TextSchema) == Decoded(Texts(items)) {
      DecodedTexts(params, param, sm);
      TextsLength(items);
      var lead, raw, delim := Lead(sm.style, param), params[param], ArrayDelimiter(sm, param);
      var parts := Split(raw[|lead|..], delim);
      TextsInjective(parts, items);
      JoinSplit(raw[|lead|..], delim);
      assert raw == lead + raw[|lead|..];
      ListWritten(sm, param, items);
    }
    if sm.style != Other && param in params && params[param] == ExpandList(sm.style, sm.explode, param, items) {
      ArrayRoundTrip(params, param, sm, items);
    }
  }

  /** Items that are arrays or objects are refused, unless the first one is empty. */
  lemma NestedItemsRefused(raw: seq<string>, items: Schema)
    requires !items.TextSchema? && raw != []
    ensures ParseItems(raw, items, []) == if raw[0] == "" then Some([]) else None
  {}

  /** In particular, items that are free of the byte behind which the next one begins come back. */
  lemma ArrayOfFreeItems(params: map<string, string>, param: string, sm: Serialization, items: seq<string>)
    requires sm.style != Other && items != [] && param in params && params[param] == ExpandList(sm.style, sm.explode, param, items)
    requires var c := if !sm.explode || sm.style == Simple then ',' else if sm.style == Label then '.' else ';';
             forall i :: 0 <= i < |items| ==> items[i] != "" && c !in items[i]
    ensures DecodedArray(params, param, sm, TextSchema) == Decoded(Texts(items))
  {
    hide DecodedArray, ExpandList, Splittable;
    ArrayRoundTrip(params, param, sm, items);
    if sm.explode && sm.style == Matrix {
      FreeOfByte(items, ";" + param + "=");
    }
  }

  // ---------------------------------------------------------------- property lists

  /** The pairs written into a map one after the other. */
  function MapOf(pairs: seq<Property>): map<string, string> {
    if pairs == [] then map[] else MapOf(pairs[..|pairs| - 1])[pairs[|pairs| - 1].0 := pairs[|pairs| - 1].1]
  }

  /** Every second item is a name, and the one behind it its value. */
  function PairUp(parts: seq<string>): (pairs: seq<Property>)
    requires |parts| % 2 == 0
    ensures 2 * |pairs| == |parts|
  {
    if parts == [] then [] else [(parts[0], parts[1])] + PairUp(parts[2..])
  }

  lemma {:induction false} PairUpAt(parts: seq<string>, i: nat)
    requires |parts| % 2 == 0 && 2 * i < |parts|
    ensures 2 * i + 1 < |parts| && PairUp(parts)[i] == (parts[2 * i], parts[2 * i + 1])
    decreases i
  {
    if i > 0 {
      PairUpAt(parts[2..], i - 1);
    }
  }

  /** The names and values of a property list; None where its format is invalid. */
  function PropertyList(src: string, pd: string, vd: string): Option<seq<Property>>
    requires pd != "" && vd != ""
  {
    var parts := Split(src, pd);
    if pd == vd then
      if |parts| % 2 != 0 then None
      else Some(PairUp(parts))
    else if exists i :: 0 <= i < |parts| && |Split(parts[i], vd)| != 2 then None
    else Some(seq(|parts|, i requires 0 <= i < |parts| && |Split(parts[i], vd)| == 2 => (Split(parts[i], vd)[0], Split(parts[i], vd)[1])))
  }

  /** `propsFromString`. */
  method PropsFromString(src: string, pd: string, vd: string) returns (r: Option<map<string, string>>)
    requires pd != "" && vd != ""
    ensures r == match PropertyList(src, pd, vd) case None => None case Some(pairs) => Some(MapOf(pairs))
  {
    hide Split, PairUp;
    var props: map<string, string> := map[];
    var parts := Split(src, pd);
    ghost var list := PropertyList(src, pd, vd);
    if pd == vd {
      if |parts| % 2 != 0 {
        return None;
      }
      assert list.value[..0] == [];
      for i := 0 to |parts| / 2
        invariant props == MapOf(list.value[..i])
      {
        assert list.value[..i + 1][..i] == list.value[..i];
        PairUpAt(parts, i);
        props := props[parts[i * 2] := parts[i * 2 + 1]];
      }
      assert list.value[..|parts| / 2] == list.value;
      return Some(props);
    }
    ghost var done: seq<Property> := [];
    for i := 0 to |parts|
      invariant |done| == i && props == MapOf(done)
      invariant forall j :: 0 <= j < i ==>
                  |Split(parts[j], vd)| == 2 && done[j] == (Split(parts[j], vd)[0], Split(parts[j], vd)[1])
    {
      var prop := Split(parts[i], vd);
      if |prop| != 2 {
        return None;
      }
      props := props[prop[0] := prop[1]];
      done := done + [(prop[0], prop[1])];
      assert done[..i] + [done[i]] == done;
    }
    assert list.Some? && list.value == done;
    return Some(props);
  }

  lemma {:induction false} PairUpInterleaved(pairs: seq<Property>)
    ensures PairUp(InTurn(pairs)) == pairs
    decreases |pairs|
  {
    if pairs != [] {
      PairUpInterleaved(pairs[1..]);
      assert InTurn(pairs)[2..] == InTurn(pairs[1..]);
    }
  }

  lemma {:induction false} InterleavedPairUp(parts: seq<string>)
    requires |parts| % 2 == 0
    ensures InTurn(PairUp(parts)) == parts
    decreases |parts|
  {
    if parts != [] {
      InterleavedPairUp(parts[2..]);
      assert PairUp(parts)[1..] == PairUp(parts[2..]);
      assert parts == [parts[0], parts[1]] + parts[2..];
    }
  }

  lemma {:induction false} InterleavedFree(pairs: seq<Property>, c: char)
    ensures (forall i :: 0 <= i < |InTurn(pairs)| ==> c !in InTurn(pairs)[i]) <==> FreeOf(pairs, c)
    decreases |pairs|
  {
    if pairs != [] {
      var rest := InTurn(pairs[1..]);
      InterleavedFree(pairs[1..], c);
      var parts := InTurn(pairs);
      assert parts[0] == pairs[0].0 && parts[1] == pairs[0].1;
      assert forall i :: 0 <= i < |rest| ==> rest[i] == parts[i + 2];
      assert forall i :: 0 <= i < |pairs| - 1 ==> pairs[1..][i] == pairs[i + 1];
      if FreeOf(pairs[1..], c) && c !in parts[0] && c !in parts[1] {
        assert forall i :: 0 < i < |pairs| ==> pairs[i] == pairs[1..][i - 1];
        assert forall i :: 2 <= i < |parts| ==> parts[i] == rest[i - 2];
      }
    }
  }

  /** Each name with its value. */
  function Written(pairs: seq<Property>, vd: char): (parts: seq<string>)
    ensures |parts| == |pairs| && forall i :: 0 <= i < |pairs| ==> parts[i] == pairs[i].0 + [vd] + pairs[i].1
  {
    seq(|pairs|, i requires 0 <= i < |pairs| => pairs[i].0 + [vd] + pairs[i].1)
  }

  function EncodeProps(pairs: seq<Property>, pd: char, vd: char): string {
    Join(if pd == vd then InTurn(pairs) else Written(pairs, vd), [pd])
  }

  /** A property list comes back exactly when no name or value contains a delimiter. */
  lemma PropertiesRoundTrip(pairs: seq<Property>, pd: char, vd: char)
    requires pairs != []
    ensures PropertyList(EncodeProps(pairs, pd, vd), [pd], [vd]) == Some(pairs) <==> FreeOf(pairs, pd) && FreeOf(pairs, vd)
  {
    if pd == vd {
      InterleavedRoundTrip(pairs, pd);
    } else {
      WrittenRoundTrip(pairs, pd, vd);
    }
  }

  /** Reading a property list undoes writing it and nothing else: every other text is refused. */
  lemma PropertyListIff(src: string, pairs: seq<Property>, pd: char, vd: char)
    requires pairs != []
    ensures PropertyList(src, [pd], [vd]) == Some(pairs) <==>
            src == EncodeProps(pairs, pd, vd) && FreeOf(pairs, pd) && FreeOf(pairs, vd)
  {
    hide Split, Join, FreeOf;
    if PropertyList(src, [pd], [vd]) == Some(pairs) {
      var parts := Split(src, [pd]);
      JoinSplit(src, [pd]);
      if pd == vd {
        hide PairUp, InTurn;
        InterleavedPairUp(parts);
      } else {
        forall i | 0 <= i < |parts| ensures parts[i] == Written(pairs, vd)[i] {
          PairJoined(parts[i], vd);
        }
        assert parts == Written(pairs, vd);
      }
    }
    hide PropertyList, EncodeProps;
    PropertiesRoundTrip(pairs, pd, vd);
  }

  lemma InterleavedRoundTrip(pairs: seq<Property>, d: char)
    requires pairs != []
    ensures PropertyList(EncodeProps(pairs, d, d), [d], [d]) == Some(pairs) <==> FreeOf(pairs, d)
  {
    hide Split, Join, Splittable, FreeOf, InTurn, PairUp;
    var parts := InTurn(pairs);
    SplitJoin(parts, [d]);
    SplittableByte(parts, d);
    InterleavedFree(pairs, d);
    PairUpInterleaved(pairs);
    var split := Split(Join(parts, [d]), [d]);
    if |split| % 2 == 0 {
      InterleavedPairUp(split);
    }
  }

  lemma PairSplit(name: string, value: string, vd: char)
    ensures Split(name + [vd] + value, [vd]) == [name, value] <==> vd !in name && vd !in value
  {
    hide Split, Splittable;
    var parts := [name, value];
    assert Join(parts, [vd]) == name + [vd] + value by {
      assert parts[1..] == [value];
    }
    hide Join;
    SplitJoin(parts, [vd]);
    SplittableByte(parts, vd);
    assert parts[0] == name && parts[1] == value;
  }

  lemma PairJoined(part: string, vd: char)
    requires |Split(part, [vd])| == 2
    ensures part == Split(part, [vd])[0] + [vd] + Split(part, [vd])[1]
  {
    hide Split;
    var parts := Split(part, [vd]);
    JoinSplit(part, [vd]);
    assert parts[1..] == [parts[1]];
  }

  lemma WrittenRoundTrip(pairs: seq<Property>, pd: char, vd: char)
    requires pairs != [] && pd != vd
    ensures PropertyList(EncodeProps(pairs, pd, vd), [pd], [vd]) == Some(pairs) <==> FreeOf(pairs, pd) && FreeOf(pairs, vd)
  {
    hide Split, Join, Splittable;
    var parts := Written(pairs, vd);
    SplitJoin(parts, [pd]);
    SplittableByte(parts, pd);
    var src := Join(parts, [pd]);
    var split := Split(src, [pd]);
    assert (forall i :: 0 <= i < |parts| ==> pd !in parts[i]) <==> FreeOf(pairs, pd);
    forall i | 0 <= i < |pairs|
      ensures Split(parts[i], [vd]) == [pairs[i].0, pairs[i].1] <==> vd !in pairs[i].0 && vd !in pairs[i].1
    {
      PairSplit(pairs[i].0, pairs[i].1, vd);
    }
    if FreeOf(pairs, pd) && FreeOf(pairs, vd) {
      WrittenForth(pairs, parts, src, pd, vd);
    }
    if PropertyList(src, [pd], [vd]) == Some(pairs) {
      WrittenBack(pairs, parts, src, pd, vd);
    }
  }

  lemma WrittenForth(pairs: seq<Property>, parts: seq<string>, src: string, pd: char, vd: char)
    requires pd != vd && Split(src, [pd]) == parts && |parts| == |pairs|
    requires forall i :: 0 <= i < |pairs| ==> Split(parts[i], [vd]) == [pairs[i].0, pairs[i].1]
    ensures PropertyList(src, [pd], [vd]) == Some(pairs)
  {
    hide Split;
    var list := PropertyList(src, [pd], [vd]);
    assert list.Some? && list.value == pairs;
  }

  lemma WrittenBack(pairs: seq<Property>, parts: seq<string>, src: string, pd: char, vd: char)
    requires pd != vd && parts == Written(pairs, vd) && PropertyList(src, [pd], [vd]) == Some(pairs)
    ensures Split(src, [pd]) == parts
    ensures forall i :: 0 <= i < |pairs| ==> Split(parts[i], [vd]) == [pairs[i].0, pairs[i].1]
  {
    hide Split;
    var split := Split(src, [pd]);
    var list := PropertyList(src, [pd], [vd]).value;
    assert |split| == |list| == |pairs|;
    forall i | 0 <= i < |pairs| ensures split[i] == parts[i] && Split(parts[i], [vd]) == [pairs[i].0, pairs[i].1] {
      assert |Split(split[i], [vd])| == 2 && list[i] == (Split(split[i], [vd])[0], Split(split[i], [vd])[1]);
      PairJoined(split[i], vd);
    }
  }

  // ---------------------------------------------------------------- objects

  /** The property list that the object decoder of path parameters reads. */
  function PropertiesRead(params: map<string, string>, param: string, sm: Serialization): Option<seq<Property>> {
    match ObjectPrefix(sm, param)
    case None => None
    case Some(prefix) =>
      if Raw(params, param).None? then None
      else match CutPrefix(Raw(params, param).value, prefix)
        case None => None
        case Some(src) => PropertyList(src, [ObjectDelimiters(sm).0], [ObjectDelimiters(sm).1])
  }

  /** The object decoder of path parameters: the outcomes it may have. Properties that do not fit into
      one nested map make it depend on an order that is not fixed. */
  ghost predicate DecodesTo(params: map<string, string>, param: string, sm: Serialization, schema: Schema, r: Decoded<map<string, Value>>) {
    match PropertiesRead(params, param, sm)
    case Some(pairs) => exists made :: Makes(MapOf(pairs), schema, made) && r == FromMade(made)
    case None =>
      r == if ObjectPrefix(sm, param).None? then Unsupported else if Raw(params, param).None? then Absent else Malformed
  }

  function FromMade(made: Made): Decoded<map<string, Value>> {
    match made
    case Made(m) => Decoded(m)
    case Rejected => Malformed
    case Panicked => Crashed
  }

  method DecodeObject(params: map<string, string>, param: string, sm: Serialization, schema: Schema) returns (r: Decoded<map<string, Value>>)
    ensures DecodesTo(params, param, sm, schema, r)
  {
    hide PropertyList, ObjectOf, Tells, Makes;
    var prefix := ObjectPrefix(sm, param);
    if prefix.None? {
      return Unsupported;
    }
    if param !in params || params[param] == "" {
      return Absent;
    }
    var src := CutPrefix(params[param], prefix.value);
    if src.None? {
      return Malformed;
    }
    var (pd, vd) := ObjectDelimiters(sm);
    var props := PropsFromString(src.value, [pd], [vd]);
    if props.None? {
      return Malformed;
    }
    var made := MakeObject(props.value, schema);
    return FromMade(made);
  }

  /** The expansion of a list of properties. In the exploded matrix style an empty value is written
      without its equals sign. */
  lemma PairsWritten(sm: Serialization, param: string, pairs: seq<Property>)
    requires sm.style != Other && pairs != []
    requires sm.style == Matrix && sm.explode ==> forall i :: 0 <= i < |pairs| ==> pairs[i].1 != ""
    ensures var (pd, vd) := ObjectDelimiters(sm);
            && ExpandPairs(sm.style, sm.explode, param, pairs) == ObjectPrefix(sm, param).value + EncodeProps(pairs, pd, vd)
            && (PairsApart(sm.style, sm.explode, pairs) <==> FreeOf(pairs, pd) && FreeOf(pairs, vd))
  {
    hide Join, Commas, Each, Named, Equals, FreeOf, InTurn, Written;
    CommasJoin(InTurn(pairs));
    CommasJoin(Equals(pairs));
    assert Equals(pairs) == Written(pairs, '=') by { EqualsIs(pairs); }
    assert Equals(pairs) != [];
    EachJoin(".", Equals(pairs));
    EachJoin(";", Equals(pairs));
    if sm.style == Matrix && sm.explode {
      NamedEach(pairs);
    }
    assert "" + Join(InTurn(pairs), ",") == Join(InTurn(pairs), ",") && "" + Join(Equals(pairs), ",") == Join(Equals(pairs), ",");
  }

  /** Properties are read exactly where their expansion went in and they can be told apart in it. In the
      exploded matrix style, which leaves out the equals sign of an empty value, this is so for values
      that are not empty. */
  lemma PropertiesReadIff(params: map<string, string>, param: string, sm: Serialization, pairs: seq<Property>)
    requires pairs != [] && (sm.style == Matrix && sm.explode ==> forall i :: 0 <= i < |pairs| ==> pairs[i].1 != "")
    ensures PropertiesRead(params, param, sm) == Some(pairs) <==>
            && sm.style != Other && param in params && params[param] == ExpandPairs(sm.style, sm.explode, param, pairs)
            && PairsApart(sm.style, sm.explode, pairs)
  {
    hide PropertyList, ExpandPairs, PairsApart, EncodeProps, FreeOf;
    if sm.style != Other && param in params {
      var (pd, vd) := ObjectDelimiters(sm);
      var prefix, raw := ObjectPrefix(sm, param).value, params[param];
      PairsWritten(sm, param, pairs);
      EncodedNotEmpty(pairs, pd, vd);
      if prefix <= raw {
        var src := raw[|prefix|..];
        assert raw == prefix + src;
        CutBack(prefix, src);
        PropertyListIff(src, pairs, pd, vd);
      }
    }
  }

  lemma EqualsIs(pairs: seq<Property>)
    ensures Equals(pairs) == Written(pairs, '=')
  {}

  /** An object whose members are texts. */
  function TextMembers(props: map<string, string>): map<string, Value> {
    map k | k in props :: Str(props[k])
  }

  /** Such an object is flattened to its own names. */
  lemma FlatTexts(props: map<string, string>)
    ensures Flatten(Obj(TextMembers(props))) == props
  {
    var v := Obj(TextMembers(props));
    forall x | x in Pairs(v) ensures exists k :: k in props && x == ([k], props[k]) && Join(x.0, DELIMITER) == k {
      var k, y :| k in props && y in Pairs(Str(props[k])) && x == ([k] + y.0, y.1);
      assert y == ([], props[k]) && [k] + [] == [k];
      assert x == ([k], props[k]);
    }
    forall k | k in props ensures ([k], props[k]) in Pairs(v) && Join([k], DELIMITER) == k {
      assert ([], props[k]) in Pairs(TextMembers(props)[k]);
      MemberPairs(TextMembers(props), k, [], props[k]);
      assert [k] + [] == [k];
    }
    FlatIs(v, props);
  }

  lemma FlatIs(v: Value, props: map<string, string>)
    requires forall x :: x in Pairs(v) ==> exists k :: k in props && x == ([k], props[k]) && Join(x.0, DELIMITER) == k
    requires forall k :: k in props ==> ([k], props[k]) in Pairs(v) && Join([k], DELIMITER) == k
    ensures Flatten(v) == props
  {
    hide Pairs, Join;
    var flat := Flatten(v);
    forall kk | kk in flat ensures kk in props && flat[kk] == props[kk] {
      var x :| x in Pairs(v) && Join(x.0, DELIMITER) == kk && flat[kk] == x.1;
    }
    forall k | k in props ensures k in flat {
      var x := ([k], props[k]);
      assert x in Pairs(v) && Join(x.0, DELIMITER) == k;
    }
  }

  /** Style round trip for objects: the expansion of a property list that can be told apart in it comes
      back as the object with these members exactly when that object fits the schema. */
  lemma ObjectStyleRoundTrip(params: map<string, string>, param: string, sm: Serialization, schema: Schema, pairs: seq<Property>,
                             r: Decoded<map<string, Value>>)
    requires sm.style != Other && pairs != [] && param in params && params[param] == ExpandPairs(sm.style, sm.explode, param, pairs)
    requires PairsApart(sm.style, sm.explode, pairs)
    requires sm.style == Matrix && sm.explode ==> forall i :: 0 <= i < |pairs| ==> pairs[i].1 != ""
    requires schema.ObjectSchema? && Flattenable(Obj(TextMembers(MapOf(pairs))))
    requires DecodesTo(params, param, sm, schema, r)
    ensures r == Decoded(TextMembers(MapOf(pairs))) <==> Fits(schema, Obj(TextMembers(MapOf(pairs))))
  {
    hide PropertyList, ObjectOf, Tells, EncodeProps, Flattenable, Flatten, Fits, Accepts, Makes, ExpandPairs, PairsApart, FreeOf;
    var (pd, vd) := ObjectDelimiters(sm);
    PairsWritten(sm, param, pairs);
    CutBack(ObjectPrefix(sm, param).value, EncodeProps(pairs, pd, vd));
    PropertiesRoundTrip(pairs, pd, vd);
    EncodedNotEmpty(pairs, pd, vd);
    FlatTexts(MapOf(pairs));
    ObjectRoundTrip(schema, TextMembers(MapOf(pairs)));
    var made :| Makes(MapOf(pairs), schema, made) && r == FromMade(made);
    MakesIs(MapOf(pairs), schema, made);
  }

  /** The decoder can crash exactly where two names it reads clash: split at the internal delimiter,
      one goes through the other. */
  lemma PathCrashIff(params: map<string, string>, param: string, sm: Serialization, schema: Schema)
    ensures DecodesTo(params, param, sm, schema, Crashed) <==>
            var pairs := PropertiesRead(params, param, sm); pairs.Some? && Clashing(MapOf(pairs.value))
  {
    hide PropertiesRead, Makes, Clashing;
    var pairs := PropertiesRead(params, param, sm);
    if pairs.Some? {
      CrashIff(MapOf(pairs.value), schema);
      assert FromMade(Panicked) == Crashed;
    }
  }

  lemma {:induction false} MapOfNames(pairs: seq<Property>, k: string)
    requires k in MapOf(pairs)
    ensures exists i :: 0 <= i < |pairs| && pairs[i].0 == k
    decreases |pairs|
  {
    var last := |pairs| - 1;
    if pairs[last].0 != k {
      MapOfNames(pairs[..last], k);
      var i :| 0 <= i < last && pairs[..last][i].0 == k;
      assert pairs[i].0 == k;
    }
  }

  /** So it never does for names free of the internal delimiter. */
  lemma PathNeverCrashes(params: map<string, string>, param: string, sm: Serialization, schema: Schema, r: Decoded<map<string, Value>>)
    requires var pairs := PropertiesRead(params, param, sm);
             pairs.Some? ==> forall i :: 0 <= i < |pairs.value| ==> DELIMITER[0] !in pairs.value[i].0
    requires DecodesTo(params, param, sm, schema, r)
    ensures r != Crashed
  {
    hide PropertiesRead, DecodesTo, Clashing;
    PathCrashIff(params, param, sm, schema);
    var pairs := PropertiesRead(params, param, sm);
    if pairs.Some? {
      forall k | k in MapOf(pairs.value) ensures DELIMITER[0] !in k {
        MapOfNames(pairs.value, k);
      }
      FreeNamesNeverClash(MapOf(pairs.value));
    }
  }

  lemma EncodedNotEmpty(pairs: seq<Property>, pd: char, vd: char)
    requires pairs != []
    ensures EncodeProps(pairs, pd, vd) != ""
  {
    if pd == vd {
      var parts := InTurn(pairs);
      assert |parts| >= 2;
    } else {
      var parts := Written(pairs, vd);
      assert parts[0] != "";
    }
  }

  /** Of several pairs with one name the last one counts. */
  lemma {:induction false} MapOfLast(pairs: seq<Property>, i: nat)
    requires i < |pairs| && forall j :: i < j < |pairs| ==> pairs[j].0 != pairs[i].0
    ensures pairs[i].0 in MapOf(pairs) && MapOf(pairs)[pairs[i].0] == pairs[i].1
    decreases |pairs|
  {
    var last := |pairs| - 1;
    if i < last {
      MapOfLast(pairs[..last], i);
    }
  }

  /** Pairs with distinct names are all in the map. */
  lemma {:induction false} MapOfDistinct(pairs: seq<Property>)
    requires forall i, j :: 0 <= i < j < |pairs| ==> pairs[i].0 != pairs[j].0
    ensures forall k :: k in MapOf(pairs) <==> exists i :: 0 <= i < |pairs| && pairs[i].0 == k
    ensures forall i :: 0 <= i < |pairs| ==> MapOf(pairs)[pairs[i].0] == pairs[i].1
    decreases |pairs|
  {
    if pairs != [] {
      var front := pairs[..|pairs| - 1];
      MapOfDistinct(front);
      assert forall i :: 0 <= i < |front| ==> front[i] == pairs[i];
    }
  }
}
