/** How a path parameter is written: the expansion of one variable in a URI template, for simple
    strings, labels and path-style parameters (sections 3.2.2, 3.2.5 and 3.2.7 of RFC 6570), which the
    styles `simple`, `label` and `matrix` stand for (section 4.7.12 of OpenAPI 3.0.3). Nothing here
    refers to the decoder. */
module TemplateExpansion {
  import opened Text

  /** The styles a path parameter can have; any other one is refused. */
  datatype Style = Simple | Label | Matrix | Other

  type Property = (string, string)

  /** What stands in front of everything. */
  function Lead(style: Style, name: string): string {
    match style
    case Simple => ""
    case Label => "."
    case Matrix => ";" + name + "="
    case Other => ""
  }

  function ExpandText(style: Style, name: string, v: string): string {
    match style
    case Simple => v
    case Label => "." + v
    case Matrix => if v == "" then ";" + name else ";" + name + "=" + v
    case Other => v
  }

  /** The values with commas between them. */
  function Commas(vs: seq<string>): string {
    if vs == [] then "" else if |vs| == 1 then vs[0] else vs[0] + "," + Commas(vs[1..])
  }

  /** The text in front of each value. */
  function Each(lead: string, vs: seq<string>): string {
    if vs == [] then "" else lead + vs[0] + Each(lead, vs[1..])
  }

  /** `name=value` behind a semicolon, without the equals sign for an empty value. */
  function Named(pairs: seq<Property>): string {
    if pairs == [] then ""
    else ";" + pairs[0].0 + (if pairs[0].1 == "" then "" else "=" + pairs[0].1) + Named(pairs[1..])
  }

  function ExpandList(style: Style, explode: bool, name: string, vs: seq<string>): string
    requires vs != []
  {
    match style
    case Simple => Commas(vs)
    case Label => if explode then Each(".", vs) else "." + Commas(vs)
    case Matrix => if explode then Named(seq(|vs|, i requires 0 <= i < |vs| => (name, vs[i]))) else ";" + name + "=" + Commas(vs)
    case Other => Commas(vs)
  }

  /** Names and values in turn. */
  function InTurn(pairs: seq<Property>): (vs: seq<string>)
    ensures |vs| == 2 * |pairs|
  {
    if pairs == [] then [] else [pairs[0].0, pairs[0].1] + InTurn(pairs[1..])
  }

  function Equals(pairs: seq<Property>): (vs: seq<string>)
    ensures |vs| == |pairs|
  {
    seq(|pairs|, i requires 0 <= i < |pairs| => pairs[i].0 + "=" + pairs[i].1)
  }

  function ExpandPairs(style: Style, explode: bool, name: string, pairs: seq<Property>): string
    requires pairs != []
  {
    match style
    case Simple => if explode then Commas(Equals(pairs)) else Commas(InTurn(pairs))
    case Label => if explode then Each(".", Equals(pairs)) else "." + Commas(InTurn(pairs))
    case Matrix => if explode then Named(pairs) else ";" + name + "=" + Commas(InTurn(pairs))
    case Other => Commas(InTurn(pairs))
  }

  // ---------------------------------------------------------------- what can be told apart

  predicate FreeOf(pairs: seq<Property>, c: char) {
    forall i :: 0 <= i < |pairs| ==> c !in pairs[i].0 && c !in pairs[i].1
  }

  /** The values can be told apart in the expansion of their list. */
  predicate ListApart(style: Style, explode: bool, name: string, vs: seq<string>)
    requires vs != []
  {
    if style == Label && explode then forall i :: 0 <= i < |vs| ==> '.' !in vs[i]
    else if style == Matrix && explode then Splittable(vs, ";" + name + "=")
    else forall i :: 0 <= i < |vs| ==> ',' !in vs[i]
  }

  /** The names and values can be told apart in the expansion of their pairs. */
  predicate PairsApart(style: Style, explode: bool, pairs: seq<Property>) {
    if !explode then FreeOf(pairs, ',')
    else FreeOf(pairs, '=') && FreeOf(pairs, if style == Label then '.' else if style == Matrix then ';' else ',')
  }

  // ---------------------------------------------------------------- as joined lists

  lemma {:induction false} CommasJoin(vs: seq<string>)
    ensures Commas(vs) == Join(vs, ",")
  {
    if |vs| > 1 {
      CommasJoin(vs[1..]);
    }
  }

  lemma {:induction false} EachJoin(lead: string, vs: seq<string>)
    requires vs != []
    ensures Each(lead, vs) == lead + Join(vs, lead)
    decreases |vs|
  {
    if |vs| == 1 {
      assert lead + vs[0] + Each(lead, vs[1..]) == lead + vs[0];
    } else {
      EachJoin(lead, vs[1..]);
      assert lead + vs[0] + (lead + Join(vs[1..], lead)) == lead + (vs[0] + lead + Join(vs[1..], lead));
    }
  }

  /** Without empty values the pairs are their names and values behind semicolons. */
  lemma {:induction false} NamedEach(pairs: seq<Property>)
    requires forall i :: 0 <= i < |pairs| ==> pairs[i].1 != ""
    ensures Named(pairs) == Each(";", Equals(pairs))
    decreases |pairs|
  {
    if pairs != [] {
      var rest := pairs[1..];
      assert forall i :: 0 <= i < |rest| ==> rest[i] == pairs[i + 1];
      NamedEach(rest);
      assert Equals(pairs)[0] == pairs[0].0 + "=" + pairs[0].1 && Equals(pairs)[1..] == Equals(rest);
      assert ";" + pairs[0].0 + ("=" + pairs[0].1) == ";" + (pairs[0].0 + "=" + pairs[0].1);
    }
  }

  lemma {:induction false} NamedList(name: string, vs: seq<string>)
    requires "" !in vs
    ensures Named(seq(|vs|, i requires 0 <= i < |vs| => (name, vs[i]))) == Each(";" + name + "=", vs)
    decreases |vs|
  {
    var pairs := seq(|vs|, i requires 0 <= i < |vs| => (name, vs[i]));
    if vs != [] {
      assert vs[0] in vs && forall v :: v in vs[1..] ==> v in vs;
      NamedList(name, vs[1..]);
      assert pairs[1..] == seq(|vs| - 1, i requires 0 <= i < |vs| - 1 => (name, vs[1..][i]));
      assert pairs[0] == (name, vs[0]);
      assert ";" + name + ("=" + vs[0]) == ";" + name + "=" + vs[0];
    }
  }
}
