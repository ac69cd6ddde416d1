/** Lists of endpoints written as `METHOD:PATH|REQUEST|RESPONSE,...`
    (internal/config/endpoints.go). */
module EndpointLists {
  import opened Text

  datatype Endpoint = Endpoint(verb: string, path: string, requestMode: string, responseMode: string)

  // ---------------------------------------------------------------- spaces

  type Spaces = char -> bool

  function TrimLeft(space: Spaces, s: string): string {
    if s != "" && space(s[0]) then TrimLeft(space, s[1..]) else s
  }

  function TrimRight(space: Spaces, s: string): string {
    if s != "" && space(s[|s| - 1]) then TrimRight(space, s[..|s| - 1]) else s
  }

  /** `strings.TrimSpace`. */
  function TrimSpace(space: Spaces, s: string): string {
    TrimRight(space, TrimLeft(space, s))
  }

  /** Neither begins nor ends with a space. */
  predicate Trimmed(space: Spaces, s: string) {
    s == "" || (!space(s[0]) && !space(s[|s| - 1]))
  }

  lemma {:induction false} LeftTrimmed(space: Spaces, s: string)
    ensures var t := TrimLeft(space, s); (t == "" || !space(t[0])) && forall c :: c in t ==> c in s
    decreases |s|
  {
    if s != "" && space(s[0]) {
      LeftTrimmed(space, s[1..]);
    }
  }

  lemma {:induction false} RightTrimmed(space: Spaces, s: string)
    ensures var t := TrimRight(space, s);
            && |t| <= |s| && (t == "" || !space(t[|t| - 1])) && (forall c :: c in t ==> c in s)
            && (s != "" && !space(s[0]) ==> t != "" && t[0] == s[0])
    decreases |s|
  {
    if s != "" && space(s[|s| - 1]) {
      RightTrimmed(space, s[..|s| - 1]);
    }
  }

  /** Trimming leaves a text without spaces at its ends, and adds nothing. */
  lemma TrimIsTrimmed(space: Spaces, s: string)
    ensures var t := TrimSpace(space, s); Trimmed(space, t) && forall c :: c in t ==> c in s
  {
    hide TrimLeft, TrimRight;
    LeftTrimmed(space, s);
    RightTrimmed(space, TrimLeft(space, s));
  }

  predicate AllSpaces(space: Spaces, s: string) {
    forall i :: 0 <= i < |s| ==> space(s[i])
  }

  lemma {:induction false} LeftCut(space: Spaces, a: string, t: string)
    requires AllSpaces(space, a) && (t == "" || !space(t[0]))
    ensures TrimLeft(space, a + t) == t
    decreases |a|
  {
    if a == "" {
      assert a + t == t;
    } else {
      assert (a + t)[0] == a[0] && (a + t)[1..] == a[1..] + t;
      LeftCut(space, a[1..], t);
    }
  }

  lemma {:induction false} RightCut(space: Spaces, t: string, b: string)
    requires AllSpaces(space, b) && (t == "" || !space(t[|t| - 1]))
    ensures TrimRight(space, t + b) == t
    decreases |b|
  {
    if b == "" {
      assert t + b == t;
    } else {
      var last := |b| - 1;
      assert (t + b)[|t| + last] == b[last] && (t + b)[..|t| + last] == t + b[..last];
      RightCut(space, t, b[..last]);
    }
  }

  lemma {:induction false} LeftSpaces(space: Spaces, s: string) returns (a: string)
    ensures AllSpaces(space, a) && s == a + TrimLeft(space, s)
    decreases |s|
  {
    if s != "" && space(s[0]) {
      var rest := LeftSpaces(space, s[1..]);
      a := [s[0]] + rest;
    } else {
      a := "";
    }
  }

  lemma {:induction false} RightSpaces(space: Spaces, s: string) returns (b: string)
    ensures AllSpaces(space, b) && s == TrimRight(space, s) + b
    decreases |s|
  {
    if s != "" && space(s[|s| - 1]) {
      var rest := RightSpaces(space, s[..|s| - 1]);
      b := rest + [s[|s| - 1]];
    } else {
      b := "";
    }
  }

  predicate Around(space: Spaces, s: string, a: string, t: string, b: string) {
    s == a + t + b && AllSpaces(space, a) && AllSpaces(space, b)
  }

  /** The text is what is left between spaces, and has none at its own ends. */
  ghost predicate TrimsTo(space: Spaces, s: string, t: string) {
    Trimmed(space, t) && exists a, b :: Around(space, s, a, t, b)
  }

  /** Trimming cuts off the spaces at both ends, all of them, and nothing else. */
  lemma TrimIff(space: Spaces, s: string, t: string)
    ensures TrimSpace(space, s) == t <==> TrimsTo(space, s, t)
  {
    hide TrimLeft, TrimRight;
    if TrimSpace(space, s) == t {
      TrimIsTrimmed(space, s);
      var left := TrimLeft(space, s);
      var a := LeftSpaces(space, s);
      var b := RightSpaces(space, left);
      assert Around(space, s, a, t, b);
    }
    if TrimsTo(space, s, t) {
      var a, b :| Around(space, s, a, t, b);
      TrimCuts(space, a, t, b);
      assert s == a + t + b;
    }
  }

  lemma TrimCuts(space: Spaces, a: string, t: string, b: string)
    requires Trimmed(space, t) && AllSpaces(space, a) && AllSpaces(space, b)
    ensures TrimSpace(space, a + t + b) == t
  {
    hide TrimLeft, TrimRight;
    if t == "" {
      LeftCut(space, a + b, "");
      RightCut(space, "", "");
      assert a + t + b == (a + b) + "" && "" + "" == "";
    } else {
      LeftCut(space, a, t + b);
      RightCut(space, t, b);
      assert a + t + b == a + (t + b);
    }
  }

  lemma TrimmedStays(space: Spaces, s: string)
    requires Trimmed(space, s)
    ensures TrimSpace(space, s) == s
  {}

  // ---------------------------------------------------------------- one item

  /** The optional method in front of the first colon, and the path behind it. */
  function MethodAndPath(s: string): (string, string) {
    var i := IndexByte(s, ':');
    if i >= 0 then (s[..i], s[i + 1..]) else ("", s)
  }

  function ParseParts(space: Spaces, parts: seq<string>): Option<Endpoint> {
    if |parts| != 3 then None
    else
      var (verb, path) := MethodAndPath(parts[0]);
      var e := Endpoint(verb, TrimSpace(space, path), TrimSpace(space, parts[1]), TrimSpace(space, parts[2]));
      if e.path == "" || e.requestMode == "" || e.responseMode == "" then None else Some(e)
  }

  function ParseItem(space: Spaces, item: string): Option<Endpoint> {
    ParseParts(space, Split(item, "|"))
  }

  function Head(e: Endpoint): string {
    e.verb + ":" + e.path
  }

  function WriteItem(e: Endpoint): string {
    Join([Head(e), e.requestMode, e.responseMode], "|")
  }

  lemma WriteItemIs(e: Endpoint)
    ensures WriteItem(e) == e.verb + ":" + e.path + "|" + e.requestMode + "|" + e.responseMode
  {
    var parts := [Head(e), e.requestMode, e.responseMode];
    assert parts[1..] == [e.requestMode, e.responseMode] && parts[1..][1..] == [e.responseMode];
    assert Join(parts[1..], "|") == e.requestMode + "|" + e.responseMode;
  }

  /** The pieces of an item: two bars between three texts without one. */
  predicate Bars(item: string, head: string, request: string, response: string) {
    item == head + "|" + request + "|" + response && '|' !in head && '|' !in request && '|' !in response
  }

  /** A method in front of the first colon; without a colon there is no method. */
  predicate Colon(head: string, verb: string, path: string) {
    (head == verb + ":" + path && ':' !in verb) || (head == path && ':' !in head && verb == "")
  }

  predicate Filled(e: Endpoint) {
    e.path != "" && e.requestMode != "" && e.responseMode != ""
  }

  ghost predicate Spelled(space: Spaces, item: string, e: Endpoint, head: string, path: string, request: string, response: string) {
    && Bars(item, head, request, response) && Colon(head, e.verb, path)
    && TrimsTo(space, path, e.path) && TrimsTo(space, request, e.requestMode) && TrimsTo(space, response, e.responseMode)
  }

  /** What an item says: method, path and the two modes, the last three without the spaces around
      them and none of them empty. */
  ghost predicate Says(space: Spaces, item: string, e: Endpoint) {
    Filled(e) && exists head, path, request, response :: Spelled(space, item, e, head, path, request, response)
  }

  lemma ColonIff(head: string, verb: string, path: string)
    ensures MethodAndPath(head) == (verb, path) <==> Colon(head, verb, path)
  {
    hide IndexByte;
    var i := IndexByte(head, ':');
    assert i >= 0 ==> head == head[..i] + ":" + head[i + 1..];
    if Colon(head, verb, path) && ':' in head {
      assert head[|verb|] == ':' && head[..|verb|] == verb && head[|verb| + 1..] == path;
      IndexByteIs(head, ':', |verb|);
    }
  }

  lemma BarsIff(item: string, head: string, request: string, response: string)
    ensures Split(item, "|") == [head, request, response] <==> Bars(item, head, request, response)
  {
    hide Split, Splittable;
    var parts := [head, request, response];
    assert Join(parts, "|") == head + "|" + request + "|" + response by {
      assert parts[1..] == [request, response] && parts[1..][1..] == [response];
      assert Join(parts[1..], "|") == request + "|" + response;
    }
    hide Join;
    if Split(item, "|") == parts {
      SplitParts(item, '|');
      JoinSplit(item, "|");
      assert parts[0] == head && parts[1] == request && parts[2] == response;
    }
    if Bars(item, head, request, response) {
      SplittableByte(parts, '|');
      SplitJoin(parts, "|");
    }
  }

  /** An item gives exactly the endpoint it says, and is refused exactly when it says none. */
  lemma ItemIff(space: Spaces, item: string, e: Endpoint)
    ensures ParseItem(space, item) == Some(e) <==> Says(space, item, e)
  {
    hide Split, TrimSpace, MethodAndPath, Bars, Colon, TrimsTo;
    if ParseItem(space, item) == Some(e) {
      var parts := Split(item, "|");
      var path := MethodAndPath(parts[0]).1;
      assert parts == [parts[0], parts[1], parts[2]];
      BarsIff(item, parts[0], parts[1], parts[2]);
      ColonIff(parts[0], e.verb, path);
      TrimIff(space, path, e.path);
      TrimIff(space, parts[1], e.requestMode);
      TrimIff(space, parts[2], e.responseMode);
      assert Spelled(space, item, e, parts[0], path, parts[1], parts[2]);
    }
    if Says(space, item, e) {
      var head, path, request, response :| Spelled(space, item, e, head, path, request, response);
      BarsIff(item, head, request, response);
      ColonIff(head, e.verb, path);
      TrimIff(space, path, e.path);
      TrimIff(space, request, e.requestMode);
      TrimIff(space, response, e.responseMode);
    }
  }

  predicate Free(s: string) {
    ',' !in s && '|' !in s
  }

  /** What can be written and read back: fields without delimiters, trimmed and not empty except for
      the method, which is never trimmed; it must not contain a colon either, while the path may. */
  predicate Writable(space: Spaces, e: Endpoint) {
    && Free(e.verb) && ':' !in e.verb
    && Free(e.path) && Free(e.requestMode) && Free(e.responseMode)
    && Trimmed(space, e.path) && Trimmed(space, e.requestMode) && Trimmed(space, e.responseMode)
    && e.path != "" && e.requestMode != "" && e.responseMode != ""
  }

  lemma HeadSplits(e: Endpoint)
    requires ':' !in e.verb
    ensures MethodAndPath(Head(e)) == (e.verb, e.path)
  {
    hide IndexByte;
    var s := Head(e);
    assert s[|e.verb|] == ':' && s[..|e.verb|] == e.verb && s[|e.verb| + 1..] == e.path;
    IndexByteIs(s, ':', |e.verb|);
  }

  lemma ItemRoundTrip(space: Spaces, e: Endpoint)
    requires Writable(space, e)
    ensures ParseItem(space, WriteItem(e)) == Some(e) && ',' !in WriteItem(e)
  {
    hide Split, Join, Splittable, TrimSpace, IndexByte;
    var parts := [Head(e), e.requestMode, e.responseMode];
    WriteItemIs(e);
    SplittableByte(parts, '|');
    SplitJoin(parts, "|");
    HeadSplits(e);
    TrimmedStays(space, e.path);
    TrimmedStays(space, e.requestMode);
    TrimmedStays(space, e.responseMode);
  }

  /** Whatever is read from an item without a comma can be written. */
  lemma ParsedIsWritable(space: Spaces, item: string)
    requires ',' !in item && ParseItem(space, item).Some?
    ensures Writable(space, ParseItem(space, item).value)
  {
    hide Split, Join, TrimSpace, Trimmed, IndexByte;
    var parts := Split(item, "|");
    SplitParts(item, '|');
    JoinSplit(item, "|");
    JoinContains(parts, "|");
    var (verb, path) := MethodAndPath(parts[0]);
    assert forall c :: c in verb || c in path ==> c in parts[0];
    assert ':' !in verb;
    TrimIsTrimmed(space, path);
    TrimIsTrimmed(space, parts[1]);
    TrimIsTrimmed(space, parts[2]);
  }

  lemma {:induction false} JoinContains(parts: seq<string>, sep: string)
    ensures forall i, c :: 0 <= i < |parts| && c in parts[i] ==> c in Join(parts, sep)
    decreases |parts|
  {
    if |parts| > 1 {
      JoinContains(parts[1..], sep);
      assert forall i :: 0 < i < |parts| ==> parts[i] == parts[1..][i - 1];
    }
  }

  // ---------------------------------------------------------------- lists

  /** The endpoints read before the first invalid item, and whether all were valid. */
  function ParseItems(space: Spaces, items: seq<string>): (seq<Endpoint>, bool) {
    if items == [] then ([], true)
    else
      match ParseItem(space, items[0])
      case None => ([], false)
      case Some(e) =>
        var (rest, ok) := ParseItems(space, items[1..]);
        ([e] + rest, ok)
  }

  function ParseList(space: Spaces, value: string): (seq<Endpoint>, bool) {
    if value == "" then ([], true) else ParseItems(space, Split(value, ","))
  }

  function WriteItems(list: seq<Endpoint>): (items: seq<string>)
    ensures |items| == |list| && forall i :: 0 <= i < |list| ==> items[i] == WriteItem(list[i])
  {
    seq(|list|, i requires 0 <= i < |list| => WriteItem(list[i]))
  }

  function WriteList(list: seq<Endpoint>): string {
    Join(WriteItems(list), ",")
  }

  /** The endpoints are those of the items in front of the first one that says none; all is well
      when there is no such item. */
  lemma {:induction false} ListIs(space: Spaces, items: seq<string>)
    ensures var (list, ok) := ParseItems(space, items);
            && |list| <= |items| && (ok <==> |list| == |items|)
            && (forall i :: 0 <= i < |list| ==> Says(space, items[i], list[i]))
            && (!ok ==> forall e :: !Says(space, items[|list|], e))
    decreases |items|
  {
    hide ParseItem, Says;
    if items != [] {
      var p := ParseItem(space, items[0]);
      forall e ensures p == Some(e) <==> Says(space, items[0], e) {
        ItemIff(space, items[0], e);
      }
      ListIs(space, items[1..]);
      assert forall i :: 0 < i < |items| ==> items[i] == items[1..][i - 1];
    }
  }

  class EndpointList {
    var list: seq<Endpoint>

    constructor ()
      ensures list == []
    {
      list := [];
    }

    /** `Set`: appends the endpoints of the text; what comes before an invalid item stays. */
    method Set(space: Spaces, value: string) returns (ok: bool)
      modifies this
      ensures list == old(list) + ParseList(space, value).0 && ok == ParseList(space, value).1
    {
      hide Split, ParseItem;
      if value == "" {
        return true;
      }
      var items := Split(value, ",");
      assert items[0..] == items;
      for i := 0 to |items|
        invariant |list| == |old(list)| + i && old(list) <= list
        invariant ParseItems(space, items).1 == ParseItems(space, items[i..]).1
        invariant old(list) + ParseItems(space, items).0 == list + ParseItems(space, items[i..]).0
      {
        var e := ParseItem(space, items[i]);
        ParseStep(space, items, i);
        if e.None? {
          return false;
        }
        list := list + [e.value];
        assert list[..|list| - 1] + ([e.value] + ParseItems(space, items[i + 1..]).0) == list + ParseItems(space, items[i + 1..]).0;
      }
      assert items[|items|..] == [];
      return true;
    }

    /** `String`. */
    method String() returns (s: string)
      ensures s == WriteList(list)
    {
      var entries: seq<string> := [];
      for i := 0 to |list|
        invariant |entries| == i && forall k :: 0 <= k < i ==> entries[k] == WriteItem(list[k])
      {
        entries := entries + [WriteItem(list[i])];
      }
      assert entries == WriteItems(list);
      return Join(entries, ",");
    }
  }

  lemma ParseStep(space: Spaces, items: seq<string>, i: nat)
    requires i < |items|
    ensures ParseItems(space, items[i..]) ==
            match ParseItem(space, items[i])
            case None => ([], false)
            case Some(e) => ([e] + ParseItems(space, items[i + 1..]).0, ParseItems(space, items[i + 1..]).1)
  {
    hide ParseItem;
    assert items[i..][0] == items[i] && items[i..][1..] == items[i + 1..];
  }

  lemma {:induction false} ParseWritten(space: Spaces, list: seq<Endpoint>)
    requires forall i :: 0 <= i < |list| ==> Writable(space, list[i])
    ensures ParseItems(space, WriteItems(list)) == (list, true)
    decreases |list|
  {
    hide ParseItem, WriteItem, Writable;
    if list != [] {
      ItemRoundTrip(space, list[0]);
      ParseWritten(space, list[1..]);
      assert WriteItems(list)[1..] == WriteItems(list[1..]);
      assert list == [list[0]] + list[1..];
    }
  }

  lemma {:induction false} ParsedAreWritable(space: Spaces, items: seq<string>, k: nat)
    requires forall i :: 0 <= i < |items| ==> ',' !in items[i]
    requires k < |ParseItems(space, items).0|
    ensures Writable(space, ParseItems(space, items).0[k])
    decreases |items|
  {
    hide ParseItem, Writable;
    ParsedIsWritable(space, items[0]);
    if k > 0 {
      ParsedAreWritable(space, items[1..], k - 1);
    }
  }

  /** Writing a list and reading it back gives the list exactly when every endpoint is writable. */
  lemma ListRoundTrip(space: Spaces, list: seq<Endpoint>)
    ensures ParseList(space, WriteList(list)) == (list, true) <==> forall i :: 0 <= i < |list| ==> Writable(space, list[i])
  {
    hide ParseItem, Writable, Split, Join, Splittable, ParseItems, WriteItem;
    var value := WriteList(list);
    if value != "" {
      SplitParts(value, ',');
    }
    if forall i :: 0 <= i < |list| ==> Writable(space, list[i]) {
      ListForth(space, list);
    } else if ParseList(space, value) == (list, true) {
      var i :| 0 <= i < |list| && !Writable(space, list[i]);
      ParsedAreWritable(space, Split(value, ","), i);
    }
  }

  lemma ListForth(space: Spaces, list: seq<Endpoint>)
    requires forall i :: 0 <= i < |list| ==> Writable(space, list[i])
    ensures ParseList(space, WriteList(list)) == (list, true)
  {
    hide ParseItem, Writable, Split, Splittable, ParseItems, WriteItem;
    if list != [] {
      var items := WriteItems(list);
      forall i | 0 <= i < |items| ensures ',' !in items[i] {
        ItemRoundTrip(space, list[i]);
      }
      NotEmptyItem(list[0]);
      assert Join(items, ",") != "";
      SplittableByte(items, ',');
      SplitJoin(items, ",");
      ParseWritten(space, list);
    }
  }

  lemma NotEmptyItem(e: Endpoint)
    ensures WriteItem(e) != ""
  {
    var parts := [Head(e), e.requestMode, e.responseMode];
    assert |Head(e)| > 0;
  }
}
