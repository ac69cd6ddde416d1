/** The routing tree as the source keeps it: nodes on the heap whose fields and child lists are
    changed in place. Each node carries, as ghost state, the value it stands for; a set of nodes is
    consistent when every node's value agrees with its fields and with its children's values. */
module RouterNodes {
  import opened Text
  import opened Patterns
  import opened RouteTree

  class TreeNode {
    var typ: NodeType
    var first: char
    var tail: char
    var prefix: string
    var endpoints: Option<Endpoints>
    var statics: seq<TreeNode>
    var regexps: seq<TreeNode>
    var params: seq<TreeNode>
    var catchAlls: seq<TreeNode>
    ghost var model: Node
    ghost var parent: TreeNode?

    constructor (typ: NodeType, first: char, tail: char, prefix: string)
      ensures this.typ == typ && this.first == first && this.tail == tail && this.prefix == prefix
      ensures endpoints == None && statics == [] && regexps == [] && params == [] && catchAlls == []
      ensures parent == null
    {
      this.typ, this.first, this.tail, this.prefix := typ, first, tail, prefix;
      endpoints, statics, regexps, params, catchAlls := None, [], [], [], [];
      parent := null;
      model := EmptyTree;
    }

    function Kids(t: NodeType): seq<TreeNode>
      reads this
    {
      match t
      case NtStatic => statics
      case NtRegexp => regexps
      case NtParam => params
      case NtCatchAll => catchAlls
    }

    method SetKids(t: NodeType, ns: seq<TreeNode>)
      modifies this`statics, this`regexps, this`params, this`catchAlls
      ensures Kids(t) == ns
      ensures (t != NtStatic ==> statics == old(statics)) && (t != NtRegexp ==> regexps == old(regexps))
      ensures (t != NtParam ==> params == old(params)) && (t != NtCatchAll ==> catchAlls == old(catchAlls))
    {
      match t
      case NtStatic => statics := ns;
      case NtRegexp => regexps := ns;
      case NtParam => params := ns;
      case NtCatchAll => catchAlls := ns;
    }

    predicate IsLeaf()
      reads this
    {
      endpoints.Some?
    }
  }

  ghost function Models(ns: seq<TreeNode>): (ms: seq<Node>)
    reads ns
    ensures |ms| == |ns| && forall i :: 0 <= i < |ns| ==> ms[i] == ns[i].model
  {
    seq(|ns|, i requires 0 <= i < |ns| reads ns => ns[i].model)
  }

  /** Only static and regexp nodes use their prefix. */
  function UsedPrefix(t: NodeType, prefix: string): string {
    if t == NtStatic || t == NtRegexp then prefix else ""
  }

  /** The node's own fields agree with its value. */
  ghost predicate FieldsAgree(n: TreeNode)
    reads n`typ, n`first, n`tail, n`prefix, n`model
  {
    && n.model.typ == n.typ && n.model.first == n.first && n.model.tail == n.tail
    && n.model.prefix == UsedPrefix(n.typ, n.prefix)
  }

  /** These nodes are children of `n` with these values. */
  ghost predicate ListFits(n: TreeNode, ns: seq<TreeNode>, ms: seq<Node>, all: set<TreeNode>)
    reads all`model, all`parent
  {
    && |ns| == |ms|
    && forall i :: 0 <= i < |ns| ==> ns[i] in all && ns[i].model == ms[i] && ns[i].parent == n
  }

  /** One child list agrees with its values and points back to its parent. */
  ghost predicate ListLinked(n: TreeNode, t: NodeType, all: set<TreeNode>)
    reads n, all`model, all`parent
  {
    ListFits(n, n.Kids(t), Children(n.model, t), all)
  }

  ghost predicate Linked(n: TreeNode, all: set<TreeNode>)
    reads n, all`model, all`parent
  {
    && FieldsAgree(n) && n.model.endpoints == n.endpoints
    && ListLinked(n, NtStatic, all) && ListLinked(n, NtRegexp, all)
    && ListLinked(n, NtParam, all) && ListLinked(n, NtCatchAll, all)
  }

  ghost predicate Consistent(all: set<TreeNode>)
    reads all
  {
    forall n :: n in all ==> Linked(n, all)
  }

  lemma LinkedKid(n: TreeNode, t: NodeType, i: nat, all: set<TreeNode>)
    requires Linked(n, all) && i < |n.Kids(t)|
    ensures |Children(n.model, t)| == |n.Kids(t)| && n.Kids(t)[i] in all
    ensures n.Kids(t)[i].model == Children(n.model, t)[i] && n.Kids(t)[i].parent == n
  {
    assert ListLinked(n, t, all);
  }
}

/** Lookups: `findRoute` with its shared context of captured values. */
module RouterLookup {
  import opened Text
  import opened Patterns
  import opened RouteTree
  import opened RouteTable
  import opened RouterNodes

  /** The routing context (internal/platform/router/context.go). */
  class RouteContext {
    var routeKeys: seq<string>
    var routeValues: seq<string>
    var urlKeys: seq<string>
    var urlValues: seq<string>
    var routePattern: string
    var routePatterns: seq<string>

    constructor ()
      ensures routeKeys == [] && routeValues == [] && urlKeys == [] && urlValues == []
      ensures routePattern == "" && routePatterns == []
    {
      routeKeys, routeValues, urlKeys, urlValues, routePattern, routePatterns := [], [], [], [], "", [];
    }

    /** The value recorded last under the name, or the empty string. */
    method URLParam(key: string) returns (value: string)
      requires |urlKeys| == |urlValues|
      ensures value == ParamOf(urlKeys, urlValues, key)
      ensures key !in urlKeys ==> value == ""
      ensures forall i :: LastAt(urlKeys, key, i) ==> value == urlValues[i]
    {
      ParamOfLast(urlKeys, urlValues, key);
      var k := |urlKeys| - 1;
      assert urlKeys[..|urlKeys|] == urlKeys && urlValues[..|urlKeys|] == urlValues;
      while k >= 0
        invariant -1 <= k < |urlKeys|
        invariant ParamOf(urlKeys, urlValues, key) == ParamOf(urlKeys[..k + 1], urlValues[..k + 1], key)
      {
        assert urlKeys[..k + 1][..k] == urlKeys[..k] && urlValues[..k + 1][..k] == urlValues[..k];
        if urlKeys[k] == key {
          return urlValues[k];
        }
        k := k - 1;
      }
      return "";
    }

    /** All recorded names with their values. */
    method AllURLParams() returns (params: map<string, string>)
      requires |urlKeys| == |urlValues|
      ensures params == ParamMap(urlKeys, urlValues)
      ensures forall key :: key in params <==> key in urlKeys
      ensures forall key, i :: LastAt(urlKeys, key, i) ==> key in params && params[key] == urlValues[i]
    {
      forall key ensures key in ParamMap(urlKeys, urlValues) <==> key in urlKeys {
        ParamsAgree(urlKeys, urlValues, key);
      }
      forall key, i | LastAt(urlKeys, key, i) ensures key in ParamMap(urlKeys, urlValues) && ParamMap(urlKeys, urlValues)[key] == urlValues[i] {
        ParamsAgree(urlKeys, urlValues, key);
        ParamOfLast(urlKeys, urlValues, key);
      }
      params := map[];
      for i := 0 to |urlKeys|
        invariant params == ParamMap(urlKeys[..i], urlValues[..i])
      {
        assert urlKeys[..i + 1][..i] == urlKeys[..i] && urlValues[..i + 1][..i] == urlValues[..i];
        params := params[urlKeys[i] := urlValues[i]];
      }
      assert urlKeys[..|urlKeys|] == urlKeys && urlValues[..|urlKeys|] == urlValues;
    }
  }

  /** The value of the last pair with this name, or the empty string. */
  function ParamOf(keys: seq<string>, values: seq<string>, key: string): string
    requires |keys| == |values|
    decreases |keys|
  {
    if keys == [] then ""
    else
      var last := |keys| - 1;
      if keys[last] == key then values[last] else ParamOf(keys[..last], values[..last], key)
  }

  /** The last position of this name. */
  predicate LastAt(keys: seq<string>, key: string, i: int) {
    0 <= i < |keys| && keys[i] == key && forall j :: i < j < |keys| ==> keys[j] != key
  }

  lemma {:induction false} ParamOfLast(keys: seq<string>, values: seq<string>, key: string)
    requires |keys| == |values|
    ensures key !in keys ==> ParamOf(keys, values, key) == ""
    ensures forall i :: LastAt(keys, key, i) ==> ParamOf(keys, values, key) == values[i]
    decreases |keys|
  {
    if keys != [] {
      var last := |keys| - 1;
      ParamOfLast(keys[..last], values[..last], key);
      forall i | LastAt(keys, key, i) && i != last ensures LastAt(keys[..last], key, i) {
        assert forall j :: i < j < last ==> keys[..last][j] == keys[j];
      }
    }
  }

  /** The pairs written into a map one after the other. */
  function ParamMap(keys: seq<string>, values: seq<string>): map<string, string>
    requires |keys| == |values|
    decreases |keys|
  {
    if keys == [] then map[]
    else
      var last := |keys| - 1;
      ParamMap(keys[..last], values[..last])[keys[last] := values[last]]
  }

  /** `URLParam` and `AllURLParams` tell the same. */
  lemma {:induction false} ParamsAgree(keys: seq<string>, values: seq<string>, key: string)
    requires |keys| == |values|
    ensures var params := ParamMap(keys, values);
            (key in params <==> key in keys) && ParamOf(keys, values, key) == if key in params then params[key] else ""
    decreases |keys|
  {
    if keys != [] {
      var last := |keys| - 1;
      ParamsAgree(keys[..last], values[..last], key);
      assert keys == keys[..last] + [keys[last]];
    }
  }

  /** Behind whatever was recorded before, pairwise distinct names each keep their value. */
  lemma {:induction false} ParamsOfDistinct(keys0: seq<string>, values0: seq<string>, keys: seq<string>, values: seq<string>, k: nat)
    requires |keys0| == |values0| && |keys| == |values| && Distinct(keys) && k < |keys|
    ensures ParamOf(keys0 + keys, values0 + values, keys[k]) == values[k]
    decreases |keys|
  {
    var last := |keys| - 1;
    assert (keys0 + keys)[..|keys0| + last] == keys0 + keys[..last];
    assert (values0 + values)[..|keys0| + last] == values0 + values[..last];
    if k < last {
      ParamsOfDistinct(keys0, values0, keys[..last], values[..last], k);
    }
  }

  /** What a context looks like after a lookup below a node: unchanged if nothing was found, else
      with the captured values and the endpoint's names behind what was there. */
  ghost predicate Recorded(rn: TreeNode?, f: Found, m: Method, keys: seq<string>, values: seq<string>, keys0: seq<string>, values0: seq<string>)
    reads rn
  {
    && (rn == null <==> f.NotFound?)
    && (rn == null ==> keys == keys0 && values == values0)
    && (rn != null ==>
          && Serves(rn.endpoints, m) && rn.endpoints.value[m] == f.endpoint
          && values == values0 + f.caps && keys == keys0 + f.endpoint.keys)
  }

  /** `nodes.findEdge`: binary search by label; exact because labels are strictly ordered. */
  method FindEdge(ns: seq<TreeNode>, first: char, ghost ms: seq<Node>) returns (r: TreeNode?)
    requires ns != [] && |ms| == |ns|
    requires forall i :: 0 <= i < |ns| ==> ns[i].first == ms[i].first
    requires forall i, j :: 0 <= i < j < |ms| ==> ms[i].first < ms[j].first
    ensures var k := EdgeIndex(ms, first); if k < 0 then r == null else r == ns[k]
  {
    var idx := 0;
    var i, j := 0, |ns| - 1;
    while i <= j
      invariant 0 <= i && -1 <= j < |ns| && 0 <= idx < |ns|
      invariant (i == |ns| && ns[idx].first == first)
                || forall k :: 0 <= k < |ns| && ms[k].first == first ==> i <= k <= j
      decreases if i == |ns| then 0 else |ns| + j - i + 1
    {
      idx := i + (j - i) / 2;
      if first > ns[idx].first {
        i := idx + 1;
      } else if first < ns[idx].first {
        j := idx - 1;
      } else {
        i := |ns|;
      }
    }
    if ns[idx].first != first {
      return null;
    }
    return ns[idx];
  }

  /** Lookup in one child list. */
  function FindIn(rx: Engine, ms: seq<Node>, t: NodeType, m: Method, search: string): Found {
    match t
    case NtStatic => FindStatic(rx, ms, m, search)
    case NtCatchAll => if ms == [] then NotFound else Push(search, Enter(rx, ms[0], m, ""))
    case _ => FindWild(rx, ms, m, search)
  }

  const TYPES: seq<NodeType> := [NtStatic, NtRegexp, NtParam, NtCatchAll]

  /** Lookup in the child lists from the `k`-th type on. */
  function FindFrom(rx: Engine, n: Node, k: nat, m: Method, search: string): Found
    requires k <= 4
    decreases 4 - k
  {
    if k == 4 then NotFound
    else
      var r := FindIn(rx, Children(n, TYPES[k]), TYPES[k], m, search);
      if r.Found? then r else FindFrom(rx, n, k + 1, m, search)
  }

  lemma FindFromStart(rx: Engine, n: Node, m: Method, search: string)
    ensures FindFrom(rx, n, 0, m, search) == Find(rx, n, m, search)
  {
    hide FindStatic, FindWild, Enter;
    assert FindFrom(rx, n, 1, m, search) ==
           var r := FindWild(rx, n.regexps, m, search); if r.Found? then r else FindFrom(rx, n, 2, m, search);
    assert FindFrom(rx, n, 2, m, search) ==
           var r := FindWild(rx, n.params, m, search); if r.Found? then r else FindFrom(rx, n, 3, m, search);
    assert FindFrom(rx, n, 4, m, search) == NotFound;
  }

  lemma FindFromStep(rx: Engine, n: Node, k: nat, m: Method, search: string)
    requires k < 4
    ensures FindFrom(rx, n, k, m, search) ==
            var r := FindIn(rx, Children(n, TYPES[k]), TYPES[k], m, search);
            if r.Found? then r else FindFrom(rx, n, k + 1, m, search)
    ensures FindFrom(rx, n, 4, m, search) == NotFound
  {
    hide FindIn;
  }

  /** `findRoute`: tries the child lists in order of type, each with its own rule, and takes back
      what it captured where nothing is found. */
  method FindRoute(rx: Engine, n: TreeNode, ghost all: set<TreeNode>, rctx: RouteContext, m: Method, path: string)
      returns (rn: TreeNode?)
    requires Consistent(all) && n in all && WellFormed(rx, n.model)
    modifies rctx`routeKeys, rctx`routeValues
    ensures Recorded(rn, Find(rx, n.model, m, path), m, rctx.routeKeys, rctx.routeValues, old(rctx.routeKeys), old(rctx.routeValues))
    ensures rn != null ==> rn in all
    decreases n.model, 1
  {
    hide Find, FindIn, FindFrom, WellFormed, Consistent;
    FindFromStart(rx, n.model, m, path);
    for k := 0 to 4
      invariant rctx.routeKeys == old(rctx.routeKeys) && rctx.routeValues == old(rctx.routeValues)
      invariant Find(rx, n.model, m, path) == FindFrom(rx, n.model, k, m, path)
    {
      var t := TYPES[k];
      FindFromStep(rx, n.model, k, m, path);
      if n.Kids(t) != [] {
        rn := FindInList(rx, n, all, t, rctx, m, path);
        if rn != null {
          return;
        }
      } else {
        NoKids(rx, n, all, t, m, path);
      }
    }
    FindFromStep(rx, n.model, 3, m, path);
    rn := null;
  }

  lemma NoKids(rx: Engine, n: TreeNode, all: set<TreeNode>, t: NodeType, m: Method, path: string)
    requires Consistent(all) && n in all && n.Kids(t) == []
    ensures FindIn(rx, Children(n.model, t), t, m, path) == NotFound
  {
    assert ListLinked(n, t, all);
  }

  /** What consistency says about the children of one type. */
  lemma KidsAgree(rx: Engine, n: TreeNode, t: NodeType, all: set<TreeNode>)
    requires Consistent(all) && n in all && WellFormed(rx, n.model)
    ensures |n.Kids(t)| == |Children(n.model, t)|
    ensures forall i :: 0 <= i < |n.Kids(t)| ==> n.Kids(t)[i] in all && n.Kids(t)[i].model == Children(n.model, t)[i]
    ensures forall i :: 0 <= i < |n.Kids(t)| ==> FieldsAgree(n.Kids(t)[i])
    ensures ListOk(rx, Children(n.model, t), t) && AllWellFormed(rx, Children(n.model, t))
  {
    hide WellFormed;
    WellFormedParts(rx, n.model, t);
    assert ListLinked(n, t, all);
  }

  /** One turn of the loop over the types. */
  method FindInList(rx: Engine, n: TreeNode, ghost all: set<TreeNode>, t: NodeType, rctx: RouteContext, m: Method, search: string)
      returns (rn: TreeNode?)
    requires Consistent(all) && n in all && WellFormed(rx, n.model) && n.Kids(t) != []
    modifies rctx`routeKeys, rctx`routeValues
    ensures Recorded(rn, FindIn(rx, Children(n.model, t), t, m, search), m, rctx.routeKeys, rctx.routeValues, old(rctx.routeKeys), old(rctx.routeValues))
    ensures rn != null ==> rn in all
    decreases n.model, 0
  {
    hide WellFormed, Consistent;
    KidsAgree(rx, n, t, all);
    match t {
      case NtStatic =>
        rn := FindInStatics(rx, n.statics, n.model.statics, all, rctx, m, search);
      case NtCatchAll =>
        ListOkAt(rx, n.model.catchAlls, NtCatchAll, 0);
        rctx.routeValues := rctx.routeValues + [search];
        rn := EnterNode(rx, n.catchAlls[0], all, rctx, m, "");
        if rn == null {
          PopValue(rctx);
        }
      case _ =>
        rn := FindInParams(rx, n.Kids(t), Children(n.model, t), all, t, rctx, m, search);
    }
  }

  /** The captured value of a failed branch is taken back. */
  method PopValue(rctx: RouteContext)
    modifies rctx`routeValues
    ensures rctx.routeValues == if old(rctx.routeValues) == [] then [] else old(rctx.routeValues)[..|old(rctx.routeValues)| - 1]
  {
    if |rctx.routeValues| > 0 {
      rctx.routeValues := rctx.routeValues[..|rctx.routeValues| - 1];
    }
  }

  method FindInStatics(rx: Engine, nds: seq<TreeNode>, ghost ms: seq<Node>, ghost all: set<TreeNode>, rctx: RouteContext, m: Method, search: string)
      returns (rn: TreeNode?)
    requires Consistent(all) && nds != [] && |nds| == |ms|
    requires forall i :: 0 <= i < |nds| ==> nds[i] in all && nds[i].model == ms[i]
    requires forall i :: 0 <= i < |nds| ==> FieldsAgree(nds[i])
    requires ListOk(rx, ms, NtStatic) && AllWellFormed(rx, ms)
    modifies rctx`routeKeys, rctx`routeValues
    ensures Recorded(rn, FindStatic(rx, ms, m, search), m, rctx.routeKeys, rctx.routeValues, old(rctx.routeKeys), old(rctx.routeValues))
    ensures rn != null ==> rn in all
    decreases ms, 0
  {
    hide WellFormed, Consistent, Enter;
    assert forall i, j :: 0 <= i < j < |ms| ==> Apart(ms[i], ms[j], NtStatic);
    var label0 := if search != "" then search[0] else NUL;
    var xn := FindEdge(nds, label0, ms);
    ghost var i := EdgeIndex(ms, label0);
    if xn == null {
      return null;
    }
    ListOkAt(rx, ms, NtStatic, i);
    hide ListOk;
    assert xn.prefix == ms[i].prefix;
    if !(xn.prefix <= search) {
      return null;
    }
    rn := EnterNode(rx, xn, all, rctx, m, search[|xn.prefix|..]);
  }

  /** The parameter loop, and after it the last node once more with an empty value. */
  method FindInParams(rx: Engine, nds: seq<TreeNode>, ghost ms: seq<Node>, ghost all: set<TreeNode>, t: NodeType, rctx: RouteContext, m: Method, search: string)
      returns (rn: TreeNode?)
    requires Consistent(all) && TakesParam(t) && nds != [] && |nds| == |ms|
    requires forall i :: 0 <= i < |nds| ==> nds[i] in all && nds[i].model == ms[i]
    requires forall i :: 0 <= i < |nds| ==> FieldsAgree(nds[i])
    requires ListOk(rx, ms, t) && AllWellFormed(rx, ms)
    modifies rctx`routeKeys, rctx`routeValues
    ensures Recorded(rn, FindWild(rx, ms, m, search), m, rctx.routeKeys, rctx.routeValues, old(rctx.routeKeys), old(rctx.routeValues))
    ensures rn != null ==> rn in all
    decreases ms, 1
  {
    hide WellFormed, Consistent, Find, FindEach, ListOk, FieldsAgree;
    if search == "" {
      return null;
    }
    rn := TryParams(rx, nds, ms, all, t, rctx, m, search);
    if rn != null {
      return;
    }
    rctx.routeValues := rctx.routeValues + [""];
    var xn := nds[|nds| - 1];
    rn := EnterNode(rx, xn, all, rctx, m, search);
    if rn == null {
      PopValue(rctx);
    }
  }

  /** The leaf check, then the recursive search. */
  method EnterNode(rx: Engine, xn: TreeNode, ghost all: set<TreeNode>, rctx: RouteContext, m: Method, xsearch: string)
      returns (rn: TreeNode?)
    requires Consistent(all) && xn in all && WellFormed(rx, xn.model)
    modifies rctx`routeKeys, rctx`routeValues
    ensures Recorded(rn, Enter(rx, xn.model, m, xsearch), m, rctx.routeKeys, rctx.routeValues, old(rctx.routeKeys), old(rctx.routeValues))
    ensures rn != null ==> rn in all
    decreases xn.model, 2
  {
    assert Linked(xn, all);
    hide WellFormed, Find, Consistent;
    if |xsearch| == 0 && xn.IsLeaf() {
      if m in xn.endpoints.value && xn.endpoints.value[m].handler != NoHandler {
        rctx.routeKeys := rctx.routeKeys + xn.endpoints.value[m].keys;
        return xn;
      }
    }
    rn := FindRoute(rx, xn, all, rctx, m, xsearch);
  }

  /** The loop over parameter or regexp nodes. */
  method TryParams(rx: Engine, nds: seq<TreeNode>, ghost ms: seq<Node>, ghost all: set<TreeNode>, t: NodeType, rctx: RouteContext, m: Method, search: string)
      returns (rn: TreeNode?)
    requires Consistent(all) && TakesParam(t) && search != "" && |nds| == |ms|
    requires forall i :: 0 <= i < |nds| ==> nds[i] in all && nds[i].model == ms[i]
    requires forall i :: 0 <= i < |nds| ==> FieldsAgree(nds[i])
    requires ListOk(rx, ms, t) && AllWellFormed(rx, ms)
    modifies rctx`routeKeys, rctx`routeValues
    ensures Recorded(rn, FindEach(rx, ms, m, search), m, rctx.routeKeys, rctx.routeValues, old(rctx.routeKeys), old(rctx.routeValues))
    ensures rn != null ==> rn in all
    decreases ms, 0
  {
    hide WellFormed, Consistent, Enter, ListOk, FieldsAgree, FindEach, Take, Takes;
    assert ms[0..] == ms;
    var idx := 0;
    while idx < |nds|
      invariant 0 <= idx <= |nds|
      invariant rctx.routeKeys == old(rctx.routeKeys) && rctx.routeValues == old(rctx.routeValues)
      invariant FindEach(rx, ms, m, search) == FindEach(rx, ms[idx..], m, search)
    {
      var xn := nds[idx];
      ListOkAt(rx, ms, t, idx);
      FindEachStep(rx, ms, idx, m, search);
      idx := idx + 1;
      var took := TakeParam(rx, xn, t, search);
      if took.Some? {
        var p := took.value;
        var prevlen := |rctx.routeValues|;
        rctx.routeValues := rctx.routeValues + [search[..p]];
        rn := EnterNode(rx, xn, all, rctx, m, search[p..]);
        if rn != null {
          return;
        }
        rctx.routeValues := rctx.routeValues[..prevlen];
      }
    }
    FindEachEnd(rx, ms, m, search);
    rn := null;
  }

  lemma FindEachStep(rx: Engine, ms: seq<Node>, i: nat, m: Method, s: string)
    requires i < |ms| && TakesParam(ms[i].typ)
    ensures FindEach(rx, ms[i..], m, s) ==
            var r := match Take(rx, NodeTokens(ms[i])[0], s)
                     case None => NotFound
                     case Some(p) => Push(s[..p], Enter(rx, ms[i], m, s[p..]));
            if r.Found? then r else FindEach(rx, ms[i + 1..], m, s)
  {
    hide Enter, Take;
    assert ms[i..][0] == ms[i] && ms[i..][1..] == ms[i + 1..];
  }

  lemma FindEachEnd(rx: Engine, ms: seq<Node>, m: Method, s: string)
    ensures FindEach(rx, ms[|ms|..], m, s) == NotFound
  {
    assert ms[|ms|..] == [];
  }

  /** How much of the text the node takes, or that it is passed over. */
  method TakeParam(rx: Engine, xn: TreeNode, t: NodeType, xsearch: string) returns (r: Option<nat>)
    requires TakesParam(t) && FieldsAgree(xn) && xn.model.typ == t && xsearch != ""
    ensures r == Take(rx, NodeTokens(xn.model)[0], xsearch)
    ensures forall v :: Takes(rx, NodeTokens(xn.model)[0], v, xsearch) <==> v <= xsearch && r == Some(|v|)
  {
    TakeIff(rx, NodeTokens(xn.model)[0], xsearch);
    var p := IndexByte(xsearch, xn.tail);
    if p < 0 {
      if xn.tail == '/' {
        p := |xsearch|;
      } else {
        return None;
      }
    } else if t == NtRegexp && p == 0 {
      return None;
    }
    if t == NtRegexp {
      if !rx.matches(xn.prefix, xsearch[..p]) {
        return None;
      }
    } else if IndexByte(xsearch[..p], '/') != -1 {
      return None;
    }
    return Some(p);
  }
}
