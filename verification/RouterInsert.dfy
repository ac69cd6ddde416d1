/** Registrations on the heap: `setEndpoint`, `addChild`, `getEdge`, `replaceChild` and
    `insertRoute`, each proved against its counterpart on tree values. */
module RouterInsert {
  import opened Text
  import opened Patterns
  import opened RouteTree
  import opened RouteInsert
  import opened RouteRegister
  import opened RouterNodes

  /** `longestPrefix` as written. */
  method CommonPrefix(a: string, b: string) returns (i: nat)
    ensures i == LongestPrefix(a, b)
  {
    var maxLen := if |b| < |a| then |b| else |a|;
    i := 0;
    assert a[0..] == a && b[0..] == b;
    while i < maxLen
      invariant i <= maxLen
      invariant LongestPrefix(a, b) == i + LongestPrefix(a[i..], b[i..])
    {
      if a[i] != b[i] {
        return;
      }
      assert a[i..][1..] == a[i + 1..] && b[i..][1..] == b[i + 1..];
      i := i + 1;
    }
  }

  /** `setEndpoint` on one node. */
  method PutEndpoint(n: TreeNode, reg: Registration) returns (err: Option<PatternError>)
    modifies n`endpoints
    ensures n.endpoints == Some(SetEndpoint(old(n.endpoints), reg))
    ensures err.None? <==> Keys(reg.pattern).Ok?
  {
    if n.endpoints.None? {
      n.endpoints := Some(map[]);
    }
    var keys := PatParamKeys(reg.pattern);
    if keys.Err? {
      return Some(keys.error);
    }
    n.endpoints := Some(n.endpoints.value[reg.verb := Endpoint(reg.handler, reg.pattern, keys.value)]);
    return None;
  }

  // ---------------------------------------------------------------- child lists

  ghost predicate AllAgree(ns: seq<TreeNode>)
    reads ns
  {
    forall x :: x in ns ==> FieldsAgree(x)
  }

  lemma {:induction false} InsertAt(ms: seq<Node>, m: Node, j: nat)
    requires j <= |ms| && (j == 0 || ms[j - 1].first <= m.first)
    requires forall k :: j <= k < |ms| ==> m.first < ms[k].first
    ensures InsertByLabel(ms, m) == ms[..j] + [m] + ms[j..]
    decreases |ms|
  {
    if j == |ms| {
      assert ms[..j] + [m] + ms[j..] == ms + [m];
    } else {
      InsertAt(ms[..|ms| - 1], m, j);
      SpliceFront(ms, j, m);
    }
  }

  /** One step of an insertion sort: `x` goes behind every node with the same or a smaller label. */
  method InsertNode(r: seq<TreeNode>, x: TreeNode) returns (r': seq<TreeNode>)
    requires AllAgree(r) && FieldsAgree(x)
    ensures |r'| == |r| + 1 && Models(r') == InsertByLabel(Models(r), x.model)
    ensures forall y :: y in r' ==> y == x || y in r
  {
    hide InsertByLabel;
    var j := |r|;
    while j > 0 && r[j - 1].first > x.first
      invariant 0 <= j <= |r|
      invariant forall k :: j <= k < |r| ==> x.model.first < r[k].model.first
    {
      assert r[j - 1] in r && FieldsAgree(r[j - 1]);
      j := j - 1;
    }
    assert j > 0 ==> r[j - 1] in r && FieldsAgree(r[j - 1]);
    InsertAt(Models(r), x.model, j);
    r' := r[..j] + [x] + r[j..];
    assert Models(r') == Models(r)[..j] + [x.model] + Models(r)[j..];
  }

  /** `sort.Sort` by label, as the stable insertion sort it is for short lists. */
  method SortNodes(ns: seq<TreeNode>) returns (r: seq<TreeNode>)
    requires AllAgree(ns)
    ensures Models(r) == SortByLabel(Models(ns)) && forall x :: x in r ==> x in ns
  {
    hide SortByLabel, InsertByLabel, FieldsAgree;
    r := [];
    SortEmpty();
    for i := 0 to |ns|
      invariant |r| == i && Models(r) == SortByLabel(Models(ns)[..i])
      invariant forall x :: x in r ==> x in ns
    {
      SortSnoc(Models(ns), i);
      r := InsertNode(r, ns[i]);
    }
    assert Models(ns)[..|ns|] == Models(ns);
  }

  lemma SortEmpty()
    ensures SortByLabel([]) == []
  {}

  lemma SortSnoc(ms: seq<Node>, i: nat)
    requires i < |ms|
    ensures SortByLabel(ms[..i + 1]) == InsertByLabel(SortByLabel(ms[..i]), ms[i])
  {
    hide InsertByLabel;
    assert ms[..i + 1][..i] == ms[..i];
  }

  /** `tailSort`: the last parameter with tail '/' changes places with the last node. */
  method TailSortNodes(ns: seq<TreeNode>) returns (r: seq<TreeNode>)
    requires AllAgree(ns)
    ensures Models(r) == TailSort(Models(ns)) && forall x :: x in r ==> x in ns
  {
    ghost var ms := Models(ns);
    var i := |ns| - 1;
    while i >= 0
      invariant -1 <= i < |ns|
      invariant forall k :: i < k < |ns| ==> ms[k].typ == NtStatic || ms[k].tail != '/'
    {
      assert FieldsAgree(ns[i]);
      if ns[i].typ != NtStatic && ns[i].tail == '/' {
        assert LastSlash(ms) == i;
        r := ns[i := ns[|ns| - 1]][|ns| - 1 := ns[i]];
        return;
      }
      i := i - 1;
    }
    assert LastSlash(ms) == -1;
    r := ns;
  }

  /** The child lists of the other types are as they were. */
  twostate predicate OtherKidsKept(n: TreeNode, t: NodeType)
    reads n
  {
    && (t != NtStatic ==> n.statics == old(n.statics)) && (t != NtRegexp ==> n.regexps == old(n.regexps))
    && (t != NtParam ==> n.params == old(n.params)) && (t != NtCatchAll ==> n.catchAlls == old(n.catchAlls))
  }

  /** The end of `addChild`: append to the list of the child's type, then sort it. */
  method AttachChild(n: TreeNode, child: TreeNode)
    requires FieldsAgree(child) && AllAgree(n.Kids(child.typ))
    modifies n`statics, n`regexps, n`params, n`catchAlls
    ensures Models(n.Kids(child.typ)) == TailSort(SortByLabel(old(Models(n.Kids(child.typ))) + [child.model]))
    ensures forall x :: x in n.Kids(child.typ) ==> x == child || x in old(n.Kids(child.typ))
    ensures OtherKidsKept(n, child.typ)
  {
    hide SortByLabel, TailSort, FieldsAgree;
    var nds := n.Kids(child.typ) + [child];
    assert Models(nds) == Models(n.Kids(child.typ)) + [child.model];
    var sorted := SortNodes(nds);
    var tailed := TailSortNodes(sorted);
    n.SetKids(child.typ, tailed);
    assert Models(n.Kids(child.typ)) == Models(tailed);
  }

  /** `getEdge`: the child to descend into for a text, if there is one. */
  method GetEdgeNode(ns: seq<TreeNode>, ghost ms: seq<Node>, t: NodeType, first: char, tail: char, prefix: Option<string>)
      returns (r: TreeNode?, ghost at: int)
    requires |ns| == |ms| && forall i :: 0 <= i < |ns| ==> ns[i].model == ms[i] && FieldsAgree(ns[i]) && ms[i].typ == t
    requires prefix.Some? <==> t == NtRegexp
    ensures var k := GetEdge(ms, first, tail, prefix); if k < 0 then r == null else r == ns[k]
    ensures at == GetEdge(ms, first, tail, prefix)
  {
    at := -1;
    for i := 0 to |ns|
      invariant forall k :: 0 <= k < i ==> !EdgeMatches(ms[k], first, tail, prefix)
    {
      if ns[i].first == first && ns[i].tail == tail {
        if t == NtRegexp && ns[i].prefix != prefix.value {
          continue;
        }
        at := i;
        return ns[i], at;
      }
    }
    return null, at;
  }

  // ---------------------------------------------------------------- new chains of nodes

  /** The four child lists of a node agree with its value. */
  ghost predicate KidsLinked(n: TreeNode, all: set<TreeNode>)
    reads n, all`model, all`parent
  {
    && ListLinked(n, NtStatic, all) && ListLinked(n, NtRegexp, all)
    && ListLinked(n, NtParam, all) && ListLinked(n, NtCatchAll, all)
  }

  /** A node whose endpoint is still to be set to what its value already says. */
  ghost predicate Pending(n: TreeNode, all: set<TreeNode>, eps: Option<Endpoints>)
    reads n, all`model, all`parent
  {
    FieldsAgree(n) && KidsLinked(n, all) && n.endpoints == None && n.model.endpoints == eps
  }

  /** New nodes that form a chain: consistent but for the last one, which waits for its endpoint. */
  ghost predicate NewChain(added: set<TreeNode>, child: TreeNode, hn: TreeNode, eps: Option<Endpoints>)
    reads added
  {
    && child in added && hn in added && Pending(hn, added, eps)
    && forall x :: x in added && x != hn ==> Linked(x, added)
  }

  predicate Blank(n: TreeNode)
    reads n
  {
    n.endpoints == None && n.statics == [] && n.regexps == [] && n.params == [] && n.catchAlls == []
  }

  predicate OthersEmpty(n: TreeNode, t: NodeType)
    reads n
  {
    && (t != NtStatic ==> n.statics == []) && (t != NtRegexp ==> n.regexps == [])
    && (t != NtParam ==> n.params == []) && (t != NtCatchAll ==> n.catchAlls == [])
  }

  /** A bare node takes a value without children. */
  ghost method SetLeafModel(n: TreeNode, eps: Option<Endpoints>)
    requires Blank(n)
    modifies n`model
    ensures n.model == Node(n.typ, n.first, n.tail, UsedPrefix(n.typ, n.prefix), eps, [], [], [], [])
    ensures NewChain({n}, n, n, eps)
  {
    n.model := Node(n.typ, n.first, n.tail, UsedPrefix(n.typ, n.prefix), eps, [], [], [], []);
  }

  /** A node with one child takes the value that says so. */
  ghost method SetOneModel(n: TreeNode, c: TreeNode, added: set<TreeNode>, hn: TreeNode, eps: Option<Endpoints>)
    requires n !in added && NewChain(added, c, hn, eps) && c.parent == n
    requires n.endpoints == None && n.Kids(c.typ) == [c] && OthersEmpty(n, c.typ)
    modifies n`model
    ensures n.model == Attach(Node(n.typ, n.first, n.tail, UsedPrefix(n.typ, n.prefix), None, [], [], [], []), c.model)
    ensures NewChain(added + {n}, n, hn, eps)
  {
    hide NewChain, Linked, Attach;
    var bare := Node(n.typ, n.first, n.tail, UsedPrefix(n.typ, n.prefix), None, [], [], [], []);
    AttachFirst(bare, c.model);
    ChainAgrees(added, c, hn, eps);
    n.model := WithChildren(bare, c.model.typ, [c.model]);
    OneLinked(n, c, added);
    GrowChain(added, n, c, hn, eps);
  }

  lemma ChainAgrees(added: set<TreeNode>, c: TreeNode, hn: TreeNode, eps: Option<Endpoints>)
    requires NewChain(added, c, hn, eps)
    ensures c in added && FieldsAgree(c)
  {}

  lemma OneLinked(n: TreeNode, c: TreeNode, added: set<TreeNode>)
    requires c in added && c.parent == n && c.model.typ == c.typ
    requires n.endpoints == None && n.Kids(c.typ) == [c] && OthersEmpty(n, c.typ)
    requires n.model == WithChildren(Node(n.typ, n.first, n.tail, UsedPrefix(n.typ, n.prefix), None, [], [], [], []), c.typ, [c.model])
    ensures Linked(n, added + {n})
  {}

  lemma GrowChain(added: set<TreeNode>, n: TreeNode, c: TreeNode, hn: TreeNode, eps: Option<Endpoints>)
    requires NewChain(added, c, hn, eps) && n !in added && Linked(n, added + {n})
    ensures NewChain(added + {n}, n, hn, eps)
  {
    var all := added + {n};
    forall x | x in added ensures x != hn ==> Linked(x, all) {
      if x != hn { LinkedInMore(x, added, all); }
    }
    assert Pending(hn, all, eps) by {
      KidsInMore(hn, added, all);
    }
  }

  lemma LinkedInMore(x: TreeNode, a: set<TreeNode>, b: set<TreeNode>)
    requires Linked(x, a) && a <= b
    ensures Linked(x, b)
  {}

  lemma KidsInMore(x: TreeNode, a: set<TreeNode>, b: set<TreeNode>)
    requires KidsLinked(x, a) && a <= b
    ensures KidsLinked(x, b)
  {}

  // ---------------------------------------------------------------- addChild

  /** Attaching to a node without children. */
  method AttachOnly(n: TreeNode, child: TreeNode)
    requires Blank(n) && FieldsAgree(child)
    modifies n`statics, n`regexps, n`params, n`catchAlls
    ensures n.Kids(child.typ) == [child] && OthersEmpty(n, child.typ)
  {
    hide FieldsAgree;
    AttachChild(n, child);
    var nds := n.Kids(child.typ);
    assert Models([]) == [];
    SortSingle(child.model);
    assert |Models(nds)| == 1;
    assert nds[0] in nds;
  }

  lemma SortSingle(c: Node)
    ensures TailSort(SortByLabel([] + [c])) == [c]
  {
    assert [] + [c] == [c];
    assert [c][..0] == [];
    assert SortByLabel([c]) == InsertByLabel(SortByLabel([]), c) == [c];
  }

  /** `addChild` without its last step: the nodes for the text `search`, starting with `child`. */
  method BuildChain(rx: Engine, child: TreeNode, search: string, ghost eps: Option<Endpoints>)
      returns (hn: TreeNode, err: Option<PatternError>, ghost added: set<TreeNode>)
    requires search != "" && Blank(child) && child.first == search[0]
    requires Literal(search) ==> child.typ == NtStatic && child.prefix == search && child.tail == NUL
    modifies child
    ensures err.None? <==> Chain(rx, search, eps).Ok?
    ensures err.None? ==> NewChain(added, child, hn, eps) && fresh(added - {child})
    ensures err.None? ==> child.model == Chain(rx, search, eps).value
    ensures child.parent == old(child.parent)
    decreases |search|, 0
  {
    hide NextSegment, Chain, Attach, NewChain, Literal, FieldsAgree;
    hn, added := child, {child};
    var next := PatNextSegment(search);
    if next.Err? {
      ChainErr(rx, search, eps);
      return hn, Some(next.error), added;
    }
    var seg := next.value;
    SegmentFacts(search, seg);
    if seg.typ == NtStatic {
      ChainLiteral(rx, search, eps);
      SetLeafModel(child, eps);
      return hn, None, added;
    }
    if seg.typ == NtRegexp && !rx.compiles(seg.rexpat) {
      ChainRefused(rx, search, seg, eps);
      return hn, Some(InvalidRegexp), added;
    }
    ChainUnfold(rx, search, seg, eps);
    var rest, nn;
    if seg.start == 0 {
      child.typ, child.tail, child.prefix := seg.typ, seg.tail, seg.rexpat;
      if seg.end == |search| {
        SetLeafModel(child, eps);
        return hn, None, added;
      }
      rest := search[seg.end..];
      nn := new TreeNode(NtStatic, rest[0], NUL, rest);
    } else {
      child.typ, child.tail, child.prefix := NtStatic, NUL, search[..seg.start];
      rest := search[seg.start..];
      NotLiteral(rest);
      nn := new TreeNode(seg.typ, rest[0], seg.tail, "");
    }
    hn, err, added := ExtendChain(rx, child, nn, rest, eps);
  }

  /** The chain goes on below `child` with `nn`. */
  method ExtendChain(rx: Engine, child: TreeNode, nn: TreeNode, rest: string, ghost eps: Option<Endpoints>)
      returns (hn: TreeNode, err: Option<PatternError>, ghost added: set<TreeNode>)
    requires rest != "" && Blank(child) && Blank(nn) && nn != child && nn.first == rest[0]
    requires Literal(rest) ==> nn.typ == NtStatic && nn.prefix == rest && nn.tail == NUL
    modifies nn, child`statics, child`regexps, child`params, child`catchAlls, child`model
    ensures err.None? <==> Chain(rx, rest, eps).Ok?
    ensures err.None? ==> NewChain(added, child, hn, eps) && fresh(added - {child} - {nn})
    ensures err.None? ==>
              child.model == Attach(Node(child.typ, child.first, child.tail, UsedPrefix(child.typ, child.prefix), None, [], [], [], []), Chain(rx, rest, eps).value)
    decreases |rest|, 1
  {
    hide NextSegment, Chain, Attach, NewChain, Literal, FieldsAgree;
    nn.parent := child;
    hn, err, added := BuildChain(rx, nn, rest, eps);
    if err.None? {
      HangBelow(child, nn, added, hn, eps);
      added := added + {child};
    }
  }

  lemma SegmentFacts(s: string, seg: Segment)
    requires NextSegment(s) == Ok(seg)
    ensures seg.typ == NtStatic ==> Literal(s)
    ensures UsedPrefix(seg.typ, seg.rexpat) == seg.rexpat
    ensures seg.typ != NtStatic ==> seg.start < seg.end <= |s| && IsWild(s[seg.start])
  {
    hide NextSegment;
  }

  lemma NotLiteral(s: string)
    requires s != "" && IsWild(s[0])
    ensures !Literal(s)
  {
    assert s[0] in s;
  }

  lemma ChainErr(rx: Engine, s: string, eps: Option<Endpoints>)
    requires s != "" && NextSegment(s).Err?
    ensures Chain(rx, s, eps).Err?
  {
    hide NextSegment, Attach;
  }

  lemma ChainLiteral(rx: Engine, s: string, eps: Option<Endpoints>)
    requires s != "" && NextSegment(s).Ok? && NextSegment(s).value.typ == NtStatic
    ensures Chain(rx, s, eps) == Ok(Node(NtStatic, s[0], NUL, s, eps, [], [], [], []))
  {
    hide NextSegment, Attach;
  }

  /** The rest of the chain becomes the only child of `child`. */
  method HangBelow(child: TreeNode, nn: TreeNode, ghost added: set<TreeNode>, ghost hn: TreeNode, ghost eps: Option<Endpoints>)
    requires child !in added && Blank(child) && NewChain(added, nn, hn, eps) && nn.parent == child
    modifies child`statics, child`regexps, child`params, child`catchAlls, child`model
    ensures NewChain(added + {child}, child, hn, eps)
    ensures child.model == Attach(Node(child.typ, child.first, child.tail, UsedPrefix(child.typ, child.prefix), None, [], [], [], []), nn.model)
  {
    ChainAgrees(added, nn, hn, eps);
    AttachOnly(child, nn);
    SetOneModel(child, nn, added, hn, eps);
  }

  /** `replaceChild`: the first static child with that label and tail gives way to `child`. */
  method ReplaceChild(n: TreeNode, first: char, tail: char, child: TreeNode, ghost at: nat)
    requires at < |n.statics| && n.statics[at].first == first && n.statics[at].tail == tail
    requires forall k :: 0 <= k < at ==> !(n.statics[k].first == first && n.statics[k].tail == tail)
    requires child.typ == NtStatic
    modifies n`statics, child`first, child`tail
    ensures n.statics == old(n.statics)[at := child] && child.first == first && child.tail == tail
  {
    var i := 0;
    while i < |n.statics|
      invariant 0 <= i <= at && n.statics == old(n.statics)
      invariant unchanged(child)
    {
      if n.statics[i].first == first && n.statics[i].tail == tail {
        n.statics := n.statics[i := child];
        child.first := first;
        child.tail := tail;
        return;
      }
      i := i + 1;
    }
  }
}
