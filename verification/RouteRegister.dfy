/** The effect of `insertRoute` on a whole tree, for every pattern: what is accepted, which route
    changes, and that the invariant stays. */
module RouteRegister {
  import opened Text
  import opened Patterns
  import opened RouteTree
  import opened RouteTable
  import opened RouteInsert

  predicate Compiles(rx: Engine, toks: seq<Token>) {
    forall i :: 0 <= i < |toks| && toks[i].Rex? ==> rx.compiles(toks[i].re)
  }

  /** The text is well formed and its expressions compile. */
  predicate Readable(rx: Engine, s: string) {
    Tokens(s).Ok? && Compiles(rx, Tokens(s).value)
  }

  lemma CompilesConcat(rx: Engine, a: seq<Token>, b: seq<Token>)
    ensures Compiles(rx, a + b) <==> Compiles(rx, a) && Compiles(rx, b)
  {
    if Compiles(rx, a + b) {
      assert forall i :: 0 <= i < |a| ==> (a + b)[i] == a[i];
      assert forall i :: 0 <= i < |b| ==> (a + b)[|a| + i] == b[i];
    }
  }

  lemma CompilesLits(rx: Engine, p: string)
    ensures Compiles(rx, Lits(p))
  {}

  lemma ReadableLits(rx: Engine, p: string, s: string)
    requires Literal(p)
    ensures Readable(rx, p + s) <==> Readable(rx, s)
    ensures Readable(rx, s) ==> Tokens(p + s).value == Lits(p) + Tokens(s).value
  {
    hide Tokens, Compiles, Lits;
    TokensLits(p, s);
    if Tokens(s).Ok? {
      CompilesConcat(rx, Lits(p), Tokens(s).value);
      CompilesLits(rx, p);
    }
  }

  lemma ReadableWild(rx: Engine, s: string)
    requires s != "" && IsWild(s[0]) && NextSegment(s).Ok?
    ensures var seg := NextSegment(s).value;
            && seg.typ != NtStatic && seg.start == 0 && seg.end > 0
            && (Readable(rx, s) <==> (seg.typ == NtRegexp ==> rx.compiles(seg.rexpat)) && Readable(rx, s[seg.end..]))
            && (Readable(rx, s) ==> Tokens(s).value == [SegmentToken(seg)] + Tokens(s[seg.end..]).value)
  {
    hide NextSegment, Tokens, Compiles;
    TokensWild(s);
    var seg := NextSegment(s).value;
    if Tokens(s).Ok? {
      CompilesConcat(rx, [SegmentToken(seg)], Tokens(s[seg.end..]).value);
      CompilesOne(rx, seg);
    }
  }

  lemma CompilesOne(rx: Engine, seg: Segment)
    requires seg.typ != NtStatic
    ensures Compiles(rx, [SegmentToken(seg)]) <==> (seg.typ == NtRegexp ==> rx.compiles(seg.rexpat))
  {
    assert [SegmentToken(seg)][0] == SegmentToken(seg);
  }

  lemma {:induction false} NextSegmentLits(p: string, s: string)
    requires Literal(p) && NextSegment(s).Ok? && NextSegment(s).value.typ != NtStatic
    ensures var seg := NextSegment(s).value;
            NextSegment(p + s) == Ok(seg.(start := seg.start + |p|, end := seg.end + |p|))
    decreases |p|
  {
    hide NextSegment;
    if p == "" {
      assert p + s == s;
    } else {
      var c, q := p[0], p[1..];
      LiteralTail(p);
      hide Literal;
      assert p + s == [c] + (q + s);
      NextSegmentLits(q, s);
      NextSegmentCons(c, q + s);
    }
  }

  /** If the first wildcard of `s` stands at `seg.start`, the text from there on starts with it. */
  lemma SegmentAtStart(s: string, seg: Segment)
    requires NextSegment(s) == Ok(seg) && seg.typ != NtStatic
    ensures NextSegment(s[seg.start..]) == Ok(seg.(start := 0, end := seg.end - seg.start))
  {
    assert Literal(s[..seg.start]);
    hide NextSegment, Literal;
    assert s == s[..seg.start] + s[seg.start..];
    SegmentBehind(s[..seg.start], s[seg.start..], seg);
  }

  lemma SegmentBehind(p: string, t: string, seg: Segment)
    requires Literal(p) && NextSegment(p + t) == Ok(seg) && seg.typ != NtStatic && seg.start == |p|
    ensures NextSegment(t) == Ok(seg.(start := 0, end := seg.end - seg.start))
  {
    hide NextSegment, Literal;
    NextSegmentNeverFails(p, t);
    NextSegmentLits(p, t);
  }

  lemma {:induction false} NextSegmentNeverFails(p: string, s: string)
    requires Literal(p) && NextSegment(p + s).Ok? && NextSegment(p + s).value.typ != NtStatic
    ensures NextSegment(s).Ok? && NextSegment(s).value.typ != NtStatic
    ensures NextSegment(p + s).value.start >= |p| && NextSegment(s).value.start == NextSegment(p + s).value.start - |p|
    decreases |p|
  {
    hide NextSegment;
    if p == "" {
      assert p + s == s;
    } else {
      var c, q := p[0], p[1..];
      LiteralTail(p);
      hide Literal;
      assert p + s == [c] + (q + s);
      NextSegmentCons(c, q + s);
      NextSegmentNeverFails(q, s);
    }
  }

  // ---------------------------------------------------------------- keeping the invariant

  lemma WellFormedWith(rx: Engine, n: Node, t: NodeType, ns: seq<Node>)
    requires WellFormed(rx, n) && ListOk(rx, ns, t) && TailOk(n, ns) && AllWellFormed(rx, ns)
    requires n.typ == NtCatchAll ==> ns == []
    ensures WellFormed(rx, WithChildren(n, t, ns))
  {
    hide ListOk, AllWellFormed;
  }

  lemma LeafWellFormed(rx: Engine, n: Node)
    requires Childless(n) && (TakesParam(n.typ) && n.endpoints.Some? ==> n.tail == '/')
    ensures WellFormed(rx, n)
  {}

  lemma OneChildRoutes(n: Node, c: Node)
    requires Childless(n) && n.endpoints.None?
    ensures Routes(WithChildren(n, c.typ, [c])) == Branch(c)
  {
    hide Routes, Branch, WithChildren, Before, After;
    RoutesInserted(n, c.typ, 0, c);
    assert Children(n, c.typ) == [];
    assert Children(n, c.typ)[..0] + [c] + Children(n, c.typ)[0..] == [c];
    NothingAround(n, c.typ);
    assert [] + Branch(c) + [] == Branch(c);
  }

  lemma OneChild(rx: Engine, n: Node, c: Node)
    requires Childless(n) && n.endpoints.None? && n.typ != NtCatchAll
    requires ChildOk(rx, c, c.typ) && WellFormed(rx, c) && (TakesParam(n.typ) ==> c.first == n.tail)
    ensures Attach(n, c) == WithChildren(n, c.typ, [c])
    ensures WellFormed(rx, Attach(n, c)) && Routes(Attach(n, c)) == Branch(c)
  {
    hide WellFormed, Routes, Attach, Branch, WithChildren, ChildOk;
    AttachFirst(n, c);
    LeafWellFormed(rx, n);
    WellFormedWith(rx, n, c.typ, [c]);
    OneChildRoutes(n, c);
  }

  lemma NothingAround(n: Node, t: NodeType)
    requires Childless(n) && n.endpoints.None?
    ensures Before(n, t, 0) == [] && After(n, t, 0) == []
  {
    NoRoutes();
    hide RoutesOf;
  }

  lemma RoutesOfLeaf(n: Node)
    requires Childless(n)
    ensures Routes(n) == Own(n)
  {
    NoRoutes();
    hide RoutesOf, Own;
    assert Below(n) == [];
  }

  lemma AttachFirst(n: Node, c: Node)
    requires Children(n, c.typ) == []
    ensures Attach(n, c) == WithChildren(n, c.typ, [c])
  {
    assert [] + [c] == [c];
    assert [c][..0] == [];
    assert SortByLabel([c]) == InsertByLabel(SortByLabel([]), c) == [c];
    assert TailSort([c]) == [c];
  }

  // ---------------------------------------------------------------- new chains

  /** What `addChild` builds for a text: one route, and a child that fits its place. */
  predicate IsChain(rx: Engine, c: Node, s: string, eps: Endpoints)
    requires s != "" && Tokens(s).Ok?
  {
    && ChildOk(rx, c, c.typ) && WellFormed(rx, c)
    && c.first == s[0]
    && Branch(c) == [Route(Tokens(s).value, eps)]
    && NextEdge(s).Ok?
    && (var edge := NextEdge(s).value;
        && c.typ == edge.typ && c.tail == edge.tail && (edge.prefix == if c.typ == NtRegexp then Some(c.prefix) else None))
    && NodeTokens(c) != [] && Head(c) == Tokens(s).value[0]
  }

  lemma BranchOfLeaf(c: Node, eps: Endpoints)
    requires Childless(c) && c.endpoints == Some(eps)
    ensures Branch(c) == [Route(NodeTokens(c), eps)]
  {
    RoutesOfLeaf(c);
    hide NodeTokens, Routes;
    assert NodeTokens(c) + [] == NodeTokens(c);
  }

  /** `addChild` succeeds exactly on readable texts. */
  lemma {:induction false} ChainIs(rx: Engine, s: string, eps: Endpoints)
    requires s != ""
    ensures Chain(rx, s, Some(eps)).Ok? <==> Readable(rx, s)
    ensures Readable(rx, s) ==> IsChain(rx, Chain(rx, s, Some(eps)).value, s, eps)
    decreases |s|
  {
    var next := NextSegment(s);
    hide NextSegment, IsChain;
    if next.Err? {
      TokensErr(s);
    } else if next.value.typ == NtStatic {
      ChainStatic(rx, s, eps);
    } else if next.value.start > 0 {
      ChainIs(rx, s[next.value.start..], eps);
      ChainAfterText(rx, s, next.value, eps);
    } else {
      if next.value.end < |s| {
        ChainIs(rx, s[next.value.end..], eps);
      }
      ChainAtWild(rx, s, next.value, eps);
    }
  }

  lemma ChainStatic(rx: Engine, s: string, eps: Endpoints)
    requires s != "" && NextSegment(s).Ok? && NextSegment(s).value.typ == NtStatic
    ensures Readable(rx, s) && Chain(rx, s, Some(eps)).Ok?
    ensures IsChain(rx, Chain(rx, s, Some(eps)).value, s, eps)
  {
    hide NextSegment, Branch, WellFormed, Lits;
    assert Tokens(s) == Ok(Lits(s));
    CompilesLits(rx, s);
    var c := Node(NtStatic, s[0], NUL, s, Some(eps), [], [], [], []);
    assert Chain(rx, s, Some(eps)) == Ok(c);
    LeafWellFormed(rx, c);
    BranchOfLeaf(c, eps);
    assert s[0] in s;
  }

  lemma ChainUnfold(rx: Engine, s: string, seg: Segment, eps: Option<Endpoints>)
    requires s != "" && NextSegment(s) == Ok(seg) && seg.typ != NtStatic
    requires seg.typ == NtRegexp ==> rx.compiles(seg.rexpat)
    ensures seg.start > 0 ==>
              Chain(rx, s, eps) ==
              match Chain(rx, s[seg.start..], eps)
              case Err(e) => Err(e)
              case Ok(c) => Ok(Attach(Node(NtStatic, s[0], NUL, s[..seg.start], None, [], [], [], []), c))
    ensures seg.start == 0 && seg.end == |s| ==>
              Chain(rx, s, eps) == Ok(Node(seg.typ, s[0], seg.tail, seg.rexpat, eps, [], [], [], []))
    ensures seg.start == 0 && seg.end < |s| ==>
              Chain(rx, s, eps) ==
              match Chain(rx, s[seg.end..], eps)
              case Err(e) => Err(e)
              case Ok(c) => Ok(Attach(Node(seg.typ, s[0], seg.tail, seg.rexpat, None, [], [], [], []), c))
  {
    hide NextSegment, Attach;
  }

  lemma ChainRefused(rx: Engine, s: string, seg: Segment, eps: Option<Endpoints>)
    requires s != "" && NextSegment(s) == Ok(seg) && seg.typ == NtRegexp && !rx.compiles(seg.rexpat)
    ensures Chain(rx, s, eps).Err?
  {
    hide NextSegment, Attach;
  }

  lemma ChainAfterText(rx: Engine, s: string, seg: Segment, eps: Endpoints)
    requires s != "" && NextSegment(s) == Ok(seg) && seg.typ != NtStatic && seg.start > 0
    requires var t := s[seg.start..];
             && (Chain(rx, t, Some(eps)).Ok? <==> Readable(rx, t))
             && (Readable(rx, t) ==> IsChain(rx, Chain(rx, t, Some(eps)).value, t, eps))
    ensures Chain(rx, s, Some(eps)).Ok? <==> Readable(rx, s)
    ensures Readable(rx, s) ==> IsChain(rx, Chain(rx, s, Some(eps)).value, s, eps)
  {
    hide NextSegment, Chain, IsChain, Readable;
    var p, t := s[..seg.start], s[seg.start..];
    assert s == p + t;
    SegmentAtStart(s, seg);
    ReadableLits(rx, p, t);
    ReadableWild(rx, t);
    if seg.typ == NtRegexp && !rx.compiles(seg.rexpat) {
      ChainRefused(rx, s, seg, Some(eps));
    } else {
      ChainUnfold(rx, s, seg, Some(eps));
      if Readable(rx, s) {
        TextThenChain(rx, p, t, Chain(rx, t, Some(eps)).value, eps);
      }
    }
  }

  lemma TextThenChain(rx: Engine, p: string, t: string, c: Node, eps: Endpoints)
    requires p != "" && Literal(p) && t != "" && Readable(rx, p + t) && Readable(rx, t) && IsChain(rx, c, t, eps)
    ensures IsChain(rx, Attach(Node(NtStatic, (p + t)[0], NUL, p, None, [], [], [], []), c), p + t, eps)
  {
    hide Tokens, WellFormed, Branch, Attach, Lits, NextSegment, Routes;
    var s := p + t;
    var n := Node(NtStatic, s[0], NUL, p, None, [], [], [], []);
    OneChild(rx, n, c);
    var r := Attach(n, c);
    assert r.typ == NtStatic && r.prefix == p && r.first == s[0] && r.tail == NUL;
    BranchOfText(r, p, Route(Tokens(t).value, eps));
    ReadableLits(rx, p, t);
    LitsHead(p, Tokens(t).value);
    assert s[0] in p;
  }

  lemma LitsHead(p: string, toks: seq<Token>)
    requires p != ""
    ensures Lits(p)[0] == Lit(p[0]) && (Lits(p) + toks)[0] == Lit(p[0])
  {}

  lemma BranchOfText(r: Node, p: string, route: Route)
    requires r.typ == NtStatic && r.prefix == p && Routes(r) == [route]
    ensures Branch(r) == [Route(Lits(p) + route.toks, route.eps)]
  {
    hide Routes, Lits;
  }

  lemma ChainAtWild(rx: Engine, s: string, seg: Segment, eps: Endpoints)
    requires s != "" && NextSegment(s) == Ok(seg) && seg.typ != NtStatic && seg.start == 0
    requires var t := s[seg.end..];
             t != "" ==> && (Chain(rx, t, Some(eps)).Ok? <==> Readable(rx, t))
                         && (Readable(rx, t) ==> IsChain(rx, Chain(rx, t, Some(eps)).value, t, eps))
    ensures Chain(rx, s, Some(eps)).Ok? <==> Readable(rx, s)
    ensures Readable(rx, s) ==> IsChain(rx, Chain(rx, s, Some(eps)).value, s, eps)
  {
    hide NextSegment, Chain, IsChain, Readable;
    var t := s[seg.end..];
    ReadableWild(rx, s);
    if seg.typ == NtRegexp && !rx.compiles(seg.rexpat) {
      ChainRefused(rx, s, seg, Some(eps));
    } else {
      ChainUnfold(rx, s, seg, Some(eps));
      if seg.end == |s| {
        assert t == "";
        ReadableEmpty(rx);
        WildAtEnd(rx, s, seg, eps);
      } else if Readable(rx, s) {
        WildThenChain(rx, s, seg, Chain(rx, t, Some(eps)).value, eps);
      }
    }
  }

  lemma ReadableEmpty(rx: Engine)
    ensures Readable(rx, "") && Tokens("").value == []
  {
    TokensEmpty();
  }

  lemma WildAtEnd(rx: Engine, s: string, seg: Segment, eps: Endpoints)
    requires s != "" && NextSegment(s) == Ok(seg) && seg.typ != NtStatic && seg.start == 0 && seg.end == |s|
    requires Readable(rx, s)
    ensures IsChain(rx, Node(seg.typ, s[0], seg.tail, seg.rexpat, Some(eps), [], [], [], []), s, eps)
  {
    hide Tokens, WellFormed, Branch, NextSegment;
    var c := Node(seg.typ, s[0], seg.tail, seg.rexpat, Some(eps), [], [], [], []);
    ReadableWild(rx, s);
    assert s[seg.end..] == "";
    ReadableEmpty(rx);
    assert Tokens(s).value == [SegmentToken(seg)];
    LeafWellFormed(rx, c);
    BranchOfLeaf(c, eps);
  }

  lemma WildThenChain(rx: Engine, s: string, seg: Segment, c: Node, eps: Endpoints)
    requires s != "" && NextSegment(s) == Ok(seg) && seg.typ != NtStatic && seg.start == 0 && seg.end < |s|
    requires Readable(rx, s) && Readable(rx, s[seg.end..]) && IsChain(rx, c, s[seg.end..], eps)
    ensures IsChain(rx, Attach(Node(seg.typ, s[0], seg.tail, seg.rexpat, None, [], [], [], []), c), s, eps)
  {
    hide Tokens, WellFormed, Branch, NextSegment, Attach, Routes;
    var t := s[seg.end..];
    var n := Node(seg.typ, s[0], seg.tail, seg.rexpat, None, [], [], [], []);
    assert c.first == t[0] == seg.tail && TakesParam(seg.typ);
    OneChild(rx, n, c);
    ReadableWild(rx, s);
    BranchOfWild(Attach(n, c), seg, Route(Tokens(t).value, eps));
  }

  lemma BranchOfWild(r: Node, seg: Segment, route: Route)
    requires seg.typ != NtStatic && NodeTokens(r) == [SegmentToken(seg)] && Routes(r) == [route]
    ensures Branch(r) == [Route([SegmentToken(seg)] + route.toks, route.eps)]
  {
    hide Routes, NodeTokens, SegmentToken;
  }

  // ---------------------------------------------------------------- registrations below a node

  /** The text may be registered below this node: it starts where the node's tail says. */
  predicate Belongs(n: Node, s: string) {
    && (TakesParam(n.typ) ==> n.tail == if s == "" then '/' else s[0])
    && (n.typ == NtCatchAll ==> s == "")
  }

  predicate SameEdge(a: Node, b: Node) {
    a.typ == b.typ && a.first == b.first && a.tail == b.tail && (a.typ == NtRegexp ==> a.prefix == b.prefix)
  }

  /** The routes `after` are the routes `before` with the registration done for text `s`. */
  predicate RoutesUpdated(rx: Engine, before: seq<Route>, after: seq<Route>, s: string, reg: Registration, ch: Change) {
    if Readable(rx, s) then
      Applies(before, ch, Tokens(s).value) && after == Apply(before, ch, Tokens(s).value, reg)
    else after == before
  }

  /** What a registration may report: an error unless the text is readable and the names differ. */
  predicate ErrorOk(rx: Engine, s: string, reg: Registration, r: Inserted) {
    r.error.None? <==> Readable(rx, s) && Keys(reg.pattern).Ok?
  }

  predicate NodeOutcome(rx: Engine, n: Node, s: string, reg: Registration, r: Inserted, ch: Change) {
    && WellFormed(rx, r.node) && SameEdge(n, r.node) && n.prefix == r.node.prefix
    && RoutesUpdated(rx, Routes(n), Routes(r.node), s, reg, ch)
    && ErrorOk(rx, s, reg, r)
  }

  predicate ChildOutcome(rx: Engine, c: Node, s: string, reg: Registration, r: Inserted, ch: Change) {
    && WellFormed(rx, r.node) && SameEdge(c, r.node) && ChildOk(rx, r.node, c.typ)
    && RoutesUpdated(rx, Branch(c), Branch(r.node), s, reg, ch)
    && ErrorOk(rx, s, reg, r)
  }

  lemma FinishOutcome(rx: Engine, n: Node, reg: Registration) returns (ch: Change)
    requires WellFormed(rx, n) && Belongs(n, "")
    ensures NodeOutcome(rx, n, "", reg, Finish(n, reg), ch)
  {
    hide Keys, SetEndpoint, WellFormed, Tokens, Compiles, Below;
    var r := Finish(n, reg);
    FinishWellFormed(rx, n, reg);
    ReadableEmpty(rx);
    SameBelow(n, r.node);
    if n.endpoints.Some? {
      ch := Replaced(0);
      ReplacedFirst(n.endpoints.value, Below(n), reg);
    } else {
      ch := Added(0);
      BelowNotHere(rx, n);
      AddedFirst(Below(n), reg);
      assert [] + Below(n) == Below(n);
    }
  }

  lemma ReplacedFirst(eps: Endpoints, rest: seq<Route>, reg: Registration)
    ensures var rs := [Route([], eps)] + rest;
            Applies(rs, Replaced(0), []) && Apply(rs, Replaced(0), [], reg) == [Route([], SetEndpoint(Some(eps), reg))] + rest
  {
    hide SetEndpoint;
  }

  lemma AddedFirst(rest: seq<Route>, reg: Registration)
    requires Absent(rest, [])
    ensures Applies(rest, Added(0), []) && Apply(rest, Added(0), [], reg) == [Route([], SetEndpoint(None, reg))] + rest
  {
    hide SetEndpoint;
    assert rest[..0] == [] && rest[0..] == rest;
  }

  lemma FinishWellFormed(rx: Engine, n: Node, reg: Registration)
    requires WellFormed(rx, n) && Belongs(n, "")
    ensures WellFormed(rx, Finish(n, reg).node)
  {
    hide ListOk, AllWellFormed, SetEndpoint, Keys;
  }

  lemma SameBelow(a: Node, b: Node)
    requires a.statics == b.statics && a.regexps == b.regexps && a.params == b.params && a.catchAlls == b.catchAlls
    ensures Below(a) == Below(b)
  {
    hide RoutesOf;
  }

  lemma BelowNotHere(rx: Engine, n: Node)
    requires WellFormed(rx, n)
    ensures Absent(Below(n), [])
  {
    hide RoutesOf, Absent, ListOk;
    ListHeadsOk(rx, n.statics, NtStatic, []);
    ListHeadsOk(rx, n.regexps, NtRegexp, []);
    ListHeadsOk(rx, n.params, NtParam, []);
    ListHeadsOk(rx, n.catchAlls, NtCatchAll, []);
    var a, b, c, d := RoutesOf(n.statics), RoutesOf(n.regexps), RoutesOf(n.params), RoutesOf(n.catchAlls);
    AbsentConcat(a, b, []);
    AbsentConcat(a + b, c, []);
    AbsentConcat(a + b + c, d, []);
  }

  /** The edge a readable text takes is entered with its first token. */
  lemma EdgeHeads(rx: Engine, s: string)
    requires s != "" && Readable(rx, s)
    ensures NextEdge(s).Ok? && Tokens(s).value != []
    ensures var edge, tok := NextEdge(s).value, Tokens(s).value[0];
            && Heads(tok, edge.typ)
            && (edge.typ == NtStatic ==> tok == Lit(s[0]))
            && (edge.typ == NtParam ==> tok == Param(edge.tail))
            && (edge.typ == NtRegexp ==> edge.prefix.Some? && tok == Rex(edge.prefix.value, edge.tail))
  {
    hide NextSegment, Tokens, Compiles;
    if IsWild(s[0]) {
      TokensWild(s);
    } else {
      assert s == [s[0]] + s[1..];
      TokensCons(s[0], s[1..]);
    }
  }

  /** A child is entered with the first token of `s` exactly when `getEdge` takes it for `s`. */
  lemma EdgeIsHead(rx: Engine, c: Node, s: string)
    requires s != "" && Readable(rx, s) && NextEdge(s).Ok? && ChildOk(rx, c, NextEdge(s).value.typ)
    ensures var edge := NextEdge(s).value;
            NodeTokens(c) != [] && (EdgeMatches(c, s[0], edge.tail, edge.prefix) <==> Head(c) == Tokens(s).value[0])
  {
    EdgeHeads(rx, s);
    HeadOfChild(rx, c, c.typ);
    NextEdgeBytes(s);
    hide NextEdge, Tokens, Readable;
  }

  lemma NextEdgeBytes(s: string)
    requires s != "" && NextEdge(s).Ok?
    ensures var edge := NextEdge(s).value;
            && (edge.typ == NtStatic ==> edge == Edge(NtStatic, NUL, None, 0) && !IsWild(s[0]))
            && (TakesParam(edge.typ) ==> s[0] == '{')
            && (edge.typ == NtCatchAll ==> s[0] == '*' && edge.tail == NUL && edge.end == |s|)
            && (edge.typ != NtRegexp ==> edge.prefix == None)
            && (edge.typ == NtRegexp ==> edge.prefix.Some?)
  {
    hide NextSegment;
  }

  lemma AddEdgeOutcome(rx: Engine, n: Node, s: string, reg: Registration) returns (ch: Change)
    requires WellFormed(rx, n) && s != "" && Belongs(n, s)
    requires NextEdge(s).Ok? ==>
               var edge := NextEdge(s).value; GetEdge(Children(n, edge.typ), s[0], edge.tail, edge.prefix) < 0
    ensures NodeOutcome(rx, n, s, reg, AddEdge(rx, n, s, reg), ch)
  {
    hide Chain, SetEndpoint, Keys, Attach, WellFormed, Routes, Tokens, Compiles, NextEdge, IsChain;
    var eps := SetEndpoint(None, reg);
    ChainIs(rx, s, eps);
    AddEdgeUnfold(rx, n, s, reg);
    if Readable(rx, s) {
      EdgeHeads(rx, s);
      ch := AttachOutcome(rx, n, s, reg, Chain(rx, s, Some(eps)).value);
    } else {
      ch := Added(0);
    }
  }

  lemma AddEdgeUnfold(rx: Engine, n: Node, s: string, reg: Registration)
    requires s != ""
    ensures var chain, r := Chain(rx, s, Some(SetEndpoint(None, reg))), AddEdge(rx, n, s, reg);
            && r.node == (if chain.Ok? then Attach(n, chain.value) else n)
            && (r.error.None? <==> chain.Ok? && Keys(reg.pattern).Ok?)
  {
    hide Chain, SetEndpoint, Keys, Attach;
  }

  lemma AttachOutcome(rx: Engine, n: Node, s: string, reg: Registration, c: Node) returns (ch: Change)
    requires WellFormed(rx, n) && s != "" && Belongs(n, s) && NextEdge(s).Ok? && Readable(rx, s)
    requires IsChain(rx, c, s, SetEndpoint(None, reg))
    requires var edge := NextEdge(s).value; GetEdge(Children(n, edge.typ), s[0], edge.tail, edge.prefix) < 0
    ensures WellFormed(rx, Attach(n, c)) && SameEdge(n, Attach(n, c)) && Attach(n, c).prefix == n.prefix
    ensures Applies(Routes(n), ch, Tokens(s).value)
    ensures Routes(Attach(n, c)) == Apply(Routes(n), ch, Tokens(s).value, reg)
  {
    hide NextEdge, WellFormed, Branch, Routes, Tokens, Compiles, SetEndpoint, NodeOk, ListOk, ChildOk, Before, After, NodeTokens, Head, Heads;
    var t, toks := c.typ, Tokens(s).value;
    var ns := Children(n, t);
    WellFormedParts(rx, n, t);
    assert Fresh(ns, c, t);
    var j := ChildPosition(rx, ns, c, t);
    AttachWellFormed(rx, n, c, j);
    hide Attach, WithChildren;
    AttachAt(n, c, j);
    RoutesInserted(n, t, j, c);
    RoutesSplit(n, t, j);
    EdgeHeads(rx, s);
    FreshHeads(rx, ns, s);
    AroundAbsent(rx, n, t, j, j, toks);
    ch := Added(|Before(n, t, j)|);
    AddedBetween(Before(n, t, j), After(n, t, j), toks, reg);
  }

  lemma FreshHeads(rx: Engine, ns: seq<Node>, s: string)
    requires s != "" && Readable(rx, s) && NextEdge(s).Ok? && ListOk(rx, ns, NextEdge(s).value.typ)
    requires var edge := NextEdge(s).value; GetEdge(ns, s[0], edge.tail, edge.prefix) < 0
    ensures Tokens(s).value != []
    ensures forall k :: 0 <= k < |ns| ==> NodeTokens(ns[k]) != [] && Head(ns[k]) != Tokens(s).value[0]
  {
    EdgeHeads(rx, s);
    hide NextEdge, Tokens, Compiles, ListOk, ChildOk;
    forall k | 0 <= k < |ns| ensures NodeTokens(ns[k]) != [] && Head(ns[k]) != Tokens(s).value[0] {
      ListOkAt(rx, ns, NextEdge(s).value.typ, k);
      EdgeIsHead(rx, ns[k], s);
    }
  }

  lemma AttachWellFormed(rx: Engine, n: Node, c: Node, j: nat)
    requires WellFormed(rx, n) && WellFormed(rx, c) && n.typ != NtCatchAll
    requires TakesParam(n.typ) ==> c.first == n.tail
    requires j <= |Children(n, c.typ)| && ListOk(rx, Spliced(Children(n, c.typ), j, c), c.typ)
    requires TailSort(SortByLabel(Children(n, c.typ) + [c])) == Spliced(Children(n, c.typ), j, c)
    ensures WellFormed(rx, Attach(n, c))
  {
    hide WellFormed, ListOk, TailSort, SortByLabel;
    var ns := Children(n, c.typ);
    WellFormedParts(rx, n, c.typ);
    forall k | 0 <= k < |Spliced(ns, j, c)| ensures WellFormed(rx, Spliced(ns, j, c)[k]) {}
    SplicedTail(n, ns, j, c);
    WellFormedWith(rx, n, c.typ, Spliced(ns, j, c));
    AttachAt(n, c, j);
  }

  lemma SplicedTail(n: Node, ns: seq<Node>, j: nat, c: Node)
    requires j <= |ns| && TailOk(n, ns) && (TakesParam(n.typ) ==> c.first == n.tail)
    ensures TailOk(n, Spliced(ns, j, c))
  {}

  lemma AttachAt(n: Node, c: Node, j: nat)
    requires j <= |Children(n, c.typ)|
    requires TailSort(SortByLabel(Children(n, c.typ) + [c])) == Spliced(Children(n, c.typ), j, c)
    ensures Attach(n, c) == WithChildren(n, c.typ, Spliced(Children(n, c.typ), j, c))
    ensures SameEdge(n, Attach(n, c)) && Attach(n, c).prefix == n.prefix
  {
    hide TailSort, SortByLabel, Spliced;
  }

  lemma AddedBetween(a: seq<Route>, b: seq<Route>, toks: seq<Token>, reg: Registration)
    requires Absent(a, toks) && Absent(b, toks)
    ensures Applies(a + b, Added(|a|), toks)
    ensures a + [Route(toks, SetEndpoint(None, reg))] + b == Apply(a + b, Added(|a|), toks, reg)
  {
    hide SetEndpoint;
    AbsentConcat(a, b, toks);
    assert (a + b)[..|a|] == a && (a + b)[|a|..] == b;
  }

  /** A registration below child `c` is one of the texts that go through `c`. */
  lemma BelowChild(rx: Engine, c: Node, s: string, rest: string, reg: Registration, r: Inserted, ch: Change)
    requires ChildOk(rx, c, c.typ) && NodeOutcome(rx, c, rest, reg, r, ch)
    requires c.typ == NtCatchAll ==> Childless(r.node)
    requires Readable(rx, s) <==> Readable(rx, rest)
    requires Readable(rx, s) ==> Tokens(s).value == NodeTokens(c) + Tokens(rest).value
    ensures ChildOutcome(rx, c, s, reg, r, ch)
  {
    hide WellFormed, Routes, Tokens, Keys, Compiles;
    assert NodeTokens(r.node) == NodeTokens(c);
    if Readable(rx, s) {
      ApplyPrefixed(NodeTokens(c), Routes(c), ch, Tokens(rest).value, reg);
    }
  }

  lemma HeadsApart(rx: Engine, ns: seq<Node>, t: NodeType, i: nat, k: nat)
    requires ListOk(rx, ns, t) && i < |ns| && k < |ns| && i != k
    ensures NodeTokens(ns[i]) != [] && NodeTokens(ns[k]) != [] && Head(ns[i]) != Head(ns[k])
  {
    assert ChildOk(rx, ns[i], t) && ChildOk(rx, ns[k], t);
    assert if i < k then Apart(ns[i], ns[k], t) else Apart(ns[k], ns[i], t);
  }

  lemma ReplacedList(rx: Engine, ns: seq<Node>, t: NodeType, i: nat, c: Node)
    requires ListOk(rx, ns, t) && i < |ns| && ChildOk(rx, c, t) && SameEdge(ns[i], c)
    requires AllWellFormed(rx, ns) && WellFormed(rx, c)
    ensures ListOk(rx, ns[i := c], t) && AllWellFormed(rx, ns[i := c])
  {
    hide WellFormed;
    var r := ns[i := c];
    forall k | 0 <= k < |r| ensures ChildOk(rx, r[k], t) {
      assert ChildOk(rx, ns[k], t);
    }
    forall a, b | 0 <= a < b < |r| ensures Apart(r[a], r[b], t) {
      assert Apart(ns[a], ns[b], t);
    }
  }

  /** What a registration does to one child, it does to the node. */
  lemma ReplaceOutcome(rx: Engine, n: Node, t: NodeType, i: nat, s: string, reg: Registration, r: Inserted, ch: Change)
      returns (ch': Change)
    requires WellFormed(rx, n) && i < |Children(n, t)|
    requires ChildOutcome(rx, Children(n, t)[i], s, reg, r, ch)
    requires Readable(rx, s) ==> Tokens(s).value != [] && NodeTokens(Children(n, t)[i]) != [] && Head(Children(n, t)[i]) == Tokens(s).value[0]
    ensures NodeOutcome(rx, n, s, reg, Inserted(WithChildren(n, t, Children(n, t)[i := r.node]), r.error), ch')
  {
    hide WellFormed, Branch, Routes, Tokens, Compiles, Keys, ListOk, NodeOk, AllWellFormed, Head, Before, After;
    var ns := Children(n, t);
    var c := ns[i];
    WellFormedParts(rx, n, t);
    ListOkAt(rx, ns, t, i);
    assert c.typ == t;
    ReplacedList(rx, ns, t, i, r.node);
    WellFormedWith(rx, n, t, ns[i := r.node]);
    RoutesReplaced(n, t, i, r.node);
    RoutesSplit(n, t, i);
    if Readable(rx, s) {
      var toks := Tokens(s).value;
      HeadOfChild(rx, c, t);
      forall k | 0 <= k < |ns| && (k < i || i + 1 <= k) ensures NodeTokens(ns[k]) != [] && Head(ns[k]) != toks[0] {
        HeadsApart(rx, ns, t, i, k);
      }
      AroundAbsent(rx, n, t, i, i + 1, toks);
      ApplyInside(Before(n, t, i), Branch(c), After(n, t, i + 1), ch, toks, reg);
      ch' := Shift(ch, |Before(n, t, i)|);
    } else {
      ch' := ch;
    }
  }

  // ---------------------------------------------------------------- splitting a static node

  lemma UpperIs(rx: Engine, c: Node, k: nat, search: string)
    requires ChildOk(rx, c, NtStatic) && WellFormed(rx, c) && 0 < k < |c.prefix| && k <= |search|
    requires search[..k] == c.prefix[..k]
    ensures var u := Upper(c, k, search);
            ChildOk(rx, u, NtStatic) && WellFormed(rx, u) && SameEdge(c, u) && Branch(u) == Branch(c)
  {
    var u, l := Upper(c, k, search), Lower(c, k);
    assert c.prefix == c.prefix[..k] + c.prefix[k..];
    assert Literal(c.prefix[..k]) && Literal(c.prefix[k..]);
    assert search[0] == search[..k][0] == c.prefix[0];
    assert ChildOk(rx, l, NtStatic);
    LowerWellFormed(rx, c, k);
    var n := Node(NtStatic, search[0], NUL, search[..k], None, [], [], [], []);
    hide WellFormed, Branch;
    OneChild(rx, n, l);
    assert u == WithChildren(n, NtStatic, [l]);
    CutBranch(u, l, c);
  }

  lemma LowerWellFormed(rx: Engine, c: Node, k: nat)
    requires c.typ == NtStatic && WellFormed(rx, c) && k < |c.prefix|
    ensures WellFormed(rx, Lower(c, k)) && Routes(Lower(c, k)) == Routes(c)
  {
    SameBelow(c, Lower(c, k));
    OwnIsEndpoints(c, Lower(c, k));
    hide ListOk, AllWellFormed, Below;
  }

  lemma CutBranch(u: Node, l: Node, c: Node)
    requires u.typ == l.typ == c.typ == NtStatic && c.prefix == u.prefix + l.prefix
    requires Routes(u) == Branch(l) && Routes(l) == Routes(c)
    ensures Branch(u) == Branch(c)
  {
    hide Routes;
    assert Lits(c.prefix) == Lits(u.prefix) + Lits(l.prefix);
    forall i | 0 <= i < |Routes(c)| ensures Branch(u)[i] == Branch(c)[i] {
      var toks := Routes(c)[i].toks;
      assert Lits(u.prefix) + (Lits(l.prefix) + toks) == Lits(c.prefix) + toks;
    }
  }

  lemma ChildOutcomeOf(rx: Engine, c: Node, u: Node, s: string, reg: Registration, r: Inserted, ch: Change)
    requires ChildOutcome(rx, u, s, reg, r, ch) && SameEdge(c, u) && Branch(c) == Branch(u)
    ensures ChildOutcome(rx, c, s, reg, r, ch)
  {
    hide WellFormed, Branch, Tokens, Compiles, Keys, ChildOk;
  }

  lemma DivideOutcome(rx: Engine, c: Node, k: nat, search: string, reg: Registration) returns (ch: Change)
    requires ChildOk(rx, c, NtStatic) && WellFormed(rx, c) && 0 < k < |c.prefix| && k <= |search|
    requires search[..k] == c.prefix[..k] && (k < |search| ==> search[k] != c.prefix[k])
    ensures ChildOutcome(rx, c, search, reg, Divide(rx, c, k, search, reg), ch)
  {
    hide WellFormed, Branch, Tokens, Compiles, Lits, Keys, Finish, AddEdge, NodeOutcome, ChildOutcome;
    UpperIs(rx, c, k, search);
    var u, p, rest := Upper(c, k, search), search[..k], search[k..];
    var r := Divide(rx, c, k, search, reg);
    assert search == p + rest;
    assert Literal(p);
    ReadableLits(rx, p, rest);
    if k == |search| {
      assert rest == "";
      ch := FinishOutcome(rx, u, reg);
    } else {
      NewAtCut(c, k, search);
      ch := AddEdgeOutcome(rx, u, rest, reg);
    }
    BelowChild(rx, u, search, rest, reg, r, ch);
    ChildOutcomeOf(rx, c, u, search, reg, r, ch);
  }

  lemma NewAtCut(c: Node, k: nat, search: string)
    requires k < |c.prefix| && k < |search| && search[k] != c.prefix[k]
    ensures var u, rest := Upper(c, k, search), search[k..];
            NextEdge(rest).Ok? ==>
              var edge := NextEdge(rest).value; GetEdge(Children(u, edge.typ), rest[0], edge.tail, edge.prefix) < 0
  {
    hide NextEdge;
    assert [Lower(c, k)][0].first == c.prefix[k];
  }

  // ---------------------------------------------------------------- the whole registration

  /** `insertRoute` keeps the invariant; it succeeds exactly when the pattern is readable and its
      names differ; in the list of routes it updates the route with the pattern's tokens or adds
      that route, and changes nothing else; an unreadable pattern leaves the list as it was. */
  lemma {:induction false} InsertOutcome(rx: Engine, n: Node, s: string, reg: Registration) returns (ch: Change)
    requires WellFormed(rx, n) && Belongs(n, s)
    ensures NodeOutcome(rx, n, s, reg, Insert(rx, n, s, reg), ch)
    decreases |s|, n
  {
    hide WellFormed, Routes, Tokens, Compiles, Keys, ListOk, NodeOk, Finish, AddEdge, NextSegment;
    if s == "" {
      ch := FinishOutcome(rx, n, reg);
    } else if NextEdge(s).Err? {
      NoEdge(rx, s);
      ch := Added(0);
    } else {
      var edge := NextEdge(s).value;
      var ns := Children(n, edge.typ);
      var i := GetEdge(ns, s[0], edge.tail, edge.prefix);
      WellFormedParts(rx, n, edge.typ);
      if i < 0 {
        ch := AddEdgeOutcome(rx, n, s, reg);
      } else {
        var c := ns[i];
        ListOkAt(rx, ns, edge.typ, i);
        var r, ch0;
        if edge.typ != NtStatic {
          WildEdge(rx, c, s);
          ch0 := InsertOutcome(rx, c, s[edge.end..], reg);
          r := Insert(rx, c, s[edge.end..], reg);
          hide NextEdge, Insert;
          BelowChildOfNode(rx, c, s, s[edge.end..], reg, r, ch0);
        } else {
          var k := LongestPrefix(s, c.prefix);
          LongestPrefixPositive(rx, c, s);
          if k == |c.prefix| {
            StaticEdge(rx, c, s);
            ch0 := InsertOutcome(rx, c, s[k..], reg);
            r := Insert(rx, c, s[k..], reg);
            hide NextEdge, Insert;
            BelowChildOfNode(rx, c, s, s[k..], reg, r, ch0);
          } else {
            ch0 := DivideOutcome(rx, c, k, s, reg);
            r := Divide(rx, c, k, s, reg);
          }
        }
        if Readable(rx, s) {
          EdgeHeads(rx, s);
          EdgeIsHead(rx, c, s);
        }
        hide ChildOutcome, NodeOutcome;
        ch := ReplaceOutcome(rx, n, edge.typ, i, s, reg, r, ch0);
        InsertUnfold(rx, n, s, reg, edge, i, r);
      }
    }
  }

  lemma InsertUnfold(rx: Engine, n: Node, s: string, reg: Registration, edge: Edge, i: nat, r: Inserted)
    requires s != "" && NextEdge(s) == Ok(edge) && i < |Children(n, edge.typ)|
    requires GetEdge(Children(n, edge.typ), s[0], edge.tail, edge.prefix) == i
    requires var c := Children(n, edge.typ)[i];
             r == if edge.typ != NtStatic then Insert(rx, c, s[edge.end..], reg)
                  else var k := LongestPrefix(s, c.prefix);
                       if k == |c.prefix| then Insert(rx, c, s[k..], reg) else Divide(rx, c, k, s, reg)
    ensures Insert(rx, n, s, reg) ==
            Inserted(WithChildren(n, edge.typ, Children(n, edge.typ)[i := r.node]), r.error)
  {
    hide NextEdge, Divide, Finish, AddEdge, LongestPrefix, GetEdge, WithChildren;
  }

  lemma BelowChildOfNode(rx: Engine, c: Node, s: string, rest: string, reg: Registration, r: Inserted, ch: Change)
    requires ChildOk(rx, c, c.typ) && NodeOutcome(rx, c, rest, reg, r, ch)
    requires Readable(rx, s) <==> Readable(rx, rest)
    requires Readable(rx, s) ==> Tokens(s).value == NodeTokens(c) + Tokens(rest).value
    ensures ChildOutcome(rx, c, s, reg, r, ch)
  {
    hide Routes, Tokens, Compiles, Keys, NodeTokens, ListOk, AllWellFormed;
    assert c.typ == NtCatchAll ==> Childless(r.node);
    BelowChild(rx, c, s, rest, reg, r, ch);
  }

  lemma NoEdge(rx: Engine, s: string)
    requires s != "" && NextEdge(s).Err?
    ensures !Readable(rx, s)
  {
    TokensErr(s);
    hide NextSegment, Tokens;
  }

  lemma LongestPrefixPositive(rx: Engine, c: Node, s: string)
    requires ChildOk(rx, c, NtStatic) && s != "" && c.first == s[0]
    ensures LongestPrefix(s, c.prefix) > 0
  {}

  lemma WildEdge(rx: Engine, c: Node, s: string)
    requires s != "" && NextEdge(s).Ok? && NextEdge(s).value.typ != NtStatic
    requires var edge := NextEdge(s).value; ChildOk(rx, c, edge.typ) && EdgeMatches(c, s[0], edge.tail, edge.prefix)
    ensures var rest := s[NextEdge(s).value.end..];
            && Belongs(c, rest)
            && (Readable(rx, s) <==> Readable(rx, rest))
            && (Readable(rx, s) ==> Tokens(s).value == NodeTokens(c) + Tokens(rest).value)
  {
    hide NextSegment, Tokens, Compiles;
    var seg := NextSegment(s).value;
    ReadableWild(rx, s);
    NextEdgeBytes(s);
    assert NodeTokens(c) == [SegmentToken(seg)];
  }

  lemma StaticEdge(rx: Engine, c: Node, s: string)
    requires ChildOk(rx, c, NtStatic) && s != "" && LongestPrefix(s, c.prefix) == |c.prefix|
    ensures var rest := s[|c.prefix|..];
            && Belongs(c, rest)
            && (Readable(rx, s) <==> Readable(rx, rest))
            && (Readable(rx, s) ==> Tokens(s).value == NodeTokens(c) + Tokens(rest).value)
  {
    var k := |c.prefix|;
    assert c.prefix[..k] == c.prefix;
    assert s == c.prefix + s[k..];
    hide Tokens, Compiles, LongestPrefix;
    ReadableLits(rx, c.prefix, s[k..]);
  }
}
