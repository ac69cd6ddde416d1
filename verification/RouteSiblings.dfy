/** The order of nodes in the regexp and parameter lists of a tree: which nodes stand behind a token
    path, and what a registration does to these lists. */
module RouteSiblings {
  import opened Text
  import opened Patterns
  import opened RouteTree
  import opened RouteTable
  import opened RouteInsert
  import opened RouteRegister

  function KindOf(tok: Token): NodeType {
    match tok
    case Lit(_) => NtStatic
    case Rex(_, _) => NtRegexp
    case Param(_) => NtParam
    case Star => NtCatchAll
  }

  function FirstToken(c: Node): Token {
    if NodeTokens(c) == [] then Star else NodeTokens(c)[0]
  }

  function FirstTokens(ns: seq<Node>): (toks: seq<Token>)
    ensures |toks| == |ns| && forall i :: 0 <= i < |ns| ==> toks[i] == FirstToken(ns[i])
  {
    seq(|ns|, i requires 0 <= i < |ns| => FirstToken(ns[i]))
  }

  // ---------------------------------------------------------------- siblings in a tree

  /** The tokens of the nodes of type `t` that the path `p` leads to, in their order in the list. */
  function Sib(n: Node, p: seq<Token>, t: NodeType): seq<Token>
    decreases n, 1
  {
    if p == [] then FirstTokens(Children(n, t)) else SibIn(Children(n, KindOf(p[0])), p, t)
  }

  function SibIn(ns: seq<Node>, p: seq<Token>, t: NodeType): seq<Token>
    requires p != []
    decreases ns, 0
  {
    if ns == [] then []
    else if FirstToken(ns[0]) == p[0] then SibBranch(ns[0], p, t)
    else SibIn(ns[1..], p, t)
  }

  function SibBranch(c: Node, p: seq<Token>, t: NodeType): seq<Token>
    decreases c, 2
  {
    if NodeTokens(c) <= p then Sib(c, p[|NodeTokens(c)|..], t) else []
  }

  lemma {:induction false} SibInNone(ns: seq<Node>, p: seq<Token>, t: NodeType)
    requires p != [] && forall i :: 0 <= i < |ns| ==> FirstToken(ns[i]) != p[0]
    ensures SibIn(ns, p, t) == []
    decreases |ns|
  {
    if ns != [] {
      SibInNone(ns[1..], p, t);
    }
  }

  lemma {:induction false} SibInAt(ns: seq<Node>, i: nat, p: seq<Token>, t: NodeType)
    requires p != [] && i < |ns| && FirstToken(ns[i]) == p[0] && forall k :: 0 <= k < i ==> FirstToken(ns[k]) != p[0]
    ensures SibIn(ns, p, t) == SibBranch(ns[i], p, t)
    decreases i
  {
    hide SibBranch;
    if i > 0 {
      SibInAt(ns[1..], i - 1, p, t);
    }
  }

  lemma FirstTokensApart(rx: Engine, ns: seq<Node>, t: NodeType)
    requires ListOk(rx, ns, t)
    ensures forall i :: 0 <= i < |ns| ==> NodeTokens(ns[i]) != [] && FirstToken(ns[i]) == Head(ns[i]) && KindOf(FirstToken(ns[i])) == t
    ensures forall i, k :: 0 <= i < |ns| && 0 <= k < |ns| && i != k ==> FirstToken(ns[i]) != FirstToken(ns[k])
  {
    forall i | 0 <= i < |ns|
      ensures NodeTokens(ns[i]) != [] && FirstToken(ns[i]) == Head(ns[i]) && KindOf(FirstToken(ns[i])) == t
    {
      ListOkAt(rx, ns, t, i);
      HeadOfChild(rx, ns[i], t);
    }
    forall i, k | 0 <= i < |ns| && 0 <= k < |ns| && i != k ensures FirstToken(ns[i]) != FirstToken(ns[k]) {
      HeadsApart(rx, ns, t, i, k);
    }
  }

  /** The list behind a path that goes through child `i`. */
  lemma SibOfChild(rx: Engine, ns: seq<Node>, t: NodeType, i: nat, p: seq<Token>, u: NodeType)
    requires ListOk(rx, ns, t) && i < |ns| && p != [] && FirstToken(ns[i]) == p[0]
    ensures SibIn(ns, p, u) == SibBranch(ns[i], p, u)
  {
    hide SibIn, SibBranch, ListOk;
    FirstTokensApart(rx, ns, t);
    SibInAt(ns, i, p, u);
  }

  // ---------------------------------------------------------------- growing a list

  /** A new token goes to the end, but in front of a last one with tail '/' unless it has that tail. */
  function PutToken(l: seq<Token>, tok: Token): seq<Token>
    requires tok.Rex? || tok.Param?
  {
    if tok.tail != '/' && l != [] && TailOf(l[|l| - 1]) == '/' then l[..|l| - 1] + [tok] + [l[|l| - 1]] else l + [tok]
  }

  function TailOf(tok: Token): char {
    if tok.Rex? || tok.Param? then tok.tail else NUL
  }

  /** Does the pattern go on behind the path with a token of that type? */
  predicate GoesOn(toks: seq<Token>, p: seq<Token>, t: NodeType) {
    |p| < |toks| && toks[..|p|] == p && KindOf(toks[|p|]) == t
  }

  /** The list behind path `p` after a pattern was registered, or after one was refused. */
  function Grown(l: seq<Token>, p: seq<Token>, toks: Option<seq<Token>>, t: NodeType): seq<Token>
    requires TakesParam(t)
  {
    if toks.Some? && GoesOn(toks.value, p, t) && toks.value[|p|] !in l then PutToken(l, toks.value[|p|]) else l
  }

  /** The tokens of a text, if it can be read. */
  function ReadTokens(rx: Engine, s: string): Option<seq<Token>> {
    if Readable(rx, s) then Some(Tokens(s).value) else None
  }

  function Behind(ts: seq<Token>, rest: Option<seq<Token>>): Option<seq<Token>> {
    if rest.Some? then Some(ts + rest.value) else None
  }

  predicate OneKind(ts: seq<Token>) {
    |ts| == 1 || forall i :: 0 <= i < |ts| ==> ts[i].Lit?
  }

  lemma NodeTokensOneKind(c: Node)
    ensures OneKind(NodeTokens(c))
  {}

  lemma GoesOnBehind(ts: seq<Token>, rest: seq<Token>, p: seq<Token>, t: NodeType)
    requires ts <= p
    ensures GoesOn(ts + rest, p, t) <==> GoesOn(rest, p[|ts|..], t)
    ensures GoesOn(rest, p[|ts|..], t) ==> (ts + rest)[|p|] == rest[|p[|ts|..]|]
  {
    var q := p[|ts|..];
    assert p == ts + q;
    if |q| < |rest| {
      assert (ts + rest)[..|p|] == ts + rest[..|q|];
      assert (ts + rest)[|p|] == rest[|q|];
      if ts + rest[..|q|] == ts + q {
        assert rest[..|q|] == (ts + rest[..|q|])[|ts|..] == (ts + q)[|ts|..] == q;
      }
    }
  }

  lemma GoesNowhere(ts: seq<Token>, rest: seq<Token>, p: seq<Token>, t: NodeType)
    requires OneKind(ts) && p != [] && !(ts <= p) && TakesParam(t)
    ensures !GoesOn(ts + rest, p, t)
  {}

  /** What happens below a node happens on the paths through it. */
  lemma BranchGrown(c: Node, c': Node, p: seq<Token>, t: NodeType, rest: Option<seq<Token>>)
    requires TakesParam(t) && p != [] && NodeTokens(c') == NodeTokens(c)
    requires NodeTokens(c) <= p ==>
               var q := p[|NodeTokens(c)|..]; Sib(c', q, t) == Grown(Sib(c, q, t), q, rest, t)
    ensures SibBranch(c', p, t) == Grown(SibBranch(c, p, t), p, Behind(NodeTokens(c), rest), t)
  {
    hide Sib, NodeTokens, PutToken, GoesOn;
    var ts := NodeTokens(c);
    NodeTokensOneKind(c);
    if rest.Some? {
      if ts <= p {
        GoesOnBehind(ts, rest.value, p, t);
      } else {
        GoesNowhere(ts, rest.value, p, t);
      }
    }
  }

  // ---------------------------------------------------------------- one child changes

  /** A pattern through child `i` changes the lists behind paths through that child only. */
  lemma ReplacedSib(rx: Engine, n: Node, u: NodeType, i: nat, c': Node, toks: Option<seq<Token>>, p: seq<Token>, t: NodeType)
    requires WellFormed(rx, n) && TakesParam(t) && i < |Children(n, u)| && SameEdge(Children(n, u)[i], c') && ChildOk(rx, c', u)
    requires WellFormed(rx, c')
    requires var c := Children(n, u)[i];
             && (toks.Some? ==> toks.value != [] && toks.value[0] == FirstToken(c))
             && (p != [] && p[0] == FirstToken(c) ==> SibBranch(c', p, t) == Grown(SibBranch(c, p, t), p, toks, t))
    ensures var n' := WithChildren(n, u, Children(n, u)[i := c']); Sib(n', p, t) == Grown(Sib(n, p, t), p, toks, t)
  {
    hide WellFormed, ListOk, SibIn, SibBranch, PutToken, NodeTokens, ChildOk, NodeOk, AllWellFormed, WithChildren;
    var ns := Children(n, u);
    var c, ns' := ns[i], ns[i := c'];
    var n' := WithChildren(n, u, ns');
    WithChildrenIs(n, u, ns');
    WellFormedParts(rx, n, u);
    ReplacedList(rx, ns, u, i, c');
    FirstTokensApart(rx, ns, u);
    FirstTokensApart(rx, ns', u);
    ListOkAt(rx, ns, u, i);
    SameFirst(rx, c, c', u);
    if p == [] {
      if toks.Some? && GoesOn(toks.value, p, t) {
        assert t == u;
        assert FirstTokens(ns)[i] == toks.value[0];
      }
      if t == u {
        assert FirstTokens(ns') == FirstTokens(ns);
      }
    } else if KindOf(p[0]) == u && p[0] == FirstToken(c) {
      SibOfChild(rx, ns, u, i, p, t);
      SibOfChild(rx, ns', u, i, p, t);
    } else {
      if KindOf(p[0]) == u {
        OtherChild(ns, ns', i, p, t);
      }
    }
  }

  lemma WithChildrenIs(n: Node, u: NodeType, ns: seq<Node>)
    ensures forall t :: Children(WithChildren(n, u, ns), t) == if t == u then ns else Children(n, t)
  {}

  lemma SameFirst(rx: Engine, c: Node, c': Node, u: NodeType)
    requires ChildOk(rx, c, u) && ChildOk(rx, c', u) && SameEdge(c, c')
    ensures FirstToken(c') == FirstToken(c)
  {}

  lemma {:induction false} OtherChild(ns: seq<Node>, ns': seq<Node>, i: nat, p: seq<Token>, t: NodeType)
    requires p != [] && i < |ns| == |ns'| && (forall k :: 0 <= k < |ns| && k != i ==> ns'[k] == ns[k])
    requires FirstToken(ns[i]) != p[0] && FirstToken(ns'[i]) != p[0]
    ensures SibIn(ns', p, t) == SibIn(ns, p, t)
    decreases |ns|
  {
    hide SibBranch, FirstToken;
    if i == 0 {
      assert ns'[1..] == ns[1..];
    } else {
      OtherChild(ns[1..], ns'[1..], i - 1, p, t);
    }
  }

  // ---------------------------------------------------------------- a new child

  lemma {:induction false} OtherSpliced(ns: seq<Node>, j: nat, c: Node, p: seq<Token>, t: NodeType)
    requires p != [] && j <= |ns| && FirstToken(c) != p[0]
    ensures SibIn(Spliced(ns, j, c), p, t) == SibIn(ns, p, t)
    decreases j
  {
    hide SibBranch, FirstToken;
    if j == 0 {
      assert Spliced(ns, j, c)[1..] == ns;
    } else {
      assert Spliced(ns, j, c)[1..] == Spliced(ns[1..], j - 1, c);
      OtherSpliced(ns[1..], j - 1, c, p, t);
    }
  }

  lemma PutFirst(ns: seq<Node>, c: Node)
    requires TakesParam(c.typ) && forall k :: 0 <= k < |ns| ==> ns[k].typ == c.typ
    ensures FirstTokens(Spliced(ns, WildPlace(ns, c), c)) == PutToken(FirstTokens(ns), FirstToken(c))
  {
    var l, j := FirstTokens(ns), WildPlace(ns, c);
    assert ns != [] ==> TailOf(l[|l| - 1]) == ns[|ns| - 1].tail;
  }

  /** A new child whose own lists are those of its pattern. */
  lemma AttachedSib(rx: Engine, n: Node, s: string, c: Node, eps: Endpoints, p: seq<Token>, t: NodeType)
    requires WellFormed(rx, n) && TakesParam(t) && s != "" && Readable(rx, s) && IsChain(rx, c, s, eps)
    requires NextEdge(s).Ok? && var edge := NextEdge(s).value; GetEdge(Children(n, edge.typ), s[0], edge.tail, edge.prefix) < 0
    requires p != [] && p[0] == FirstToken(c) ==> SibBranch(c, p, t) == Grown([], p, Some(Tokens(s).value), t)
    ensures Sib(Attach(n, c), p, t) == Grown(Sib(n, p, t), p, Some(Tokens(s).value), t)
  {
    hide NextEdge, WellFormed, Branch, Tokens, Compiles, NodeOk, ListOk, ChildOk, NodeTokens, AllWellFormed, SibIn, SibBranch, PutToken;
    var u, toks := c.typ, Tokens(s).value;
    var ns := Children(n, u);
    WellFormedParts(rx, n, u);
    assert Fresh(ns, c, u);
    var j := ChildPosition(rx, ns, c, u);
    var ns' := Spliced(ns, j, c);
    hide Attach, WithChildren, Fresh, Spliced;
    AttachAt(n, c, j);
    WithChildrenIs(n, u, ns');
    FreshHeads(rx, ns, s);
    FirstTokensApart(rx, ns, u);
    ChainHead(rx, c, s, eps);
    hide IsChain;
    AttachedLists(rx, n, Attach(n, c), c, ns, j, toks, p, t);
  }

  lemma AttachedLists(rx: Engine, n: Node, n': Node, c: Node, ns: seq<Node>, j: nat, toks: seq<Token>, p: seq<Token>, t: NodeType)
    requires TakesParam(t) && j <= |ns| && ListOk(rx, ns, c.typ) && ListOk(rx, Spliced(ns, j, c), c.typ)
    requires ns == Children(n, c.typ) && forall u :: Children(n', u) == if u == c.typ then Spliced(ns, j, c) else Children(n, u)
    requires c.typ != NtStatic ==> j == WildPlace(ns, c)
    requires toks != [] && FirstToken(c) == toks[0] && KindOf(toks[0]) == c.typ
    requires ChildOk(rx, c, c.typ) && forall k :: 0 <= k < |ns| ==> FirstToken(ns[k]) != toks[0]
    requires p != [] && p[0] == FirstToken(c) ==> SibBranch(c, p, t) == Grown([], p, Some(toks), t)
    ensures Sib(n', p, t) == Grown(Sib(n, p, t), p, Some(toks), t)
  {
    hide ListOk, ChildOk, SibIn, SibBranch, PutToken, FirstToken;
    NewList(rx, n, c, ns, j, toks, p, t);
    SplicedAt(ns, j, c);
    if p != [] && KindOf(p[0]) == c.typ {
      if p[0] == toks[0] {
        SibOfChild(rx, Spliced(ns, j, c), c.typ, j, p, t);
        SibInNone(ns, p, t);
      } else {
        OtherSpliced(ns, j, c, p, t);
      }
    }
  }

  lemma SplicedAt(ns: seq<Node>, j: nat, c: Node)
    requires j <= |ns|
    ensures Spliced(ns, j, c)[j] == c
  {}

  lemma NewList(rx: Engine, n: Node, c: Node, ns: seq<Node>, j: nat, toks: seq<Token>, p: seq<Token>, t: NodeType)
    requires ListOk(rx, ns, c.typ) && ChildOk(rx, c, c.typ) && TakesParam(t) && j <= |ns| && (c.typ != NtStatic ==> j == WildPlace(ns, c))
    requires toks != [] && FirstToken(c) == toks[0] && KindOf(toks[0]) == c.typ
    requires forall k :: 0 <= k < |ns| ==> FirstToken(ns[k]) != toks[0]
    ensures p == [] && t == c.typ ==> FirstTokens(Spliced(ns, j, c)) == Grown(FirstTokens(ns), p, Some(toks), t)
    ensures p == [] && t != c.typ ==> !GoesOn(toks, p, t)
    ensures p != [] && p[0] != toks[0] ==> !GoesOn(toks, p, t)
  {
    hide PutToken, Spliced, FirstTokens;
    if p == [] && t == c.typ {
      forall k | 0 <= k < |ns| ensures ns[k].typ == c.typ {
        ListOkAt(rx, ns, c.typ, k);
      }
      PutFirst(ns, c);
      assert toks[..0] == [];
    }
    if p != [] && GoesOn(toks, p, t) {
      assert toks[..|p|][0] == toks[0];
    }
  }

  // ---------------------------------------------------------------- chains

  lemma BareSib(n: Node, p: seq<Token>, t: NodeType)
    requires Childless(n)
    ensures Sib(n, p, t) == []
  {
    assert forall u :: Children(n, u) == [];
  }

  lemma OneChildSib(n: Node, c: Node, toks: seq<Token>, p: seq<Token>, t: NodeType)
    requires Childless(n) && TakesParam(t) && toks != [] && FirstToken(c) == toks[0] && KindOf(toks[0]) == c.typ
    requires p != [] && p[0] == FirstToken(c) ==> SibBranch(c, p, t) == Grown([], p, Some(toks), t)
    ensures Sib(WithChildren(n, c.typ, [c]), p, t) == Grown([], p, Some(toks), t)
  {
    hide SibBranch, PutToken, FirstToken;
    WithChildrenIs(n, c.typ, [c]);
    hide WithChildren;
    assert forall u :: Children(n, u) == [];
    if p == [] {
      assert toks[..0] == [];
      PutIntoEmpty(toks[0]);
      assert t == c.typ ==> FirstTokens([c]) == [toks[0]];
    } else {
      assert [c][1..] == [];
      assert SibIn([], p, t) == [];
    }
  }

  lemma PutIntoEmpty(tok: Token)
    ensures tok.Rex? || tok.Param? ==> PutToken([], tok) == [tok]
  {}

  /** The last node of a chain has no lists below it. */
  lemma LeafBranch(c: Node, p: seq<Token>, t: NodeType)
    requires Childless(c) && TakesParam(t) && p != []
    ensures SibBranch(c, p, t) == Grown([], p, Some(NodeTokens(c)), t)
  {
    hide NodeTokens;
    if NodeTokens(c) <= p {
      BareSib(c, p[|NodeTokens(c)|..], t);
    }
    BranchGrown(c, c, p, t, Some([]));
    assert NodeTokens(c) + [] == NodeTokens(c);
  }

  lemma ChainedBranch(n: Node, c: Node, r: Node, toks: seq<Token>, p: seq<Token>, t: NodeType)
    requires Childless(n) && TakesParam(t) && p != [] && r == WithChildren(n, c.typ, [c]) && NodeTokens(r) == NodeTokens(n)
    requires toks != [] && FirstToken(c) == toks[0] && KindOf(toks[0]) == c.typ
    requires NodeTokens(n) <= p ==>
               var q := p[|NodeTokens(n)|..]; q != [] && q[0] == FirstToken(c) ==> SibBranch(c, q, t) == Grown([], q, Some(toks), t)
    ensures SibBranch(r, p, t) == Grown([], p, Some(NodeTokens(n) + toks), t)
  {
    hide NodeTokens, WithChildren, FirstToken, SibIn, PutToken, GoesOn, Sib;
    if NodeTokens(n) <= p {
      var q := p[|NodeTokens(n)|..];
      BareSib(n, q, t);
      OneChildSib(n, c, toks, q, t);
    }
    BranchGrown(n, r, p, t, Some(toks));
  }

  /** Below the nodes that `addChild` makes there are the lists of the pattern. */
  lemma {:induction false} ChainSib(rx: Engine, s: string, eps: Endpoints, p: seq<Token>, t: NodeType)
    requires s != "" && Readable(rx, s) && Chain(rx, s, Some(eps)).Ok? && TakesParam(t) && p != []
    ensures SibBranch(Chain(rx, s, Some(eps)).value, p, t) == Grown([], p, Some(Tokens(s).value), t)
    decreases |s|, 0
  {
    hide NextSegment, Compiles, Tokens, Chain, SibBranch, Grown, IsChain;
    if NextSegment(s).Err? { TokensErr(s); }
    var seg := NextSegment(s).value;
    if seg.typ == NtStatic {
      StaticChainSib(rx, s, eps, p, t);
    } else if seg.start > 0 {
      var u := s[seg.start..];
      var n := Node(NtStatic, s[0], NUL, s[..seg.start], None, [], [], [], []);
      AfterText(rx, s, seg);
      ChainUnfold(rx, s, seg, Some(eps));
      ChainIs(rx, u, eps);
      NextChain(rx, n, u, eps, p, t);
    } else {
      ReadableWild(rx, s);
      var u := s[seg.end..];
      var n := Node(seg.typ, s[0], seg.tail, seg.rexpat, if u == "" then Some(eps) else None, [], [], [], []);
      assert NodeTokens(n) == [SegmentToken(seg)];
      ChainUnfold(rx, s, seg, Some(eps));
      if u == "" {
        ReadableEmpty(rx);
        LeafBranch(n, p, t);
        assert [SegmentToken(seg)] + [] == [SegmentToken(seg)];
      } else {
        ChainIs(rx, u, eps);
        NextChain(rx, n, u, eps, p, t);
      }
    }
  }

  lemma {:induction false} NextChain(rx: Engine, n: Node, u: string, eps: Endpoints, p: seq<Token>, t: NodeType)
    requires Childless(n) && u != "" && Readable(rx, u) && Chain(rx, u, Some(eps)).Ok? && TakesParam(t) && p != []
    ensures SibBranch(Attach(n, Chain(rx, u, Some(eps)).value), p, t) == Grown([], p, Some(NodeTokens(n) + Tokens(u).value), t)
    decreases |u|, 1
  {
    hide Compiles, Tokens, Chain, SibBranch, Grown, NodeTokens, Attach, IsChain;
    var c, toks := Chain(rx, u, Some(eps)).value, Tokens(u).value;
    ChainIs(rx, u, eps);
    ChainHead(rx, c, u, eps);
    if NodeTokens(n) <= p && p[|NodeTokens(n)|..] != [] {
      ChainSib(rx, u, eps, p[|NodeTokens(n)|..], t);
    }
    AttachFirst(n, c);
    SameTokens(n, c);
    ChainedBranch(n, c, Attach(n, c), toks, p, t);
  }

  lemma SameTokens(n: Node, c: Node)
    ensures NodeTokens(WithChildren(n, c.typ, [c])) == NodeTokens(n)
  {}

  lemma ChainHead(rx: Engine, c: Node, u: string, eps: Endpoints)
    requires u != "" && Readable(rx, u) && IsChain(rx, c, u, eps)
    ensures Tokens(u).value != [] && FirstToken(c) == Tokens(u).value[0] && KindOf(FirstToken(c)) == c.typ
  {
    hide Tokens, Compiles, WellFormed, Branch, NextEdge;
    HeadOfChild(rx, c, c.typ);
  }

  lemma AfterText(rx: Engine, s: string, seg: Segment)
    requires Readable(rx, s) && NextSegment(s) == Ok(seg) && seg.typ != NtStatic
    ensures var u := s[seg.start..]; u != "" && Readable(rx, u) && Tokens(s).value == Lits(s[..seg.start]) + Tokens(u).value
    ensures seg.typ == NtRegexp ==> rx.compiles(seg.rexpat)
  {
    hide NextSegment, Compiles, Tokens, Lits;
    var q, u := s[..seg.start], s[seg.start..];
    assert s == q + u;
    ReadableLits(rx, q, u);
    SegmentAtStart(s, seg);
    ReadableWild(rx, u);
  }

  lemma StaticChainSib(rx: Engine, s: string, eps: Endpoints, p: seq<Token>, t: NodeType)
    requires s != "" && NextSegment(s).Ok? && NextSegment(s).value.typ == NtStatic && TakesParam(t) && p != []
    ensures Chain(rx, s, Some(eps)).Ok? && Tokens(s).Ok?
    ensures SibBranch(Chain(rx, s, Some(eps)).value, p, t) == Grown([], p, Some(Tokens(s).value), t)
  {
    hide NextSegment, SibBranch, Grown, Lits;
    LeafBranch(Node(NtStatic, s[0], NUL, s, Some(eps), [], [], [], []), p, t);
  }

  // ---------------------------------------------------------------- registrations

  lemma AddEdgeSib(rx: Engine, n: Node, s: string, reg: Registration, p: seq<Token>, t: NodeType)
    requires WellFormed(rx, n) && s != "" && TakesParam(t)
    requires NextEdge(s).Ok? ==>
               var edge := NextEdge(s).value; GetEdge(Children(n, edge.typ), s[0], edge.tail, edge.prefix) < 0
    ensures Sib(AddEdge(rx, n, s, reg).node, p, t) == Grown(Sib(n, p, t), p, ReadTokens(rx, s), t)
  {
    hide WellFormed, Tokens, Compiles, Chain, SetEndpoint, Keys, Attach, NextEdge, IsChain, Sib, SibBranch, PutToken;
    var eps := SetEndpoint(None, reg);
    ChainIs(rx, s, eps);
    AddEdgeUnfold(rx, n, s, reg);
    if Readable(rx, s) {
      EdgeHeads(rx, s);
      if p != [] {
        ChainSib(rx, s, eps, p, t);
      }
      AttachedSib(rx, n, s, Chain(rx, s, Some(eps)).value, eps, p, t);
    }
  }

  /** Cutting a static node changes no list. */
  lemma SplitSib(rx: Engine, c: Node, k: nat, s: string, p: seq<Token>, t: NodeType)
    requires ChildOk(rx, c, NtStatic) && 0 < k < |c.prefix| && k <= |s| && s[..k] == c.prefix[..k] && p != [] && TakesParam(t)
    ensures SibBranch(Upper(c, k, s), p, t) == SibBranch(c, p, t)
  {
    hide Lits, Sib;
    var u, l := Upper(c, k, s), Lower(c, k);
    var a, b := c.prefix[..k], c.prefix[k..];
    LitsConcat(a, b);
    assert c.prefix == a + b;
    PrefixConcat(Lits(a), Lits(b), p);
    if Lits(a) <= p {
      var q := p[|a|..];
      UpperSib(u, l, q, t);
      if q != [] && Lits(b) <= q {
        assert q[|b|..] == p[|c.prefix|..];
        LowerSib(c, k, q[|b|..], t);
        assert Lits(b)[0] == q[0];
      }
    }
  }

  lemma LitsConcat(a: string, b: string)
    ensures Lits(a + b) == Lits(a) + Lits(b)
  {}

  lemma PrefixConcat(a: seq<Token>, b: seq<Token>, p: seq<Token>)
    ensures a + b <= p <==> a <= p && b <= p[|a|..]
  {
    if a <= p {
      assert p == a + p[|a|..];
    }
    if a + b <= p {
      assert p[..|a|] == (a + b)[..|a|] == a;
      assert p[|a|..][..|b|] == p[|a|..|a| + |b|] == (a + b)[|a|..] == b;
    }
  }

  lemma UpperSib(u: Node, l: Node, q: seq<Token>, t: NodeType)
    requires u.statics == [l] && u.regexps == [] && u.params == [] && u.catchAlls == [] && TakesParam(t)
    ensures Sib(u, q, t) == if q != [] && FirstToken(l) == q[0] && KindOf(q[0]) == NtStatic then SibBranch(l, q, t) else []
  {
    hide SibBranch, FirstToken;
    assert [l][1..] == [];
    if q == [] {
      assert FirstTokens([]) == [];
    } else {
      assert SibIn([], q, t) == [];
    }
  }

  lemma LowerSib(c: Node, k: nat, q: seq<Token>, t: NodeType)
    requires k < |c.prefix|
    ensures Sib(Lower(c, k), q, t) == Sib(c, q, t)
  {
    assert forall u :: Children(Lower(c, k), u) == Children(c, u);
  }

  lemma FinishSib(n: Node, reg: Registration, p: seq<Token>, t: NodeType)
    requires TakesParam(t)
    ensures Sib(Finish(n, reg).node, p, t) == Sib(n, p, t)
  {
    hide SetEndpoint, Keys, SibIn;
    assert forall u :: Children(Finish(n, reg).node, u) == Children(n, u);
  }

  lemma FinishedSib(rx: Engine, n: Node, reg: Registration, p: seq<Token>, t: NodeType)
    requires TakesParam(t)
    ensures Sib(Finish(n, reg).node, p, t) == Grown(Sib(n, p, t), p, ReadTokens(rx, ""), t)
  {
    hide Finish, Sib, Tokens, Compiles;
    FinishSib(n, reg, p, t);
    ReadableEmpty(rx);
  }

  lemma DivideSib(rx: Engine, c: Node, k: nat, s: string, reg: Registration, p: seq<Token>, t: NodeType)
    requires ChildOk(rx, c, NtStatic) && WellFormed(rx, c) && 0 < k < |c.prefix| && k <= |s| && TakesParam(t) && p != []
    requires s[..k] == c.prefix[..k] && (k < |s| ==> s[k] != c.prefix[k])
    ensures SibBranch(Divide(rx, c, k, s, reg).node, p, t) == Grown(SibBranch(c, p, t), p, ReadTokens(rx, s), t)
  {
    hide WellFormed, Tokens, Compiles, Keys, SetEndpoint, AddEdge, Lits, Sib, SibBranch, Grown, Finish, ChildOk, Branch;
    UpperIs(rx, c, k, s);
    SplitSib(rx, c, k, s, p, t);
    var u, a, rest := Upper(c, k, s), s[..k], s[k..];
    var r := Divide(rx, c, k, s, reg).node;
    assert s == a + rest && Literal(a) by { CutLiteral(rx, c, k); }
    ReadableLits(rx, a, rest);
    assert NodeTokens(u) == Lits(a);
    var q := if Lits(a) <= p then p[|Lits(a)|..] else [];
    if k == |s| {
      assert rest == "";
      FinishedSib(rx, u, reg, q, t);
      FinishTokens(u, reg);
    } else {
      NewAtCut(c, k, s);
      AddEdgeSib(rx, u, rest, reg, q, t);
      AddEdgeTokens(rx, u, rest, reg);
    }
    BranchGrown(u, r, p, t, ReadTokens(rx, rest));
  }

  lemma CutLiteral(rx: Engine, c: Node, k: nat)
    requires ChildOk(rx, c, NtStatic) && k <= |c.prefix|
    ensures Literal(c.prefix[..k])
  {}

  lemma FinishTokens(n: Node, reg: Registration)
    ensures NodeTokens(Finish(n, reg).node) == NodeTokens(n)
  {
    hide SetEndpoint, Keys;
  }

  lemma AddEdgeTokens(rx: Engine, n: Node, s: string, reg: Registration)
    requires s != ""
    ensures NodeTokens(AddEdge(rx, n, s, reg).node) == NodeTokens(n)
  {
    hide Chain, SetEndpoint, Keys, TailSort, SortByLabel;
  }

  /** The lists after a registration: the pattern's token is put into the list behind each of its
      prefixes where it is new, and nothing else changes; an unreadable pattern changes none. */
  lemma {:induction false} InsertSib(rx: Engine, n: Node, s: string, reg: Registration, p: seq<Token>, t: NodeType)
    requires WellFormed(rx, n) && Belongs(n, s) && TakesParam(t)
    ensures Sib(Insert(rx, n, s, reg).node, p, t) == Grown(Sib(n, p, t), p, ReadTokens(rx, s), t)
    decreases |s|, n, 1
  {
    hide WellFormed, Tokens, Compiles, Keys, SetEndpoint, NextSegment, ListOk, NodeOk, AddEdge, Chain, Belongs, Sib, SibBranch, Grown, Branch, Routes, Finish;
    if s == "" {
      FinishedSib(rx, n, reg, p, t);
    } else if NextEdge(s).Err? {
      NoEdge(rx, s);
      assert Grown(Sib(n, p, t), p, None, t) == Sib(n, p, t) by { NotGrown(Sib(n, p, t), p, t); }
    } else {
      var edge := NextEdge(s).value;
      var ns := Children(n, edge.typ);
      var i := GetEdge(ns, s[0], edge.tail, edge.prefix);
      if i < 0 {
        AddEdgeSib(rx, n, s, reg, p, t);
      } else {
        WellFormedParts(rx, n, edge.typ);
        ListOkAt(rx, ns, edge.typ, i);
        var r := ChildSib(rx, n, s, reg, i, p, t);
        InsertUnfold(rx, n, s, reg, edge, i, r);
        hide NextEdge, Insert;
        if Readable(rx, s) {
          EdgeHeads(rx, s);
          EdgeIsHead(rx, ns[i], s);
        }
        ReplacedSib(rx, n, edge.typ, i, r.node, ReadTokens(rx, s), p, t);
      }
    }
  }

  lemma NotGrown(l: seq<Token>, p: seq<Token>, t: NodeType)
    requires TakesParam(t)
    ensures Grown(l, p, None, t) == l
  {}

  /** The child that `getEdge` leads to, after the registration. */
  lemma {:induction false} ChildSib(rx: Engine, n: Node, s: string, reg: Registration, i: nat, p: seq<Token>, t: NodeType)
      returns (r: Inserted)
    requires WellFormed(rx, n) && TakesParam(t) && s != "" && NextEdge(s).Ok?
    requires var edge := NextEdge(s).value;
             && GetEdge(Children(n, edge.typ), s[0], edge.tail, edge.prefix) == i < |Children(n, edge.typ)|
             && ChildOk(rx, Children(n, edge.typ)[i], edge.typ) && WellFormed(rx, Children(n, edge.typ)[i])
    ensures var edge := NextEdge(s).value;
            var c := Children(n, edge.typ)[i];
            && r == (if edge.typ != NtStatic then Insert(rx, c, s[edge.end..], reg)
                     else var k := LongestPrefix(s, c.prefix);
                          if k == |c.prefix| then Insert(rx, c, s[k..], reg) else Divide(rx, c, k, s, reg))
            && SameEdge(c, r.node) && ChildOk(rx, r.node, edge.typ) && WellFormed(rx, r.node)
            && (p != [] ==> SibBranch(r.node, p, t) == Grown(SibBranch(c, p, t), p, ReadTokens(rx, s), t))
    decreases |s|, n, 0
  {
    hide WellFormed, Tokens, Compiles, Keys, SetEndpoint, NextSegment, AddEdge, Belongs, Sib, SibBranch, Grown, Branch, Routes, Finish;
    var edge := NextEdge(s).value;
    var c := Children(n, edge.typ)[i];
    if edge.typ != NtStatic {
      WildEdge(rx, c, s);
      r := Insert(rx, c, s[edge.end..], reg);
      InsertBelow(rx, c, s, s[edge.end..], reg, p, t);
    } else {
      var k := LongestPrefix(s, c.prefix);
      LongestPrefixPositive(rx, c, s);
      if k == |c.prefix| {
        StaticEdge(rx, c, s);
        r := Insert(rx, c, s[k..], reg);
        InsertBelow(rx, c, s, s[k..], reg, p, t);
      } else {
        r := Divide(rx, c, k, s, reg);
        var _ := DivideOutcome(rx, c, k, s, reg);
        if p != [] {
          DivideSib(rx, c, k, s, reg, p, t);
        }
      }
    }
  }

  lemma {:induction false} InsertBelow(rx: Engine, c: Node, s: string, rest: string, reg: Registration, p: seq<Token>, t: NodeType)
    requires ChildOk(rx, c, c.typ) && WellFormed(rx, c) && Belongs(c, rest) && TakesParam(t)
    requires Readable(rx, s) <==> Readable(rx, rest)
    requires Readable(rx, s) ==> Tokens(s).value == NodeTokens(c) + Tokens(rest).value
    ensures var r := Insert(rx, c, rest, reg);
            && SameEdge(c, r.node) && ChildOk(rx, r.node, c.typ) && WellFormed(rx, r.node)
            && (p != [] ==> SibBranch(r.node, p, t) == Grown(SibBranch(c, p, t), p, ReadTokens(rx, s), t))
    decreases |rest|, c, 2
  {
    hide WellFormed, Tokens, Compiles, Keys, Belongs, Sib, SibBranch, Grown, Branch, Routes, Insert;
    var ch := InsertOutcome(rx, c, rest, reg);
    var r := Insert(rx, c, rest, reg).node;
    BelowChildOfNode(rx, c, s, rest, reg, Insert(rx, c, rest, reg), ch);
    if p != [] {
      var q := if NodeTokens(c) <= p then p[|NodeTokens(c)|..] else [];
      InsertSib(rx, c, rest, reg, q, t);
      assert NodeTokens(r) == NodeTokens(c);
      BranchGrown(c, r, p, t, ReadTokens(rx, rest));
    }
  }
}
