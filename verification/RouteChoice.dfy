/** Which ways there are through a tree, and in which order the search tries them: a blank stands for
    the last node of its list, and everything else follows from the routes and from the order of
    the nodes in the regexp and parameter lists. */
module RouteChoice {
  import opened Patterns
  import opened RouteTree
  import opened RouteTable
  import opened RouteInsert
  import opened RouteSiblings
  import opened RouteWays

  /** The order of the nodes of a type behind a path. */
  type Sibs = (seq<Token>, NodeType) -> seq<Token>

  ghost function TreeSibs(n: Node): Sibs {
    (p, t) => Sib(n, p, t)
  }

  predicate WildToken(tok: Token) {
    tok.Rex? || tok.Param?
  }

  predicate LastOf(l: seq<Token>, tok: Token) {
    l != [] && l[|l| - 1] == tok
  }

  /** Only the last node of a regexp or parameter list is retried with an empty value. */
  predicate Allowed(sib: Sibs, p: seq<Token>, steps: seq<Step>)
    decreases |steps|
  {
    steps == [] ||
    (&& (steps[0].Blank? ==> WildToken(steps[0].tok) && LastOf(sib(p, KindOf(steps[0].tok)), steps[0].tok))
     && Allowed(sib, p + [steps[0].tok], steps[1..]))
  }

  // ---------------------------------------------------------------- the order of ways

  /** Literal text, then regular expressions and their retry, then parameters and their retry, then
      the catch-all. */
  function StepRank(st: Step): nat {
    match st.tok
    case Lit(_) => 0
    case Rex(_, _) => if st.Plain? then 1 else 2
    case Param(_) => if st.Plain? then 3 else 4
    case Star => 5
  }

  predicate InOrder(l: seq<Token>, x: Token, y: Token) {
    exists i, j :: 0 <= i < j < |l| && l[i] == x && l[j] == y
  }

  /** Nodes of different types in the order of types, literal text by its bytes, regular expressions
      and parameters by their places in the list. */
  predicate StepBefore(l: seq<Token>, a: Step, b: Step) {
    || StepRank(a) < StepRank(b)
    || (&& StepRank(a) == StepRank(b) && a.Plain? && b.Plain?
        && if a.tok.Lit? && b.tok.Lit? then a.tok.c < b.tok.c else InOrder(l, a.tok, b.tok))
  }

  /** Way `a` is tried before way `b`, both read behind the path `p`. */
  predicate Earlier(sib: Sibs, p: seq<Token>, a: seq<Step>, b: seq<Step>)
    decreases |a|
  {
    && b != []
    && (|| a == []
        || (a[0] == b[0] && Earlier(sib, p + [a[0].tok], a[1..], b[1..]))
        || (a[0] != b[0] && StepBefore(sib(p, KindOf(a[0].tok)), a[0], b[0])))
  }

  predicate NoRepeat(l: seq<Token>) {
    forall i, j :: 0 <= i < j < |l| ==> l[i] != l[j]
  }

  /** Of two ways at most one is tried before the other, if no list repeats a token. */
  lemma {:induction false} EarlierOneWay(sib: Sibs, p: seq<Token>, a: seq<Step>, b: seq<Step>)
    requires (forall q, t :: NoRepeat(sib(q, t))) && Earlier(sib, p, a, b)
    ensures !Earlier(sib, p, b, a)
    decreases |a|
  {
    if a != [] && b != [] {
      if a[0] == b[0] {
        EarlierOneWay(sib, p + [a[0].tok], a[1..], b[1..]);
      } else {
        OrderOneWay(sib(p, KindOf(a[0].tok)), a[0], b[0]);
        SameList(a[0], b[0]);
      }
    }
  }

  lemma SameList(a: Step, b: Step)
    ensures StepRank(a) == StepRank(b) ==> KindOf(a.tok) == KindOf(b.tok)
  {}

  lemma OrderOneWay(l: seq<Token>, a: Step, b: Step)
    requires NoRepeat(l) && StepBefore(l, a, b)
    ensures !StepBefore(l, b, a)
  {}

  // ---------------------------------------------------------------- paths through a child

  lemma {:induction false} AllowedShift(a: Sibs, ts: seq<Token>, b: Sibs, p: seq<Token>, steps: seq<Step>)
    requires forall q, t :: a(ts + q, t) == b(q, t)
    ensures Allowed(a, ts + p, steps) <==> Allowed(b, p, steps)
    decreases |steps|
  {
    if steps != [] {
      var tok := steps[0].tok;
      assert ts + p + [tok] == ts + (p + [tok]);
      assert a(ts + p, KindOf(tok)) == b(p, KindOf(tok));
      AllowedShift(a, ts, b, p + [tok], steps[1..]);
    }
  }

  lemma {:induction false} EarlierShift(sa: Sibs, ts: seq<Token>, sb: Sibs, p: seq<Token>, a: seq<Step>, b: seq<Step>)
    requires forall q, t :: sa(ts + q, t) == sb(q, t)
    ensures Earlier(sa, ts + p, a, b) <==> Earlier(sb, p, a, b)
    decreases |a|
  {
    hide StepBefore;
    if a != [] && b != [] {
      var tok := a[0].tok;
      assert ts + p + [tok] == ts + (p + [tok]);
      assert sa(ts + p, KindOf(tok)) == sb(p, KindOf(tok));
      if a[0] == b[0] {
        EarlierShift(sa, ts, sb, p + [tok], a[1..], b[1..]);
      }
    }
  }

  lemma ChildSibs(rx: Engine, n: Node, u: NodeType, i: nat)
    requires WellFormed(rx, n) && i < |Children(n, u)|
    ensures var c := Children(n, u)[i]; forall q, t :: TreeSibs(n)(NodeTokens(c) + q, t) == TreeSibs(c)(q, t)
  {
    hide WellFormed, ListOk, NodeOk, AllWellFormed, SibIn;
    WellFormedParts(rx, n, u);
    var ns := Children(n, u);
    var c := ns[i];
    FirstTokensApart(rx, ns, u);
    forall q, t ensures Sib(n, NodeTokens(c) + q, t) == Sib(c, q, t) {
      var p := NodeTokens(c) + q;
      assert p[0] == FirstToken(c);
      SibOfChild(rx, ns, u, i, p, t);
      assert p[|NodeTokens(c)|..] == q;
    }
  }

  lemma {:induction false} AllowedPlains(sib: Sibs, p: seq<Token>, ts: seq<Token>, rest: seq<Step>)
    ensures Allowed(sib, p, Plains(ts) + rest) <==> Allowed(sib, p + ts, rest)
    decreases |ts|
  {
    var all := Plains(ts) + rest;
    if ts == [] {
      assert all == rest && p + ts == p;
    } else {
      assert all[0] == Plain(ts[0]) && all[1..] == Plains(ts[1..]) + rest;
      assert p + [ts[0]] + ts[1..] == p + ts;
      AllowedPlains(sib, p + [ts[0]], ts[1..], rest);
    }
  }

  /** A way that goes on below child `i` is allowed there exactly when it is allowed here. */
  lemma AllowedBelow(rx: Engine, n: Node, u: NodeType, i: nat, rest: seq<Step>)
    requires WellFormed(rx, n) && i < |Children(n, u)|
    ensures var c := Children(n, u)[i];
            && (Allowed(TreeSibs(n), [], Plains(NodeTokens(c)) + rest) <==> Allowed(TreeSibs(c), [], rest))
            && (Allowed(TreeSibs(n), NodeTokens(c), rest) <==> Allowed(TreeSibs(c), [], rest))
  {
    hide WellFormed, Allowed, TreeSibs, NodeTokens;
    var c := Children(n, u)[i];
    ChildSibs(rx, n, u, i);
    AllowedPlains(TreeSibs(n), [], NodeTokens(c), rest);
    assert [] + NodeTokens(c) == NodeTokens(c) && NodeTokens(c) + [] == NodeTokens(c);
    AllowedShift(TreeSibs(n), NodeTokens(c), TreeSibs(c), [], rest);
  }

  // ---------------------------------------------------------------- which ways there are

  lemma {:induction false} InWaysOf(ns: seq<Node>, w: Way)
    ensures w in WaysOf(ns) <==> exists i :: 0 <= i < |ns| && w in WayBranch(ns[i])
    decreases |ns|
  {
    hide WayBranch;
    if ns != [] {
      InWaysOf(ns[1..], w);
      assert forall i :: 0 <= i < |ns| - 1 ==> ns[1..][i] == ns[i + 1];
      if i :| 0 <= i < |ns| && w in WayBranch(ns[i]) {
        if i > 0 {
          assert ns[1..][i - 1] == ns[i];
        }
      }
    }
  }

  lemma {:induction false} InRoutesOf(ns: seq<Node>, r: Route)
    ensures r in RoutesOf(ns) <==> exists i :: 0 <= i < |ns| && r in Branch(ns[i])
    decreases |ns|
  {
    hide Branch;
    if ns != [] {
      InRoutesOf(ns[1..], r);
      assert forall i :: 0 <= i < |ns| - 1 ==> ns[1..][i] == ns[i + 1];
      if i :| 0 <= i < |ns| && r in Branch(ns[i]) {
        if i > 0 {
          assert ns[1..][i - 1] == ns[i];
        }
      }
    }
  }

  lemma InPrefixedWays(ts: seq<Step>, ws: seq<Way>, steps: seq<Step>, eps: Endpoints)
    ensures Way(steps, eps) in PrefixedWays(ts, ws) <==> ts <= steps && Way(steps[|ts|..], eps) in ws
  {
    var r := PrefixedWays(ts, ws);
    if Way(steps, eps) in r {
      var i :| 0 <= i < |r| && r[i] == Way(steps, eps);
      assert (ts + ws[i].steps)[|ts|..] == ws[i].steps;
      assert ws[i] == Way(steps[|ts|..], eps);
    }
    if ts <= steps && Way(steps[|ts|..], eps) in ws {
      var i :| 0 <= i < |ws| && ws[i] == Way(steps[|ts|..], eps);
      assert r[i] == Way(ts + steps[|ts|..], eps);
      assert ts + steps[|ts|..] == steps;
    }
  }

  lemma InPrefixed(ts: seq<Token>, rs: seq<Route>, toks: seq<Token>, eps: Endpoints)
    ensures Route(toks, eps) in Prefixed(ts, rs) <==> ts <= toks && Route(toks[|ts|..], eps) in rs
  {
    var r := Prefixed(ts, rs);
    if Route(toks, eps) in r {
      var i :| 0 <= i < |r| && r[i] == Route(toks, eps);
      assert (ts + rs[i].toks)[|ts|..] == rs[i].toks;
      assert rs[i] == Route(toks[|ts|..], eps);
    }
    if ts <= toks && Route(toks[|ts|..], eps) in rs {
      var i :| 0 <= i < |rs| && rs[i] == Route(toks[|ts|..], eps);
      assert r[i] == Route(ts + toks[|ts|..], eps);
      assert ts + toks[|ts|..] == toks;
    }
  }

  /** Behind steps that stand for the tokens of child `i`, a way is one of the child's. */
  lemma {:induction false} BranchIff(rx: Engine, n: Node, u: NodeType, i: nat, pre: seq<Step>, steps: seq<Step>, eps: Endpoints)
    requires WellFormed(rx, n) && i < |Children(n, u)| && pre <= steps && Toks(pre) == NodeTokens(Children(n, u)[i])
    ensures var c := Children(n, u)[i];
            Way(steps, eps) in PrefixedWays(pre, Ways(c)) <==>
            Route(Toks(steps), eps) in Branch(c) && Allowed(TreeSibs(n), NodeTokens(c), steps[|pre|..])
    decreases n, 0
  {
    hide WellFormed, Ways, Routes, PrefixedWays, Prefixed, Allowed, TreeSibs, NodeTokens, ListOk, NodeOk;
    var c := Children(n, u)[i];
    var rest := steps[|pre|..];
    WellFormedParts(rx, n, u);
    InPrefixedWays(pre, Ways(c), steps, eps);
    InPrefixed(NodeTokens(c), Routes(c), Toks(steps), eps);
    assert Toks(steps)[|pre|..] == Toks(rest);
    assert Toks(steps)[..|pre|] == Toks(pre);
    AllowedBelow(rx, n, u, i, rest);
    WayIffRoute(rx, c, rest, eps);
  }

  lemma {:induction false} NoBlankText(sib: Sibs, p: seq<Token>, steps: seq<Step>, k: nat)
    requires Allowed(sib, p, steps) && k < |steps| && !WildToken(steps[k].tok)
    ensures steps[k].Plain?
    decreases |steps|
  {
    if k > 0 {
      NoBlankText(sib, p + [steps[0].tok], steps[1..], k - 1);
    }
  }

  /** The ways through one child list are the allowed ones of its routes. */
  lemma {:induction false} ListIff(rx: Engine, n: Node, u: NodeType, steps: seq<Step>, eps: Endpoints)
    requires WellFormed(rx, n)
    ensures Way(steps, eps) in (if TakesParam(u) then WildWays(Children(n, u)) else WaysOf(Children(n, u))) <==>
            Route(Toks(steps), eps) in RoutesOf(Children(n, u)) && Allowed(TreeSibs(n), [], steps)
    decreases n, 3
  {
    hide WellFormed, WaysOf, RoutesOf, Retry, Allowed, TreeSibs, ListOk, NodeOk, WayBranch, Branch;
    var ns, w, r := Children(n, u), Way(steps, eps), Route(Toks(steps), eps);
    WellFormedParts(rx, n, u);
    InWaysOf(ns, w);
    InRoutesOf(ns, r);
    if w in WaysOf(ns) {
      var i :| 0 <= i < |ns| && w in WayBranch(ns[i]);
      PlainBranch(rx, n, u, i, steps, eps);
    }
    if TakesParam(u) && w in Retry(ns) {
      BlankBranch(rx, n, u, steps, eps);
    }
    if r in RoutesOf(ns) && Allowed(TreeSibs(n), [], steps) {
      var i :| 0 <= i < |ns| && r in Branch(ns[i]);
      RouteToWay(rx, n, u, i, steps, eps);
    }
  }

  lemma {:induction false} PlainBranch(rx: Engine, n: Node, u: NodeType, i: nat, steps: seq<Step>, eps: Endpoints)
    requires WellFormed(rx, n) && i < |Children(n, u)| && Way(steps, eps) in WayBranch(Children(n, u)[i])
    ensures Route(Toks(steps), eps) in Branch(Children(n, u)[i]) && Allowed(TreeSibs(n), [], steps)
    decreases n, 1
  {
    hide WellFormed, Ways, Routes, PrefixedWays, Prefixed, Allowed, TreeSibs, NodeTokens, Branch;
    var c := Children(n, u)[i];
    var pre := Plains(NodeTokens(c));
    InPrefixedWays(pre, Ways(c), steps, eps);
    assert Toks(pre) == NodeTokens(c);
    BranchIff(rx, n, u, i, pre, steps, eps);
    AllowedPlains(TreeSibs(n), [], NodeTokens(c), steps[|pre|..]);
    assert pre + steps[|pre|..] == steps && [] + NodeTokens(c) == NodeTokens(c);
  }

  lemma {:induction false} BlankBranch(rx: Engine, n: Node, u: NodeType, steps: seq<Step>, eps: Endpoints)
    requires WellFormed(rx, n) && TakesParam(u) && Way(steps, eps) in Retry(Children(n, u))
    ensures Route(Toks(steps), eps) in RoutesOf(Children(n, u)) && Allowed(TreeSibs(n), [], steps)
    decreases n, 1
  {
    hide WellFormed, Ways, Routes, PrefixedWays, Prefixed, NodeTokens, ListOk, NodeOk, RoutesOf, Branch, ChildOk, AllWellFormed;
    var ns := Children(n, u);
    var last := |ns| - 1;
    var c := ns[last];
    var pre := Blanks(NodeTokens(c));
    InPrefixedWays(pre, Ways(c), steps, eps);
    assert Toks(pre) == NodeTokens(c);
    BranchIff(rx, n, u, last, pre, steps, eps);
    WellFormedParts(rx, n, u);
    ListOkAt(rx, ns, u, last);
    var tok := WildTokens(rx, c, u);
    assert steps[0] == Blank(tok) && steps[|pre|..] == steps[1..];
    assert [] + [tok] == [tok];
    assert LastOf(TreeSibs(n)([], u), tok) by { LastFirst(ns); }
    InRoutesOf(ns, Route(Toks(steps), eps));
  }

  lemma LastFirst(ns: seq<Node>)
    requires ns != []
    ensures LastOf(FirstTokens(ns), FirstToken(ns[|ns| - 1]))
  {}

  lemma WildTokens(rx: Engine, c: Node, u: NodeType) returns (tok: Token)
    requires TakesParam(u) && ChildOk(rx, c, u)
    ensures NodeTokens(c) == [tok] && FirstToken(c) == tok && WildToken(tok) && KindOf(tok) == u
  {
    tok := NodeTokens(c)[0];
  }

  lemma {:induction false} RouteToWay(rx: Engine, n: Node, u: NodeType, i: nat, steps: seq<Step>, eps: Endpoints)
    requires WellFormed(rx, n) && i < |Children(n, u)|
    requires Route(Toks(steps), eps) in Branch(Children(n, u)[i]) && Allowed(TreeSibs(n), [], steps)
    ensures Way(steps, eps) in WayBranch(Children(n, u)[i])
            || (TakesParam(u) && Way(steps, eps) in Retry(Children(n, u)))
    decreases n, 2
  {
    hide WellFormed, Ways, Routes, PrefixedWays, Prefixed, NodeTokens, ListOk, NodeOk, TreeSibs;
    var ns := Children(n, u);
    var c := ns[i];
    var ts := NodeTokens(c);
    WellFormedParts(rx, n, u);
    ListOkAt(rx, ns, u, i);
    InPrefixed(ts, Routes(c), Toks(steps), eps);
    assert |ts| <= |steps| && Toks(steps)[..|ts|] == ts;
    var pre := steps[..|ts|];
    assert Toks(pre) == ts;
    if TakesParam(u) {
      var tok := WildTokens(rx, c, u);
      assert Toks(steps)[0] == ts[0] == tok;
      if steps[0].Blank? {
        assert pre == Blanks(ts);
        OnlyLast(rx, n, u, i, tok);
        assert steps[|pre|..] == steps[1..] && [] + [tok] == ts;
        BranchIff(rx, n, u, i, pre, steps, eps);
      } else {
        assert pre == Plains(ts);
        PlainWay(rx, n, u, i, steps, eps);
      }
    } else {
      forall k | 0 <= k < |ts| ensures steps[k] == Plain(ts[k]) {
        assert Toks(steps)[k] == Toks(steps)[..|ts|][k] == ts[k];
        TextTokens(rx, c, u, k);
        NoBlankText(TreeSibs(n), [], steps, k);
      }
      assert pre == Plains(ts);
      PlainWay(rx, n, u, i, steps, eps);
    }
  }

  lemma TextTokens(rx: Engine, c: Node, u: NodeType, k: nat)
    requires !TakesParam(u) && ChildOk(rx, c, u) && k < |NodeTokens(c)|
    ensures !WildToken(NodeTokens(c)[k])
  {}

  lemma OnlyLast(rx: Engine, n: Node, u: NodeType, i: nat, tok: Token)
    requires WellFormed(rx, n) && i < |Children(n, u)| && FirstToken(Children(n, u)[i]) == tok && LastOf(TreeSibs(n)([], u), tok)
    ensures i == |Children(n, u)| - 1
  {
    hide WellFormed, ListOk, NodeOk;
    WellFormedParts(rx, n, u);
    FirstTokensApart(rx, Children(n, u), u);
  }

  lemma {:induction false} PlainWay(rx: Engine, n: Node, u: NodeType, i: nat, steps: seq<Step>, eps: Endpoints)
    requires WellFormed(rx, n) && i < |Children(n, u)| && Plains(NodeTokens(Children(n, u)[i])) <= steps
    requires Route(Toks(steps), eps) in Branch(Children(n, u)[i]) && Allowed(TreeSibs(n), [], steps)
    ensures Way(steps, eps) in WayBranch(Children(n, u)[i])
    decreases n, 1
  {
    hide WellFormed, Ways, Routes, PrefixedWays, Prefixed, NodeTokens, Allowed, TreeSibs, Branch;
    var c := Children(n, u)[i];
    var pre := Plains(NodeTokens(c));
    assert Toks(pre) == NodeTokens(c);
    AllowedPlains(TreeSibs(n), [], NodeTokens(c), steps[|pre|..]);
    assert pre + steps[|pre|..] == steps && [] + NodeTokens(c) == NodeTokens(c);
    BranchIff(rx, n, u, i, pre, steps, eps);
  }

  /** The ways through a tree are the allowed ways of its routes. */
  lemma {:induction false} WayIffRoute(rx: Engine, n: Node, steps: seq<Step>, eps: Endpoints)
    requires WellFormed(rx, n)
    ensures Way(steps, eps) in Ways(n) <==> Route(Toks(steps), eps) in Routes(n) && Allowed(TreeSibs(n), [], steps)
    decreases n, 4
  {
    hide WellFormed, WaysOf, WildWays, RoutesOf, Allowed, TreeSibs;
    ListIff(rx, n, NtStatic, steps, eps);
    ListIff(rx, n, NtRegexp, steps, eps);
    ListIff(rx, n, NtParam, steps, eps);
    ListIff(rx, n, NtCatchAll, steps, eps);
    OwnIff(n, steps, eps);
    if steps == [] {
      assert Allowed(TreeSibs(n), [], steps) by { NothingAllowed(TreeSibs(n)); }
    }
  }

  lemma NothingAllowed(sib: Sibs)
    ensures Allowed(sib, [], [])
  {}

  lemma OwnIff(n: Node, steps: seq<Step>, eps: Endpoints)
    ensures Way(steps, eps) in OwnWay(n) <==> steps == [] && Route([], eps) in Own(n)
    ensures Route(Toks(steps), eps) in Own(n) ==> steps == []
  {}

  // ---------------------------------------------------------------- the order of the ways of a tree

  predicate OrderedWays(sib: Sibs, p: seq<Token>, ws: seq<Way>) {
    forall i, j :: 0 <= i < j < |ws| ==> Earlier(sib, p, ws[i].steps, ws[j].steps)
  }

  predicate AllEarlier(sib: Sibs, p: seq<Token>, a: seq<Way>, b: seq<Way>) {
    forall i, j :: 0 <= i < |a| && 0 <= j < |b| ==> Earlier(sib, p, a[i].steps, b[j].steps)
  }

  lemma OrderedConcat(sib: Sibs, p: seq<Token>, a: seq<Way>, b: seq<Way>)
    requires OrderedWays(sib, p, a) && OrderedWays(sib, p, b) && AllEarlier(sib, p, a, b)
    ensures OrderedWays(sib, p, a + b)
  {
    hide Earlier;
    var c := a + b;
    forall i, j | 0 <= i < j < |c| ensures Earlier(sib, p, c[i].steps, c[j].steps) {
      if j < |a| {
      } else if i >= |a| {
        assert Earlier(sib, p, b[i - |a|].steps, b[j - |a|].steps);
      } else {
        assert Earlier(sib, p, a[i].steps, b[j - |a|].steps);
      }
    }
  }

  lemma {:induction false} EarlierPrefixed(sib: Sibs, p: seq<Token>, pre: seq<Step>, a: seq<Step>, b: seq<Step>)
    requires Earlier(sib, p + Toks(pre), a, b)
    ensures Earlier(sib, p, pre + a, pre + b)
    decreases |pre|
  {
    if pre == [] {
      assert pre + a == a && pre + b == b && p + Toks(pre) == p;
    } else {
      assert (pre + a)[1..] == pre[1..] + a && (pre + b)[1..] == pre[1..] + b;
      assert p + Toks(pre) == p + [pre[0].tok] + Toks(pre[1..]);
      EarlierPrefixed(sib, p + [pre[0].tok], pre[1..], a, b);
    }
  }

  /** The ways through child `i`, behind steps for its tokens. */
  lemma BranchOrdered(rx: Engine, n: Node, u: NodeType, i: nat, pre: seq<Step>)
    requires WellFormed(rx, n) && i < |Children(n, u)| && Toks(pre) == NodeTokens(Children(n, u)[i])
    requires OrderedWays(TreeSibs(Children(n, u)[i]), [], Ways(Children(n, u)[i]))
    ensures OrderedWays(TreeSibs(n), [], PrefixedWays(pre, Ways(Children(n, u)[i])))
  {
    hide WellFormed, Ways, PrefixedWays, NodeTokens, TreeSibs, Earlier;
    var c := Children(n, u)[i];
    var ws, r := Ways(c), PrefixedWays(pre, Ways(c));
    ChildSibs(rx, n, u, i);
    assert NodeTokens(c) + [] == NodeTokens(c) && [] + NodeTokens(c) == NodeTokens(c);
    forall i, j | 0 <= i < j < |r| ensures Earlier(TreeSibs(n), [], r[i].steps, r[j].steps) {
      EarlierShift(TreeSibs(n), NodeTokens(c), TreeSibs(c), [], ws[i].steps, ws[j].steps);
      EarlierPrefixed(TreeSibs(n), [], pre, ws[i].steps, ws[j].steps);
    }
  }

  /** All ways of the list start with a step of this rank. */
  predicate Ranked(ws: seq<Way>, k: nat) {
    forall i :: 0 <= i < |ws| ==> ws[i].steps != [] && StepRank(ws[i].steps[0]) == k
  }

  lemma RankedEarlier(sib: Sibs, p: seq<Token>, a: seq<Way>, b: seq<Way>, j: nat, k: nat)
    requires Ranked(a, j) && Ranked(b, k) && j < k
    ensures AllEarlier(sib, p, a, b)
  {}

  lemma PrefixedRanked(pre: seq<Step>, ws: seq<Way>, k: nat)
    requires pre != [] && StepRank(pre[0]) == k
    ensures Ranked(PrefixedWays(pre, ws), k)
  {
    forall i | 0 <= i < |ws| ensures (pre + ws[i].steps)[0] == pre[0] {}
  }

  function ListRank(u: NodeType): nat {
    match u
    case NtStatic => 0
    case NtRegexp => 1
    case NtParam => 3
    case NtCatchAll => 5
  }

  lemma BranchRanked(rx: Engine, c: Node, u: NodeType)
    requires ChildOk(rx, c, u)
    ensures Ranked(WayBranch(c), ListRank(u)) && (TakesParam(u) ==> Ranked(PrefixedWays(Blanks(NodeTokens(c)), Ways(c)), ListRank(u) + 1))
  {
    hide Ways, Ranked;
    HeadOfChild(rx, c, u);
    PrefixedRanked(Plains(NodeTokens(c)), Ways(c), ListRank(u));
    if TakesParam(u) {
      PrefixedRanked(Blanks(NodeTokens(c)), Ways(c), ListRank(u) + 1);
    }
  }

  lemma {:induction false} ListRanked(rx: Engine, ns: seq<Node>, u: NodeType)
    requires ListOk(rx, ns, u)
    ensures Ranked(WaysOf(ns), ListRank(u)) && (TakesParam(u) ==> Ranked(Retry(ns), ListRank(u) + 1))
    decreases |ns|
  {
    hide WayBranch, Ranked, ListOk, ChildOk, Ways, PrefixedWays, Blanks, NodeTokens;
    if ns == [] {
      NoneRanked(ListRank(u));
    } else {
      TailOfList(rx, ns, u);
      ListOkAt(rx, ns, u, 0);
      ListOkAt(rx, ns, u, |ns| - 1);
      BranchRanked(rx, ns[0], u);
      BranchRanked(rx, ns[|ns| - 1], u);
      ListRanked(rx, ns[1..], u);
      RankedConcat(WayBranch(ns[0]), WaysOf(ns[1..]), ListRank(u));
    }
  }

  lemma NoneRanked(k: nat)
    ensures Ranked([], k) && Ranked([], k + 1)
  {}

  lemma RankedConcat(a: seq<Way>, b: seq<Way>, k: nat)
    requires Ranked(a, k) && Ranked(b, k)
    ensures Ranked(a + b, k)
  {}

  /** Two children of a list: the ways through the first come before those through the second. */
  lemma ChildrenInOrder(rx: Engine, n: Node, u: NodeType, i: nat, k: nat)
    requires WellFormed(rx, n) && i < k < |Children(n, u)|
    ensures AllEarlier(TreeSibs(n), [], WayBranch(Children(n, u)[i]), WayBranch(Children(n, u)[k]))
  {
    hide WellFormed, ListOk, NodeOk, Ways, AllWellFormed;
    var ns := Children(n, u);
    var c, d := ns[i], ns[k];
    WellFormedParts(rx, n, u);
    FirstTokensApart(rx, ns, u);
    var a, b := Plain(FirstToken(c)), Plain(FirstToken(d));
    assert StepBefore(Sib(n, [], u), a, b) by { HeadsInOrder(rx, ns, u, i, k); }
    hide StepBefore, FirstToken;
    forall x, y | 0 <= x < |WayBranch(c)| && 0 <= y < |WayBranch(d)|
      ensures Earlier(TreeSibs(n), [], WayBranch(c)[x].steps, WayBranch(d)[y].steps)
    {
      BranchFirst(c, x);
      BranchFirst(d, y);
    }
  }

  lemma BranchFirst(c: Node, x: nat)
    requires NodeTokens(c) != [] && x < |WayBranch(c)|
    ensures WayBranch(c)[x].steps != [] && WayBranch(c)[x].steps[0] == Plain(FirstToken(c))
  {
    hide Ways;
  }

  lemma HeadsInOrder(rx: Engine, ns: seq<Node>, u: NodeType, i: nat, k: nat)
    requires ListOk(rx, ns, u) && i < k < |ns|
    ensures StepBefore(FirstTokens(ns), Plain(FirstToken(ns[i])), Plain(FirstToken(ns[k])))
  {
    FirstTokensApart(rx, ns, u);
    assert Apart(ns[i], ns[k], u);
    ListOkAt(rx, ns, u, i);
    ListOkAt(rx, ns, u, k);
    var l := FirstTokens(ns);
    assert l[i] == FirstToken(ns[i]) && l[k] == FirstToken(ns[k]);
    assert InOrder(l, FirstToken(ns[i]), FirstToken(ns[k]));
  }

  lemma {:induction false} EarlierThanRest(rx: Engine, n: Node, u: NodeType, i: nat, k: nat)
    requires WellFormed(rx, n) && i < k <= |Children(n, u)|
    ensures AllEarlier(TreeSibs(n), [], WayBranch(Children(n, u)[i]), WaysOf(Children(n, u)[k..]))
    decreases |Children(n, u)| - k
  {
    hide WellFormed, WayBranch, Earlier, TreeSibs;
    var ns := Children(n, u);
    if k < |ns| {
      ChildrenInOrder(rx, n, u, i, k);
      EarlierThanRest(rx, n, u, i, k + 1);
      assert ns[k..][1..] == ns[k + 1..];
      EarlierConcat(TreeSibs(n), [], WayBranch(ns[i]), WayBranch(ns[k]), WaysOf(ns[k + 1..]));
    }
  }

  lemma EarlierConcat(sib: Sibs, p: seq<Token>, a: seq<Way>, b: seq<Way>, c: seq<Way>)
    requires AllEarlier(sib, p, a, b) && AllEarlier(sib, p, a, c)
    ensures AllEarlier(sib, p, a, b + c)
  {
    hide Earlier;
  }

  lemma ConcatEarlier(sib: Sibs, p: seq<Token>, a: seq<Way>, b: seq<Way>, c: seq<Way>)
    requires AllEarlier(sib, p, a, c) && AllEarlier(sib, p, b, c)
    ensures AllEarlier(sib, p, a + b, c)
  {
    hide Earlier;
  }

  lemma {:induction false} ListOrdered(rx: Engine, n: Node, u: NodeType, k: nat)
    requires WellFormed(rx, n) && k <= |Children(n, u)|
    ensures OrderedWays(TreeSibs(n), [], WaysOf(Children(n, u)[k..]))
    decreases n, 0, |Children(n, u)| - k
  {
    hide WellFormed, Earlier, TreeSibs, Ways, NodeTokens, ListOk, NodeOk, PrefixedWays;
    var ns := Children(n, u);
    if k < |ns| {
      WellFormedParts(rx, n, u);
      WaysOrdered(rx, ns[k]);
      assert Toks(Plains(NodeTokens(ns[k]))) == NodeTokens(ns[k]);
      BranchOrdered(rx, n, u, k, Plains(NodeTokens(ns[k])));
      ListOrdered(rx, n, u, k + 1);
      assert ns[k..][1..] == ns[k + 1..];
      EarlierThanRest(rx, n, u, k, k + 1);
      OrderedConcat(TreeSibs(n), [], WayBranch(ns[k]), WaysOf(ns[k + 1..]));
    }
  }

  lemma {:induction false} RetryOrdered(rx: Engine, n: Node, u: NodeType)
    requires WellFormed(rx, n)
    ensures OrderedWays(TreeSibs(n), [], Retry(Children(n, u)))
    decreases n, 0, 0
  {
    hide WellFormed, Earlier, TreeSibs, Ways, NodeTokens, ListOk, NodeOk, PrefixedWays;
    var ns := Children(n, u);
    if ns != [] {
      var last := |ns| - 1;
      WellFormedParts(rx, n, u);
      WaysOrdered(rx, ns[last]);
      assert Toks(Blanks(NodeTokens(ns[last]))) == NodeTokens(ns[last]);
      BranchOrdered(rx, n, u, last, Blanks(NodeTokens(ns[last])));
    }
  }

  lemma {:induction false} WildOrdered(rx: Engine, n: Node, u: NodeType)
    requires WellFormed(rx, n) && TakesParam(u)
    ensures OrderedWays(TreeSibs(n), [], WildWays(Children(n, u)))
    ensures forall i :: 0 <= i < |WildWays(Children(n, u))| ==>
              var w := WildWays(Children(n, u))[i].steps; w != [] && ListRank(u) <= StepRank(w[0]) <= ListRank(u) + 1
    decreases n, 1
  {
    hide WellFormed, Earlier, TreeSibs, WaysOf, Retry, ListOk, NodeOk;
    var ns := Children(n, u);
    WellFormedParts(rx, n, u);
    ListRanked(rx, ns, u);
    assert ns[0..] == ns;
    ListOrdered(rx, n, u, 0);
    RetryOrdered(rx, n, u);
    RankedEarlier(TreeSibs(n), [], WaysOf(ns), Retry(ns), ListRank(u), ListRank(u) + 1);
    OrderedConcat(TreeSibs(n), [], WaysOf(ns), Retry(ns));
  }

  /** The search tries the ways of a tree strictly in this order. */
  lemma {:induction false} WaysOrdered(rx: Engine, n: Node)
    requires WellFormed(rx, n)
    ensures OrderedWays(TreeSibs(n), [], Ways(n))
    decreases n, 2
  {
    hide WellFormed, Earlier, TreeSibs, WaysOf, WildWays, ListOk, NodeOk, OwnWay;
    WellFormedParts(rx, n, NtStatic);
    WellFormedParts(rx, n, NtCatchAll);
    ListRanked(rx, n.statics, NtStatic);
    ListRanked(rx, n.catchAlls, NtCatchAll);
    assert n.statics[0..] == n.statics && n.catchAlls[0..] == n.catchAlls;
    ListOrdered(rx, n, NtStatic, 0);
    ListOrdered(rx, n, NtCatchAll, 0);
    WildOrdered(rx, n, NtRegexp);
    WildOrdered(rx, n, NtParam);
    OrderedFour(TreeSibs(n), WaysOf(n.statics), WildWays(n.regexps), WildWays(n.params), WaysOf(n.catchAlls));
    OwnEarlier(TreeSibs(n), n, WaysBelow(n));
    OrderedConcat(TreeSibs(n), [], OwnWay(n), WaysBelow(n));
  }

  /** All ways of the list start with a step between these ranks. */
  predicate Between(ws: seq<Way>, j: nat, k: nat) {
    forall i :: 0 <= i < |ws| ==> ws[i].steps != [] && j <= StepRank(ws[i].steps[0]) <= k
  }

  lemma BetweenEarlier(sib: Sibs, a: seq<Way>, b: seq<Way>, i: nat, j: nat, k: nat, l: nat)
    requires Between(a, i, j) && Between(b, k, l) && j < k
    ensures AllEarlier(sib, [], a, b)
  {}

  lemma OrderedFour(sib: Sibs, a: seq<Way>, b: seq<Way>, c: seq<Way>, d: seq<Way>)
    requires OrderedWays(sib, [], a) && OrderedWays(sib, [], b) && OrderedWays(sib, [], c) && OrderedWays(sib, [], d)
    requires Ranked(a, 0) && Between(b, 1, 2) && Between(c, 3, 4) && Ranked(d, 5)
    ensures OrderedWays(sib, [], a + b + c + d)
    ensures forall i :: 0 <= i < |a + b + c + d| ==> (a + b + c + d)[i].steps != []
  {
    assert Between(a, 0, 0) && Between(d, 5, 5);
    hide OrderedWays, AllEarlier, StepRank;
    BetweenEarlier(sib, a, b, 0, 0, 1, 2);
    OrderedConcat(sib, [], a, b);
    BetweenEarlier(sib, a, c, 0, 0, 3, 4);
    BetweenEarlier(sib, b, c, 1, 2, 3, 4);
    ConcatEarlier(sib, [], a, b, c);
    OrderedConcat(sib, [], a + b, c);
    BetweenEarlier(sib, a, d, 0, 0, 5, 5);
    BetweenEarlier(sib, b, d, 1, 2, 5, 5);
    BetweenEarlier(sib, c, d, 3, 4, 5, 5);
    ConcatEarlier(sib, [], a, b, d);
    ConcatEarlier(sib, [], a + b, c, d);
    OrderedConcat(sib, [], a + b + c, d);
    NoneEmpty(a, b, c, d);
  }

  lemma NoneEmpty(a: seq<Way>, b: seq<Way>, c: seq<Way>, d: seq<Way>)
    requires Between(a, 0, 0) && Between(b, 1, 2) && Between(c, 3, 4) && Between(d, 5, 5)
    ensures forall i :: 0 <= i < |a + b + c + d| ==> (a + b + c + d)[i].steps != []
  {
    var all := a + b + c + d;
    forall i | 0 <= i < |all| ensures all[i].steps != [] {
      var w := if i < |a| then a[i] else if i < |a| + |b| then b[i - |a|]
               else if i < |a| + |b| + |c| then c[i - |a| - |b|] else d[i - |a| - |b| - |c|];
      assert all[i] == w;
    }
  }

  lemma OwnEarlier(sib: Sibs, n: Node, ws: seq<Way>)
    requires forall i :: 0 <= i < |ws| ==> ws[i].steps != []
    ensures OrderedWays(sib, [], OwnWay(n)) && AllEarlier(sib, [], OwnWay(n), ws)
  {}
}
