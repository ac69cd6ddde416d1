/** `insertRoute` on the heap: the walk down the tree, the change at its end, and the repair of the
    values on the way back up. */
module RouterWalk {
  import opened Text
  import opened Patterns
  import opened RouteTree
  import opened RouteTable
  import opened RouteInsert
  import opened RouteRegister
  import opened RouterNodes
  import opened RouterInsert
  import opened RouterLookup

  // ---------------------------------------------------------------- heights

  ghost function Height(n: Node): nat
    decreases n, 1
  {
    1 + Max(Max(Tallest(n.statics), Tallest(n.regexps)), Max(Tallest(n.params), Tallest(n.catchAlls)))
  }

  ghost function Tallest(ns: seq<Node>): nat
    decreases ns, 0
  {
    if ns == [] then 0 else Max(Height(ns[0]), Tallest(ns[1..]))
  }

  function Max(a: nat, b: nat): nat { if a < b then b else a }

  lemma {:induction false} TallestBounds(ns: seq<Node>, i: nat)
    requires i < |ns|
    ensures Height(ns[i]) <= Tallest(ns)
    decreases |ns|
  {
    if i > 0 {
      TallestBounds(ns[1..], i - 1);
    }
  }

  lemma ChildLower(n: Node, t: NodeType, i: nat)
    requires i < |Children(n, t)|
    ensures Height(Children(n, t)[i]) < Height(n)
  {
    TallestBounds(Children(n, t), i);
  }

  // ---------------------------------------------------------------- the way down, as values

  /** A node passed on the way down and the child that was taken. */
  datatype Step = Step(model: Node, typ: NodeType, index: nat)

  ghost predicate StepOk(st: Step) {
    st.index < |Children(st.model, st.typ)|
  }

  ghost function Taken(st: Step): Node
    requires StepOk(st)
  {
    Children(st.model, st.typ)[st.index]
  }

  ghost function WithTaken(st: Step, c: Node): Node
    requires StepOk(st)
  {
    WithChildren(st.model, st.typ, Children(st.model, st.typ)[st.index := c])
  }

  /** What the root becomes when the node at the end of the steps becomes `c`. */
  ghost function Wrap(steps: seq<Step>, c: Node): Node
    requires forall k :: 0 <= k < |steps| ==> StepOk(steps[k])
  {
    if steps == [] then c
    else Wrap(steps[..|steps| - 1], WithTaken(steps[|steps| - 1], c))
  }

  lemma WrapSnoc(steps: seq<Step>, st: Step, c: Node)
    requires (forall k :: 0 <= k < |steps| ==> StepOk(steps[k])) && StepOk(st)
    ensures Wrap(steps + [st], c) == Wrap(steps, WithTaken(st, c))
  {
    assert (steps + [st])[..|steps|] == steps;
  }

  lemma WrapSame(steps: seq<Step>, st: Step)
    requires (forall k :: 0 <= k < |steps| ==> StepOk(steps[k])) && StepOk(st)
    ensures WithTaken(st, Taken(st)) == st.model
  {
    var ns := Children(st.model, st.typ);
    assert ns[st.index := ns[st.index]] == ns;
    SameChildren(st.model, st.typ);
  }

  // ---------------------------------------------------------------- the way down, on the heap

  /** Linked, except that the child `c`, whose value was `c0`, may have a new one. */
  ghost predicate LinkedBut(n: TreeNode, all: set<TreeNode>, c: TreeNode, c0: Node)
    reads n, all`model, all`parent
  {
    && FieldsAgree(n) && n.model.endpoints == n.endpoints
    && FitsBut(n, n.statics, n.model.statics, all, c, c0) && FitsBut(n, n.regexps, n.model.regexps, all, c, c0)
    && FitsBut(n, n.params, n.model.params, all, c, c0) && FitsBut(n, n.catchAlls, n.model.catchAlls, all, c, c0)
  }

  ghost predicate FitsBut(n: TreeNode, ns: seq<TreeNode>, ms: seq<Node>, all: set<TreeNode>, c: TreeNode, c0: Node)
    reads all`model, all`parent
  {
    && |ns| == |ms|
    && forall i :: 0 <= i < |ns| ==> ns[i] in all && ns[i].parent == n && ms[i] == if ns[i] == c then c0 else ns[i].model
  }

  /** Every node but the given one is linked. */
  ghost predicate AllBut(all: set<TreeNode>, p: TreeNode?)
    reads all
  {
    forall x :: x in all && x != p ==> Linked(x, all)
  }

  ghost predicate Holds(p: TreeNode, st: Step, c: TreeNode)
    reads p
  {
    st.index < |p.Kids(st.typ)| && p.Kids(st.typ)[st.index] == c
  }

  /** The nodes `above` are those the steps went through on the way to `n`. */
  ghost predicate Climbable(rx: Engine, above: seq<TreeNode>, steps: seq<Step>, n: TreeNode, all: set<TreeNode>)
    reads above, n`parent
    decreases |steps|
  {
    && |above| == |steps| && n in all
    && if steps == [] then n.parent == null
       else
         var last := |steps| - 1;
         var p, st := above[last], steps[last];
         && n.parent == p && Holds(p, st, n)
         && StepOk(st) && p.model == st.model && WellFormed(rx, st.model)
         && Reaches(steps[..last], st.model)
         && Climbable(rx, above[..last], steps[..last], p, all)
  }

  /** The steps lead to a node with this value. */
  ghost predicate Reaches(steps: seq<Step>, m: Node) {
    steps != [] ==> StepOk(steps[|steps| - 1]) && Taken(steps[|steps| - 1]) == m
  }

  ghost predicate StepsOk(steps: seq<Step>) {
    forall k :: 0 <= k < |steps| ==> StepOk(steps[k])
  }

  /** Every node above is taller than the node the steps reached. */
  lemma {:induction false} AboveTaller(rx: Engine, above: seq<TreeNode>, steps: seq<Step>, n: TreeNode, all: set<TreeNode>, m: Node)
    requires Climbable(rx, above, steps, n, all) && Reaches(steps, m)
    ensures forall x :: x in above ==> x in all && Height(x.model) > Height(m)
    decreases |steps|
  {
    hide WellFormed, Holds, Height;
    if steps != [] {
      var last := |steps| - 1;
      var p, st := above[last], steps[last];
      ChildLower(st.model, st.typ, st.index);
      AboveTaller(rx, above[..last], steps[..last], p, all, st.model);
      assert above == above[..last] + [p];
    }
  }

  lemma {:induction false} ClimbMore(rx: Engine, above: seq<TreeNode>, steps: seq<Step>, n: TreeNode, all: set<TreeNode>, all': set<TreeNode>)
    requires Climbable(rx, above, steps, n, all) && all <= all'
    ensures Climbable(rx, above, steps, n, all')
    decreases |steps|
  {
    hide WellFormed, Holds, Reaches;
    if steps != [] {
      var last := |steps| - 1;
      ClimbMore(rx, above[..last], steps[..last], above[last], all, all');
    }
  }

  lemma ClimbSnoc(rx: Engine, above: seq<TreeNode>, steps: seq<Step>, n: TreeNode, all: set<TreeNode>, st: Step, c: TreeNode)
    requires Climbable(rx, above, steps, n, all) && Reaches(steps, n.model)
    requires n.model == st.model && StepOk(st) && WellFormed(rx, n.model) && Holds(n, st, c) && c in all && c.parent == n
    ensures Climbable(rx, above + [n], steps + [st], c, all)
  {
    hide WellFormed, Holds, Reaches;
    assert (above + [n])[..|steps|] == above && (steps + [st])[..|steps|] == steps;
  }

  // ---------------------------------------------------------------- the change at the end of the walk

  /** A node is not its own child, nor a child of its child. */
  lemma NotBelowItself(n: TreeNode, all: set<TreeNode>)
    requires Linked(n, all)
    ensures forall t, i :: 0 <= i < |n.Kids(t)| ==> n.Kids(t)[i] != n
  {
    forall t, i | 0 <= i < |n.Kids(t)| ensures n.Kids(t)[i] != n {
      LinkedKid(n, t, i, all);
      ChildLower(n.model, t, i);
    }
  }

  lemma NotBelowKid(n: TreeNode, c: TreeNode, t: NodeType, i: nat, all: set<TreeNode>)
    requires Linked(n, all) && Linked(c, all) && i < |n.Kids(t)| && c == n.Kids(t)[i]
    ensures forall u, j :: 0 <= j < |c.Kids(u)| ==> c.Kids(u)[j] != n && c.Kids(u)[j] != c
  {
    LinkedKid(n, t, i, all);
    ChildLower(n.model, t, i);
    forall u, j | 0 <= j < |c.Kids(u)| ensures c.Kids(u)[j] != n && c.Kids(u)[j] != c {
      LinkedKid(c, u, j, all);
      ChildLower(c.model, u, j);
    }
  }

  /** The node is not among its own children. */
  ghost predicate Apart4(n: TreeNode)
    reads n`statics, n`regexps, n`params, n`catchAlls
  {
    n !in n.statics && n !in n.regexps && n !in n.params && n !in n.catchAlls
  }

  lemma LinkedApart(n: TreeNode, all: set<TreeNode>)
    requires Linked(n, all)
    ensures Apart4(n)
  {
    NotBelowItself(n, all);
    assert forall i :: 0 <= i < |n.statics| ==> n.Kids(NtStatic)[i] != n;
    assert forall i :: 0 <= i < |n.regexps| ==> n.Kids(NtRegexp)[i] != n;
    assert forall i :: 0 <= i < |n.params| ==> n.Kids(NtParam)[i] != n;
    assert forall i :: 0 <= i < |n.catchAlls| ==> n.Kids(NtCatchAll)[i] != n;
  }

  ghost predicate Suits(n: TreeNode, m: Node, all: set<TreeNode>)
    reads n, all`model, all`parent
  {
    && m.typ == n.typ && m.first == n.first && m.tail == n.tail && m.prefix == UsedPrefix(n.typ, n.prefix)
    && m.endpoints == n.endpoints
    && ListFits(n, n.statics, m.statics, all) && ListFits(n, n.regexps, m.regexps, all)
    && ListFits(n, n.params, m.params, all) && ListFits(n, n.catchAlls, m.catchAlls, all)
  }

  /** A node takes the value its fields and children have come to stand for. */
  ghost method SetModel(n: TreeNode, m: Node, all: set<TreeNode>)
    requires n in all && Apart4(n) && Suits(n, m, all)
    modifies n`model
    ensures n.model == m && Linked(n, all)
  {
    n.model := m;
  }

  /** The text is used up: the endpoint is set here. */
  method FinishNode(n: TreeNode, ghost all: set<TreeNode>, reg: Registration) returns (err: Option<PatternError>)
    requires n in all && Linked(n, all)
    modifies n`endpoints
    ensures Suits(n, Finish(n.model, reg).node, all) && Apart4(n)
    ensures err.None? <==> Keys(reg.pattern).Ok?
  {
    hide SetEndpoint, Keys;
    LinkedApart(n, all);
    err := PutEndpoint(n, reg);
  }

  /** No edge leads on: a new chain of nodes below `n`. */
  method AddBelow(rx: Engine, n: TreeNode, ghost all: set<TreeNode>, search: string, reg: Registration)
      returns (err: Option<PatternError>, ghost added: set<TreeNode>)
    requires n in all && Linked(n, all) && search != ""
    requires SetAgrees(all)
    modifies n`statics, n`regexps, n`params, n`catchAlls
    ensures Suits(n, AddEdge(rx, n.model, search, reg).node, all + added) && Apart4(n)
    ensures err.None? <==> AddEdge(rx, n.model, search, reg).error.None?
    ensures fresh(added) && forall x :: x in added ==> Linked(x, all + added)
  {
    hide Chain, SetEndpoint, Keys, Attach, NewChain, Linked, SetAgrees, FieldsAgree, Suits, Apart4, AddEdge;
    AddEdgeUnfold(rx, n.model, search, reg);
    var child, hn;
    child, hn, err, added := NewBranch(rx, n, search, Some(SetEndpoint(None, reg)));
    if err.None? {
      err := JoinChain(n, child, hn, all, added, reg);
    } else {
      LinkedSuits(n, all);
      assert all + added == all;
    }
  }

  /** New nodes for the text, not yet attached to `n`. */
  method NewBranch(rx: Engine, n: TreeNode, search: string, ghost eps: Option<Endpoints>)
      returns (child: TreeNode, hn: TreeNode, err: Option<PatternError>, ghost chain: set<TreeNode>)
    requires search != ""
    ensures fresh(chain) && (err.None? <==> Chain(rx, search, eps).Ok?)
    ensures err.None? ==> NewChain(chain, child, hn, eps) && fresh(hn) && child.parent == n && child.model == Chain(rx, search, eps).value
    ensures err.Some? ==> chain == {}
  {
    hide Chain, NewChain;
    child := new TreeNode(NtStatic, search[0], NUL, search);
    child.parent := n;
    hn, err, chain := BuildChain(rx, child, search, eps);
    if err.None? {
      ChainHas(chain, child, hn, eps);
    } else {
      chain := {};
    }
  }

  /** The chain is attached to `n` and gets its endpoint. */
  method JoinChain(n: TreeNode, child: TreeNode, hn: TreeNode, ghost all: set<TreeNode>, ghost chain: set<TreeNode>, reg: Registration)
      returns (err: Option<PatternError>)
    requires n in all && Linked(n, all) && all !! chain && NewChain(chain, child, hn, Some(SetEndpoint(None, reg))) && child.parent == n
    requires SetAgrees(all)
    modifies n`statics, n`regexps, n`params, n`catchAlls, hn`endpoints
    ensures Suits(n, Attach(n.model, child.model), all + chain) && Apart4(n)
    ensures forall x :: x in chain ==> Linked(x, all + chain)
    ensures err.None? <==> Keys(reg.pattern).Ok?
  {
    hide SetEndpoint, Keys, Attach, NewChain, Linked, FieldsAgree, Suits, Apart4, AllAgree, SetAgrees;
    ghost var eps := Some(SetEndpoint(None, reg));
    ChainAgrees(chain, child, hn, eps);
    ChainHas(chain, child, hn, eps);
    KidsAgreeOf(n, child.typ, all);
    AttachNew(n, child, all, chain);
    err := CompleteChain(all, chain, child, hn, reg);
  }

  lemma LinkedSuits(n: TreeNode, all: set<TreeNode>)
    requires Linked(n, all)
    ensures Suits(n, n.model, all) && Apart4(n)
  {
    LinkedApart(n, all);
  }

  /** The new child goes into its list. */
  method AttachNew(n: TreeNode, child: TreeNode, ghost all: set<TreeNode>, ghost chain: set<TreeNode>)
    requires n in all && child in chain && n !in chain && all !! chain && Linked(n, all)
    requires FieldsAgree(child) && child.parent == n && AllAgree(n.Kids(child.typ))
    modifies n`statics, n`regexps, n`params, n`catchAlls
    ensures Suits(n, Attach(n.model, child.model), all + chain) && Apart4(n)
  {
    hide Attach, TailSort, SortByLabel;
    ghost var m0, t := n.model, child.typ;
    LinkedApart(n, all);
    assert ListLinked(n, t, all);
    assert Models(n.Kids(t)) == Children(m0, t);
    AttachChild(n, child);
    AttachChildren(m0, child.model);
    ghost var m1 := Attach(m0, child.model);
    assert forall x :: x in n.Kids(t) ==> x in all + chain && x.parent == n;
    assert ListFits(n, n.Kids(t), Children(m1, t), all + chain);
    assert t != NtStatic ==> ListFits(n, n.statics, m1.statics, all + chain);
    assert t != NtRegexp ==> ListFits(n, n.regexps, m1.regexps, all + chain);
    assert t != NtParam ==> ListFits(n, n.params, m1.params, all + chain);
    assert t != NtCatchAll ==> ListFits(n, n.catchAlls, m1.catchAlls, all + chain);
  }

  lemma AttachChildren(n: Node, c: Node)
    ensures var r := Attach(n, c);
            && Children(r, c.typ) == TailSort(SortByLabel(Children(n, c.typ) + [c]))
            && (c.typ != NtStatic ==> r.statics == n.statics) && (c.typ != NtRegexp ==> r.regexps == n.regexps)
            && (c.typ != NtParam ==> r.params == n.params) && (c.typ != NtCatchAll ==> r.catchAlls == n.catchAlls)
            && r.typ == n.typ && r.first == n.first && r.tail == n.tail && r.prefix == n.prefix && r.endpoints == n.endpoints
  {
    hide TailSort, SortByLabel;
  }

  /** The endpoint the last node of the chain was waiting for. */
  method CompleteChain(ghost all: set<TreeNode>, ghost chain: set<TreeNode>, ghost child: TreeNode, hn: TreeNode, reg: Registration)
      returns (err: Option<PatternError>)
    requires all !! chain && NewChain(chain, child, hn, Some(SetEndpoint(None, reg)))
    modifies hn`endpoints
    ensures forall x :: x in chain ==> Linked(x, all + chain)
    ensures err.None? <==> Keys(reg.pattern).Ok?
  {
    hide SetEndpoint, Keys;
    err := PutEndpoint(hn, reg);
    forall x | x in chain ensures Linked(x, all + chain) {
      assert Linked(x, chain);
      LinkedInMore(x, chain, all + chain);
    }
  }

  lemma ChainHas(added: set<TreeNode>, c: TreeNode, hn: TreeNode, eps: Option<Endpoints>)
    requires NewChain(added, c, hn, eps)
    ensures hn in added && hn.endpoints == None
  {}

  /** Every node's own fields agree with its value. */
  ghost predicate SetAgrees(all: set<TreeNode>)
    reads all`typ, all`first, all`tail, all`prefix, all`model
  {
    forall x :: x in all ==> FieldsAgree(x)
  }

  lemma KidsAgreeOf(n: TreeNode, t: NodeType, all: set<TreeNode>)
    requires Linked(n, all) && SetAgrees(all)
    ensures AllAgree(n.Kids(t))
  {
    hide FieldsAgree;
    assert ListLinked(n, t, all);
  }

  /** Where the walk ends at a static node: its endpoint, or a new edge for the rest. */
  method GoOn(rx: Engine, u: TreeNode, ghost all: set<TreeNode>, k: nat, search: string, reg: Registration)
      returns (err: Option<PatternError>, ghost more: set<TreeNode>)
    requires u in all && Linked(u, all) && k <= |search|
    requires SetAgrees(all)
    modifies u`statics, u`regexps, u`params, u`catchAlls, u`model, u`endpoints
    ensures var r := if k == |search| then Finish(old(u.model), reg) else AddEdge(rx, old(u.model), search[k..], reg);
            u.model == r.node && (err.None? <==> r.error.None?)
    ensures fresh(more) && Linked(u, all + more) && forall x :: x in more ==> Linked(x, all + more)
  {
    hide AddEdge, SetAgrees, Linked, Keys, SetEndpoint, Suits;
    if k == |search| {
      err := FinishNode(u, all, reg);
      more := {};
      assert all + more == all;
      SetModel(u, Finish(u.model, reg).node, all + more);
    } else {
      err, more := AddBelow(rx, u, all, search[k..], reg);
      forall x | x in more ensures NoKid(x, u) {
        NoKidOf(x, u, all + more);
      }
      NewModel(u, AddEdge(rx, u.model, search[k..], reg).node, all + more, more);
    }
  }

  /** The static child `c` of `n` is cut after `k` bytes: an upper node takes its place, `c` goes
      below it, and the registration goes on at the upper node. */
  method DivideNode(rx: Engine, n: TreeNode, c: TreeNode, ghost at: nat, ghost all: set<TreeNode>, k: nat, search: string, reg: Registration)
      returns (err: Option<PatternError>, ghost added: set<TreeNode>)
    requires n in all && c in all && n != c && Linked(n, all) && Linked(c, all) && c.typ == NtStatic && search != ""
    requires at < |n.statics| && n.statics[at] == c && OnlyAt(n, c, at)
    requires at == GetEdge(n.model.statics, search[0], NUL, None) && SetAgrees(all)
    requires k < |c.prefix| && k <= |search|
    modifies n`statics, c`first, c`prefix, c`model, c`parent
    ensures Apart4(n) && Suits(n, WithChildren(n.model, NtStatic, n.model.statics[at := Divide(rx, old(c.model), k, search, reg).node]), all + added)
    ensures err.None? <==> Divide(rx, old(c.model), k, search, reg).error.None?
    ensures fresh(added) && Linked(c, all + added) && forall x :: x in added ==> Linked(x, all + added)
  {
    hide AddEdge, Finish, GetEdge, Linked, Upper, Lower, SetAgrees, WithChildren, NoKid, HoleAt, Suits, Apart4, OnlyAt;
    var u := SplitOff(n, c, at, all, k, search);
    ghost var more;
    err, more := GoOn(rx, u, all + {u}, k, search, reg);
    added := {u} + more;
    assert all + {u} + more == all + added;
    assert all - {c} + (added + {c}) == all + added;
    HoleFilled(n, u, at, all - {c}, added + {c});
    LinkedInMore(c, all, all + added);
  }

  /** With `u` counted among the nodes, the hole is filled. */
  lemma HoleFilled(n: TreeNode, u: TreeNode, at: nat, all: set<TreeNode>, added: set<TreeNode>)
    requires HoleAt(n, u, at, all) && u in added && u.parent == n
    ensures Apart4(n) && at < |n.model.statics|
    ensures Suits(n, WithChildren(n.model, NtStatic, n.model.statics[at := u.model]), all + added)
  {}

  /** `n` agrees with its value except that `u` stands at one place. */
  ghost predicate HoleAt(n: TreeNode, u: TreeNode, at: nat, all: set<TreeNode>)
    reads n, all`model, all`parent
  {
    && Apart4(n) && FieldsAgree(n) && n.model.endpoints == n.endpoints
    && at < |n.statics| && n.statics[at] == u && |n.model.statics| == |n.statics|
    && (forall j :: 0 <= j < |n.statics| && j != at ==>
          n.statics[j] in all && n.statics[j].model == n.model.statics[j] && n.statics[j].parent == n)
    && ListFits(n, n.regexps, n.model.regexps, all) && ListFits(n, n.params, n.model.params, all)
    && ListFits(n, n.catchAlls, n.model.catchAlls, all)
  }

  /** The cut itself: a new node in the place of `c`, and `c` below it. */
  method SplitOff(n: TreeNode, c: TreeNode, ghost at: nat, ghost all: set<TreeNode>, k: nat, search: string) returns (u: TreeNode)
    requires n in all && c in all && n != c && Linked(n, all) && Linked(c, all) && c.typ == NtStatic && search != ""
    requires at < |n.statics| && n.statics[at] == c && OnlyAt(n, c, at)
    requires at == GetEdge(n.model.statics, search[0], NUL, None) && SetAgrees(all)
    requires k < |c.prefix| && k <= |search|
    modifies n`statics, c`first, c`prefix, c`model, c`parent
    ensures fresh(u) && u !in all && u.parent == n && HoleAt(n, u, at, all - {c}) && Linked(c, all)
    ensures old(c.model).prefix == old(c.prefix) && u.model == Upper(old(c.model), k, search) && Linked(u, all + {u})
    ensures SetAgrees(all + {u})
  {
    hide *;
    KidFacts(n, c, at, all);
    FirstEdge(n, c, at, all, search[0]);
    u := SwapIn(n, c, at, all, search[0], search[..k]);
    CutReady(c, u, all);
    CutNode(c, u, k, all, search);
  }

  /** A new static node takes the place of `c` among the children of `n`. */
  method SwapIn(n: TreeNode, c: TreeNode, ghost at: nat, ghost all: set<TreeNode>, first: char, prefix: string) returns (u: TreeNode)
    requires n in all && c in all && at < |n.statics| && n.statics[at] == c && c.first == first && c.tail == NUL
    requires forall j :: 0 <= j < at ==> !(n.statics[j].first == first && n.statics[j].tail == NUL)
    requires Apart4(n) && OnlyAt(n, c, at) && FieldsAgree(n) && n.model.endpoints == n.endpoints
    requires ListFits(n, n.statics, n.model.statics, all) && ListFits(n, n.regexps, n.model.regexps, all)
    requires ListFits(n, n.params, n.model.params, all) && ListFits(n, n.catchAlls, n.model.catchAlls, all)
    modifies n`statics
    ensures fresh(u) && u !in all && Blank(u) && u.typ == NtStatic && u.first == first && u.tail == NUL && u.prefix == prefix && u.parent == n
    ensures HoleAt(n, u, at, all - {c})
  {
    u := new TreeNode(NtStatic, NUL, NUL, prefix);
    ReplaceChild(n, first, NUL, u, at);
    u.parent := n;
  }

  /** `c` is a child of `n` at that place only. */
  ghost predicate OnlyAt(n: TreeNode, c: TreeNode, at: nat)
    reads n`statics, n`regexps, n`params, n`catchAlls
  {
    && (forall j :: 0 <= j < |n.statics| && j != at ==> n.statics[j] != c)
    && c !in n.regexps && c !in n.params && c !in n.catchAlls
  }

  /** A node that does not have `n` as a child is linked without it. */
  lemma LinkedWithout(x: TreeNode, n: TreeNode, all: set<TreeNode>)
    requires Linked(x, all) && NoKid(x, n)
    ensures Linked(x, all - {n})
  {
    hide FieldsAgree;
  }

  /** A new value for `n` does not disturb nodes that do not have `n` as a child. */
  ghost method NewModel(n: TreeNode, m: Node, all: set<TreeNode>, others: set<TreeNode>)
    requires n in all && Apart4(n) && Suits(n, m, all) && n !in others
    requires forall x :: x in others ==> NoKid(x, n) && Linked(x, all)
    modifies n`model
    ensures n.model == m && Linked(n, all) && forall x :: x in others ==> Linked(x, all)
  {
    hide Linked, Suits, NoKid, Apart4;
    forall x | x in others ensures Linked(x, all - {n}) {
      LinkedWithout(x, n, all);
    }
    SetModel(n, m, all);
    forall x | x in others ensures Linked(x, all) {
      LinkedInMore(x, all - {n}, all);
    }
  }

  lemma NoKidOf(x: TreeNode, n: TreeNode, all: set<TreeNode>)
    requires Linked(x, all) && n.parent != x
    ensures NoKid(x, n)
  {
    hide FieldsAgree;
    assert ListFits(x, x.Kids(NtStatic), x.model.statics, all) && ListFits(x, x.Kids(NtRegexp), x.model.regexps, all);
    assert ListFits(x, x.Kids(NtParam), x.model.params, all) && ListFits(x, x.Kids(NtCatchAll), x.model.catchAlls, all);
  }

  /** What being linked says about `n` and its static child `c`. */
  lemma KidFacts(n: TreeNode, c: TreeNode, at: nat, all: set<TreeNode>)
    requires Linked(n, all) && Linked(c, all) && at < |n.statics| && n.statics[at] == c
    ensures Apart4(n) && NoKid(c, n) && FieldsAgree(n) && n.model.endpoints == n.endpoints && FieldsAgree(c)
    ensures ListFits(n, n.statics, n.model.statics, all) && ListFits(n, n.regexps, n.model.regexps, all)
    ensures ListFits(n, n.params, n.model.params, all) && ListFits(n, n.catchAlls, n.model.catchAlls, all)
  {
    LinkedApart(n, all);
    NotBelowKid(n, c, NtStatic, at, all);
    assert forall j :: 0 <= j < |c.statics| ==> c.Kids(NtStatic)[j] != n;
    assert forall j :: 0 <= j < |c.regexps| ==> c.Kids(NtRegexp)[j] != n;
    assert forall j :: 0 <= j < |c.params| ==> c.Kids(NtParam)[j] != n;
    assert forall j :: 0 <= j < |c.catchAlls| ==> c.Kids(NtCatchAll)[j] != n;
    assert ListLinked(n, NtStatic, all);
  }

  /** The child `getEdge` takes among values is the one `replaceChild` takes among nodes. */
  lemma EdgeAt(n: TreeNode, c: TreeNode, at: nat, first: char)
    requires |n.statics| == |n.model.statics| && at < |n.statics| && n.statics[at] == c && AllAgree(n.statics)
    requires forall j :: 0 <= j < |n.statics| ==> n.statics[j].model == n.model.statics[j]
    requires at == GetEdge(n.model.statics, first, NUL, None)
    ensures c.first == first && c.tail == NUL
    ensures forall j :: 0 <= j < at ==> !(n.statics[j].first == first && n.statics[j].tail == NUL)
  {
    assert forall j :: 0 <= j < |n.statics| ==> n.statics[j] in n.statics && FieldsAgree(n.statics[j]);
  }

  lemma FirstEdge(n: TreeNode, c: TreeNode, at: nat, all: set<TreeNode>, first: char)
    requires Linked(n, all) && SetAgrees(all) && at < |n.statics| && n.statics[at] == c
    requires at == GetEdge(n.model.statics, first, NUL, None)
    ensures c.first == first && c.tail == NUL
    ensures forall j :: 0 <= j < at ==> !(n.statics[j].first == first && n.statics[j].tail == NUL)
  {
    hide GetEdge, FieldsAgree, AllAgree, SetAgrees;
    KidsAgreeOf(n, NtStatic, all);
    EdgeAt(n, c, at, first);
  }

  /** `n` is not a child of `c`. */
  ghost predicate NoKid(c: TreeNode, n: TreeNode)
    reads c`statics, c`regexps, c`params, c`catchAlls
  {
    n !in c.statics && n !in c.regexps && n !in c.params && n !in c.catchAlls
  }

  /** The node keeps what follows the first `k` bytes of its prefix. */
  method TrimNode(c: TreeNode, k: nat, ghost all: set<TreeNode>)
    requires c in all && SetAgrees(all) && Linked(c, all) && c.typ == NtStatic && k < |c.prefix|
    modifies c`first, c`prefix, c`model
    ensures SetAgrees(all) && c.model == Lower(old(c.model), k) && Linked(c, all) && FieldsAgree(c) && Apart4(c)
  {
    LinkedApart(c, all);
    c.first := c.prefix[k];
    c.prefix := c.prefix[k..];
    SetModel(c, Lower(c.model, k), all);
  }

  /** The first half of `c` goes to `u`, which becomes its parent. */
  method CutNode(c: TreeNode, u: TreeNode, k: nat, ghost all: set<TreeNode>, search: string)
    requires c in all && u !in all && SetAgrees(all) && Linked(c, all) && c.typ == NtStatic && Blank(u) && search != ""
    requires u.typ == NtStatic && u.first == search[0] && u.tail == NUL && k < |c.prefix| && k <= |search| && u.prefix == search[..k]
    modifies c`first, c`prefix, c`model, c`parent, u`statics, u`regexps, u`params, u`catchAlls, u`model
    ensures c.model == Lower(old(c.model), k) && Linked(c, all) && c.parent == u
    ensures u.model == Upper(old(c.model), k, search) && Linked(u, all + {u})
    ensures SetAgrees(all + {u})
  {
    hide *;
    ghost var c0 := c.model;
    CutReady(c, u, all);
    TrimNode(c, k, all);
    AttachOnly(u, c);
    OnlyStatic(u, c);
    UpperOf(u, c0, k, search);
    Adopt(c, u, all, Upper(c0, k, search));
    SetAgreesMore(u, all);
  }

  lemma CutReady(c: TreeNode, u: TreeNode, all: set<TreeNode>)
    requires Linked(c, all) && c.typ == NtStatic && Blank(u)
    ensures c.model.prefix == c.prefix && u.endpoints == None
  {
    assert FieldsAgree(c);
  }

  lemma OnlyStatic(u: TreeNode, c: TreeNode)
    requires c.typ == NtStatic && u.Kids(c.typ) == [c]
    ensures u.statics == [c]
  {}

  lemma UpperOf(u: TreeNode, c: Node, k: nat, search: string)
    requires k < |c.prefix| && k <= |search| && search != ""
    requires u.typ == NtStatic && u.first == search[0] && u.tail == NUL && u.prefix == search[..k]
    ensures Upper(c, k, search) == Node(u.typ, u.first, u.tail, UsedPrefix(u.typ, u.prefix), None, [Lower(c, k)], [], [], [])
  {}

  lemma SetAgreesMore(u: TreeNode, all: set<TreeNode>)
    requires SetAgrees(all) && Linked(u, all + {u})
    ensures SetAgrees(all + {u})
  {}

  /** `u` becomes the parent of its only child. */
  ghost method Adopt(c: TreeNode, u: TreeNode, all: set<TreeNode>, m: Node)
    requires c in all && u !in all && Linked(c, all) && Apart4(c)
    requires u.endpoints == None && u.statics == [c] && OthersEmpty(u, NtStatic)
    requires m == Node(u.typ, u.first, u.tail, UsedPrefix(u.typ, u.prefix), None, [c.model], [], [], [])
    modifies c`parent, u`model
    ensures c.parent == u && u.model == m && Linked(u, all + {u}) && Linked(c, all)
  {
    c.parent := u;
    SetModel(u, m, all + {u});
  }

  // ---------------------------------------------------------------- the way back up

  /** In a well-formed node no child stands in two places. */
  lemma KidOnce(rx: Engine, m: Node, t: NodeType, i: nat, u: NodeType, j: nat)
    requires WellFormed(rx, m) && i < |Children(m, t)| && j < |Children(m, u)|
    requires Children(m, t)[i] == Children(m, u)[j]
    ensures t == u && i == j
  {
    WellFormedParts(rx, m, t);
    WellFormedParts(rx, m, u);
    hide WellFormed;
    ListOkAt(rx, Children(m, t), t, i);
    ListOkAt(rx, Children(m, u), u, j);
    if t == u && i != j {
      HeadsApart(rx, Children(m, t), t, i, j);
    }
  }

  /** One child list shows the new value of `c`. */
  lemma FitsRepaired(rx: Engine, p: TreeNode, t: NodeType, all: set<TreeNode>, st: Step, c: TreeNode, c0: Node)
    requires p.model == st.model && StepOk(st) && WellFormed(rx, st.model) && Taken(st) == c0 && Holds(p, st, c)
    requires FitsBut(p, p.Kids(t), Children(st.model, t), all, c, c0)
    ensures ListFits(p, p.Kids(t), Children(WithTaken(st, c.model), t), all)
  {
    hide WellFormed;
    var ns := p.Kids(t);
    forall i | 0 <= i < |ns| && ns[i] == c ensures t == st.typ && i == st.index {
      KidOnce(rx, st.model, t, i, st.typ, st.index);
    }
  }

  /** A node with a changed child takes the value that shows it. */
  lemma Repairs(rx: Engine, p: TreeNode, all: set<TreeNode>, st: Step, c: TreeNode, c0: Node)
    requires LinkedBut(p, all, c, c0) && p.model == st.model && StepOk(st) && WellFormed(rx, st.model) && Taken(st) == c0
    requires Holds(p, st, c)
    ensures Suits(p, WithTaken(st, c.model), all)
  {
    hide WellFormed, ListFits, FitsBut, Holds;
    FitsRepaired(rx, p, NtStatic, all, st, c, c0);
    FitsRepaired(rx, p, NtRegexp, all, st, c, c0);
    FitsRepaired(rx, p, NtParam, all, st, c, c0);
    FitsRepaired(rx, p, NtCatchAll, all, st, c, c0);
  }

  /** A node takes a new value: then its parent is the only one that may be out of date. */
  ghost method LiftModel(p: TreeNode, m: Node, all: set<TreeNode>)
    requires p in all && Apart4(p) && Suits(p, m, all) && AllBut(all, p) && p.parent != p
    modifies p`model
    ensures p.model == m && AllBut(all, p.parent)
    ensures p.parent != null && p.parent in all ==> LinkedBut(p.parent, all, p, old(p.model))
  {
    forall x | x in all && x != p && x != p.parent ensures NoKid(x, p) {
      NoKidOf(x, p, all);
    }
    LiftOthers(p, m, all, set x | x in all && x != p && x != p.parent);
  }

  ghost method LiftOthers(p: TreeNode, m: Node, all: set<TreeNode>, others: set<TreeNode>)
    requires p in all && Apart4(p) && Suits(p, m, all) && p !in others && p.parent != p && p.parent !in others
    requires forall x :: x in others ==> NoKid(x, p) && Linked(x, all)
    requires p.parent != null && p.parent in all ==> Linked(p.parent, all)
    modifies p`model
    ensures p.model == m && Linked(p, all) && forall x :: x in others ==> Linked(x, all)
    ensures p.parent != null && p.parent in all ==> LinkedBut(p.parent, all, p, old(p.model))
  {
    hide NoKid, Apart4;
    NewModel(p, m, all, others);
  }

  /** The values of the nodes above the change follow, from the bottom to the root. */
  ghost method ClimbBack(rx: Engine, above: seq<TreeNode>, steps: seq<Step>, n: TreeNode, all: set<TreeNode>, n0: Node)
    requires Climbable(rx, above, steps, n, all) && StepsOk(steps) && Reaches(steps, n0) && AllBut(all, n.parent)
    requires steps != [] ==> LinkedBut(above[|steps| - 1], all, n, n0)
    modifies above`model
    ensures Consistent(all)
    ensures (above + [n])[0].model == Wrap(steps, old(n.model))
    decreases |steps|
  {
    hide WellFormed, LinkedBut, Linked, Holds, Suits, Apart4;
    if steps != [] {
      var last := |steps| - 1;
      var st, p := steps[last], above[last];
      Repairs(rx, p, all, st, n, n0);
      var above', steps' := above[..last], steps[..last];
      AboveTaller(rx, above', steps', p, all, st.model);
      assert p !in above' && StepsOk(steps');
      ParentAbove(rx, above', steps', p, all);
      KidsPointBack(p, all, n, n0);
      LiftModel(p, WithTaken(st, n.model), all);
      assert above' != [] ==> (above' + [p])[0] == above[0];
      ClimbBack(rx, above', steps', p, all, st.model);
    }
  }

  lemma ParentAbove(rx: Engine, above: seq<TreeNode>, steps: seq<Step>, n: TreeNode, all: set<TreeNode>)
    requires Climbable(rx, above, steps, n, all) && n !in above
    ensures n.parent != n && (steps == [] <==> n.parent == null) && (steps != [] ==> n.parent == above[|steps| - 1] && n.parent in all)
  {
    hide WellFormed, Holds, Reaches;
  }

  lemma KidsPointBack(p: TreeNode, all: set<TreeNode>, c: TreeNode, c0: Node)
    requires LinkedBut(p, all, c, c0) && p.parent != p
    ensures Apart4(p)
  {
    hide FieldsAgree;
  }

  // ---------------------------------------------------------------- insertRoute

  /** The child `getEdge` leads to, found as the source finds it. */
  method NextEdgeOf(search: string) returns (r: Result<Edge>)
    requires search != ""
    ensures r == NextEdge(search)
  {
    hide NextSegment;
    if search[0] == '{' || search[0] == '*' {
      var next := PatNextSegment(search);
      if next.Err? {
        return Err(next.error);
      }
      var seg := next.value;
      return Ok(Edge(seg.typ, seg.tail, if seg.typ == NtRegexp then Some(seg.rexpat) else None, seg.end));
    }
    return Ok(Edge(NtStatic, NUL, None, 0));
  }

  /** Why the walk stops: nothing left, a malformed segment, no edge, or inside a static node. */
  datatype Stop = Exhausted | Malformed(error: PatternError) | NoEdge | Inside(c: TreeNode, k: nat)

  /** The walk stopped at `n` with `search` left, for that reason. */
  ghost predicate StoppedAt(n: TreeNode, search: string, stop: Stop, at: int)
    reads n
  {
    match stop
    case Exhausted => search == ""
    case Malformed(e) => search != "" && NextEdge(search) == Err(e)
    case NoEdge =>
      && search != "" && NextEdge(search).Ok?
      && var edge := NextEdge(search).value; GetEdge(Children(n.model, edge.typ), search[0], edge.tail, edge.prefix) < 0
    case Inside(c, k) =>
      && search != "" && !IsWild(search[0]) && 0 <= at < |n.statics| && n.statics[at] == c && at < |n.model.statics|
      && GetEdge(n.model.statics, search[0], NUL, None) == at
      && k == LongestPrefix(search, n.model.statics[at].prefix) && k < |n.model.statics[at].prefix|
  }

  /** The walk so far: what registering at the root means is what registering here means. */
  ghost predicate OnTheWay(rx: Engine, root: TreeNode, pattern: string, reg: Registration, all: set<TreeNode>,
                           above: seq<TreeNode>, steps: seq<Step>, n: TreeNode, search: string)
    reads above, root, n
  {
    && Climbable(rx, above, steps, n, all) && StepsOk(steps) && (above + [n])[0] == root && Reaches(steps, n.model)
    && WellFormed(rx, n.model) && Belongs(n.model, search)
    && Wrap(steps, n.model) == root.model
    && Insert(rx, root.model, pattern, reg).node == Wrap(steps, Insert(rx, n.model, search, reg).node)
    && (Insert(rx, root.model, pattern, reg).error.None? <==> Insert(rx, n.model, search, reg).error.None?)
  }

  /** One step down: into child `c` of `n`. */
  lemma StepDown(rx: Engine, root: TreeNode, pattern: string, reg: Registration, all: set<TreeNode>,
                 above: seq<TreeNode>, steps: seq<Step>, n: TreeNode, search: string, st: Step, c: TreeNode, rest: string)
    requires Consistent(all) && n in all && OnTheWay(rx, root, pattern, reg, all, above, steps, n, search)
    requires st.model == n.model && StepOk(st) && Holds(n, st, c)
    requires Belongs(c.model, rest)
    requires Insert(rx, n.model, search, reg) ==
             var r := Insert(rx, c.model, rest, reg); Inserted(WithTaken(st, r.node), r.error)
    ensures OnTheWay(rx, root, pattern, reg, all, above + [n], steps + [st], c, rest)
  {
    hide WellFormed, Insert, Belongs, Wrap, WithTaken, Climbable, Linked, Holds;
    assert Linked(n, all);
    LinkedKid'(n, st, c, all);
    WellFormedKid(rx, n.model, st.typ, st.index);
    ClimbSnoc(rx, above, steps, n, all, st, c);
    WrapSnoc(steps, st, c.model);
    WrapSnoc(steps, st, Insert(rx, c.model, rest, reg).node);
    WrapSame(steps, st);
    assert (above + [n] + [c])[0] == (above + [n])[0];
  }

  lemma LinkedKid'(n: TreeNode, st: Step, c: TreeNode, all: set<TreeNode>)
    requires Linked(n, all) && st.model == n.model && StepOk(st) && Holds(n, st, c)
    ensures c in all && c.parent == n && Taken(st) == c.model
  {
    LinkedKid(n, st.typ, st.index, all);
  }

  lemma WellFormedKid(rx: Engine, m: Node, t: NodeType, i: nat)
    requires WellFormed(rx, m) && i < |Children(m, t)|
    ensures WellFormed(rx, Children(m, t)[i])
  {
    WellFormedParts(rx, m, t);
  }

  /** The loop of `insertRoute` down to the node where something has to change. */
  method Walk(rx: Engine, root: TreeNode, ghost all: set<TreeNode>, pattern: string, ghost reg: Registration)
      returns (n: TreeNode, search: string, stop: Stop, ghost above: seq<TreeNode>, ghost steps: seq<Step>, ghost at: int)
    requires Consistent(all) && root in all && root.parent == null && WellFormed(rx, root.model) && Belongs(root.model, pattern)
    ensures OnTheWay(rx, root, pattern, reg, all, above, steps, n, search) && StoppedAt(n, search, stop, at)
  {
    hide WellFormed, Belongs, Insert, Consistent, Climbable, OnTheWay, NextEdge, LongestPrefix, GetEdge, WithTaken, FieldsAgree;
    n, search, above, steps, at := root, pattern, [], [], -1;
    StartWalk(rx, root, pattern, reg, all);
    while true
      invariant OnTheWay(rx, root, pattern, reg, all, above, steps, n, search)
      decreases |search|
    {
      if |search| == 0 {
        return n, search, Exhausted, above, steps, -1;
      }
      var next := NextEdgeOf(search);
      if next.Err? {
        return n, search, Malformed(next.error), above, steps, -1;
      }
      var edge := next.value;
      WalkFacts(rx, root, pattern, reg, all, above, steps, n, search);
      KidsReady(rx, n, edge.typ, all);
      NextEdgeBytes(search);
      var c;
      c, at := GetEdgeNode(n.Kids(edge.typ), Children(n.model, edge.typ), edge.typ, search[0], edge.tail, edge.prefix);
      if c == null {
        return n, search, NoEdge, above, steps, at;
      }
      ghost var st := Step(n.model, edge.typ, at);
      if c.typ != NtStatic {
        WildDown(rx, n, all, st, c, search, edge, reg);
        StepDown(rx, root, pattern, reg, all, above, steps, n, search, st, c, search[edge.end..]);
        n, search, above, steps := c, search[edge.end..], above + [n], steps + [st];
        continue;
      }
      var k := CommonPrefix(search, c.prefix);
      StaticDown(rx, n, all, st, c, search, reg);
      if k == |c.prefix| {
        StepDown(rx, root, pattern, reg, all, above, steps, n, search, st, c, search[k..]);
        n, search, above, steps := c, search[k..], above + [n], steps + [st];
        continue;
      }
      return n, search, Inside(c, k), above, steps, at;
    }
  }

  lemma StartWalk(rx: Engine, root: TreeNode, pattern: string, reg: Registration, all: set<TreeNode>)
    requires Consistent(all) && root in all && root.parent == null && WellFormed(rx, root.model) && Belongs(root.model, pattern)
    ensures OnTheWay(rx, root, pattern, reg, all, [], [], root, pattern)
  {
    hide WellFormed, Insert;
  }

  lemma WalkFacts(rx: Engine, root: TreeNode, pattern: string, reg: Registration, all: set<TreeNode>,
                  above: seq<TreeNode>, steps: seq<Step>, n: TreeNode, search: string)
    requires OnTheWay(rx, root, pattern, reg, all, above, steps, n, search)
    ensures n in all && WellFormed(rx, n.model) && Belongs(n.model, search)
  {
    hide WellFormed, Insert, Wrap;
  }

  lemma KidsReady(rx: Engine, n: TreeNode, t: NodeType, all: set<TreeNode>)
    requires Consistent(all) && n in all && WellFormed(rx, n.model)
    ensures |n.Kids(t)| == |Children(n.model, t)|
    ensures forall i :: 0 <= i < |n.Kids(t)| ==>
              n.Kids(t)[i].model == Children(n.model, t)[i] && FieldsAgree(n.Kids(t)[i]) && Children(n.model, t)[i].typ == t
    ensures forall i :: 0 <= i < |n.Kids(t)| ==> ChildOk(rx, Children(n.model, t)[i], t) && n.Kids(t)[i].typ == t
    ensures t == NtStatic ==> forall i :: 0 <= i < |n.Kids(t)| ==> n.Kids(t)[i].prefix == Children(n.model, t)[i].prefix
  {
    hide WellFormed, Consistent;
    KidsAgree(rx, n, t, all);
  }

  /** Through a parameter, regexp or catch-all child: its segment is trimmed from the text. */
  lemma WildDown(rx: Engine, n: TreeNode, all: set<TreeNode>, st: Step, c: TreeNode, search: string, edge: Edge, reg: Registration)
    requires search != "" && NextEdge(search) == Ok(edge) && edge.typ != NtStatic
    requires st.model == n.model && st.typ == edge.typ && StepOk(st) && ChildOk(rx, Taken(st), edge.typ)
    requires GetEdge(Children(n.model, edge.typ), search[0], edge.tail, edge.prefix) == st.index
    requires st.index < |n.Kids(st.typ)| && c == n.Kids(st.typ)[st.index] && c.model == Taken(st)
    ensures 0 < edge.end <= |search| && Belongs(c.model, search[edge.end..]) && Holds(n, st, c)
    ensures Insert(rx, n.model, search, reg) ==
            var r := Insert(rx, c.model, search[edge.end..], reg); Inserted(WithTaken(st, r.node), r.error)
  {
    hide Insert, NextSegment, Tokens, Compiles;
    WildEdge(rx, c.model, search);
    InsertUnfold(rx, n.model, search, reg, edge, st.index, Insert(rx, c.model, search[edge.end..], reg));
  }

  /** Through a static child whose prefix is used up. */
  lemma StaticDown(rx: Engine, n: TreeNode, all: set<TreeNode>, st: Step, c: TreeNode, search: string, reg: Registration)
    requires search != "" && NextEdge(search).Ok? && NextEdge(search).value.typ == NtStatic
    requires st.model == n.model && st.typ == NtStatic && StepOk(st) && ChildOk(rx, Taken(st), NtStatic)
    requires GetEdge(n.model.statics, search[0], NUL, None) == st.index
    requires st.index < |n.Kids(NtStatic)| && c == n.Kids(NtStatic)[st.index] && c.model == Taken(st)
    ensures Holds(n, st, c) && LongestPrefix(search, c.model.prefix) > 0 && st.index < |n.statics| && c == n.statics[st.index]
    ensures var k := LongestPrefix(search, c.model.prefix);
            k == |c.model.prefix| ==>
              && Belongs(c.model, search[k..])
              && Insert(rx, n.model, search, reg) ==
                 var r := Insert(rx, c.model, search[k..], reg); Inserted(WithTaken(st, r.node), r.error)
  {
    hide Insert, NextSegment, Tokens, Compiles;
    NextEdgeBytes(search);
    LongestPrefixPositive(rx, c.model, search);
    var k := LongestPrefix(search, c.model.prefix);
    if k == |c.model.prefix| {
      StaticEdge(rx, c.model, search);
      InsertUnfold(rx, n.model, search, reg, Edge(NtStatic, NUL, None, 0), st.index, Insert(rx, c.model, search[k..], reg));
    }
  }

  // ---------------------------------------------------------------- changing the tree

  /** `n` is ready to take the value `m`, and all other nodes are linked. */
  ghost predicate Ready(n: TreeNode, m: Node, all: set<TreeNode>)
    reads all
  {
    n in all && Apart4(n) && Suits(n, m, all) && AllBut(all, n)
  }

  lemma ConsistentAgrees(all: set<TreeNode>)
    requires Consistent(all)
    ensures SetAgrees(all)
  {
    hide FieldsAgree;
  }

  lemma OthersInMore(n: TreeNode, m: Node, all: set<TreeNode>, added: set<TreeNode>)
    requires n in all && Apart4(n) && Suits(n, m, all + added)
    requires (forall x :: x in all && x != n ==> Linked(x, all)) && (forall x :: x in added ==> Linked(x, all + added))
    ensures Ready(n, m, all + added)
  {
    hide Linked, Suits, Apart4;
    forall x | x in all && x != n ensures Linked(x, all + added) {
      LinkedInMore(x, all, all + added);
    }
  }

  /** The text ends here. */
  method FinishHere(rx: Engine, n: TreeNode, ghost all: set<TreeNode>, reg: Registration) returns (err: Option<PatternError>)
    requires Consistent(all) && n in all
    modifies n`endpoints
    ensures Ready(n, Insert(rx, n.model, "", reg).node, all)
    ensures err.None? <==> Insert(rx, n.model, "", reg).error.None?
  {
    hide Keys, SetEndpoint, Linked, Suits, Apart4;
    err := FinishNode(n, all, reg);
    assert forall x :: x in all && x != n ==> Linked(x, all);
  }

  /** A new edge below this node. */
  method AddHere(rx: Engine, n: TreeNode, ghost all: set<TreeNode>, search: string, reg: Registration)
      returns (err: Option<PatternError>, ghost all': set<TreeNode>)
    requires Consistent(all) && n in all && StoppedAt(n, search, NoEdge, -1)
    modifies n`statics, n`regexps, n`params, n`catchAlls
    ensures all <= all' && fresh(all' - all) && Ready(n, Insert(rx, n.model, search, reg).node, all')
    ensures err.None? <==> Insert(rx, n.model, search, reg).error.None?
  {
    hide AddEdge, Linked, Suits, Apart4, SetAgrees;
    ConsistentAgrees(all);
    ghost var added;
    err, added := AddBelow(rx, n, all, search, reg);
    all' := all + added;
    assert forall x :: x in all && x != n ==> Linked(x, all);
    hide Consistent, Ready;
    OthersInMore(n, AddEdge(rx, n.model, search, reg).node, all, added);
    InsertAdds(rx, n.model, search, reg);
  }

  lemma InsertAdds(rx: Engine, m: Node, search: string, reg: Registration)
    requires search != "" && NextEdge(search).Ok?
    requires var edge := NextEdge(search).value; GetEdge(Children(m, edge.typ), search[0], edge.tail, edge.prefix) < 0
    ensures Insert(rx, m, search, reg) == AddEdge(rx, m, search, reg)
  {
    hide AddEdge, NextEdge, GetEdge;
  }

  /** A static child is cut in two. */
  method DivideHere(rx: Engine, n: TreeNode, ghost all: set<TreeNode>, search: string, reg: Registration, c: TreeNode, k: nat, ghost at: int)
      returns (err: Option<PatternError>, ghost all': set<TreeNode>)
    requires Consistent(all) && n in all && WellFormed(rx, n.model) && StoppedAt(n, search, Inside(c, k), at)
    modifies n`statics, c`first, c`prefix, c`model, c`parent
    ensures all <= all' && fresh(all' - all) && Ready(n, Insert(rx, n.model, search, reg).node, all')
    ensures err.None? <==> Insert(rx, n.model, search, reg).error.None?
    ensures old(c.parent) == n && c != n
  {
    hide WellFormed, Linked, Suits, Apart4, SetAgrees, Divide, LongestPrefix, GetEdge, WithChildren, OnlyAt, FieldsAgree;
    ConsistentAgrees(all);
    CutFacts(rx, n, c, at, all);
    ghost var m0, c0 := n.model, c.model;
    forall x | x in all && x != n && x != c ensures Linked(x, all - {c}) {
      NoKidOf(x, c, all);
      LinkedWithout(x, c, all);
    }
    ghost var added;
    err, added := DivideNode(rx, n, c, at, all, k, search, reg);
    all' := all + added;
    forall x | x in all && x != n ensures Linked(x, all') {
      if x != c {
        LinkedInMore(x, all - {c}, all');
      }
    }
    InsertDivides(rx, m0, search, reg, at, k);
  }

  lemma CutFacts(rx: Engine, n: TreeNode, c: TreeNode, at: nat, all: set<TreeNode>)
    requires Consistent(all) && n in all && WellFormed(rx, n.model) && at < |n.statics| && n.statics[at] == c
    ensures c in all && c != n && c.parent == n && Linked(n, all) && Linked(c, all) && c.typ == NtStatic && OnlyAt(n, c, at)
    ensures at < |n.model.statics| && c.model == n.model.statics[at] && c.prefix == c.model.prefix
  {
    hide WellFormed;
    LinkedKid(n, NtStatic, at, all);
    ChildLower(n.model, NtStatic, at);
    KidsReady(rx, n, NtStatic, all);
    assert Linked(c, all);
    OnlyHere(rx, n, c, NtStatic, at, all);
  }

  lemma OnlyHere(rx: Engine, n: TreeNode, c: TreeNode, t: NodeType, at: nat, all: set<TreeNode>)
    requires Linked(n, all) && WellFormed(rx, n.model) && t == NtStatic && at < |n.statics| && n.statics[at] == c
    ensures OnlyAt(n, c, at)
  {
    hide WellFormed, FieldsAgree;
    forall u, j | 0 <= j < |n.Kids(u)| && n.Kids(u)[j] == c ensures u == NtStatic && j == at {
      LinkedKid(n, NtStatic, at, all);
      LinkedKid(n, u, j, all);
      KidOnce(rx, n.model, NtStatic, at, u, j);
    }
    assert forall j :: 0 <= j < |n.statics| ==> n.Kids(NtStatic)[j] == n.statics[j];
    assert forall j :: 0 <= j < |n.regexps| ==> n.Kids(NtRegexp)[j] == n.regexps[j];
    assert forall j :: 0 <= j < |n.params| ==> n.Kids(NtParam)[j] == n.params[j];
    assert forall j :: 0 <= j < |n.catchAlls| ==> n.Kids(NtCatchAll)[j] == n.catchAlls[j];
  }

  lemma InsertDivides(rx: Engine, m: Node, search: string, reg: Registration, at: nat, k: nat)
    requires search != "" && !IsWild(search[0]) && at < |m.statics| && GetEdge(m.statics, search[0], NUL, None) == at
    requires k == LongestPrefix(search, m.statics[at].prefix) && k < |m.statics[at].prefix|
    ensures var r := Divide(rx, m.statics[at], k, search, reg);
            Insert(rx, m, search, reg) == Inserted(WithChildren(m, NtStatic, m.statics[at := r.node]), r.error)
  {
    hide Divide, GetEdge, LongestPrefix, WithChildren;
    InsertUnfold(rx, m, search, reg, Edge(NtStatic, NUL, None, 0), at, Divide(rx, m.statics[at], k, search, reg));
  }

  /** The change at `n` is carried up to the root. */
  ghost method Settle(rx: Engine, above: seq<TreeNode>, steps: seq<Step>, n: TreeNode, m: Node, all: set<TreeNode>)
    requires Climbable(rx, above, steps, n, all) && StepsOk(steps) && Reaches(steps, n.model) && Ready(n, m, all) && n !in above
    modifies above`model, n`model
    ensures Consistent(all) && (above + [n])[0].model == Wrap(steps, m)
  {
    hide WellFormed, Suits, Apart4, Holds, Taken, Linked, LinkedBut, Climbable, StepsOk;
    ParentAbove(rx, above, steps, n, all);
    ghost var m0 := n.model;
    LiftModel(n, m, all);
    ClimbBack(rx, above, steps, n, all, m0);
  }

  /** Nothing above `n` is `n`, or a static child of `n`. */
  lemma NotAbove(rx: Engine, above: seq<TreeNode>, steps: seq<Step>, n: TreeNode, all: set<TreeNode>)
    requires Consistent(all) && n in all && Climbable(rx, above, steps, n, all) && Reaches(steps, n.model)
    ensures n !in above
    ensures forall i :: 0 <= i < |n.statics| ==> n.statics[i] !in above && n.statics[i] in all
  {
    hide Climbable, Height, Reaches, FieldsAgree;
    AboveTaller(rx, above, steps, n, all, n.model);
    forall i | 0 <= i < |n.statics| ensures n.statics[i] !in above && n.statics[i] in all {
      LinkedKid(n, NtStatic, i, all);
      ChildLower(n.model, NtStatic, i);
    }
  }

  /** What the walk established, apart from the root. */
  lemma WalkParts(rx: Engine, root: TreeNode, pattern: string, reg: Registration, all: set<TreeNode>,
                  above: seq<TreeNode>, steps: seq<Step>, n: TreeNode, search: string)
    requires OnTheWay(rx, root, pattern, reg, all, above, steps, n, search)
    ensures Climbable(rx, above, steps, n, all) && StepsOk(steps) && Reaches(steps, n.model) && (above + [n])[0] == root
    ensures n in all && (forall x :: x in above ==> x in all) && WellFormed(rx, n.model)
    ensures Wrap(steps, n.model) == root.model
    ensures Insert(rx, root.model, pattern, reg).node == Wrap(steps, Insert(rx, n.model, search, reg).node)
    ensures Insert(rx, root.model, pattern, reg).error.None? <==> Insert(rx, n.model, search, reg).error.None?
  {
    hide WellFormed, Insert, Wrap, Reaches, Climbable, StepsOk;
    assert n in all by {
      WalkFacts(rx, root, pattern, reg, all, above, steps, n, search);
    }
    AboveTaller(rx, above, steps, n, all, n.model);
  }

  lemma InsertMalformed(rx: Engine, m: Node, search: string, reg: Registration)
    requires search != "" && NextEdge(search).Err?
    ensures Insert(rx, m, search, reg).node == m && Insert(rx, m, search, reg).error.Some?
  {
    hide AddEdge, NextEdge, GetEdge;
  }

  /** `insertRoute`: the tree below `root` comes to stand for the value with the route put in; also
      where the registration is refused part way. */
  method InsertRoute(rx: Engine, root: TreeNode, ghost all: set<TreeNode>, pattern: string, reg: Registration)
      returns (err: Option<PatternError>, ghost all': set<TreeNode>)
    requires Consistent(all) && root in all && root.parent == null && WellFormed(rx, root.model) && Belongs(root.model, pattern)
    modifies all
    ensures all <= all' && fresh(all' - all) && Consistent(all') && root.parent == null
    ensures root.model == Insert(rx, old(root.model), pattern, reg).node
    ensures err.None? <==> Insert(rx, old(root.model), pattern, reg).error.None?
  {
    hide WellFormed, Belongs, Insert, Consistent, Climbable, OnTheWay, NextEdge, LongestPrefix, GetEdge, Wrap, Ready, StepsOk, Reaches;
    var n, search, stop;
    ghost var above, steps, at;
    n, search, stop, above, steps, at := Walk(rx, root, all, pattern, reg);
    WalkParts(rx, root, pattern, reg, all, above, steps, n, search);
    NotAbove(rx, above, steps, n, all);
    ghost var m := Insert(rx, n.model, search, reg).node;
    all' := all;
    match stop {
      case Malformed(e) =>
        InsertMalformed(rx, n.model, search, reg);
        return Some(e), all;
      case Exhausted =>
        err := FinishHere(rx, n, all, reg);
      case NoEdge =>
        err, all' := AddHere(rx, n, all, search, reg);
      case Inside(c, k) =>
        err, all' := DivideHere(rx, n, all, search, reg, c, k, at);
    }
    ClimbMore(rx, above, steps, n, all, all');
    Settle(rx, above, steps, n, m, all');
  }
}
