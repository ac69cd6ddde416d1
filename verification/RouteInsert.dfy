/** What a registration does to the tree: it keeps the representation invariant, and in the list of
    routes it changes one entry or adds one, or, when it is refused, nothing a lookup can see. */
module RouteInsert {
  import opened Text
  import opened Patterns
  import opened RouteTree
  import opened RouteTable

  // ---------------------------------------------------------------- changes of a route list

  datatype Change = Replaced(at: nat) | Added(at: nat)

  predicate Absent(rs: seq<Route>, toks: seq<Token>) {
    forall k :: 0 <= k < |rs| ==> rs[k].toks != toks
  }

  predicate Applies(rs: seq<Route>, ch: Change, toks: seq<Token>) {
    match ch
    case Replaced(i) => i < |rs| && rs[i].toks == toks
    case Added(i) => i <= |rs| && Absent(rs, toks)
  }

  /** The route list after a registration for `toks`: its endpoints updated in place, or a new
      route somewhere. */
  function Apply(rs: seq<Route>, ch: Change, toks: seq<Token>, reg: Registration): seq<Route>
    requires Applies(rs, ch, toks)
  {
    match ch
    case Replaced(i) => rs[i := Route(toks, SetEndpoint(Some(rs[i].eps), reg))]
    case Added(i) => rs[..i] + [Route(toks, SetEndpoint(None, reg))] + rs[i..]
  }

  function Shift(ch: Change, k: nat): Change {
    ch.(at := ch.at + k)
  }

  lemma ApplyPrefixed(ts: seq<Token>, rs: seq<Route>, ch: Change, toks: seq<Token>, reg: Registration)
    requires Applies(rs, ch, toks)
    ensures Applies(Prefixed(ts, rs), ch, ts + toks)
    ensures Prefixed(ts, Apply(rs, ch, toks, reg)) == Apply(Prefixed(ts, rs), ch, ts + toks, reg)
  {
    hide SetEndpoint, Prefixed;
    if ch.Added? {
      forall k | 0 <= k < |rs| ensures Prefixed(ts, rs)[k].toks != ts + toks {
        var a := ts + rs[k].toks;
        assert a[|ts|..] == rs[k].toks && (ts + toks)[|ts|..] == toks;
      }
    }
  }

  lemma ApplyInside(a: seq<Route>, x: seq<Route>, b: seq<Route>, ch: Change, toks: seq<Token>, reg: Registration)
    requires Applies(x, ch, toks) && Absent(a, toks) && Absent(b, toks)
    ensures Applies(a + x + b, Shift(ch, |a|), toks)
    ensures a + Apply(x, ch, toks, reg) + b == Apply(a + x + b, Shift(ch, |a|), toks, reg)
  {
    hide SetEndpoint;
    var all := a + x + b;
    match ch
    case Replaced(i) =>
      assert all[|a| + i] == x[i];
    case Added(i) =>
      assert all[..|a| + i] == a + x[..i];
      assert all[|a| + i..] == x[i..] + b;
  }

  // ---------------------------------------------------------------- a node's routes around one child

  function ListsBefore(n: Node, t: NodeType): seq<Route> {
    match t
    case NtStatic => []
    case NtRegexp => RoutesOf(n.statics)
    case NtParam => RoutesOf(n.statics) + RoutesOf(n.regexps)
    case NtCatchAll => RoutesOf(n.statics) + RoutesOf(n.regexps) + RoutesOf(n.params)
  }

  function ListsAfter(n: Node, t: NodeType): seq<Route> {
    match t
    case NtStatic => RoutesOf(n.regexps) + RoutesOf(n.params) + RoutesOf(n.catchAlls)
    case NtRegexp => RoutesOf(n.params) + RoutesOf(n.catchAlls)
    case NtParam => RoutesOf(n.catchAlls)
    case NtCatchAll => []
  }

  /** The routes in front of child `i` of type `t`, and those from that child on. */
  function Before(n: Node, t: NodeType, i: nat): seq<Route>
    requires i <= |Children(n, t)|
  {
    Own(n) + ListsBefore(n, t) + RoutesOf(Children(n, t)[..i])
  }

  function After(n: Node, t: NodeType, i: nat): seq<Route>
    requires i <= |Children(n, t)|
  {
    RoutesOf(Children(n, t)[i..]) + ListsAfter(n, t)
  }

  lemma {:induction false} RoutesOfConcat(a: seq<Node>, b: seq<Node>)
    ensures RoutesOf(a + b) == RoutesOf(a) + RoutesOf(b)
    decreases |a|
  {
    hide Branch;
    if a == [] {
      assert a + b == b;
    } else {
      assert (a + b)[1..] == a[1..] + b;
      RoutesOfConcat(a[1..], b);
    }
  }

  lemma RoutesOfOne(c: Node)
    ensures RoutesOf([c]) == Branch(c)
  {
    hide Branch;
    assert [c][1..] == [];
    assert RoutesOf([c]) == Branch(c) + RoutesOf([]);
  }

  lemma WithChildrenKeeps(n: Node, t: NodeType, ns: seq<Node>)
    ensures Own(WithChildren(n, t, ns)) == Own(n)
    ensures ListsBefore(WithChildren(n, t, ns), t) == ListsBefore(n, t)
    ensures ListsAfter(WithChildren(n, t, ns), t) == ListsAfter(n, t)
    ensures Children(WithChildren(n, t, ns), t) == ns
  {
    hide RoutesOf, Own;
    assert WithChildren(n, t, ns).endpoints == n.endpoints;
    OwnIsEndpoints(n, WithChildren(n, t, ns));
  }

  lemma OwnIsEndpoints(a: Node, b: Node)
    requires a.endpoints == b.endpoints
    ensures Own(a) == Own(b)
  {}

  lemma RoutesByType(n: Node, t: NodeType)
    ensures Routes(n) == Own(n) + ListsBefore(n, t) + RoutesOf(Children(n, t)) + ListsAfter(n, t)
  {
    hide RoutesOf, Own;
  }

  /** Putting nodes `xs` in place of the children from `i` to `j` changes only that stretch. */
  lemma RoutesAround(n: Node, t: NodeType, i: nat, j: nat, xs: seq<Node>)
    requires i <= j <= |Children(n, t)|
    ensures var ns := Children(n, t);
            Routes(WithChildren(n, t, ns[..i] + xs + ns[j..])) == Before(n, t, i) + RoutesOf(xs) + After(n, t, j)
  {
    hide RoutesOf, Own, ListsBefore, ListsAfter, Routes, WithChildren;
    var ns := Children(n, t);
    var n' := WithChildren(n, t, ns[..i] + xs + ns[j..]);
    WithChildrenKeeps(n, t, ns[..i] + xs + ns[j..]);
    RoutesByType(n', t);
    RoutesOfConcat(ns[..i] + xs, ns[j..]);
    RoutesOfConcat(ns[..i], xs);
    var o, e, a, x, b, l := Own(n), ListsBefore(n, t), RoutesOf(ns[..i]), RoutesOf(xs), RoutesOf(ns[j..]), ListsAfter(n, t);
    assert o + e + (a + x + b) + l == o + e + a + x + (b + l);
  }

  lemma SameChildren(n: Node, t: NodeType)
    ensures WithChildren(n, t, Children(n, t)) == n
  {}

  /** The node itself, read as its routes around child `i` or around the gap in front of it. */
  lemma RoutesSplit(n: Node, t: NodeType, i: nat)
    requires i <= |Children(n, t)|
    ensures Routes(n) == Before(n, t, i) + After(n, t, i)
    ensures i < |Children(n, t)| ==> Routes(n) == Before(n, t, i) + Branch(Children(n, t)[i]) + After(n, t, i + 1)
  {
    hide RoutesOf, Routes, Before, After, Branch, WithChildren;
    var ns := Children(n, t);
    SameChildren(n, t);
    RoutesAround(n, t, i, i, []);
    assert ns[..i] + [] + ns[i..] == ns;
    assert RoutesOf([]) == [] by { NoRoutes(); }
    assert Before(n, t, i) + [] + After(n, t, i) == Before(n, t, i) + After(n, t, i);
    if i < |ns| {
      RoutesAround(n, t, i, i + 1, [ns[i]]);
      assert ns[..i] + [ns[i]] + ns[i + 1..] == ns;
      RoutesOfOne(ns[i]);
    }
  }

  lemma NoRoutes()
    ensures RoutesOf([]) == []
  {}

  /** Replacing child `i`. */
  lemma RoutesReplaced(n: Node, t: NodeType, i: nat, c: Node)
    requires i < |Children(n, t)|
    ensures Routes(WithChildren(n, t, Children(n, t)[i := c])) == Before(n, t, i) + Branch(c) + After(n, t, i + 1)
  {
    hide RoutesOf, Routes, Before, After, Branch, WithChildren;
    var ns := Children(n, t);
    assert ns[i := c] == ns[..i] + [c] + ns[i + 1..];
    RoutesAround(n, t, i, i + 1, [c]);
    RoutesOfOne(c);
  }

  /** Inserting a child in front of child `i`. */
  lemma RoutesInserted(n: Node, t: NodeType, i: nat, c: Node)
    requires i <= |Children(n, t)|
    ensures var ns := Children(n, t);
            Routes(WithChildren(n, t, ns[..i] + [c] + ns[i..])) == Before(n, t, i) + Branch(c) + After(n, t, i)
  {
    hide RoutesOf, Routes, Before, After, Branch, WithChildren;
    RoutesAround(n, t, i, i, [c]);
    RoutesOfOne(c);
  }

  // ---------------------------------------------------------------- different branches, different routes

  /** The first token of a child's branch. */
  function Head(c: Node): Token
    requires NodeTokens(c) != []
  {
    NodeTokens(c)[0]
  }

  lemma BranchHead(c: Node, toks: seq<Token>)
    requires NodeTokens(c) != [] && (toks == [] || Head(c) != toks[0])
    ensures Absent(Branch(c), toks)
  {
    hide Routes, Prefixed;
    var ts := NodeTokens(c);
    forall k | 0 <= k < |Branch(c)| ensures Branch(c)[k].toks != toks {
      assert Branch(c)[k].toks[0] == ts[0];
    }
  }

  lemma {:induction false} ListHeads(ns: seq<Node>, toks: seq<Token>)
    requires forall i :: 0 <= i < |ns| ==> NodeTokens(ns[i]) != [] && (toks == [] || Head(ns[i]) != toks[0])
    ensures Absent(RoutesOf(ns), toks)
    decreases |ns|
  {
    if ns != [] {
      hide Branch, Head;
      BranchHead(ns[0], toks);
      ListHeads(ns[1..], toks);
    }
  }

  lemma ListHeadsOk(rx: Engine, ns: seq<Node>, t: NodeType, toks: seq<Token>)
    requires ListOk(rx, ns, t)
    requires forall i :: 0 <= i < |ns| ==> toks == [] || NodeTokens(ns[i]) == [] || Head(ns[i]) != toks[0]
    ensures Absent(RoutesOf(ns), toks)
  {
    hide RoutesOf;
    forall i | 0 <= i < |ns| ensures NodeTokens(ns[i]) != [] {
      assert ChildOk(rx, ns[i], t);
    }
    ListHeads(ns, toks);
  }

  /** The token under which a node of type `t` with that tail and expression is entered. */
  predicate Heads(tok: Token, t: NodeType) {
    match t
    case NtStatic => tok.Lit?
    case NtRegexp => tok.Rex?
    case NtParam => tok.Param?
    case NtCatchAll => tok.Star?
  }

  lemma HeadOfChild(rx: Engine, c: Node, t: NodeType)
    requires ChildOk(rx, c, t)
    ensures NodeTokens(c) != [] && Heads(Head(c), t)
    ensures t == NtStatic ==> Head(c) == Lit(c.first)
  {}

  lemma AbsentConcat(a: seq<Route>, b: seq<Route>, toks: seq<Token>)
    ensures Absent(a + b, toks) <==> Absent(a, toks) && Absent(b, toks)
  {
    if Absent(a + b, toks) {
      assert forall k :: 0 <= k < |a| ==> (a + b)[k] == a[k];
      assert forall k :: 0 <= k < |b| ==> (a + b)[|a| + k] == b[k];
    }
  }

  lemma OtherListAbsent(rx: Engine, ns: seq<Node>, t: NodeType, toks: seq<Token>)
    requires ListOk(rx, ns, t) && toks != [] && !Heads(toks[0], t)
    ensures Absent(RoutesOf(ns), toks)
  {
    hide RoutesOf;
    forall i | 0 <= i < |ns| ensures NodeTokens(ns[i]) != [] && Head(ns[i]) != toks[0] {
      assert ChildOk(rx, ns[i], t);
      HeadOfChild(rx, ns[i], t);
    }
    ListHeadsOk(rx, ns, t, toks);
  }

  lemma OthersAbsent(rx: Engine, n: Node, t: NodeType, toks: seq<Token>)
    requires NodeOk(rx, n) && toks != [] && Heads(toks[0], t)
    ensures Absent(Own(n), toks) && Absent(ListsBefore(n, t), toks) && Absent(ListsAfter(n, t), toks)
  {
    var tok := toks[0];
    hide RoutesOf, ListOk, Absent;
    if !Heads(tok, NtStatic) { OtherListAbsent(rx, n.statics, NtStatic, toks); }
    if !Heads(tok, NtRegexp) { OtherListAbsent(rx, n.regexps, NtRegexp, toks); }
    if !Heads(tok, NtParam) { OtherListAbsent(rx, n.params, NtParam, toks); }
    if !Heads(tok, NtCatchAll) { OtherListAbsent(rx, n.catchAlls, NtCatchAll, toks); }
    AbsentEmpty(toks);
    OwnAbsent(n, toks);
    var a, b, c, d := RoutesOf(n.statics), RoutesOf(n.regexps), RoutesOf(n.params), RoutesOf(n.catchAlls);
    AbsentConcat(a, b, toks);
    AbsentConcat(a + b, c, toks);
    AbsentConcat(b + c, d, toks);
    AbsentConcat(b, c, toks);
    AbsentConcat(c, d, toks);
  }

  lemma AbsentEmpty(toks: seq<Token>)
    ensures Absent([], toks)
  {}

  lemma OwnAbsent(n: Node, toks: seq<Token>)
    requires toks != []
    ensures Absent(Own(n), toks)
  {}

  /** If only child `i`, or no child of its list, starts with the first token, the routes before
      and after it do not have these tokens. */
  lemma AroundAbsent(rx: Engine, n: Node, t: NodeType, i: nat, j: nat, toks: seq<Token>)
    requires NodeOk(rx, n) && ListOk(rx, Children(n, t), t) && toks != [] && Heads(toks[0], t)
    requires i <= j <= |Children(n, t)|
    requires forall k :: 0 <= k < |Children(n, t)| && (k < i || j <= k) ==>
               NodeTokens(Children(n, t)[k]) != [] && Head(Children(n, t)[k]) != toks[0]
    ensures Absent(Before(n, t, i), toks) && Absent(After(n, t, j), toks)
  {
    hide RoutesOf, Absent, Head, NodeOk, Own, ListsBefore, ListsAfter;
    var ns := Children(n, t);
    OthersAbsent(rx, n, t, toks);
    SublistHeads(rx, ns, t, 0, i, toks);
    SublistHeads(rx, ns, t, j, |ns|, toks);
    assert ns[0..i] == ns[..i] && ns[j..|ns|] == ns[j..];
    AbsentConcat(Own(n), ListsBefore(n, t), toks);
    AbsentConcat(Own(n) + ListsBefore(n, t), RoutesOf(ns[..i]), toks);
    AbsentConcat(RoutesOf(ns[j..]), ListsAfter(n, t), toks);
  }

  lemma SublistHeads(rx: Engine, ns: seq<Node>, t: NodeType, i: nat, j: nat, toks: seq<Token>)
    requires ListOk(rx, ns, t) && i <= j <= |ns| && toks != []
    requires forall k :: i <= k < j ==> NodeTokens(ns[k]) != [] && Head(ns[k]) != toks[0]
    ensures Absent(RoutesOf(ns[i..j]), toks)
  {
    hide RoutesOf;
    forall k | 0 <= k < |ns[i..j]| ensures NodeTokens(ns[i..j][k]) != [] && Head(ns[i..j][k]) != toks[0] {
      assert ns[i..j][k] == ns[i + k];
    }
    ListHeads(ns[i..j], toks);
  }

  // ---------------------------------------------------------------- adding a child keeps the order

  predicate SortedByLabel(ns: seq<Node>) {
    forall i, j :: 0 <= i < j < |ns| ==> ns[i].first <= ns[j].first
  }

  lemma {:induction false} InsertPosition(ns: seq<Node>, c: Node) returns (j: nat)
    requires SortedByLabel(ns)
    ensures j <= |ns| && InsertByLabel(ns, c) == ns[..j] + [c] + ns[j..]
    ensures forall k :: 0 <= k < j ==> ns[k].first <= c.first
    ensures forall k :: j <= k < |ns| ==> c.first < ns[k].first
    decreases |ns|
  {
    if ns == [] || ns[|ns| - 1].first <= c.first {
      j := |ns|;
      assert ns[..j] + [c] + ns[j..] == ns + [c];
    } else {
      var front, last := ns[..|ns| - 1], ns[|ns| - 1];
      assert SortedByLabel(front);
      j := InsertPosition(front, c);
      SpliceFront(ns, j, c);
    }
  }

  lemma SpliceFront(ns: seq<Node>, j: nat, c: Node)
    requires j < |ns|
    ensures var front := ns[..|ns| - 1];
            front[..j] + [c] + front[j..] + [ns[|ns| - 1]] == ns[..j] + [c] + ns[j..]
  {
    var front := ns[..|ns| - 1];
    assert front[..j] == ns[..j];
    assert front[j..] + [ns[|ns| - 1]] == ns[j..];
  }

  lemma {:induction false} SortOfSorted(ns: seq<Node>)
    requires SortedByLabel(ns)
    ensures SortByLabel(ns) == ns
    decreases |ns|
  {
    if ns != [] {
      var front, last := ns[..|ns| - 1], ns[|ns| - 1];
      assert SortedByLabel(front);
      SortOfSorted(front);
      assert front != [] ==> front[|front| - 1].first <= last.first;
      assert front + [last] == ns;
    }
  }

  lemma SortAppended(ns: seq<Node>, c: Node) returns (j: nat)
    requires SortedByLabel(ns)
    ensures j <= |ns| && SortByLabel(ns + [c]) == ns[..j] + [c] + ns[j..]
    ensures forall k :: 0 <= k < j ==> ns[k].first <= c.first
    ensures forall k :: j <= k < |ns| ==> c.first < ns[k].first
  {
    SortOfSorted(ns);
    assert (ns + [c])[..|ns|] == ns;
    j := InsertPosition(ns, c);
  }

  /** No child of the list is the one `getEdge` would take for `c`. */
  predicate Fresh(ns: seq<Node>, c: Node, t: NodeType) {
    forall k :: 0 <= k < |ns| ==>
      !EdgeMatches(ns[k], c.first, c.tail, if t == NtRegexp then Some(c.prefix) else None)
  }

  function Spliced(ns: seq<Node>, j: nat, c: Node): (r: seq<Node>)
    requires j <= |ns|
    ensures |r| == |ns| + 1
    ensures forall k :: 0 <= k < |r| ==> r[k] == if k < j then ns[k] else if k == j then c else ns[k - 1]
  {
    ns[..j] + [c] + ns[j..]
  }

  /** Where a new regexp or parameter node goes: to the end, but in front of a last node with tail '/'
      unless it has that tail itself. */
  function WildPlace(ns: seq<Node>, c: Node): (j: nat)
    ensures j <= |ns|
  {
    if c.tail != '/' && ns != [] && ns[|ns| - 1].tail == '/' then |ns| - 1 else |ns|
  }

  lemma StaticPosition(rx: Engine, ns: seq<Node>, c: Node) returns (j: nat)
    requires ListOk(rx, ns, NtStatic) && ChildOk(rx, c, NtStatic) && Fresh(ns, c, NtStatic)
    ensures j <= |ns| && TailSort(SortByLabel(ns + [c])) == Spliced(ns, j, c)
    ensures ListOk(rx, Spliced(ns, j, c), NtStatic)
  {
    hide TailSort, SortByLabel;
    forall i, k | 0 <= i < k < |ns| ensures ns[i].first <= ns[k].first {
      assert Apart(ns[i], ns[k], NtStatic);
    }
    j := SortAppended(ns, c);
    var r := Spliced(ns, j, c);
    assert SortByLabel(ns + [c]) == r;
    forall k | 0 <= k < |ns| ensures ns[k].first != c.first {
      assert ChildOk(rx, ns[k], NtStatic);
    }
    forall k | 0 <= k < |r| ensures ChildOk(rx, r[k], NtStatic) {
      assert k < j ==> ChildOk(rx, ns[k], NtStatic);
      assert k > j ==> ChildOk(rx, ns[k - 1], NtStatic);
    }
    forall i, k | 0 <= i < k < |r| ensures Apart(r[i], r[k], NtStatic) {
      assert k < j ==> Apart(ns[i], ns[k], NtStatic);
      assert i < j < k ==> ns[i].first < c.first < ns[k - 1].first;
      assert j < i ==> Apart(ns[i - 1], ns[k - 1], NtStatic);
    }
    NoSlash(r);
  }

  lemma NoSlash(ns: seq<Node>)
    requires forall k :: 0 <= k < |ns| ==> ns[k].typ == NtStatic
    ensures TailSort(ns) == ns
  {}

  lemma WildPosition(rx: Engine, ns: seq<Node>, c: Node, t: NodeType) returns (j: nat)
    requires t != NtStatic && ListOk(rx, ns, t) && ChildOk(rx, c, t) && Fresh(ns, c, t)
    ensures j == WildPlace(ns, c) && TailSort(SortByLabel(ns + [c])) == Spliced(ns, j, c)
    ensures ListOk(rx, Spliced(ns, j, c), t)
  {
    forall k | 0 <= k < |ns| ensures ns[k].first == c.first && ns[k].typ != NtStatic {
      assert ChildOk(rx, ns[k], t);
    }
    j := SortAppended(ns, c);
    assert j == |ns|;
    hide SortByLabel;
    assert SortByLabel(ns + [c]) == ns + [c];
    j := WildPlace(ns, c);
    TailSortAppended(ns, c);
    SplicedWild(rx, ns, j, c, t);
  }

  lemma TailSortAppended(ns: seq<Node>, c: Node)
    requires c.typ != NtStatic && (forall k :: 0 <= k < |ns| ==> ns[k].typ != NtStatic) && SlashLast(ns)
    ensures TailSort(ns + [c]) == Spliced(ns, WildPlace(ns, c), c)
  {
    var all := ns + [c];
    var i := LastSlash(all);
    if c.tail == '/' {
      assert all[|ns|].tail == '/';
      assert i == |ns|;
    } else if ns != [] && ns[|ns| - 1].tail == '/' {
      assert all[|ns| - 1].tail == '/';
      assert i == |ns| - 1;
    } else {
      assert forall k :: 0 <= k < |ns| ==> all[k] == ns[k];
      assert i == -1;
    }
  }

  lemma SplicedWild(rx: Engine, ns: seq<Node>, j: nat, c: Node, t: NodeType)
    requires t != NtStatic && ListOk(rx, ns, t) && ChildOk(rx, c, t) && Fresh(ns, c, t)
    requires j == WildPlace(ns, c)
    ensures ListOk(rx, Spliced(ns, j, c), t)
  {
    var r := Spliced(ns, j, c);
    forall k | 0 <= k < |ns| ensures Apart(ns[k], c, t) && Apart(c, ns[k], t) && t != NtCatchAll {
      assert ChildOk(rx, ns[k], t);
      assert !EdgeMatches(ns[k], c.first, c.tail, if t == NtRegexp then Some(c.prefix) else None);
    }
    forall k | 0 <= k < |r| ensures ChildOk(rx, r[k], t) {
      assert k < j ==> ChildOk(rx, ns[k], t);
      assert k > j ==> ChildOk(rx, ns[k - 1], t);
    }
    forall i, k | 0 <= i < k < |r| ensures Apart(r[i], r[k], t) {
      assert k < j ==> Apart(ns[i], ns[k], t);
      assert i < j < k ==> Apart(ns[i], ns[k - 1], t);
    }
    assert t == NtCatchAll ==> ns == [];
  }

  lemma ChildPosition(rx: Engine, ns: seq<Node>, c: Node, t: NodeType) returns (j: nat)
    requires ListOk(rx, ns, t) && ChildOk(rx, c, t) && Fresh(ns, c, t)
    ensures j <= |ns| && TailSort(SortByLabel(ns + [c])) == Spliced(ns, j, c)
    ensures t != NtStatic ==> j == WildPlace(ns, c)
    ensures ListOk(rx, Spliced(ns, j, c), t)
  {
    hide TailSort, SortByLabel, Spliced, ListOk, ChildOk, Fresh;
    if t == NtStatic {
      j := StaticPosition(rx, ns, c);
    } else {
      j := WildPosition(rx, ns, c, t);
    }
  }
}
