/** The tree read as a list: every endpoint map with the tokens that lead to it, in the order in
    which a lookup comes to them; and the representation invariant. */
module RouteTable {
  import opened Patterns
  import opened RouteTree

  datatype Route = Route(toks: seq<Token>, eps: Endpoints)

  function Prefixed(ts: seq<Token>, rs: seq<Route>): (r: seq<Route>)
    ensures |r| == |rs|
    ensures forall i :: 0 <= i < |rs| ==> r[i] == Route(ts + rs[i].toks, rs[i].eps)
  {
    seq(|rs|, i requires 0 <= i < |rs| => Route(ts + rs[i].toks, rs[i].eps))
  }

  function Routes(n: Node): seq<Route>
    decreases n, 2
  {
    Own(n) + Below(n)
  }

  function Own(n: Node): seq<Route> {
    if n.endpoints.Some? then [Route([], n.endpoints.value)] else []
  }

  function Below(n: Node): seq<Route>
    decreases n, 1
  {
    RoutesOf(n.statics) + RoutesOf(n.regexps) + RoutesOf(n.params) + RoutesOf(n.catchAlls)
  }

  function RoutesOf(ns: seq<Node>): seq<Route>
    decreases ns, 0
  {
    if ns == [] then [] else Branch(ns[0]) + RoutesOf(ns[1..])
  }

  function Branch(n: Node): seq<Route>
    decreases n, 3
  {
    Prefixed(NodeTokens(n), Routes(n))
  }

  // ---------------------------------------------------------------- the representation invariant

  predicate Childless(n: Node) {
    n.statics == [] && n.regexps == [] && n.params == [] && n.catchAlls == []
  }

  /** What a child looks like in the list for its type. */
  predicate ChildOk(rx: Engine, c: Node, t: NodeType) {
    && c.typ == t
    && match t
       case NtStatic => c.prefix != "" && Literal(c.prefix) && c.first == c.prefix[0] && c.tail == NUL
       case NtRegexp => c.first == '{' && rx.compiles(c.prefix)
       case NtParam => c.first == '{' && c.prefix == ""
       case NtCatchAll => c.first == '*' && c.tail == NUL && c.prefix == "" && Childless(c)
  }

  /** Static children are strictly ordered by label, parameters have different tails, regexps
      different tails or expressions, and there is one catch-all at most. */
  predicate Apart(a: Node, b: Node, t: NodeType) {
    match t
    case NtStatic => a.first < b.first
    case NtRegexp => a.tail != b.tail || a.prefix != b.prefix
    case NtParam => a.tail != b.tail
    case NtCatchAll => true
  }

  /** If some node of the list has tail '/', the last one has. */
  predicate SlashLast(ns: seq<Node>) {
    forall i :: 0 <= i < |ns| && ns[i].tail == '/' ==> ns[|ns| - 1].tail == '/'
  }

  predicate ListOk(rx: Engine, ns: seq<Node>, t: NodeType) {
    && (forall i :: 0 <= i < |ns| ==> ChildOk(rx, ns[i], t))
    && (forall i, j :: 0 <= i < j < |ns| ==> Apart(ns[i], ns[j], t))
    && SlashLast(ns)
    && (t == NtCatchAll ==> |ns| <= 1)
  }

  /** Below a parameter everything starts with its tail; its own end counts as '/'. */
  predicate TailOk(n: Node, ns: seq<Node>) {
    TakesParam(n.typ) ==> forall i :: 0 <= i < |ns| ==> ns[i].first == n.tail
  }

  predicate NodeOk(rx: Engine, n: Node) {
    && ListOk(rx, n.statics, NtStatic) && ListOk(rx, n.regexps, NtRegexp)
    && ListOk(rx, n.params, NtParam) && ListOk(rx, n.catchAlls, NtCatchAll)
    && TailOk(n, n.statics) && TailOk(n, n.regexps) && TailOk(n, n.params) && TailOk(n, n.catchAlls)
    && (TakesParam(n.typ) && n.endpoints.Some? ==> n.tail == '/')
    && (n.typ == NtCatchAll ==> Childless(n))
  }

  predicate WellFormed(rx: Engine, n: Node)
    decreases n, 1
  {
    && NodeOk(rx, n)
    && AllWellFormed(rx, n.statics) && AllWellFormed(rx, n.regexps)
    && AllWellFormed(rx, n.params) && AllWellFormed(rx, n.catchAlls)
  }

  predicate AllWellFormed(rx: Engine, ns: seq<Node>)
    decreases ns, 0
  {
    forall i :: 0 <= i < |ns| ==> WellFormed(rx, ns[i])
  }

  lemma WellFormedParts(rx: Engine, n: Node, t: NodeType)
    requires WellFormed(rx, n)
    ensures NodeOk(rx, n) && ListOk(rx, Children(n, t), t) && TailOk(n, Children(n, t))
    ensures AllWellFormed(rx, Children(n, t))
    ensures n.typ == NtCatchAll ==> Children(n, t) == []
  {
    hide ListOk, AllWellFormed;
  }

  lemma ListOkAt(rx: Engine, ns: seq<Node>, t: NodeType, k: nat)
    requires ListOk(rx, ns, t) && k < |ns|
    ensures ChildOk(rx, ns[k], t)
  {}

  lemma EdgeIndexCons(ns: seq<Node>, first: char)
    requires ns != [] && ns[0].first != first
    ensures EdgeIndex(ns, first) == if EdgeIndex(ns[1..], first) < 0 then -1 else EdgeIndex(ns[1..], first) + 1
  {}

  lemma TailOfList(rx: Engine, ns: seq<Node>, t: NodeType)
    requires ns != [] && ListOk(rx, ns, t)
    ensures ListOk(rx, ns[1..], t)
  {
    assert |ns| > 1 ==> ns[1..][|ns| - 2] == ns[|ns| - 1];
  }
}
