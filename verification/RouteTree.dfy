/** The routing tree as a value: what the nodes of internal/platform/router/tree.go hold, what a
    registration makes of a tree, and what a lookup finds in it. */
module RouteTree {
  import opened Text
  import opened Patterns

  type Method = nat

  datatype Handler = NoHandler | Handler(id: nat)

  datatype Endpoint = Endpoint(handler: Handler, pattern: string, keys: seq<string>)

  type Endpoints = map<Method, Endpoint>

  /** `first` is the source's label, the first byte of the text the node was made for.
      `prefix` is the literal text of a static node and the expression of a regexp node; it is
      empty for parameters and catch-alls. */
  datatype Node = Node(typ: NodeType, first: char, tail: char, prefix: string,
                       endpoints: Option<Endpoints>,
                       statics: seq<Node>, regexps: seq<Node>, params: seq<Node>, catchAlls: seq<Node>)

  const EmptyTree: Node := Node(NtStatic, NUL, NUL, "", None, [], [], [], [])

  function Children(n: Node, t: NodeType): seq<Node> {
    match t
    case NtStatic => n.statics
    case NtRegexp => n.regexps
    case NtParam => n.params
    case NtCatchAll => n.catchAlls
  }

  function WithChildren(n: Node, t: NodeType, ns: seq<Node>): Node {
    match t
    case NtStatic => n.(statics := ns)
    case NtRegexp => n.(regexps := ns)
    case NtParam => n.(params := ns)
    case NtCatchAll => n.(catchAlls := ns)
  }

  /** The tokens a node stands for. */
  function NodeTokens(n: Node): seq<Token> {
    match n.typ
    case NtStatic => Lits(n.prefix)
    case NtRegexp => [Rex(n.prefix, n.tail)]
    case NtParam => [Param(n.tail)]
    case NtCatchAll => [Star]
  }

  // ---------------------------------------------------------------- lookup

  datatype Found = NotFound | Found(endpoint: Endpoint, caps: seq<string>)

  function Push(v: string, f: Found): Found {
    if f.Found? then f.(caps := [v] + f.caps) else NotFound
  }

  predicate Serves(eps: Option<Endpoints>, m: Method) {
    eps.Some? && m in eps.value && eps.value[m].handler != NoHandler
  }

  /** The first static child with the given label, as an index; -1 if there is none. */
  function EdgeIndex(ns: seq<Node>, first: char): (i: int)
    ensures -1 <= i < |ns|
    ensures i >= 0 ==> ns[i].first == first && forall j :: 0 <= j < i ==> ns[j].first != first
    ensures i < 0 ==> forall j :: 0 <= j < |ns| ==> ns[j].first != first
  {
    if ns == [] then -1
    else if ns[0].first == first then 0
    else
      var k := EdgeIndex(ns[1..], first);
      if k < 0 then -1 else k + 1
  }

  /** `findRoute`: the endpoint reached from below `n`, and the values captured on the way. */
  function Find(rx: Engine, n: Node, m: Method, search: string): Found
    decreases n, 1
  {
    var r0 := FindStatic(rx, n.statics, m, search);
    if r0.Found? then r0 else
    var r1 := FindWild(rx, n.regexps, m, search);
    if r1.Found? then r1 else
    var r2 := FindWild(rx, n.params, m, search);
    if r2.Found? then r2 else
    if n.catchAlls == [] then NotFound
    else Push(search, Enter(rx, n.catchAlls[0], m, ""))
  }

  /** At node `n` with `search` left: its own endpoint if nothing is left, else what lies below. */
  function Enter(rx: Engine, n: Node, m: Method, search: string): Found
    decreases n, 2
  {
    if search == "" && Serves(n.endpoints, m) then Found(n.endpoints.value[m], [])
    else Find(rx, n, m, search)
  }

  function FindStatic(rx: Engine, ns: seq<Node>, m: Method, search: string): Found
    decreases ns, 0
  {
    var i := EdgeIndex(ns, if search != "" then search[0] else NUL);
    if i < 0 || !(ns[i].prefix <= search) then NotFound
    else Enter(rx, ns[i], m, search[|ns[i].prefix|..])
  }

  /** The parameter loop, followed by the last node tried once more with an empty value. */
  function FindWild(rx: Engine, ns: seq<Node>, m: Method, search: string): Found
    decreases ns, 1
  {
    if ns == [] || search == "" then NotFound
    else
      var r := FindEach(rx, ns, m, search);
      if r.Found? then r else Push("", Find(rx, ns[|ns| - 1], m, search))
  }

  function FindEach(rx: Engine, ns: seq<Node>, m: Method, search: string): Found
    decreases ns, 0
  {
    if ns == [] then NotFound
    else
      var r := FindHere(rx, ns[0], m, search);
      if r.Found? then r else FindEach(rx, ns[1..], m, search)
  }

  function FindHere(rx: Engine, n: Node, m: Method, search: string): Found
    decreases n, 3
  {
    if !TakesParam(n.typ) then NotFound
    else
      match Take(rx, NodeTokens(n)[0], search)
      case None => NotFound
      case Some(p) => Push(search[..p], Enter(rx, n, m, search[p..]))
  }

  // ---------------------------------------------------------------- registration

  datatype Registration = Registration(verb: Method, pattern: string, handler: Handler)

  /** `setEndpoint` on a node: an endpoint map comes into being even if the names are refused. */
  function SetEndpoint(eps: Option<Endpoints>, reg: Registration): Endpoints {
    var eps0 := if eps.Some? then eps.value else map[];
    match Keys(reg.pattern)
    case Err(_) => eps0
    case Ok(keys) => eps0[reg.verb := Endpoint(reg.handler, reg.pattern, keys)]
  }

  datatype Inserted = Inserted(node: Node, error: Option<PatternError>)

  function Finish(n: Node, reg: Registration): Inserted {
    Inserted(n.(endpoints := Some(SetEndpoint(n.endpoints, reg))),
             match Keys(reg.pattern) case Err(e) => Some(e) case Ok(_) => None)
  }

  /** `sort.Sort` by label, as a stable insertion sort. */
  function SortByLabel(ns: seq<Node>): (r: seq<Node>)
    ensures |r| == |ns|
  {
    if ns == [] then [] else InsertByLabel(SortByLabel(ns[..|ns| - 1]), ns[|ns| - 1])
  }

  function InsertByLabel(ns: seq<Node>, n: Node): (r: seq<Node>)
    ensures |r| == |ns| + 1
  {
    if ns == [] || ns[|ns| - 1].first <= n.first then ns + [n]
    else InsertByLabel(ns[..|ns| - 1], n) + [ns[|ns| - 1]]
  }

  /** The last node with tail '/' that is not static, as an index; -1 if there is none. */
  function LastSlash(ns: seq<Node>): (i: int)
    ensures -1 <= i < |ns|
    ensures i >= 0 ==> ns[i].typ != NtStatic && ns[i].tail == '/'
    ensures forall j :: i < j < |ns| ==> ns[j].typ == NtStatic || ns[j].tail != '/'
  {
    if ns == [] then -1
    else if ns[|ns| - 1].typ != NtStatic && ns[|ns| - 1].tail == '/' then |ns| - 1
    else LastSlash(ns[..|ns| - 1])
  }

  /** `tailSort`: that node changes places with the last one. */
  function TailSort(ns: seq<Node>): (r: seq<Node>)
    ensures |r| == |ns|
  {
    var i := LastSlash(ns);
    if i < 0 then ns else ns[i := ns[|ns| - 1]][|ns| - 1 := ns[i]]
  }

  function Attach(n: Node, child: Node): Node {
    WithChildren(n, child.typ, TailSort(SortByLabel(Children(n, child.typ) + [child])))
  }

  /** `addChild`: the chain of nodes for the text `s`, with `eps` on the last of them. */
  function Chain(rx: Engine, s: string, eps: Option<Endpoints>): (r: Result<Node>)
    requires s != ""
    decreases |s|
  {
    match NextSegment(s)
    case Err(e) => Err(e)
    case Ok(seg) =>
      if seg.typ == NtRegexp && !rx.compiles(seg.rexpat) then Err(InvalidRegexp)
      else if seg.typ == NtStatic then
        Ok(Node(NtStatic, s[0], NUL, s, eps, [], [], [], []))
      else if seg.start > 0 then
        match Chain(rx, s[seg.start..], eps)
        case Err(e) => Err(e)
        case Ok(c) => Ok(Attach(Node(NtStatic, s[0], NUL, s[..seg.start], None, [], [], [], []), c))
      else if seg.end == |s| then
        Ok(Node(seg.typ, s[0], seg.tail, seg.rexpat, eps, [], [], [], []))
      else
        match Chain(rx, s[seg.end..], eps)
        case Err(e) => Err(e)
        case Ok(c) => Ok(Attach(Node(seg.typ, s[0], seg.tail, seg.rexpat, None, [], [], [], []), c))
  }

  /** A new edge below `n` for the text `s`. */
  function AddEdge(rx: Engine, n: Node, s: string, reg: Registration): Inserted
    requires s != ""
  {
    match Chain(rx, s, Some(SetEndpoint(None, reg)))
    case Err(e) => Inserted(n, Some(e))
    case Ok(c) => Inserted(Attach(n, c), match Keys(reg.pattern) case Err(e) => Some(e) case Ok(_) => None)
  }

  /** `getEdge`: the first child with that label, tail and, for regexps, expression; -1 if none. */
  function GetEdge(ns: seq<Node>, first: char, tail: char, prefix: Option<string>): (i: int)
    ensures -1 <= i < |ns|
    ensures i >= 0 ==> EdgeMatches(ns[i], first, tail, prefix)
    ensures forall j :: 0 <= j < (if i < 0 then |ns| else i) ==> !EdgeMatches(ns[j], first, tail, prefix)
  {
    if ns == [] then -1
    else if EdgeMatches(ns[0], first, tail, prefix) then 0
    else
      var k := GetEdge(ns[1..], first, tail, prefix);
      if k < 0 then -1 else k + 1
  }

  predicate EdgeMatches(n: Node, first: char, tail: char, prefix: Option<string>) {
    n.first == first && n.tail == tail && (prefix.Some? ==> n.prefix == prefix.value)
  }

  /** `longestPrefix`. */
  function LongestPrefix(a: string, b: string): (k: nat)
    ensures k <= |a| && k <= |b| && a[..k] == b[..k]
    ensures k < |a| && k < |b| ==> a[k] != b[k]
  {
    if a == "" || b == "" || a[0] != b[0] then 0
    else
      var k := LongestPrefix(a[1..], b[1..]);
      assert a[..k + 1] == [a[0]] + a[1..][..k] && b[..k + 1] == [b[0]] + b[1..][..k];
      k + 1
  }

  /** Which child list the text `search` leads to, and under which tail and expression. */
  datatype Edge = Edge(typ: NodeType, tail: char, prefix: Option<string>, end: nat)

  function NextEdge(search: string): (r: Result<Edge>)
    requires search != ""
    ensures r.Ok? && r.value.typ != NtStatic ==> 0 < r.value.end <= |search|
  {
    if !IsWild(search[0]) then Ok(Edge(NtStatic, NUL, None, 0))
    else match NextSegment(search)
      case Err(e) => Err(e)
      case Ok(seg) => Ok(Edge(seg.typ, seg.tail, if seg.typ == NtRegexp then Some(seg.rexpat) else None, seg.end))
  }

  /** The two halves of a static node `c` that is cut after `k` bytes because `search` leaves it there. */
  function Upper(c: Node, k: nat, search: string): Node
    requires k < |c.prefix| && k <= |search| && search != ""
  {
    Node(NtStatic, search[0], NUL, search[..k], None, [Lower(c, k)], [], [], [])
  }

  function Lower(c: Node, k: nat): Node
    requires k < |c.prefix|
  {
    c.(first := c.prefix[k], prefix := c.prefix[k..])
  }

  function Divide(rx: Engine, c: Node, k: nat, search: string, reg: Registration): Inserted
    requires k < |c.prefix| && k <= |search| && search != ""
  {
    if k == |search| then Finish(Upper(c, k, search), reg)
    else AddEdge(rx, Upper(c, k, search), search[k..], reg)
  }

  /** `insertRoute`: the tree after a registration, accepted or refused. */
  function Insert(rx: Engine, n: Node, search: string, reg: Registration): Inserted
    decreases |search|, n
  {
    if search == "" then Finish(n, reg)
    else
      match NextEdge(search)
      case Err(e) => Inserted(n, Some(e))
      case Ok(edge) =>
        var ns := Children(n, edge.typ);
        var i := GetEdge(ns, search[0], edge.tail, edge.prefix);
        if i < 0 then AddEdge(rx, n, search, reg)
        else
          var r :=
            if edge.typ != NtStatic then Insert(rx, ns[i], search[edge.end..], reg)
            else
              var k := LongestPrefix(search, ns[i].prefix);
              if k == |ns[i].prefix| then Insert(rx, ns[i], search[k..], reg)
              else Divide(rx, ns[i], k, search, reg);
          Inserted(WithChildren(n, edge.typ, ns[i := r.node]), r.error)
  }
}
