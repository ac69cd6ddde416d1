/** The router's public face: method names, registration by name, and lookup with a context. */
module MuxRouter {
  import opened Text
  import opened Numbers
  import opened Patterns
  import opened RouteTree
  import opened RouteTable
  import opened RouteRegister
  import opened Routing
  import Lookups
  import opened RouterNodes
  import opened RouterLookup
  import opened RouterWalk

  // ---------------------------------------------------------------- method names

  /** The platform's word size, `strconv.IntSize`. */
  const INT_SIZE: nat := 64

  /** The methods known from the start, in the order of their bits. */
  const STANDARD: seq<string> := ["CONNECT", "DELETE", "GET", "HEAD", "OPTIONS", "PATCH", "POST", "PUT", "TRACE"]

  /** One of the bits 1 to `n`; bit 0 stands for no method. */
  ghost predicate Bit(x: nat, n: nat) {
    exists k :: 1 <= k <= n && x == Pow2(k)
  }

  /** Every name has a bit of its own among the lowest ones. */
  ghost predicate OwnBits<K>(methods: map<K, Method>) {
    && (forall v :: v in methods ==> Bit(methods[v], |methods|))
    && (forall v, w :: v in methods && w in methods && methods[v] == methods[w] ==> v == w)
  }

  lemma BitUp(x: nat, n: nat)
    requires Bit(x, n)
    ensures Bit(x, n + 1) && x < Pow2(n + 1)
  {
    var k :| 1 <= k <= n && x == Pow2(k);
    Pow2Less(k, n + 1);
  }

  lemma OneMore<K>(methods: map<K, Method>, name: K, x: Method)
    requires name !in methods
    ensures |methods[name := x]| == |methods| + 1
  {
    assert methods[name := x].Keys == methods.Keys + {name};
  }

  lemma BitsUp<K>(methods: map<K, Method>)
    requires OwnBits(methods)
    ensures forall v :: v in methods ==> Bit(methods[v], |methods| + 1) && methods[v] < Pow2(|methods| + 1)
  {
    hide Pow2, Bit;
    forall v | v in methods ensures Bit(methods[v], |methods| + 1) && methods[v] < Pow2(|methods| + 1) {
      BitUp(methods[v], |methods|);
    }
  }

  /** The next free bit is free. */
  lemma NextBit<K>(methods: map<K, Method>, name: K)
    requires OwnBits(methods) && name !in methods
    ensures var m := methods[name := Pow2(|methods| + 1)]; |m| == |methods| + 1 && OwnBits(m)
  {
    hide Pow2, Bit;
    OneMore(methods, name, Pow2(|methods| + 1));
    NewBit(|methods| + 1);
    BitsUp(methods);
  }

  lemma NewBit(n: nat)
    requires n > 0
    ensures Bit(Pow2(n), n)
  {}

  lemma OwnBitsFit<K>(methods: map<K, Method>)
    requires OwnBits(methods) && |methods| < INT_SIZE
    ensures forall v :: v in methods ==> methods[v] < Pow2(INT_SIZE)
  {
    hide Pow2;
    forall v | v in methods ensures methods[v] < Pow2(INT_SIZE) {
      var k :| 1 <= k <= |methods| && methods[v] == Pow2(k);
      Pow2Less(k, INT_SIZE);
    }
  }

  /** Each name with the bit of its position, counted from one. */
  function Numbered(names: seq<string>): map<string, Method> {
    if names == [] then map[]
    else Numbered(names[..|names| - 1])[names[|names| - 1] := Pow2(|names|)]
  }

  lemma {:induction false} NumberedBits(names: seq<string>)
    requires Distinct(names)
    ensures |Numbered(names)| == |names| && OwnBits(Numbered(names))
    ensures forall v :: v in Numbered(names) <==> v in names
    decreases |names|
  {
    hide Pow2, Bit;
    if names != [] {
      var last := |names| - 1;
      var front := names[..last];
      NumberedBits(front);
      assert names == front + [names[last]];
      NextBit(Numbered(front), names[last]);
    }
  }

  lemma {:induction false} NumberedAt(names: seq<string>, i: nat)
    requires Distinct(names) && i < |names|
    ensures names[i] in Numbered(names) && Numbered(names)[names[i]] == Pow2(i + 1)
    decreases |names|
  {
    hide Pow2;
    var last := |names| - 1;
    if i < last {
      NumberedAt(names[..last], i);
      assert names[..last][i] == names[i] != names[last];
    }
  }

  lemma StandardDistinct()
    ensures Distinct(STANDARD) && |STANDARD| == 9
  {
    var s := STANDARD;
    assert |s[0]| == 7 && |s[1]| == 6 && |s[2]| == 3 && |s[3]| == 4 && |s[4]| == 7 && |s[5]| == 5 && |s[6]| == 4 && |s[7]| == 3 && |s[8]| == 5;
    assert s[0][0] == 'C' && s[4][0] == 'O' && s[2][0] == 'G' && s[7][0] == 'P' && s[3][0] == 'H' && s[6][0] == 'P' && s[5][0] == 'P' && s[8][0] == 'T';
  }

  /** The process-wide table of method names, each with a bit of its own. */
  class MethodTable {
    var methods: map<string, Method>

    ghost predicate Valid()
      reads this
    {
      |methods| < INT_SIZE && OwnBits(methods)
    }

    constructor ()
      ensures Valid() && methods == Numbered(STANDARD)
      ensures forall i :: 0 <= i < |STANDARD| ==> STANDARD[i] in methods && methods[STANDARD[i]] == Pow2(i + 1)
    {
      hide Numbered, Pow2;
      methods := Numbered(STANDARD);
      new;
      StandardDistinct();
      NumberedBits(STANDARD);
      forall i | 0 <= i < |STANDARD| ensures STANDARD[i] in methods && methods[STANDARD[i]] == Pow2(i + 1) {
        NumberedAt(STANDARD, i);
      }
    }

    /** A new name takes the next free bit; the word size bounds how many there can be, so that no
        bit is ever shifted out. */
    method RegisterMethod(upper: string -> string, name: string) returns (ok: bool)
      requires Valid()
      modifies this
      ensures Valid()
      ensures ok <==> name == "" || upper(name) in old(methods) || |old(methods)| <= INT_SIZE - 2
      ensures forall v :: v in methods ==> methods[v] < Pow2(INT_SIZE)
      ensures methods == if ok && name != "" && upper(name) !in old(methods) then old(methods)[upper(name) := Pow2(|old(methods)| + 1)]
                         else old(methods)
    {
      hide Pow2, OwnBits;
      OwnBitsFit(methods);
      if name == "" {
        return true;
      }
      var verb := upper(name);
      if verb in methods {
        return true;
      }
      var n := |methods|;
      if n > INT_SIZE - 2 {
        return false;
      }
      NextBit(methods, verb);
      methods := methods[verb := Pow2(n + 1)];
      OwnBitsFit(methods);
      return true;
    }
  }

  // ---------------------------------------------------------------- the router

  class Mux {
    const rx: Engine
    const tree: TreeNode
    ghost var nodes: set<TreeNode>
    /** Every registration whose method was known, in order, accepted or refused. */
    ghost var regs: seq<Registration>

    /** The nodes on the heap stand for the tree that the history of registrations builds. */
    ghost predicate Valid()
      reads this, nodes
    {
      && tree in nodes && tree.parent == null && Consistent(nodes)
      && tree.model == Build(rx, regs)
    }

    constructor (rx: Engine)
      ensures Valid() && regs == [] && this.rx == rx && fresh(nodes)
    {
      this.rx := rx;
      var t := new TreeNode(NtStatic, NUL, NUL, "");
      t.model := EmptyTree;
      tree := t;
      nodes, regs := {t}, [];
    }

    /** `handle`: refuses patterns that do not begin with '/'. */
    method Handle(reg: Registration) returns (err: Option<PatternError>)
      requires Valid()
      modifies this`nodes, this`regs, nodes
      ensures Valid() && fresh(nodes - old(nodes))
      ensures regs == old(regs) + [reg]
      ensures err.None? <==> Accepted(rx, reg)
    {
      hide Build, Insert, WellFormed, Consistent, Accepted, Register, Represents, Routes;
      BuildSnoc(rx, regs, reg);
      BuildRepresents(rx, regs);
      RegisterAccepts(rx, Build(rx, regs), reg);
      RegisterUnfold(rx, Build(rx, regs), reg);
      regs := regs + [reg];
      if |reg.pattern| == 0 || reg.pattern[0] != '/' {
        return Some(MissingSlash);
      }
      err, nodes := InsertRoute(rx, tree, nodes, reg.pattern, reg);
    }

    /** Registers a pattern under a method name. */
    method AddEndpoint(table: MethodTable, upper: string -> string, verb: string, pattern: string, handler: Handler)
        returns (err: Option<PatternError>)
      requires Valid()
      modifies this`nodes, this`regs, nodes
      ensures Valid() && fresh(nodes - old(nodes))
      ensures upper(verb) !in table.methods ==> err == Some(UnknownMethod) && regs == old(regs)
      ensures upper(verb) in table.methods ==>
                var reg := Registration(table.methods[upper(verb)], pattern, handler);
                regs == old(regs) + [reg] && (err.None? <==> Accepted(rx, reg))
    {
      if upper(verb) !in table.methods {
        return Some(UnknownMethod);
      }
      err := Handle(Registration(table.methods[upper(verb)], pattern, handler));
    }

    /** `FindRoute` from the root: clears the context's route parameters, and on success records
        them, and the pattern, for the request. */
    method FindRouteHandler(rctx: RouteContext, m: Method, path: string) returns (h: Handler)
      requires Valid()
      modifies rctx
      ensures Answered(rctx, RouteTree.Find(rx, Build(rx, regs), m, path), h, old(rctx.urlKeys), old(rctx.urlValues), old(rctx.routePatterns))
    {
      hide Build, RouteTree.Find, WellFormed, Consistent, Represents, Routes;
      BuildRepresents(rx, regs);
      rctx.routePattern := "";
      rctx.routeKeys := [];
      rctx.routeValues := [];
      var rn := FindRoute(rx, tree, nodes, rctx, m, path);
      if rn == null {
        return NoHandler;
      }
      FoundPattern(rx, regs, m, path);
      rctx.urlKeys := rctx.urlKeys + rctx.routeKeys;
      rctx.urlValues := rctx.urlValues + rctx.routeValues;
      if rn.endpoints.value[m].pattern != "" {
        rctx.routePattern := rn.endpoints.value[m].pattern;
        rctx.routePatterns := rctx.routePatterns + [rctx.routePattern];
      }
      return rn.endpoints.value[m].handler;
    }

    /** Lookup by method name. Unlike registration, it takes the name as it is written. */
    method Find(table: MethodTable, rctx: RouteContext, verb: string, path: string) returns (h: Handler)
      requires Valid()
      modifies rctx
      ensures verb !in table.methods ==> h == NoHandler && unchanged(rctx)
      ensures verb in table.methods ==>
                Answered(rctx, RouteTree.Find(rx, Build(rx, regs), table.methods[verb], path), h,
                         old(rctx.urlKeys), old(rctx.urlValues), old(rctx.routePatterns))
    {
      if verb !in table.methods {
        return NoHandler;
      }
      h := FindRouteHandler(rctx, table.methods[verb], path);
    }
  }

  /** What a lookup with this outcome leaves in the context and returns. */
  ghost predicate Answered(rctx: RouteContext, f: Found, h: Handler, keys0: seq<string>, values0: seq<string>, patterns0: seq<string>)
    reads rctx
  {
    match f
    case NotFound =>
      && h == NoHandler && rctx.routeKeys == [] && rctx.routeValues == [] && rctx.routePattern == ""
      && rctx.urlKeys == keys0 && rctx.urlValues == values0 && rctx.routePatterns == patterns0
    case Found(e, caps) =>
      && h == e.handler && h != NoHandler
      && rctx.routeKeys == e.keys && rctx.routeValues == caps && |caps| == |e.keys|
      && rctx.urlKeys == keys0 + e.keys && rctx.urlValues == values0 + caps
      && rctx.routePattern == e.pattern && rctx.routePatterns == patterns0 + [e.pattern]
  }

  lemma BuildSnoc(rx: Engine, regs: seq<Registration>, reg: Registration)
    ensures Build(rx, regs + [reg]) == Register(rx, Build(rx, regs), reg).node
  {
    hide Register;
    assert (regs + [reg])[..|regs|] == regs;
  }

  lemma RegisterUnfold(rx: Engine, n: Node, reg: Registration)
    requires n.typ == NtStatic
    ensures if reg.pattern == "" || reg.pattern[0] != '/' then
              Register(rx, n, reg).node == n && Register(rx, n, reg).error.Some?
            else Register(rx, n, reg) == Insert(rx, n, reg.pattern, reg)
    ensures Belongs(n, reg.pattern)
  {
    hide Insert;
  }

  lemma FoundPattern(rx: Engine, regs: seq<Registration>, m: Method, s: string)
    requires Find(rx, Build(rx, regs), m, s).Found?
    ensures var f := Find(rx, Build(rx, regs), m, s); f.endpoint.pattern != "" && |f.caps| == |f.endpoint.keys|
  {
    hide Build, Find, Tokens, Fill, Names, Distinct, Keys, Compiles;
    Lookups.SubstitutionRoundTrip(rx, regs, m, s);
  }

  /** After a successful lookup the request's parameters hold each captured value under its name,
      and those values written into the recorded pattern give the path. */
  lemma LookupParams(rx: Engine, regs: seq<Registration>, m: Method, s: string, keys0: seq<string>, values0: seq<string>, k: nat)
    requires Find(rx, Build(rx, regs), m, s).Found? && |keys0| == |values0|
    requires k < |Find(rx, Build(rx, regs), m, s).endpoint.keys|
    ensures var f := Find(rx, Build(rx, regs), m, s);
            && |f.caps| == |f.endpoint.keys|
            && ParamOf(keys0 + f.endpoint.keys, values0 + f.caps, f.endpoint.keys[k]) == f.caps[k]
            && f.endpoint.keys[k] in ParamMap(keys0 + f.endpoint.keys, values0 + f.caps)
            && ParamMap(keys0 + f.endpoint.keys, values0 + f.caps)[f.endpoint.keys[k]] == f.caps[k]
            && Tokens(f.endpoint.pattern).Ok? && Fill(f.endpoint.pattern, f.caps) == s
  {
    hide Build, Find, Fill, Names, Distinct, ParamOf, ParamMap;
    Lookups.SubstitutionRoundTrip(rx, regs, m, s);
    var f := Find(rx, Build(rx, regs), m, s);
    ParamsOfDistinct(keys0, values0, f.endpoint.keys, f.caps, k);
    ParamsAgree(keys0 + f.endpoint.keys, values0 + f.caps, f.endpoint.keys[k]);
  }
}
