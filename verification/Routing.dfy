/** Whole histories of registrations: what is accepted, and what the tree holds afterwards. */
module Routing {
  import opened Text
  import opened Patterns
  import opened RouteTree
  import opened RouteTable
  import opened RouteInsert
  import opened RouteRegister

  /** `handle`: a pattern has to begin with '/'. */
  function Register(rx: Engine, n: Node, reg: Registration): Inserted {
    if reg.pattern == "" || reg.pattern[0] != '/' then Inserted(n, Some(MissingSlash))
    else Insert(rx, n, reg.pattern, reg)
  }

  /** The tree after a history of registrations, accepted or refused. */
  function Build(rx: Engine, regs: seq<Registration>): Node {
    if regs == [] then EmptyTree else Register(rx, Build(rx, regs[..|regs| - 1]), regs[|regs| - 1]).node
  }

  predicate Legible(rx: Engine, reg: Registration) {
    reg.pattern != "" && reg.pattern[0] == '/' && Readable(rx, reg.pattern)
  }

  /** What a caller can check beforehand: the pattern begins with '/', its braces and wildcards are
      in order, its expressions compile and its names differ. */
  predicate Accepted(rx: Engine, reg: Registration) {
    Legible(rx, reg) && Keys(reg.pattern).Ok?
  }

  function PatternTokens(reg: Registration): seq<Token>
    requires Tokens(reg.pattern).Ok?
  {
    Tokens(reg.pattern).value
  }

  function EndpointOf(reg: Registration): Endpoint
    requires Keys(reg.pattern).Ok?
  {
    Endpoint(reg.handler, reg.pattern, Keys(reg.pattern).value)
  }

  predicate RegularReg(rx: Engine, reg: Registration) {
    Legible(rx, reg) ==> Regular(PatternTokens(reg))
  }

  predicate AllRegularRegs(rx: Engine, regs: seq<Registration>) {
    forall i :: 0 <= i < |regs| ==> RegularReg(rx, regs[i])
  }

  /** The endpoint of the last accepted registration for these tokens and this method. */
  function Latest(rx: Engine, regs: seq<Registration>, toks: seq<Token>, m: Method): Option<Endpoint> {
    if regs == [] then None
    else
      var reg := regs[|regs| - 1];
      if Accepted(rx, reg) && reg.verb == m && PatternTokens(reg) == toks then Some(EndpointOf(reg))
      else Latest(rx, regs[..|regs| - 1], toks, m)
  }

  // ---------------------------------------------------------------- one registration

  /** A registration succeeds exactly when it is acceptable, whatever was registered before. */
  lemma RegisterAccepts(rx: Engine, n: Node, reg: Registration)
    requires WellFormed(rx, n) && n.typ == NtStatic
    ensures var r := Register(rx, n, reg); r.error.None? <==> Accepted(rx, reg)
    ensures WellFormed(rx, Register(rx, n, reg).node) && Register(rx, n, reg).node.typ == NtStatic
  {
    hide WellFormed, Insert, Readable, Keys, Routes;
    if reg.pattern != "" && reg.pattern[0] == '/' {
      var _ := InsertOutcome(rx, n, reg.pattern, reg);
    }
  }

  lemma RegisterRoutes(rx: Engine, n: Node, reg: Registration) returns (ch: Change)
    requires WellFormed(rx, n) && n.typ == NtStatic
    ensures var r := Register(rx, n, reg).node;
            if Legible(rx, reg) then
              Applies(Routes(n), ch, PatternTokens(reg)) && Routes(r) == Apply(Routes(n), ch, PatternTokens(reg), reg)
            else Routes(r) == Routes(n)
  {
    hide WellFormed, Insert, Compiles, Tokens, Keys, Routes;
    if reg.pattern != "" && reg.pattern[0] == '/' {
      ch := InsertOutcome(rx, n, reg.pattern, reg);
    } else {
      ch := Added(0);
    }
  }

  // ---------------------------------------------------------------- what the tree holds

  function Entry(r: Route, m: Method): Option<Endpoint> {
    if m in r.eps then Some(r.eps[m]) else None
  }

  predicate Different(rs: seq<Route>) {
    forall j, k :: 0 <= j < k < |rs| ==> rs[j].toks != rs[k].toks
  }

  /** The routes of the tree are exactly what was registered last for each token list and method. */
  ghost predicate Represents(rx: Engine, regs: seq<Registration>, rs: seq<Route>) {
    && (forall k, m :: 0 <= k < |rs| ==> Entry(rs[k], m) == Latest(rx, regs, rs[k].toks, m))
    && (forall k :: 0 <= k < |rs| ==> rs[k].toks != [])
    && Different(rs)
    && (forall toks, m :: Latest(rx, regs, toks, m).Some? ==> !Absent(rs, toks))
  }

  lemma LatestSnoc(rx: Engine, regs: seq<Registration>, reg: Registration, toks: seq<Token>, m: Method)
    ensures Latest(rx, regs + [reg], toks, m) ==
            if Accepted(rx, reg) && reg.verb == m && PatternTokens(reg) == toks then Some(EndpointOf(reg))
            else Latest(rx, regs, toks, m)
  {
    hide Accepted, EndpointOf, PatternTokens;
    assert (regs + [reg])[..|regs|] == regs;
  }

  lemma SetEndpointEntry(eps: Option<Endpoints>, toks: seq<Token>, reg: Registration, m: Method)
    ensures Entry(Route(toks, SetEndpoint(eps, reg)), m) ==
            if Keys(reg.pattern).Ok? && m == reg.verb then Some(EndpointOf(reg))
            else if eps.Some? then Entry(Route(toks, eps.value), m) else None
  {
    hide Keys;
  }

  lemma RepresentsApply(rx: Engine, regs: seq<Registration>, rs: seq<Route>, ch: Change, reg: Registration)
    requires Represents(rx, regs, rs) && Legible(rx, reg) && PatternTokens(reg) != []
    requires Applies(rs, ch, PatternTokens(reg))
    ensures Represents(rx, regs + [reg], Apply(rs, ch, PatternTokens(reg), reg))
  {
    hide Keys, Tokens, Compiles, SetEndpoint, Latest, Entry;
    var toks0 := PatternTokens(reg);
    var rs' := Apply(rs, ch, toks0, reg);
    forall k, m | 0 <= k < |rs'| ensures Entry(rs'[k], m) == Latest(rx, regs + [reg], rs'[k].toks, m) {
      LatestSnoc(rx, regs, reg, rs'[k].toks, m);
      if k == ch.at {
        if ch.Added? {
          SetEndpointEntry(None, toks0, reg, m);
        } else {
          SetEndpointEntry(Some(rs[k].eps), toks0, reg, m);
          assert Route(toks0, rs[k].eps) == rs[k];
        }
      } else {
        var j := if ch.Added? && k > ch.at then k - 1 else k;
        assert rs'[k] == rs[j] && rs[j].toks != toks0;
      }
    }
    forall toks, m | Latest(rx, regs + [reg], toks, m).Some? ensures !Absent(rs', toks) {
      LatestSnoc(rx, regs, reg, toks, m);
      StillPresent(rs, ch, toks0, reg, toks);
    }
    PresentAfter(rs, ch, toks0, reg);
  }

  lemma StillPresent(rs: seq<Route>, ch: Change, toks0: seq<Token>, reg: Registration, toks: seq<Token>)
    requires Applies(rs, ch, toks0) && (toks == toks0 || !Absent(rs, toks))
    ensures !Absent(Apply(rs, ch, toks0, reg), toks)
  {
    hide SetEndpoint;
    var rs' := Apply(rs, ch, toks0, reg);
    if toks == toks0 {
      assert rs'[ch.at].toks == toks0;
    } else {
      var k :| 0 <= k < |rs| && rs[k].toks == toks;
      assert rs'[if ch.Added? && k >= ch.at then k + 1 else k].toks == toks;
    }
  }

  lemma PresentAfter(rs: seq<Route>, ch: Change, toks0: seq<Token>, reg: Registration)
    requires Applies(rs, ch, toks0) && toks0 != [] && (forall k :: 0 <= k < |rs| ==> rs[k].toks != []) && Different(rs)
    ensures var rs' := Apply(rs, ch, toks0, reg); (forall k :: 0 <= k < |rs'| ==> rs'[k].toks != []) && Different(rs')
  {
    hide SetEndpoint;
  }

  lemma RepresentsSame(rx: Engine, regs: seq<Registration>, rs: seq<Route>, reg: Registration)
    requires Represents(rx, regs, rs) && !Legible(rx, reg)
    ensures Represents(rx, regs + [reg], rs)
  {
    hide Keys, Tokens, Readable, Latest, Entry, Absent;
    forall k, m | 0 <= k < |rs| ensures Entry(rs[k], m) == Latest(rx, regs + [reg], rs[k].toks, m) {
      LatestSnoc(rx, regs, reg, rs[k].toks, m);
    }
    forall toks, m | Latest(rx, regs + [reg], toks, m).Some? ensures !Absent(rs, toks) {
      LatestSnoc(rx, regs, reg, toks, m);
    }
  }

  /** Every history of registrations, accepted or refused, leaves a well-formed tree that holds
      exactly the latest accepted registration for each token list and method. */
  lemma {:induction false} BuildRepresents(rx: Engine, regs: seq<Registration>)
    ensures WellFormed(rx, Build(rx, regs)) && Build(rx, regs).typ == NtStatic
    ensures Represents(rx, regs, Routes(Build(rx, regs)))
    decreases |regs|
  {
    hide WellFormed, Routes, Register, Represents, Tokens, Compiles;
    if regs == [] {
      EmptyRepresents(rx);
    } else {
      var front, reg := regs[..|regs| - 1], regs[|regs| - 1];
      BuildRepresents(rx, front);
      var n := Build(rx, front);
      RegisterAccepts(rx, n, reg);
      var ch := RegisterRoutes(rx, n, reg);
      assert front + [reg] == regs;
      if Legible(rx, reg) {
        LegibleTokens(rx, reg);
        RepresentsApply(rx, front, Routes(n), ch, reg);
      } else {
        RepresentsSame(rx, front, Routes(n), reg);
      }
    }
  }

  lemma EmptyRepresents(rx: Engine)
    ensures WellFormed(rx, EmptyTree) && Represents(rx, [], Routes(EmptyTree))
  {
    LeafWellFormed(rx, EmptyTree);
    RoutesOfLeaf(EmptyTree);
  }

  lemma LegibleTokens(rx: Engine, reg: Registration)
    requires Legible(rx, reg)
    ensures PatternTokens(reg) != []
  {
    hide NextSegment;
  }

  // ---------------------------------------------------------------- what is in force

  lemma {:induction false} LatestFrom(rx: Engine, regs: seq<Registration>, toks: seq<Token>, m: Method) returns (i: nat)
    requires Latest(rx, regs, toks, m).Some?
    ensures i < |regs| && Accepted(rx, regs[i]) && regs[i].verb == m && PatternTokens(regs[i]) == toks
    ensures Latest(rx, regs, toks, m) == Some(EndpointOf(regs[i]))
    decreases |regs|
  {
    hide Tokens, Compiles, Keys, EndpointOf;
    var last := |regs| - 1;
    if Accepted(rx, regs[last]) && regs[last].verb == m && PatternTokens(regs[last]) == toks {
      i := last;
    } else {
      i := LatestFrom(rx, regs[..last], toks, m);
    }
  }

  /** An accepted registration has a latest one for its tokens and method. */
  lemma {:induction false} LatestExists(rx: Engine, regs: seq<Registration>, i: nat)
    requires i < |regs| && Accepted(rx, regs[i])
    ensures Latest(rx, regs, PatternTokens(regs[i]), regs[i].verb).Some?
    decreases |regs|
  {
    hide Accepted, PatternTokens, EndpointOf;
    if i < |regs| - 1 {
      LatestExists(rx, regs[..|regs| - 1], i);
    }
  }

  /** The registration in force for these tokens and this method has a handler. */
  predicate Live(rx: Engine, regs: seq<Registration>, toks: seq<Token>, m: Method) {
    Latest(rx, regs, toks, m).Some? && Latest(rx, regs, toks, m).value.handler != NoHandler
  }

  lemma LiveTokens(rx: Engine, regs: seq<Registration>, toks: seq<Token>, m: Method)
    requires Latest(rx, regs, toks, m).Some?
    ensures Proper(toks) && toks != [] && (AllRegularRegs(rx, regs) ==> Regular(toks))
  {
    hide Proper, Regular, Tokens, Compiles, Keys;
    var i := LatestFrom(rx, regs, toks, m);
    TokensProper(regs[i].pattern);
    if AllRegularRegs(rx, regs) {
      assert RegularReg(rx, regs[i]);
    }
  }

  lemma RootBare(n: Node, rs: seq<Route>)
    requires rs == Routes(n) && forall k :: 0 <= k < |rs| ==> rs[k].toks != []
    ensures n.endpoints.None? && Own(n) == [] && Routes(n) == Below(n)
  {
    hide Below;
    if n.endpoints.Some? {
      OwnInFront(n);
    }
    assert Own(n) == [] ==> Own(n) + Below(n) == Below(n);
  }

  lemma OwnInFront(n: Node)
    requires n.endpoints.Some?
    ensures Routes(n) != [] && Routes(n)[0].toks == []
  {
    hide Below;
  }

  lemma EntryServes(r: Route, m: Method)
    ensures Serves(Some(r.eps), m) <==> Entry(r, m).Some? && Entry(r, m).value.handler != NoHandler
    ensures Serves(Some(r.eps), m) ==> Entry(r, m) == Some(r.eps[m])
  {}
}
