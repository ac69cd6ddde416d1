/** When the order of registrations decides: where two endpoints of one route compete for the path, or
    two parameters that end differently, or a route that only some orders leave without a handler. */
module RegistrationOrder {
  import opened Text
  import opened Patterns
  import opened RouteTree
  import opened RouteRegister
  import opened RouteSiblings
  import opened RouteWays
  import opened RouteChoice
  import opened Routing
  import opened Lookups
  import opened Isolation

  /** The same registrations in another order. */
  ghost predicate Reordered(regs: seq<Registration>, regs': seq<Registration>) {
    multiset(regs) == multiset(regs')
  }

  lemma SameMembers(regs: seq<Registration>, regs': seq<Registration>)
    requires Reordered(regs, regs')
    ensures forall reg :: reg in regs <==> reg in regs'
  {
    forall reg ensures reg in regs <==> reg in regs' {
      assert reg in regs <==> reg in multiset(regs);
      assert reg in regs' <==> reg in multiset(regs');
    }
  }

  function Without(regs: seq<Registration>, i: nat): seq<Registration>
    requires i < |regs|
  {
    regs[..i] + regs[i + 1..]
  }

  lemma MoveOne(regs: seq<Registration>, i: nat)
    requires i < |regs|
    ensures Reordered(regs, [regs[i]] + Without(regs, i)) && Reordered(regs, Without(regs, i) + [regs[i]])
    ensures forall reg :: reg in regs && reg != regs[i] ==> reg in Without(regs, i)
  {
    assert regs == regs[..i] + [regs[i]] + regs[i + 1..];
  }

  lemma RegularSame(rx: Engine, regs: seq<Registration>, regs': seq<Registration>)
    requires Reordered(regs, regs') && AllRegularRegs(rx, regs)
    ensures AllRegularRegs(rx, regs')
  {
    hide RegularReg, Reordered;
    SameMembers(regs, regs');
    forall i | 0 <= i < |regs'| ensures RegularReg(rx, regs'[i]) {
      assert regs'[i] in regs;
    }
  }

  // ---------------------------------------------------------------- what does not depend on the order

  predicate TokenBefore(x: Token, y: Token) {
    || StepRank(Plain(x)) < StepRank(Plain(y))
    || (x.Lit? && y.Lit? && x.c < y.c)
    || (x.Param? && y.Param? && x.tail != '/' && y.tail == '/')
  }

  /** Pattern `a` is tried before pattern `b`, in whatever order they were registered. */
  predicate AlwaysBefore(a: seq<Token>, b: seq<Token>) {
    b != [] && (a == [] || if a[0] == b[0] then AlwaysBefore(a[1..], b[1..]) else TokenBefore(a[0], b[0]))
  }

  /** Where the patterns part there are two parameters, neither of which ends at a slash. */
  predicate Tie(a: seq<Token>, b: seq<Token>) {
    && a != [] && b != []
    && if a[0] == b[0] then Tie(a[1..], b[1..])
       else a[0].Param? && b[0].Param? && a[0].tail != '/' && b[0].tail != '/'
  }

  lemma {:induction false} OneOfThree(a: seq<Token>, b: seq<Token>)
    requires Regular(a) && Regular(b) && a != b
    ensures AlwaysBefore(a, b) || AlwaysBefore(b, a) || Tie(a, b)
    decreases |a|
  {
    if a != [] && b != [] && a[0] == b[0] {
      assert a == [a[0]] + a[1..] && b == [b[0]] + b[1..];
      assert Regular(a[1..]) && Regular(b[1..]) by { RegularTail(a); RegularTail(b); }
      OneOfThree(a[1..], b[1..]);
    }
  }

  lemma RegularTail(a: seq<Token>)
    requires Regular(a) && a != []
    ensures Regular(a[1..])
  {
    assert forall i :: 0 <= i < |a| - 1 ==> a[1..][i] == a[i + 1];
  }

  lemma {:induction false} TieIsOpen(a: seq<Token>, b: seq<Token>)
    requires Tie(a, b)
    ensures !AlwaysBefore(a, b)
    decreases |a|
  {
    if a[0] == b[0] {
      TieIsOpen(a[1..], b[1..]);
    }
  }

  // ---------------------------------------------------------------- places in a list

  /** Parameters only, and one that ends at a slash is last. */
  predicate SlashEnds(l: seq<Token>) {
    forall i :: 0 <= i < |l| ==> l[i].Param? && (l[i].tail == '/' ==> i == |l| - 1)
  }

  lemma {:induction false} SlashIsLast(rx: Engine, regs: seq<Registration>, p: seq<Token>)
    ensures SlashEnds(Siblings(rx, regs, p, NtParam))
    decreases |regs|
  {
    hide Shape, Grown, SlashEnds;
    if regs == [] {
      assert SlashEnds([]) by { NoneEnds(); }
    } else {
      SlashIsLast(rx, regs[..|regs| - 1], p);
      GrownSlash(Siblings(rx, regs[..|regs| - 1], p, NtParam), p, Shape(rx, regs[|regs| - 1]));
    }
  }

  lemma NoneEnds()
    ensures SlashEnds([])
  {}

  lemma GrownSlash(l: seq<Token>, p: seq<Token>, toks: Option<seq<Token>>)
    requires SlashEnds(l)
    ensures SlashEnds(Grown(l, p, toks, NtParam))
  {}

  lemma NotSlash(l: seq<Token>, x: Token, y: Token)
    requires SlashEnds(l) && InOrder(l, x, y)
    ensures x.Param? && x.tail != '/'
  {}

  /** What is registered first and does not end at a slash stays first. */
  lemma {:induction false} FirstStays(rx: Engine, reg: Registration, regs: seq<Registration>, p: seq<Token>)
    requires Legible(rx, reg) && GoesOn(PatternTokens(reg), p, NtParam) && TailOf(PatternTokens(reg)[|p|]) != '/'
    ensures var l := Siblings(rx, [reg] + regs, p, NtParam); l != [] && l[0] == PatternTokens(reg)[|p|]
    decreases |regs|
  {
    hide Tokens, Compiles, GoesOn;
    if regs == [] {
      assert [reg] + regs == [reg] && [reg][..0] == [];
      assert Siblings(rx, [], p, NtParam) == [];
    } else {
      var front, last := regs[..|regs| - 1], regs[|regs| - 1];
      FirstStays(rx, reg, front, p);
      assert [reg] + regs == [reg] + front + [last];
      SiblingsSnoc(rx, [reg] + front, last, p, NtParam);
    }
  }

  // ---------------------------------------------------------------- the order in a tree

  lemma {:induction false} BeforeIsEarlier(rx: Engine, regs: seq<Registration>, i: nat, k: nat, p: seq<Token>, a: seq<Token>, b: seq<Token>)
    requires i < |regs| && Legible(rx, regs[i]) && PatternTokens(regs[i]) == p + a
    requires k < |regs| && Legible(rx, regs[k]) && PatternTokens(regs[k]) == p + b && AlwaysBefore(a, b)
    ensures Earlier(SibsOf(rx, regs), p, Plains(a), Plains(b))
    decreases |a|
  {
    hide Siblings, Tokens, Compiles;
    if a != [] {
      assert Plains(a)[1..] == Plains(a[1..]) && Plains(b)[1..] == Plains(b[1..]);
      if a[0] == b[0] {
        assert p + a == p + [a[0]] + a[1..] && p + b == p + [b[0]] + b[1..];
        BeforeIsEarlier(rx, regs, i, k, p + [a[0]], a[1..], b[1..]);
      } else if a[0].Param? && b[0].Param? {
        assert (p + a)[..|p|] == p && (p + b)[..|p|] == p;
        InSiblings(rx, regs, i, p, NtParam);
        InSiblings(rx, regs, k, p, NtParam);
        SlashIsLast(rx, regs, p);
        InFront(Siblings(rx, regs, p, NtParam), a[0], b[0]);
      }
    }
  }

  lemma InFront(l: seq<Token>, x: Token, y: Token)
    requires SlashEnds(l) && x in l && y in l && x != y && y.Param? && y.tail == '/'
    ensures InOrder(l, x, y)
  {
    var i :| 0 <= i < |l| && l[i] == x;
    var j :| 0 <= j < |l| && l[j] == y;
    assert i < j;
  }

  /** What is tried earlier in one order is always earlier, or ties. */
  lemma {:induction false} EarlierMeans(rx: Engine, regs: seq<Registration>, p: seq<Token>, a: seq<Token>, b: seq<Token>)
    requires Regular(a) && Earlier(SibsOf(rx, regs), p, Plains(a), Plains(b))
    ensures AlwaysBefore(a, b) || Tie(a, b)
    decreases |a|
  {
    hide Siblings;
    if a != [] {
      assert Plains(a)[1..] == Plains(a[1..]) && Plains(b)[1..] == Plains(b[1..]);
      if a[0] == b[0] {
        RegularTail(a);
        EarlierMeans(rx, regs, p + [a[0]], a[1..], b[1..]);
      } else if a[0].Param? && b[0].Param? {
        hide InOrder, SlashEnds;
        SlashIsLast(rx, regs, p);
        NotSlash(Siblings(rx, regs, p, NtParam), a[0], b[0]);
      }
    }
  }

  /** The one that is registered first is tried first. */
  lemma {:induction false} TieFirst(rx: Engine, reg: Registration, regs: seq<Registration>, i: nat, p: seq<Token>, a: seq<Token>, b: seq<Token>)
    requires Legible(rx, reg) && PatternTokens(reg) == p + b && Tie(a, b)
    requires i < |regs| && Legible(rx, regs[i]) && PatternTokens(regs[i]) == p + a
    ensures Earlier(SibsOf(rx, [reg] + regs), p, Plains(b), Plains(a))
    decreases |a|
  {
    hide Siblings, Tokens, Compiles;
    assert Plains(a)[1..] == Plains(a[1..]) && Plains(b)[1..] == Plains(b[1..]);
    if a[0] == b[0] {
      assert p + b == p + [b[0]] + b[1..] && p + a == p + [a[0]] + a[1..];
      TieFirst(rx, reg, regs, i, p + [a[0]], a[1..], b[1..]);
    } else {
      assert (p + b)[..|p|] == p && (p + a)[..|p|] == p;
      FirstStays(rx, reg, regs, p);
      assert ([reg] + regs)[i + 1] == regs[i];
      InSiblings(rx, [reg] + regs, i + 1, p, NtParam);
      var l := Siblings(rx, [reg] + regs, p, NtParam);
      var k :| 0 <= k < |l| && l[k] == a[0];
      assert InOrder(l, b[0], a[0]) by { assert l[0] == b[0] && k > 0; }
    }
  }

  // ---------------------------------------------------------------- order independence

  ghost predicate AnyOrder(rx: Engine, regs: seq<Registration>, m: Method, s: string) {
    forall regs' :: Reordered(regs, regs') ==> Find(rx, Build(rx, regs'), m, s) == Find(rx, Build(rx, regs), m, s)
  }

  /** In force, the registration could answer the lookup. */
  ghost predicate Competes(rx: Engine, reg: Registration, m: Method, s: string) {
    Concerns(rx, reg, m, s) && reg.handler != NoHandler
  }

  /** The registration does not take the lookup away from this route and endpoint, in any order: it
      sets the same endpoint, or it could not answer or is always tried later. */
  ghost predicate Yields(rx: Engine, reg: Registration, m: Method, s: string, toks: seq<Token>, e: Endpoint) {
    && (Sets(rx, reg, toks, m) ==> EndpointOf(reg) == e)
    && (Competes(rx, reg, m, s) && PatternTokens(reg) != toks ==> AlwaysBefore(toks, PatternTokens(reg)))
  }

  /** The order of registrations of regular patterns does not matter for a lookup if and only if all
      of them yield to the answer, or none could answer where there is none. */
  lemma OrderIff(rx: Engine, regs: seq<Registration>, m: Method, s: string)
    requires AllRegularRegs(rx, regs)
    ensures var f := Find(rx, Build(rx, regs), m, s);
            if f.NotFound? then AnyOrder(rx, regs, m, s) <==> forall reg :: reg in regs ==> !Competes(rx, reg, m, s)
            else Tokens(f.endpoint.pattern).Ok? &&
                 (AnyOrder(rx, regs, m, s) <==>
                  forall reg :: reg in regs ==> Yields(rx, reg, m, s, Tokens(f.endpoint.pattern).value, f.endpoint))
  {
    hide *;
    var f := Find(rx, Build(rx, regs), m, s);
    var toks := LookupIsBestMatch(rx, regs, m, s);
    if f.Found? {
      AnswerTokens(rx, regs, m, toks, f.endpoint);
      if !forall reg :: reg in regs ==> Yields(rx, reg, m, s, toks, f.endpoint) {
        var reg :| reg in regs && !Yields(rx, reg, m, s, toks, f.endpoint);
        var i :| 0 <= i < |regs| && regs[i] == reg;
        OtherOrder(rx, regs, m, s, toks, i);
      } else {
        AnswerStays(rx, regs, m, s, toks);
      }
    } else {
      if i :| 0 <= i < |regs| && Competes(rx, regs[i], m, s) {
        LastIsFound(rx, regs, m, s, i);
      } else {
        NothingStays(rx, regs, m, s);
      }
    }
  }

  lemma AnswerTokens(rx: Engine, regs: seq<Registration>, m: Method, toks: seq<Token>, e: Endpoint)
    requires Latest(rx, regs, toks, m) == Some(e)
    ensures Tokens(e.pattern) == Ok(toks)
  {
    hide Tokens, Compiles, Keys, Latest;
    var i := LatestFrom(rx, regs, toks, m);
  }

  /** Whatever is in force in some order was registered. */
  lemma LiveCompetes(rx: Engine, regs: seq<Registration>, regs': seq<Registration>, m: Method, s: string, toks: seq<Token>, caps: seq<string>)
      returns (reg: Registration)
    requires Reordered(regs, regs') && Live(rx, regs', toks, m) && Fits(toks, caps, s)
    ensures reg in regs && reg in regs' && Competes(rx, reg, m, s) && PatternTokens(reg) == toks
    ensures Some(EndpointOf(reg)) == Latest(rx, regs', toks, m)
  {
    hide Tokens, Compiles, Keys, Latest, Fits, Reordered;
    SameMembers(regs, regs');
    var i := LatestFrom(rx, regs', toks, m);
    reg := regs'[i];
    assert reg in regs';
  }

  lemma NothingStays(rx: Engine, regs: seq<Registration>, m: Method, s: string)
    requires AllRegularRegs(rx, regs) && Find(rx, Build(rx, regs), m, s).NotFound?
    requires forall i :: 0 <= i < |regs| ==> !Competes(rx, regs[i], m, s)
    ensures AnyOrder(rx, regs, m, s) && forall reg :: reg in regs ==> !Competes(rx, reg, m, s)
  {
    hide Find, Build, Latest, Fits, AllRegularRegs, Reordered, Competes, PatternTokens, EndpointOf, TriedBefore;
    forall regs' | Reordered(regs, regs') ensures Find(rx, Build(rx, regs'), m, s).NotFound? {
      RegularSame(rx, regs, regs');
      var toks := LookupIsBestMatch(rx, regs', m, s);
      if Find(rx, Build(rx, regs'), m, s).Found? {
        var reg := LiveCompetes(rx, regs, regs', m, s, toks, Find(rx, Build(rx, regs'), m, s).caps);
      }
    }
  }

  lemma AnswerStays(rx: Engine, regs: seq<Registration>, m: Method, s: string, toks: seq<Token>)
    requires AllRegularRegs(rx, regs)
    requires var f := Find(rx, Build(rx, regs), m, s);
             && f.Found? && Latest(rx, regs, toks, m) == Some(f.endpoint) && f.endpoint.handler != NoHandler && Fits(toks, f.caps, s)
             && forall reg :: reg in regs ==> Yields(rx, reg, m, s, toks, f.endpoint)
    ensures AnyOrder(rx, regs, m, s)
  {
    hide Find, Build, Latest, Fits, AllRegularRegs, Reordered, Yields;
    forall regs' | Reordered(regs, regs') ensures Find(rx, Build(rx, regs'), m, s) == Find(rx, Build(rx, regs), m, s) {
      SameInOrder(rx, regs, regs', m, s, toks);
    }
  }

  lemma SameInOrder(rx: Engine, regs: seq<Registration>, regs': seq<Registration>, m: Method, s: string, toks: seq<Token>)
    requires AllRegularRegs(rx, regs) && Reordered(regs, regs')
    requires var f := Find(rx, Build(rx, regs), m, s);
             && f.Found? && Latest(rx, regs, toks, m) == Some(f.endpoint) && f.endpoint.handler != NoHandler && Fits(toks, f.caps, s)
             && forall reg :: reg in regs ==> Yields(rx, reg, m, s, toks, f.endpoint)
    ensures Find(rx, Build(rx, regs'), m, s) == Find(rx, Build(rx, regs), m, s)
  {
    hide Find, Build, Latest, Tokens, Compiles, Keys, Fits, AllRegularRegs, Reordered, Competes, AlwaysBefore, SibsOf, Earlier, Plains, EndpointOf;
    var f, f' := Find(rx, Build(rx, regs), m, s), Find(rx, Build(rx, regs'), m, s);
    RegularSame(rx, regs, regs');
    SameMembers(regs, regs');
    var k := LatestMoved(rx, regs, regs', m, toks, f.endpoint);
    var best := LookupIsBestMatch(rx, regs', m, s);
    assert Live(rx, regs', toks, m) && Fits(toks, f.caps, s);
    LiveTokens(rx, regs, toks, m);
    if best != toks {
      var reg := LiveCompetes(rx, regs, regs', m, s, best, f'.caps);
      var i :| 0 <= i < |regs'| && regs'[i] == reg;
      assert Yields(rx, reg, m, s, toks, f.endpoint);
      assert [] + toks == toks && [] + best == best;
      assert Accepted(rx, reg) by { CompetesIs(rx, reg, m, s); }
      BeforeIsEarlier(rx, regs', k, i, [], toks, best);
      SibsNoRepeat(rx, regs');
      EarlierOneWay(SibsOf(rx, regs'), [], Plains(toks), Plains(best));
    } else {
      OneFit(rx, toks, f.caps, f'.caps, s);
    }
  }

  lemma CompetesIs(rx: Engine, reg: Registration, m: Method, s: string)
    requires Competes(rx, reg, m, s)
    ensures Accepted(rx, reg) && reg.verb == m && reg.handler != NoHandler
  {
    hide Tokens, Compiles, Keys, Fits;
  }

  /** The endpoint in force stays in force where all registrations of its route set it. */
  lemma LatestMoved(rx: Engine, regs: seq<Registration>, regs': seq<Registration>, m: Method, toks: seq<Token>, e: Endpoint) returns (k: nat)
    requires (forall reg :: reg in regs <==> reg in regs') && Latest(rx, regs, toks, m) == Some(e)
    requires forall reg :: reg in regs && Sets(rx, reg, toks, m) ==> EndpointOf(reg) == e
    ensures Latest(rx, regs', toks, m) == Some(e)
    ensures k < |regs'| && Accepted(rx, regs'[k]) && PatternTokens(regs'[k]) == toks
  {
    hide Tokens, Compiles, Keys, Latest, EndpointOf;
    var i := LatestFrom(rx, regs, toks, m);
    assert regs[i] in regs';
    k :| 0 <= k < |regs'| && regs'[k] == regs[i];
    LatestExists(rx, regs', k);
    var j := LatestFrom(rx, regs', toks, m);
    assert regs'[j] in regs;
  }

  lemma OneFit(rx: Engine, toks: seq<Token>, a: seq<string>, b: seq<string>, s: string)
    requires Proper(toks) && Regular(toks) && Fits(toks, a, s) && Fits(toks, b, s)
    ensures a == b
  {
    hide Fits, Match, Proper, Regular;
    MatchIffFits(rx, toks, a, s);
    MatchIffFits(rx, toks, b, s);
  }

  // ---------------------------------------------------------------- orders that change the answer

  /** Moved to the end, a registration is in force. */
  lemma LastIsFound(rx: Engine, regs: seq<Registration>, m: Method, s: string, i: nat)
    requires AllRegularRegs(rx, regs) && i < |regs| && Competes(rx, regs[i], m, s) && Find(rx, Build(rx, regs), m, s).NotFound?
    ensures !AnyOrder(rx, regs, m, s) && regs[i] in regs
  {
    hide Find, Build, Latest, Tokens, Compiles, Keys, Fits, AllRegularRegs, Reordered, TriedBefore;
    var regs' := Without(regs, i) + [regs[i]];
    MoveOne(regs, i);
    RegularSame(rx, regs, regs');
    var toks := PatternTokens(regs[i]);
    LatestSnoc(rx, Without(regs, i), regs[i], toks, m);
    var caps :| Fits(toks, caps, s);
    assert Live(rx, regs', toks, m);
    var _ := LookupIsBestMatch(rx, regs', m, s);
  }

  /** An order in which a pattern that could answer is in force and tried before the answer. */
  lemma Overtakes(rx: Engine, regs: seq<Registration>, regs': seq<Registration>, m: Method, s: string, toks: seq<Token>, toks': seq<Token>, caps': seq<string>)
    requires AllRegularRegs(rx, regs) && Reordered(regs, regs')
    requires Find(rx, Build(rx, regs), m, s).Found? && Latest(rx, regs, toks, m) == Some(Find(rx, Build(rx, regs), m, s).endpoint)
    requires Live(rx, regs', toks', m) && Fits(toks', caps', s) && Earlier(SibsOf(rx, regs'), [], Plains(toks'), Plains(toks))
    ensures !AnyOrder(rx, regs, m, s)
  {
    hide Find, Build, Latest, Fits, AllRegularRegs, Reordered, SibsOf, Earlier, Plains;
    RegularSame(rx, regs, regs');
    var best := LookupIsBestMatch(rx, regs', m, s);
    SibsNoRepeat(rx, regs');
    if Find(rx, Build(rx, regs'), m, s) == Find(rx, Build(rx, regs), m, s) {
      EndpointTells(rx, regs', regs, best, toks, m);
      EarlierOneWay(SibsOf(rx, regs'), [], Plains(toks'), Plains(toks));
    }
  }

  lemma OtherOrder(rx: Engine, regs: seq<Registration>, m: Method, s: string, toks: seq<Token>, i: nat)
    requires AllRegularRegs(rx, regs) && i < |regs|
    requires Find(rx, Build(rx, regs), m, s).Found? && Latest(rx, regs, toks, m) == Some(Find(rx, Build(rx, regs), m, s).endpoint)
    requires !Yields(rx, regs[i], m, s, toks, Find(rx, Build(rx, regs), m, s).endpoint)
    ensures !AnyOrder(rx, regs, m, s)
  {
    hide Find, Build, Latest, Tokens, Compiles, Keys, Fits, AllRegularRegs, Reordered, AlwaysBefore, EndpointOf;
    if Sets(rx, regs[i], toks, m) {
      OtherEndpoint(rx, regs, m, s, toks, i);
    } else {
      var toks' := PatternTokens(regs[i]);
      var caps' :| Fits(toks', caps', s);
      LiveTokens(rx, regs, toks, m);
      assert Regular(toks') by { assert RegularReg(rx, regs[i]) by { RegularOne(rx, regs, i); } }
      OneOfThree(toks, toks');
      if AlwaysBefore(toks', toks) {
        BetterLast(rx, regs, m, s, toks, i, caps');
      } else {
        TiedFirst(rx, regs, m, s, toks, i, caps');
      }
    }
  }

  lemma RegularOne(rx: Engine, regs: seq<Registration>, i: nat)
    requires AllRegularRegs(rx, regs) && i < |regs|
    ensures RegularReg(rx, regs[i])
  {}

  lemma OtherEndpoint(rx: Engine, regs: seq<Registration>, m: Method, s: string, toks: seq<Token>, i: nat)
    requires AllRegularRegs(rx, regs) && i < |regs| && Sets(rx, regs[i], toks, m)
    requires Find(rx, Build(rx, regs), m, s).Found? && Latest(rx, regs, toks, m) == Some(Find(rx, Build(rx, regs), m, s).endpoint)
    requires EndpointOf(regs[i]) != Find(rx, Build(rx, regs), m, s).endpoint
    ensures !AnyOrder(rx, regs, m, s)
  {
    hide Find, Build, Latest, Tokens, Compiles, Keys, AllRegularRegs, Reordered, TriedBefore, Fits, EndpointOf;
    var regs' := Without(regs, i) + [regs[i]];
    MoveOne(regs, i);
    RegularSame(rx, regs, regs');
    LatestSnoc(rx, Without(regs, i), regs[i], toks, m);
    var best := LookupIsBestMatch(rx, regs', m, s);
    if Find(rx, Build(rx, regs'), m, s) == Find(rx, Build(rx, regs), m, s) {
      EndpointTells(rx, regs', regs, best, toks, m);
    }
  }

  /** A pattern that is always tried before the answer, in force at the end. */
  lemma BetterLast(rx: Engine, regs: seq<Registration>, m: Method, s: string, toks: seq<Token>, i: nat, caps': seq<string>)
    requires AllRegularRegs(rx, regs) && i < |regs| && Accepted(rx, regs[i]) && regs[i].verb == m && regs[i].handler != NoHandler
    requires Find(rx, Build(rx, regs), m, s).Found? && Latest(rx, regs, toks, m) == Some(Find(rx, Build(rx, regs), m, s).endpoint)
    requires Fits(PatternTokens(regs[i]), caps', s) && AlwaysBefore(PatternTokens(regs[i]), toks)
    ensures !AnyOrder(rx, regs, m, s)
  {
    hide Find, Build, Latest, Tokens, Compiles, Keys, Fits, AllRegularRegs, Reordered, AlwaysBefore, SibsOf, Earlier, Plains;
    var toks' := PatternTokens(regs[i]);
    var regs' := Without(regs, i) + [regs[i]];
    MoveOne(regs, i);
    LatestSnoc(rx, Without(regs, i), regs[i], toks', m);
    SameMembers(regs, regs');
    var k := LatestFrom(rx, regs, toks, m);
    assert regs[k] in regs';
    var k' :| 0 <= k' < |regs'| && regs'[k'] == regs[k];
    assert regs'[|regs'| - 1] == regs[i] && [] + toks == toks && [] + toks' == toks';
    BeforeIsEarlier(rx, regs', |regs'| - 1, k', [], toks', toks);
    Overtakes(rx, regs, regs', m, s, toks, toks', caps');
  }

  lemma {:induction false} LatestCons(rx: Engine, reg: Registration, regs: seq<Registration>, toks: seq<Token>, m: Method)
    requires Sets(rx, reg, toks, m) && Latest(rx, regs, toks, m).None?
    ensures Latest(rx, [reg] + regs, toks, m) == Some(EndpointOf(reg))
    decreases |regs|
  {
    hide Tokens, Compiles, Keys, EndpointOf;
    if regs == [] {
      assert [reg] + regs == [] + [reg];
      LatestSnoc(rx, [], reg, toks, m);
    } else {
      var front, last := regs[..|regs| - 1], regs[|regs| - 1];
      LatestCons(rx, reg, front, toks, m);
      assert [reg] + regs == [reg] + front + [last];
      LatestSnoc(rx, [reg] + front, last, toks, m);
    }
  }

  /** A pattern that ties with the answer, registered first. Where its route is registered more than
      once, another registration goes first, and this one last. */
  lemma TiedFirst(rx: Engine, regs: seq<Registration>, m: Method, s: string, toks: seq<Token>, i: nat, caps': seq<string>)
    requires AllRegularRegs(rx, regs) && i < |regs| && Accepted(rx, regs[i]) && regs[i].verb == m && regs[i].handler != NoHandler
    requires Find(rx, Build(rx, regs), m, s).Found? && Latest(rx, regs, toks, m) == Some(Find(rx, Build(rx, regs), m, s).endpoint)
    requires Fits(PatternTokens(regs[i]), caps', s) && Tie(toks, PatternTokens(regs[i]))
    ensures !AnyOrder(rx, regs, m, s)
  {
    hide Find, Build, Latest, Tokens, Compiles, Keys, Fits, AllRegularRegs, Reordered, Tie, SibsOf, Earlier, Plains;
    var toks' := PatternTokens(regs[i]);
    NotTied(toks);
    var k := LatestFrom(rx, regs, toks, m);
    var rest := Without(regs, i);
    MoveOne(regs, i);
    assert regs[k] in rest;
    var first, others := regs[i], rest;
    if Latest(rx, rest, toks', m).None? {
      LatestCons(rx, regs[i], rest, toks', m);
    } else {
      var j := LatestFrom(rx, rest, toks', m);
      MoveOne(rest, j);
      first, others := rest[j], Without(rest, j) + [regs[i]];
      assert regs[k] in Without(rest, j);
      assert regs[k] in others by { InLonger(Without(rest, j), regs[i], regs[k]); }
      assert [first] + others == [first] + Without(rest, j) + [regs[i]];
      LatestSnoc(rx, [first] + Without(rest, j), regs[i], toks', m);
      MovedTwice(regs, i, j);
    }
    var k' :| 0 <= k' < |others| && others[k'] == regs[k];
    assert [] + toks == toks && [] + toks' == toks';
    TieFirst(rx, first, others, k', [], toks, toks');
    Overtakes(rx, regs, [first] + others, m, s, toks, toks', caps');
  }

  lemma InLonger(regs: seq<Registration>, last: Registration, reg: Registration)
    requires reg in regs
    ensures reg in regs + [last]
  {}

  lemma MovedTwice(regs: seq<Registration>, i: nat, j: nat)
    requires i < |regs| && j < |Without(regs, i)|
    ensures Reordered(regs, [Without(regs, i)[j]] + (Without(Without(regs, i), j) + [regs[i]]))
  {
    var rest := Without(regs, i);
    MoveOne(regs, i);
    MoveOne(rest, j);
    assert multiset(rest + [regs[i]]) == multiset(rest) + multiset{regs[i]};
    assert multiset([rest[j]] + Without(rest, j) + [regs[i]]) == multiset([rest[j]] + Without(rest, j)) + multiset{regs[i]};
    assert [rest[j]] + (Without(rest, j) + [regs[i]]) == [rest[j]] + Without(rest, j) + [regs[i]];
  }

  lemma {:induction false} NotTied(a: seq<Token>)
    ensures !Tie(a, a)
    decreases |a|
  {
    if a != [] {
      NotTied(a[1..]);
    }
  }

  // ---------------------------------------------------------------- no route twice

  /** No route is registered twice for one method. */
  predicate OneEach(rx: Engine, regs: seq<Registration>) {
    forall i, j :: 0 <= i < |regs| && 0 <= j < |regs| && Accepted(rx, regs[i]) && Sets(rx, regs[j], PatternTokens(regs[i]), regs[i].verb)
      ==> regs[i] == regs[j]
  }

  /** A fitting pattern in force ties with the pattern of the answer. */
  ghost predicate Contested(rx: Engine, regs: seq<Registration>, m: Method, s: string, toks: seq<Token>) {
    exists toks', caps' :: Live(rx, regs, toks', m) && Fits(toks', caps', s) && Tie(toks, toks')
  }

  lemma InForce(rx: Engine, regs: seq<Registration>, i: nat)
    requires OneEach(rx, regs) && i < |regs| && Accepted(rx, regs[i])
    ensures Latest(rx, regs, PatternTokens(regs[i]), regs[i].verb) == Some(EndpointOf(regs[i]))
  {
    hide Tokens, Compiles, Keys, Latest, EndpointOf;
    LatestExists(rx, regs, i);
    var j := LatestFrom(rx, regs, PatternTokens(regs[i]), regs[i].verb);
    assert Sets(rx, regs[j], PatternTokens(regs[i]), regs[i].verb);
  }

  /** With no route registered twice for one method only ties are left. */
  lemma OrderIffNoTie(rx: Engine, regs: seq<Registration>, m: Method, s: string)
    requires AllRegularRegs(rx, regs) && OneEach(rx, regs)
    ensures var f := Find(rx, Build(rx, regs), m, s);
            if f.NotFound? then AnyOrder(rx, regs, m, s)
            else Tokens(f.endpoint.pattern).Ok? &&
                 (AnyOrder(rx, regs, m, s) <==> !Contested(rx, regs, m, s, Tokens(f.endpoint.pattern).value))
  {
    hide Find, Build, Latest, Tokens, Fits, AllRegularRegs, OneEach, Tie, Compiles, Keys, Yields, AnyOrder, AlwaysBefore, TriedBefore, EndpointOf;
    var f := Find(rx, Build(rx, regs), m, s);
    OrderIff(rx, regs, m, s);
    var toks := LookupIsBestMatch(rx, regs, m, s);
    if f.NotFound? {
      forall i | 0 <= i < |regs| ensures !Competes(rx, regs[i], m, s) {
        if Competes(rx, regs[i], m, s) {
          InForce(rx, regs, i);
          EndpointHandler(regs[i]);
        }
      }
    } else {
      AnswerTokens(rx, regs, m, toks, f.endpoint);
      if Contested(rx, regs, m, s, toks) {
        var toks', caps' :| Live(rx, regs, toks', m) && Fits(toks', caps', s) && Tie(toks, toks');
        TiedCompetes(rx, regs, m, s, toks, toks', caps', f.endpoint);
      } else {
        forall i | 0 <= i < |regs| ensures Yields(rx, regs[i], m, s, toks, f.endpoint) {
          UntiedYields(rx, regs, m, s, toks, i, f.endpoint);
        }
      }
    }
  }

  lemma EndpointHandler(reg: Registration)
    requires Keys(reg.pattern).Ok?
    ensures EndpointOf(reg).handler == reg.handler
  {}

  lemma TiedCompetes(rx: Engine, regs: seq<Registration>, m: Method, s: string, toks: seq<Token>, toks': seq<Token>, caps': seq<string>, e: Endpoint)
    requires Live(rx, regs, toks', m) && Fits(toks', caps', s) && Tie(toks, toks')
    ensures exists reg :: reg in regs && !Yields(rx, reg, m, s, toks, e)
  {
    hide Latest, Tokens, Fits, Tie, Compiles, Keys, AlwaysBefore, Reordered;
    assert Reordered(regs, regs) by { SameOrder(regs); }
    var reg := LiveCompetes(rx, regs, regs, m, s, toks', caps');
    NotTied(toks);
    TieIsOpen(toks, toks');
    assert !Yields(rx, reg, m, s, toks, e);
  }

  lemma SameOrder(regs: seq<Registration>)
    ensures Reordered(regs, regs)
  {}

  lemma UntiedYields(rx: Engine, regs: seq<Registration>, m: Method, s: string, toks: seq<Token>, i: nat, e: Endpoint)
    requires AllRegularRegs(rx, regs) && OneEach(rx, regs) && i < |regs| && Latest(rx, regs, toks, m) == Some(e)
    requires forall toks', caps' :: Live(rx, regs, toks', m) && Fits(toks', caps', s) && toks' != toks ==> TriedBefore(rx, regs, toks, toks')
    requires !Contested(rx, regs, m, s, toks)
    ensures Yields(rx, regs[i], m, s, toks, e)
  {
    hide Latest, Tokens, Fits, Tie, Compiles, Keys, AlwaysBefore, AllRegularRegs, OneEach, SibsOf, Earlier, Plains, EndpointOf;
    if Accepted(rx, regs[i]) {
      InForce(rx, regs, i);
      EndpointHandler(regs[i]);
      var toks' := PatternTokens(regs[i]);
      if Competes(rx, regs[i], m, s) && toks' != toks {
        var caps' :| Fits(toks', caps', s);
        assert Live(rx, regs, toks', m);
        LiveTokens(rx, regs, toks, m);
        assert TriedBefore(rx, regs, toks, toks');
        EarlierMeans(rx, regs, [], toks, toks');
      }
    }
  }
}
