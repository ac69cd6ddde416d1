/** When one more registration leaves a lookup as it was: exactly, for histories of any patterns. */
module Isolation {
  import opened Text
  import opened Patterns
  import opened RouteTree
  import opened RouteRegister
  import opened RouteSiblings
  import opened RouteWays
  import opened RouteChoice
  import opened RouteFacts
  import opened Routing
  import opened Lookups

  /** The registration takes effect for this route and method. */
  predicate Sets(rx: Engine, reg: Registration, toks: seq<Token>, m: Method) {
    Accepted(rx, reg) && reg.verb == m && PatternTokens(reg) == toks
  }

  /** A way of the new pattern that could answer. */
  ghost predicate NewCandidate(rx: Engine, regs: seq<Registration>, reg: Registration, m: Method, s: string, v: seq<Step>) {
    Sets(rx, reg, Toks(v), m) && Candidate(rx, regs + [reg], m, s, v)
  }

  /** The answering way stays: its blanks still stand for last nodes, no way of the new pattern is
      tried before it, and its own endpoint is not replaced by a different one. */
  ghost predicate Stays(rx: Engine, regs: seq<Registration>, reg: Registration, m: Method, s: string, w: seq<Step>) {
    && Allowed(SibsOf(rx, regs + [reg]), [], w)
    && (forall v :: NewCandidate(rx, regs, reg, m, s, v) && v != w ==> Earlier(SibsOf(rx, regs + [reg]), [], w, v))
    && (Sets(rx, reg, Toks(w), m) ==> Latest(rx, regs, Toks(w), m) == Some(EndpointOf(reg)))
  }

  // ---------------------------------------------------------------- lists after one more registration

  lemma PutKeepsOrder(l: seq<Token>, tok: Token, x: Token, y: Token)
    requires WildToken(tok) && InOrder(l, x, y)
    ensures InOrder(PutToken(l, tok), x, y)
  {
    var i, j :| 0 <= i < j < |l| && l[i] == x && l[j] == y;
    var r := PutToken(l, tok);
    var j' := if |r| > |l| && j == |l| - 1 && r[j] != l[j] then j + 1 else j;
    assert r[i] == x && r[j'] == y;
  }

  lemma GrownKeepsOrder(l: seq<Token>, p: seq<Token>, toks: Option<seq<Token>>, t: NodeType, x: Token, y: Token)
    requires TakesParam(t) && InOrder(l, x, y)
    ensures InOrder(Grown(l, p, toks, t), x, y)
  {
    hide InOrder, PutToken;
    if toks.Some? && GoesOn(toks.value, p, t) && toks.value[|p|] !in l {
      PutKeepsOrder(l, toks.value[|p|], x, y);
    }
  }

  /** What is tried before stays before. */
  lemma {:induction false} EarlierStays(rx: Engine, regs: seq<Registration>, reg: Registration, p: seq<Token>, a: seq<Step>, b: seq<Step>)
    requires Earlier(SibsOf(rx, regs), p, a, b)
    ensures Earlier(SibsOf(rx, regs + [reg]), p, a, b)
    decreases |a|
  {
    hide Siblings, Grown, InOrder;
    if a != [] {
      if a[0] == b[0] {
        EarlierStays(rx, regs, reg, p + [a[0].tok], a[1..], b[1..]);
      } else {
        var t := KindOf(a[0].tok);
        if TakesParam(t) {
          SiblingsSnoc(rx, regs, reg, p, t);
          if InOrder(Siblings(rx, regs, p, t), a[0].tok, b[0].tok) {
            GrownKeepsOrder(Siblings(rx, regs, p, t), p, Shape(rx, reg), t, a[0].tok, b[0].tok);
          }
        } else {
          StepAnyList(SibsOf(rx, regs)(p, t), SibsOf(rx, regs + [reg])(p, t), a[0], b[0]);
        }
      }
    }
  }

  lemma InGrown(l: seq<Token>, p: seq<Token>, toks: Option<seq<Token>>, t: NodeType, x: Token)
    requires TakesParam(t)
    ensures x in l ==> x in Grown(l, p, toks, t)
    ensures toks.Some? && GoesOn(toks.value, p, t) ==> toks.value[|p|] in Grown(l, p, toks, t)
  {
    if toks.Some? && GoesOn(toks.value, p, t) && toks.value[|p|] !in l {
      assert l != [] ==> l == l[..|l| - 1] + [l[|l| - 1]];
    }
  }

  /** Every regexp or parameter of a registered pattern is in its list. */
  lemma {:induction false} InSiblings(rx: Engine, regs: seq<Registration>, i: nat, p: seq<Token>, t: NodeType)
    requires i < |regs| && Legible(rx, regs[i]) && TakesParam(t) && GoesOn(PatternTokens(regs[i]), p, t)
    ensures PatternTokens(regs[i])[|p|] in Siblings(rx, regs, p, t)
    decreases |regs|
  {
    hide Grown, Tokens, Compiles;
    var last := |regs| - 1;
    var l := Siblings(rx, regs[..last], p, t);
    if i < last {
      InSiblings(rx, regs[..last], i, p, t);
    }
    InGrown(l, p, Shape(rx, regs[last]), t, PatternTokens(regs[i])[|p|]);
  }

  lemma LastOfGrown(l: seq<Token>, p: seq<Token>, toks: Option<seq<Token>>, t: NodeType, x: Token)
    requires TakesParam(t) && x in l && LastOf(Grown(l, p, toks, t), x)
    ensures LastOf(l, x)
  {
    var r := Grown(l, p, toks, t);
    if toks.Some? && GoesOn(toks.value, p, t) && toks.value[|p|] !in l {
      assert r[|r| - 1] == toks.value[|p|] || r[|r| - 1] == l[|l| - 1];
    }
  }

  /** A way of a pattern that was in force before had its blanks before, too. */
  lemma {:induction false} AllowedBefore(rx: Engine, regs: seq<Registration>, reg: Registration, i: nat, p: seq<Token>, w: seq<Step>)
    requires i < |regs| && Legible(rx, regs[i]) && PatternTokens(regs[i]) == p + Toks(w)
    requires Allowed(SibsOf(rx, regs + [reg]), p, w)
    ensures Allowed(SibsOf(rx, regs), p, w)
    decreases |w|
  {
    hide Siblings, Grown, Tokens, Compiles, Shape, LastOf;
    if w != [] {
      var tok := w[0].tok;
      var toks := PatternTokens(regs[i]);
      assert p + Toks(w) == p + [tok] + Toks(w[1..]);
      AllowedBefore(rx, regs, reg, i, p + [tok], w[1..]);
      if w[0].Blank? {
        var t := KindOf(tok);
        assert toks[|p|] == tok && toks[..|p|] == p;
        InSiblings(rx, regs, i, p, t);
        SiblingsSnoc(rx, regs, reg, p, t);
        LastOfGrown(Siblings(rx, regs, p, t), p, Shape(rx, reg), t, tok);
      }
    }
  }

  // ---------------------------------------------------------------- candidates after one more registration

  lemma OldCandidate(rx: Engine, regs: seq<Registration>, reg: Registration, m: Method, s: string, v: seq<Step>)
    requires Candidate(rx, regs + [reg], m, s, v) && !Sets(rx, reg, Toks(v), m)
    ensures Candidate(rx, regs, m, s, v)
  {
    hide SibsOf, Allowed, MatchWay, Latest, Tokens, Compiles, Keys, Toks;
    LatestSnoc(rx, regs, reg, Toks(v), m);
    var i := LatestFrom(rx, regs, Toks(v), m);
    assert [] + Toks(v) == Toks(v);
    AllowedBefore(rx, regs, reg, i, [], v);
  }

  lemma StillCandidate(rx: Engine, regs: seq<Registration>, reg: Registration, m: Method, s: string, w: seq<Step>)
    requires Candidate(rx, regs, m, s, w) && Allowed(SibsOf(rx, regs + [reg]), [], w)
    requires Sets(rx, reg, Toks(w), m) ==> Latest(rx, regs, Toks(w), m) == Some(EndpointOf(reg))
    ensures Candidate(rx, regs + [reg], m, s, w) && Latest(rx, regs + [reg], Toks(w), m) == Latest(rx, regs, Toks(w), m)
  {
    hide SibsOf, Allowed, MatchWay, Latest, Accepted, PatternTokens, EndpointOf, Toks;
    LatestSnoc(rx, regs, reg, Toks(w), m);
  }

  /** The answer before still answers. */
  lemma StillAnswers(rx: Engine, regs: seq<Registration>, reg: Registration, m: Method, s: string, w: seq<Step>)
    requires Answers(rx, regs, m, s, w) && Stays(rx, regs, reg, m, s, w)
    ensures Answers(rx, regs + [reg], m, s, w) && Latest(rx, regs + [reg], Toks(w), m) == Latest(rx, regs, Toks(w), m)
  {
    hide SibsOf, Allowed, MatchWay, Latest, Sets, EndpointOf, Toks, Earlier, Live;
    StillCandidate(rx, regs, reg, m, s, w);
    forall v | Candidate(rx, regs + [reg], m, s, v) && v != w ensures Earlier(SibsOf(rx, regs + [reg]), [], w, v) {
      if !Sets(rx, reg, Toks(v), m) {
        OldCandidate(rx, regs, reg, m, s, v);
        EarlierStays(rx, regs, reg, [], w, v);
      }
    }
  }

  /** One route, one capture, one way: two answers that agree in both are the same way. */
  lemma SameAnswer(rx: Engine, regs: seq<Registration>, regs': seq<Registration>, m: Method, s: string, w: seq<Step>, w': seq<Step>)
    requires Answers(rx, regs, m, s, w) && Answers(rx, regs', m, s, w')
    requires Toks(w) == Toks(w') && MatchWay(rx, w, s) == MatchWay(rx, w', s)
    ensures w == w'
  {
    hide SibsOf, Allowed, MatchWay, Toks, Earlier, Live, Plainer, Latest;
    AllowedWild(SibsOf(rx, regs), [], w);
    AllowedWild(SibsOf(rx, regs'), [], w');
    if w != w' {
      var first, i := SameCaptures(rx, w, w', s);
      if first {
        NotPlainer(rx, regs, m, s, w, i);
      } else {
        NotPlainer(rx, regs', m, s, w', i);
      }
    }
  }

  /** The plain form of a blank of the answering way does not match. */
  lemma NotPlainer(rx: Engine, regs: seq<Registration>, m: Method, s: string, w: seq<Step>, i: nat)
    requires Answers(rx, regs, m, s, w) && i < |w| && w[i].Blank? && BlanksWild(w)
    ensures MatchWay(rx, Plainer(w, i), s).None?
  {
    hide SibsOf, Allowed, MatchWay, Toks, Earlier, Live;
    if MatchWay(rx, Plainer(w, i), s).Some? {
      SameToks(w, i);
      PlainerAllowed(SibsOf(rx, regs), [], w, i);
      assert Candidate(rx, regs, m, s, Plainer(w, i));
      assert Plainer(w, i) != w by { assert Plainer(w, i)[i] != w[i]; }
      PlainerEarlier(SibsOf(rx, regs), [], w, i);
      SibsNoRepeat(rx, regs);
      EarlierOneWay(SibsOf(rx, regs), [], Plainer(w, i), w);
    }
  }

  /** An endpoint in force tells which route it belongs to. */
  lemma EndpointTells(rx: Engine, regs: seq<Registration>, regs': seq<Registration>, a: seq<Token>, b: seq<Token>, m: Method)
    requires Latest(rx, regs, a, m).Some? && Latest(rx, regs, a, m) == Latest(rx, regs', b, m)
    ensures a == b
  {
    hide Tokens, Compiles, Keys, Latest;
    var i := LatestFrom(rx, regs, a, m);
    var j := LatestFrom(rx, regs', b, m);
    assert regs[i].pattern == EndpointOf(regs[i]).pattern == EndpointOf(regs'[j]).pattern == regs'[j].pattern;
  }

  // ---------------------------------------------------------------- isolation

  /** Isolation, exactly: one more registration leaves a lookup as it was, endpoint and captured
      values, if and only if nothing of the new pattern could answer where there was no answer, or
      else the answering way stays. */
  lemma IsolatedIff(rx: Engine, regs: seq<Registration>, reg: Registration, m: Method, s: string)
    ensures var f := Find(rx, Build(rx, regs), m, s);
            Find(rx, Build(rx, regs + [reg]), m, s) == f <==>
            if f.NotFound? then forall v :: !NewCandidate(rx, regs, reg, m, s, v)
            else exists w :: Answers(rx, regs, m, s, w) && Stays(rx, regs, reg, m, s, w)
  {
    hide Find, Build, SibsOf, Allowed, MatchWay, Latest, Sets, Toks, Earlier, Live, Candidate;
    var regs' := regs + [reg];
    var f, f' := Find(rx, Build(rx, regs), m, s), Find(rx, Build(rx, regs'), m, s);
    var w := LookupDecided(rx, regs, m, s);
    var w' := LookupDecided(rx, regs', m, s);
    if f.NotFound? {
      if f'.Found? {
        if Sets(rx, reg, Toks(w'), m) {
          assert NewCandidate(rx, regs, reg, m, s, w');
        } else {
          OldCandidate(rx, regs, reg, m, s, w');
        }
      }
    } else {
      if v :| Answers(rx, regs, m, s, v) && Stays(rx, regs, reg, m, s, v) {
        AnswerUnique(rx, regs, m, s, v, w);
        StillAnswers(rx, regs, reg, m, s, w);
        assert f'.Found? by { assert Candidate(rx, regs', m, s, w); }
        AnswerUnique(rx, regs', m, s, w, w');
      }
      if f' == f {
        EndpointTells(rx, regs, regs', Toks(w), Toks(w'), m);
        SameAnswer(rx, regs, regs', m, s, w, w');
        StaysIfSame(rx, regs, reg, m, s, w);
      }
    }
  }

  lemma StaysIfSame(rx: Engine, regs: seq<Registration>, reg: Registration, m: Method, s: string, w: seq<Step>)
    requires Answers(rx, regs + [reg], m, s, w) && Latest(rx, regs + [reg], Toks(w), m) == Latest(rx, regs, Toks(w), m)
    ensures Stays(rx, regs, reg, m, s, w)
  {
    hide SibsOf, Allowed, MatchWay, Latest, Accepted, PatternTokens, EndpointOf, Toks, Earlier, Live;
    LatestSnoc(rx, regs, reg, Toks(w), m);
  }

  // ---------------------------------------------------------------- when a blank is lost

  /** The registration puts a new node last in the list that the blank at `i` is in. */
  predicate Displaces(rx: Engine, regs: seq<Registration>, reg: Registration, w: seq<Step>, i: nat)
    requires i < |w|
  {
    && w[i].Blank? && WildToken(w[i].tok) && Legible(rx, reg)
    && var p, t := Toks(w)[..i], KindOf(w[i].tok);
       && GoesOn(PatternTokens(reg), p, t) && PatternTokens(reg)[i] !in Siblings(rx, regs, p, t)
       && (TailOf(PatternTokens(reg)[i]) == '/' || TailOf(w[i].tok) != '/')
  }

  lemma LastAfter(l: seq<Token>, p: seq<Token>, toks: Option<seq<Token>>, t: NodeType, x: Token)
    requires TakesParam(t) && LastOf(l, x)
    ensures LastOf(Grown(l, p, toks, t), x) <==>
            !(toks.Some? && GoesOn(toks.value, p, t) && toks.value[|p|] !in l && (TailOf(toks.value[|p|]) == '/' || TailOf(x) != '/'))
  {}

  /** A way loses a blank exactly when the registration puts a new node last in a regexp or
      parameter list behind one of its prefixes: the guard of the branch that breaks isolation. */
  lemma {:induction false} AllowedAfter(rx: Engine, regs: seq<Registration>, reg: Registration, w: seq<Step>, k: nat)
    requires k <= |w| && Allowed(SibsOf(rx, regs), Toks(w)[..k], w[k..])
    ensures Allowed(SibsOf(rx, regs + [reg]), Toks(w)[..k], w[k..]) <==> forall i :: k <= i < |w| ==> !Displaces(rx, regs, reg, w, i)
    decreases |w| - k
  {
    hide Siblings, Grown, GoesOn, Legible, PatternTokens, LastOf;
    if k < |w| {
      var p, tok := Toks(w)[..k], w[k].tok;
      assert w[k..][0] == w[k] && w[k..][1..] == w[k + 1..];
      assert p + [tok] == Toks(w)[..k + 1];
      AllowedAfter(rx, regs, reg, w, k + 1);
      if w[k].Blank? {
        var t := KindOf(tok);
        SiblingsSnoc(rx, regs, reg, p, t);
        LastAfter(Siblings(rx, regs, p, t), p, Shape(rx, reg), t, tok);
        assert Displaces(rx, regs, reg, w, k) <==> !LastOf(Siblings(rx, regs + [reg], p, t), tok);
      }
      assert (forall i :: k <= i < |w| ==> !Displaces(rx, regs, reg, w, i)) <==>
             !Displaces(rx, regs, reg, w, k) && forall i :: k + 1 <= i < |w| ==> !Displaces(rx, regs, reg, w, i);
    }
  }

  /** So a lookup changes only if the registration sets the answering route anew, or some way of the
      new pattern could answer, or a node displaced from the last place took part in the answer. */
  lemma ChangedOnlyIf(rx: Engine, regs: seq<Registration>, reg: Registration, m: Method, s: string)
    requires Find(rx, Build(rx, regs + [reg]), m, s) != Find(rx, Build(rx, regs), m, s)
    ensures (exists v :: NewCandidate(rx, regs, reg, m, s, v))
            || exists w :: Answers(rx, regs, m, s, w) && (Sets(rx, reg, Toks(w), m) || exists i :: 0 <= i < |w| && Displaces(rx, regs, reg, w, i))
  {
    hide Find, Build, SibsOf, Allowed, MatchWay, Latest, Sets, Earlier, Live, NewCandidate, Displaces;
    IsolatedIff(rx, regs, reg, m, s);
    if forall v :: !NewCandidate(rx, regs, reg, m, s, v) {
      var w := LookupDecided(rx, regs, m, s);
      assert w[0..] == w && Toks(w)[..0] == [];
      AllowedAfter(rx, regs, reg, w, 0);
    }
  }

  // ---------------------------------------------------------------- patterns without adjacent wildcards

  /** Does this registration concern the lookup: same method, and the pattern fits the path? */
  ghost predicate Concerns(rx: Engine, reg: Registration, m: Method, s: string) {
    Accepted(rx, reg) && reg.verb == m && exists caps :: Fits(PatternTokens(reg), caps, s)
  }

  /** Registration isolation: in a history of regular patterns a registration changes no lookup,
      neither the endpoint nor the captured values, unless it is accepted, for that method, and its
      pattern fits that path. A refused registration changes none at all. */
  lemma HistoryIsolated(rx: Engine, regs: seq<Registration>, reg: Registration, m: Method, s: string)
    requires AllRegularRegs(rx, regs + [reg]) && !Concerns(rx, reg, m, s)
    ensures Find(rx, Build(rx, regs + [reg]), m, s) == Find(rx, Build(rx, regs), m, s)
  {
    hide Find, Build, SibsOf, Allowed, MatchWay, Latest, Earlier, Live, Candidate;
    var all := regs + [reg];
    assert RegularReg(rx, reg) by { assert all[|regs|] == reg; }
    assert AllRegularRegs(rx, regs) by { assert forall i :: 0 <= i < |regs| ==> regs[i] == all[i]; }
    forall v ensures !NewCandidate(rx, regs, reg, m, s, v) {
      Unconcerned(rx, regs, reg, m, s, v);
    }
    IsolatedIff(rx, regs, reg, m, s);
    if Find(rx, Build(rx, regs), m, s).Found? {
      var w := LookupDecided(rx, regs, m, s);
      PlainStays(rx, regs, reg, m, s, w);
    }
  }

  /** What matches in some way fits. */
  lemma MatchConcerns(rx: Engine, reg: Registration, m: Method, s: string, v: seq<Step>)
    requires RegularReg(rx, reg) && Sets(rx, reg, Toks(v), m) && BlanksWild(v) && MatchWay(rx, v, s).Some?
    ensures Concerns(rx, reg, m, s)
  {
    hide Tokens, Compiles, Keys, MatchWay, Toks, Proper, Regular, Fits, Match;
    TokensProper(reg.pattern);
    PlainInstead(rx, v, s);
    MatchIffFits(rx, Toks(v), MatchWay(rx, v, s).value, s);
    assert Fits(PatternTokens(reg), MatchWay(rx, v, s).value, s);
  }

  lemma Unconcerned(rx: Engine, regs: seq<Registration>, reg: Registration, m: Method, s: string, v: seq<Step>)
    requires RegularReg(rx, reg) && !Concerns(rx, reg, m, s)
    ensures !NewCandidate(rx, regs, reg, m, s, v)
  {
    hide Sets, SibsOf, Allowed, MatchWay, Live, Toks, Concerns;
    if NewCandidate(rx, regs, reg, m, s, v) {
      AllowedWild(SibsOf(rx, regs + [reg]), [], v);
      MatchConcerns(rx, reg, m, s, v);
    }
  }

  lemma PlainStays(rx: Engine, regs: seq<Registration>, reg: Registration, m: Method, s: string, w: seq<Step>)
    requires AllRegularRegs(rx, regs) && RegularReg(rx, reg) && !Concerns(rx, reg, m, s) && Answers(rx, regs, m, s, w)
    ensures Stays(rx, regs, reg, m, s, w)
  {
    hide Sets, SibsOf, Allowed, MatchWay, Latest, Toks, Concerns, Proper, Regular, Earlier, Plains, AllRegularRegs, RegularReg, EndpointOf;
    LiveTokens(rx, regs, Toks(w), m);
    AnswerIsPlain(rx, regs, m, s, w);
    PlainsFirst(SibsOf(rx, regs + [reg]), [], w);
    AllowedWild(SibsOf(rx, regs), [], w);
    if Sets(rx, reg, Toks(w), m) {
      MatchConcerns(rx, reg, m, s, w);
    }
    forall v ensures !NewCandidate(rx, regs, reg, m, s, v) {
      Unconcerned(rx, regs, reg, m, s, v);
    }
  }
}
