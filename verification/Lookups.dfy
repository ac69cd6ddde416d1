/** The router's promises about lookups, over whole histories of registrations of any patterns. */
module Lookups {
  import opened Text
  import opened Patterns
  import opened RouteTree
  import opened RouteTable
  import opened RouteRegister
  import opened RouteSiblings
  import opened RouteWays
  import opened RouteChoice
  import opened RouteFacts
  import opened Routing

  // ---------------------------------------------------------------- the lists of a history

  /** What a registration adds to the tree: nothing, if its pattern cannot be read. */
  function Shape(rx: Engine, reg: Registration): Option<seq<Token>> {
    if Legible(rx, reg) then Some(PatternTokens(reg)) else None
  }

  /** The regexp or parameter nodes behind a path, in the order in which they are tried. A new one
      goes to the end, or in front of a last one with tail '/'. */
  function Siblings(rx: Engine, regs: seq<Registration>, p: seq<Token>, t: NodeType): seq<Token>
    requires TakesParam(t)
  {
    if regs == [] then []
    else Grown(Siblings(rx, regs[..|regs| - 1], p, t), p, Shape(rx, regs[|regs| - 1]), t)
  }

  ghost function SibsOf(rx: Engine, regs: seq<Registration>): Sibs {
    (p, t) => if TakesParam(t) then Siblings(rx, regs, p, t) else []
  }

  lemma SiblingsSnoc(rx: Engine, regs: seq<Registration>, reg: Registration, p: seq<Token>, t: NodeType)
    requires TakesParam(t)
    ensures Siblings(rx, regs + [reg], p, t) == Grown(Siblings(rx, regs, p, t), p, Shape(rx, reg), t)
  {
    hide Grown, Shape;
    assert (regs + [reg])[..|regs|] == regs;
  }

  lemma GrownNoRepeat(l: seq<Token>, p: seq<Token>, toks: Option<seq<Token>>, t: NodeType)
    requires TakesParam(t) && NoRepeat(l)
    ensures NoRepeat(Grown(l, p, toks, t))
  {}

  lemma {:induction false} SiblingsNoRepeat(rx: Engine, regs: seq<Registration>, p: seq<Token>, t: NodeType)
    requires TakesParam(t)
    ensures NoRepeat(Siblings(rx, regs, p, t))
    decreases |regs|
  {
    hide Grown, Shape;
    if regs != [] {
      SiblingsNoRepeat(rx, regs[..|regs| - 1], p, t);
      GrownNoRepeat(Siblings(rx, regs[..|regs| - 1], p, t), p, Shape(rx, regs[|regs| - 1]), t);
    }
  }

  lemma SibsNoRepeat(rx: Engine, regs: seq<Registration>)
    ensures forall q, t :: NoRepeat(SibsOf(rx, regs)(q, t))
  {
    forall q, t ensures NoRepeat(SibsOf(rx, regs)(q, t)) {
      if TakesParam(t) {
        SiblingsNoRepeat(rx, regs, q, t);
      }
    }
  }

  lemma RegisterSib(rx: Engine, n: Node, reg: Registration, p: seq<Token>, t: NodeType)
    requires WellFormed(rx, n) && n.typ == NtStatic && TakesParam(t)
    ensures Sib(Register(rx, n, reg).node, p, t) == Grown(Sib(n, p, t), p, Shape(rx, reg), t)
  {
    hide WellFormed, Insert, Sib, Tokens, Compiles, Grown;
    if reg.pattern != "" && reg.pattern[0] == '/' {
      InsertSib(rx, n, reg.pattern, reg, p, t);
    } else {
      NotGrown(Sib(n, p, t), p, t);
    }
  }

  /** The lists in the tree are those of the history. */
  lemma {:induction false} BuildSiblings(rx: Engine, regs: seq<Registration>, p: seq<Token>, t: NodeType)
    requires TakesParam(t)
    ensures Sib(Build(rx, regs), p, t) == Siblings(rx, regs, p, t)
    decreases |regs|
  {
    hide WellFormed, Register, Grown, Shape, Represents, Routes, Sib;
    if regs == [] {
      BareSib(EmptyTree, p, t);
    } else {
      var front, reg := regs[..|regs| - 1], regs[|regs| - 1];
      BuildSiblings(rx, front, p, t);
      BuildRepresents(rx, front);
      RegisterSib(rx, Build(rx, front), reg, p, t);
    }
  }

  lemma BuildSibs(rx: Engine, regs: seq<Registration>)
    ensures forall q, t :: TakesParam(t) ==> TreeSibs(Build(rx, regs))(q, t) == SibsOf(rx, regs)(q, t)
  {
    hide Build, Siblings;
    forall q, t | TakesParam(t) ensures TreeSibs(Build(rx, regs))(q, t) == SibsOf(rx, regs)(q, t) {
      BuildSiblings(rx, regs, q, t);
    }
  }

  // ---------------------------------------------------------------- the same lists, the same order

  lemma {:induction false} AllowedSame(a: Sibs, b: Sibs, p: seq<Token>, w: seq<Step>)
    requires forall q, t :: TakesParam(t) ==> a(q, t) == b(q, t)
    ensures Allowed(a, p, w) <==> Allowed(b, p, w)
    decreases |w|
  {
    if w != [] {
      AllowedSame(a, b, p + [w[0].tok], w[1..]);
    }
  }

  lemma StepAnyList(l: seq<Token>, k: seq<Token>, a: Step, b: Step)
    requires !WildToken(a.tok) && a != b
    ensures StepBefore(l, a, b) <==> StepBefore(k, a, b)
  {}

  lemma {:induction false} EarlierSame(sa: Sibs, sb: Sibs, p: seq<Token>, a: seq<Step>, b: seq<Step>)
    requires forall q, t :: TakesParam(t) ==> sa(q, t) == sb(q, t)
    ensures Earlier(sa, p, a, b) <==> Earlier(sb, p, a, b)
    decreases |a|
  {
    hide StepBefore;
    if a != [] && b != [] {
      if a[0] == b[0] {
        EarlierSame(sa, sb, p + [a[0].tok], a[1..], b[1..]);
      } else if !WildToken(a[0].tok) {
        StepAnyList(sa(p, KindOf(a[0].tok)), sb(p, KindOf(a[0].tok)), a[0], b[0]);
      }
    }
  }

  // ---------------------------------------------------------------- the answer

  /** A way that could answer: its route is in force for the method, its blanks stand for nodes that
      are last in their lists, and it matches the path. */
  ghost predicate Candidate(rx: Engine, regs: seq<Registration>, m: Method, s: string, w: seq<Step>) {
    Live(rx, regs, Toks(w), m) && Allowed(SibsOf(rx, regs), [], w) && MatchWay(rx, w, s).Some?
  }

  /** The way that answers: the candidate that is tried before all others. */
  ghost predicate Answers(rx: Engine, regs: seq<Registration>, m: Method, s: string, w: seq<Step>) {
    && Candidate(rx, regs, m, s, w)
    && forall v :: Candidate(rx, regs, m, s, v) && v != w ==> Earlier(SibsOf(rx, regs), [], w, v)
  }

  /** There is at most one. */
  lemma AnswerUnique(rx: Engine, regs: seq<Registration>, m: Method, s: string, v: seq<Step>, w: seq<Step>)
    requires Answers(rx, regs, m, s, v) && Answers(rx, regs, m, s, w)
    ensures v == w
  {
    hide Candidate, Earlier, SibsOf;
    if v != w {
      SibsNoRepeat(rx, regs);
      EarlierOneWay(SibsOf(rx, regs), [], v, w);
    }
  }

  lemma {:induction false} ScanFirst(rx: Engine, ws: seq<Way>, m: Method, s: string) returns (k: nat)
    ensures k <= |ws|
    ensures forall j :: 0 <= j < k ==> !(Serves(Some(ws[j].eps), m) && MatchWay(rx, ws[j].steps, s).Some?)
    ensures if k == |ws| then ScanWays(rx, ws, m, s) == NotFound
            else && Serves(Some(ws[k].eps), m) && MatchWay(rx, ws[k].steps, s).Some?
                 && ScanWays(rx, ws, m, s) == Found(ws[k].eps[m], MatchWay(rx, ws[k].steps, s).value)
    decreases |ws|
  {
    hide MatchWay, Serves;
    if ws == [] {
      k := 0;
    } else if Serves(Some(ws[0].eps), m) && MatchWay(rx, ws[0].steps, s).Some? {
      k := 0;
    } else {
      k := ScanFirst(rx, ws[1..], m, s);
      k := k + 1;
      assert forall j :: 1 <= j < k ==> ws[j] == ws[1..][j - 1];
    }
  }

  lemma RootIsScan(rx: Engine, regs: seq<Registration>, m: Method, s: string)
    ensures Find(rx, Build(rx, regs), m, s) == ScanWays(rx, Ways(Build(rx, regs)), m, s)
  {
    hide WellFormed, Routes, Find, ScanWays, WaysBelow, Build;
    BuildRepresents(rx, regs);
    var n := Build(rx, regs);
    RootBare(n, Routes(n));
    FindIsScan(rx, n, m, s);
    assert Ways(n) == WaysBelow(n);
  }

  /** A way of the tree of a history, as the history sees it. */
  lemma WayOfHistory(rx: Engine, regs: seq<Registration>, m: Method, w: seq<Step>, eps: Endpoints)
    requires Way(w, eps) in Ways(Build(rx, regs))
    ensures Allowed(SibsOf(rx, regs), [], w)
    ensures Serves(Some(eps), m) <==> Live(rx, regs, Toks(w), m)
    ensures Serves(Some(eps), m) ==> Latest(rx, regs, Toks(w), m) == Some(eps[m])
  {
    hide WellFormed, Routes, Ways, Build, Allowed, TreeSibs, SibsOf, Latest, Serves, Entry;
    BuildRepresents(rx, regs);
    var n := Build(rx, regs);
    WayIffRoute(rx, n, w, eps);
    BuildSibs(rx, regs);
    AllowedSame(TreeSibs(n), SibsOf(rx, regs), [], w);
    var rs := Routes(n);
    var k :| 0 <= k < |rs| && rs[k] == Route(Toks(w), eps);
    assert Entry(rs[k], m) == Latest(rx, regs, rs[k].toks, m);
    EntryServes(rs[k], m);
  }

  lemma HistoryHasWay(rx: Engine, regs: seq<Registration>, m: Method, w: seq<Step>) returns (eps: Endpoints)
    requires Live(rx, regs, Toks(w), m) && Allowed(SibsOf(rx, regs), [], w)
    ensures Way(w, eps) in Ways(Build(rx, regs))
  {
    hide WellFormed, Routes, Ways, Build, Allowed, TreeSibs, SibsOf, Latest;
    BuildRepresents(rx, regs);
    var n := Build(rx, regs);
    var rs := Routes(n);
    var k :| 0 <= k < |rs| && rs[k].toks == Toks(w);
    eps := rs[k].eps;
    assert rs[k] == Route(Toks(w), eps);
    BuildSibs(rx, regs);
    AllowedSame(TreeSibs(n), SibsOf(rx, regs), [], w);
    WayIffRoute(rx, n, w, eps);
  }

  /** What every lookup answers, after every history of registrations, with regular expressions and
      adjacent wildcards: nothing exactly if there is no candidate, and else the endpoint in force
      for the one candidate that is tried first, with the values it captures. */
  lemma LookupDecided(rx: Engine, regs: seq<Registration>, m: Method, s: string) returns (w: seq<Step>)
    ensures var f := Find(rx, Build(rx, regs), m, s);
            if f.Found? then
              && Answers(rx, regs, m, s, w)
              && Latest(rx, regs, Toks(w), m) == Some(f.endpoint) && MatchWay(rx, w, s) == Some(f.caps)
            else forall v :: !Candidate(rx, regs, m, s, v)
  {
    hide WellFormed, Ways, Build, Find, ScanWays, Allowed, TreeSibs, SibsOf, Latest, MatchWay, Earlier, Serves, Live;
    var n := Build(rx, regs);
    var ws := Ways(n);
    RootIsScan(rx, regs, m, s);
    BuildRepresents(rx, regs);
    WaysOrdered(rx, n);
    BuildSibs(rx, regs);
    var k := ScanFirst(rx, ws, m, s);
    forall v | Candidate(rx, regs, m, s, v)
      ensures k < |ws| && (v != ws[k].steps ==> Earlier(SibsOf(rx, regs), [], ws[k].steps, v))
    {
      var eps := HistoryHasWay(rx, regs, m, v);
      WayOfHistory(rx, regs, m, v, eps);
      var j :| 0 <= j < |ws| && ws[j] == Way(v, eps);
      assert j >= k;
      if j > k {
        EarlierSame(TreeSibs(n), SibsOf(rx, regs), [], ws[k].steps, ws[j].steps);
      }
    }
    if k < |ws| {
      w := ws[k].steps;
      assert ws[k] == Way(w, ws[k].eps);
      WayOfHistory(rx, regs, m, w, ws[k].eps);
    } else {
      w := [];
    }
  }

  /** The same said of the text itself: the answer is in force, and the path fits one of its ways with
      the captured values; nothing is found exactly if the path fits no way of a pattern in force. */
  lemma LookupFits(rx: Engine, regs: seq<Registration>, m: Method, s: string) returns (w: seq<Step>)
    ensures var f := Find(rx, Build(rx, regs), m, s);
            if f.Found? then
              && Latest(rx, regs, Toks(w), m) == Some(f.endpoint) && f.endpoint.handler != NoHandler
              && Allowed(SibsOf(rx, regs), [], w) && FitsWay(rx, w, f.caps, s)
              && forall v, caps :: Live(rx, regs, Toks(v), m) && Allowed(SibsOf(rx, regs), [], v) && FitsWay(rx, v, caps, s)
                   ==> (if v == w then caps == f.caps else Earlier(SibsOf(rx, regs), [], w, v))
            else forall v, caps :: Live(rx, regs, Toks(v), m) && Allowed(SibsOf(rx, regs), [], v) ==> !FitsWay(rx, v, caps, s)
  {
    hide Find, Build, Latest, Toks, Allowed, SibsOf, MatchWay, FitsWay, Earlier;
    w := LookupDecided(rx, regs, m, s);
    var f := Find(rx, Build(rx, regs), m, s);
    if f.Found? {
      WayFitsIff(rx, w, f.caps, s);
    }
    forall v, caps | Live(rx, regs, Toks(v), m) && Allowed(SibsOf(rx, regs), [], v) && FitsWay(rx, v, caps, s)
      ensures f.Found? && if v == w then caps == f.caps else Earlier(SibsOf(rx, regs), [], w, v)
    {
      WayFitsIff(rx, v, caps, s);
      assert Candidate(rx, regs, m, s, v);
    }
  }

  /** With real handlers only: a lookup succeeds exactly when the path fits some way of a pattern that
      was accepted for the method, with regular expressions and adjacent wildcards. */
  lemma LookupIffFits(rx: Engine, regs: seq<Registration>, m: Method, s: string)
    requires forall i :: 0 <= i < |regs| ==> regs[i].handler != NoHandler
    ensures Find(rx, Build(rx, regs), m, s).Found? <==>
            exists i, w, caps :: 0 <= i < |regs| && FitsRegistered(rx, regs, i, m, w, caps, s)
  {
    hide Find, Build, Latest, Toks, Allowed, SibsOf, FitsWay, Earlier, Tokens, Compiles, Keys;
    var w := LookupFits(rx, regs, m, s);
    var f := Find(rx, Build(rx, regs), m, s);
    if f.Found? {
      var i := LatestFrom(rx, regs, Toks(w), m);
      assert FitsRegistered(rx, regs, i, m, w, f.caps, s);
    }
    if i, v, caps :| 0 <= i < |regs| && FitsRegistered(rx, regs, i, m, v, caps, s) {
      LatestExists(rx, regs, i);
      var j := LatestFrom(rx, regs, Toks(v), m);
      assert Live(rx, regs, Toks(v), m);
    }
  }

  /** The path fits this way of this registration's pattern. */
  ghost predicate FitsRegistered(rx: Engine, regs: seq<Registration>, i: nat, m: Method, w: seq<Step>, caps: seq<string>, s: string)
    requires i < |regs|
  {
    && Accepted(rx, regs[i]) && regs[i].verb == m && Toks(w) == PatternTokens(regs[i])
    && Allowed(SibsOf(rx, regs), [], w) && FitsWay(rx, w, caps, s)
  }

  // ---------------------------------------------------------------- literal patterns

  /** After any history of patterns of any kind: if the text of the path is a pattern in force, that
      is the answer. */
  lemma LiteralWins(rx: Engine, regs: seq<Registration>, m: Method, s: string)
    requires Live(rx, regs, Lits(s), m)
    ensures Find(rx, Build(rx, regs), m, s) == Found(Latest(rx, regs, Lits(s), m).value, [])
  {
    hide Find, Build, Latest, Lits, SibsOf, Live, MatchWay, Allowed, Toks, Plains;
    var w := LookupDecided(rx, regs, m, s);
    var v := Plains(Lits(s));
    PlainsToks(Lits(s));
    PlainsFirst(SibsOf(rx, regs), [], v);
    LiteralMatches(rx, s);
    assert Candidate(rx, regs, m, s, v);
    if w != v {
      NotBeforeLiteral(rx, SibsOf(rx, regs), [], w, s);
    }
  }

  lemma PlainsToks(toks: seq<Token>)
    ensures Toks(Plains(toks)) == toks
  {}

  lemma LiteralMatches(rx: Engine, s: string)
    ensures MatchWay(rx, Plains(Lits(s)), s) == Some([])
  {
    hide Lits, Plains;
    MatchLits(rx, s, [], s);
    assert Plains(Lits(s)) + [] == Plains(Lits(s));
    assert s[|s|..] == "";
  }

  lemma {:induction false} NotBeforeLiteral(rx: Engine, sib: Sibs, p: seq<Token>, w: seq<Step>, s: string)
    requires MatchWay(rx, w, s).Some?
    ensures !Earlier(sib, p, w, Plains(Lits(s)))
    decreases |w|
  {
    hide Take;
    var v := Plains(Lits(s));
    if w != [] && s != "" {
      assert v[0] == Plain(Lit(s[0])) && v[1..] == Plains(Lits(s[1..]));
      if w[0] == v[0] {
        NotBeforeLiteral(rx, sib, p + [w[0].tok], w[1..], s[1..]);
      }
    }
  }

  // ---------------------------------------------------------------- captured values

  /** Substitution round trip, after any history: the captured values written into the matched
      endpoint's pattern give the requested path, there is one value for each name, the names are
      pairwise distinct, and the endpoint comes from an accepted registration for the method. */
  lemma SubstitutionRoundTrip(rx: Engine, regs: seq<Registration>, m: Method, s: string)
    requires Find(rx, Build(rx, regs), m, s).Found?
    ensures var f := Find(rx, Build(rx, regs), m, s);
            && Tokens(f.endpoint.pattern).Ok?
            && Fill(f.endpoint.pattern, f.caps) == s
            && f.endpoint.keys == Names(f.endpoint.pattern)
            && |f.caps| == |f.endpoint.keys| && Distinct(f.endpoint.keys)
    ensures var f := Find(rx, Build(rx, regs), m, s);
            exists i :: 0 <= i < |regs| && Accepted(rx, regs[i]) && regs[i].verb == m && f.endpoint == EndpointOf(regs[i])
  {
    hide Find, Latest, Tokens, Names, Fill, Build, Captured, Compiles, Distinct, Allowed, MatchWay, SibsOf, Earlier;
    var w := LookupDecided(rx, regs, m, s);
    AllowedWild(SibsOf(rx, regs), [], w);
    WayCaptures(rx, w, s);
    var i := LatestFrom(rx, regs, Toks(w), m);
    CapturedPattern(rx, regs[i], Find(rx, Build(rx, regs), m, s).caps, s);
  }

  lemma CapturedPattern(rx: Engine, reg: Registration, caps: seq<string>, s: string)
    requires Accepted(rx, reg) && Captured(rx, PatternTokens(reg), caps, s)
    ensures Fill(reg.pattern, caps) == s
    ensures EndpointOf(reg).keys == Names(reg.pattern)
    ensures |caps| == |EndpointOf(reg).keys| && Distinct(EndpointOf(reg).keys)
  {
    hide Tokens, Compiles, Names, Fill, Captured;
    CapturedFills(rx, PatternTokens(reg), caps, s);
    FillIsFillTokens(reg.pattern, caps);
    NamesCount(reg.pattern);
  }

  // ---------------------------------------------------------------- patterns without adjacent wildcards

  /** Of regular patterns the answering way has no blanks. */
  lemma AnswerIsPlain(rx: Engine, regs: seq<Registration>, m: Method, s: string, w: seq<Step>)
    requires Answers(rx, regs, m, s, w) && Proper(Toks(w)) && Regular(Toks(w))
    ensures w == Plains(Toks(w)) && Match(rx, Toks(w), s) == MatchWay(rx, w, s)
  {
    hide SibsOf, Allowed, MatchWay, Earlier, Live, Proper, Regular, Toks, Plains;
    AllowedWild(SibsOf(rx, regs), [], w);
    PlainInstead(rx, w, s);
    PlainsMatch(rx, Toks(w), s);
    PlainsFirst(SibsOf(rx, regs), [], w);
    PlainsToks(Toks(w));
    if w != Plains(Toks(w)) {
      assert Candidate(rx, regs, m, s, Plains(Toks(w)));
      SibsNoRepeat(rx, regs);
      EarlierOneWay(SibsOf(rx, regs), [], w, Plains(Toks(w)));
    }
  }

  /** A fitting pattern is a candidate as it is. */
  lemma FittingIsCandidate(rx: Engine, regs: seq<Registration>, m: Method, s: string, toks: seq<Token>, caps: seq<string>)
    requires AllRegularRegs(rx, regs) && Live(rx, regs, toks, m)
    ensures Fits(toks, caps, s) ==> Candidate(rx, regs, m, s, Plains(toks)) && MatchWay(rx, Plains(toks), s) == Some(caps)
  {
    hide SibsOf, Allowed, MatchWay, Latest, Toks, Plains, Fits, Match;
    LiveTokens(rx, regs, toks, m);
    PlainsToks(toks);
    PlainsMatch(rx, toks, s);
    MatchIffFits(rx, toks, caps, s);
    PlainsFirst(SibsOf(rx, regs), [], Plains(toks));
  }

  /** `a` is tried before `b`: where they part, literal text comes before parameters and these before
      the catch-all; of two parameters the one behind in the history's list comes later. */
  ghost predicate TriedBefore(rx: Engine, regs: seq<Registration>, a: seq<Token>, b: seq<Token>) {
    Earlier(SibsOf(rx, regs), [], Plains(a), Plains(b))
  }

  /** The tree refines a linear scan of what was registered. After any history of registrations of
      regular patterns, a lookup succeeds exactly when some pattern in force for the method fits
      the path; then the answer is the endpoint in force for such a pattern, with the values that
      fit, and every other fitting pattern in force is tried later. */
  lemma LookupIsBestMatch(rx: Engine, regs: seq<Registration>, m: Method, s: string) returns (toks: seq<Token>)
    requires AllRegularRegs(rx, regs)
    ensures var f := Find(rx, Build(rx, regs), m, s);
            if f.Found? then
              && Latest(rx, regs, toks, m) == Some(f.endpoint) && f.endpoint.handler != NoHandler
              && Fits(toks, f.caps, s)
              && forall toks', caps' :: Live(rx, regs, toks', m) && Fits(toks', caps', s) && toks' != toks
                   ==> TriedBefore(rx, regs, toks, toks')
            else forall toks', caps' :: Live(rx, regs, toks', m) ==> !Fits(toks', caps', s)
  {
    hide Find, Build, SibsOf, Allowed, MatchWay, Earlier, Latest, Toks, Plains, Fits, Match;
    var w := LookupDecided(rx, regs, m, s);
    toks := Toks(w);
    var f := Find(rx, Build(rx, regs), m, s);
    if f.Found? {
      LiveTokens(rx, regs, toks, m);
      AnswerIsPlain(rx, regs, m, s, w);
      MatchIffFits(rx, toks, f.caps, s);
    }
    forall toks', caps' | Live(rx, regs, toks', m) && Fits(toks', caps', s)
      ensures f.Found? && (toks' != toks ==> TriedBefore(rx, regs, toks, toks'))
    {
      FittingIsCandidate(rx, regs, m, s, toks', caps');
      PlainsToks(toks');
    }
  }

  /** With real handlers only: a lookup succeeds exactly when the pattern of some accepted
      registration for the method fits the path. */
  lemma LookupIffRegistered(rx: Engine, regs: seq<Registration>, m: Method, s: string)
    requires AllRegularRegs(rx, regs)
    requires forall i :: 0 <= i < |regs| ==> regs[i].handler != NoHandler
    ensures Find(rx, Build(rx, regs), m, s).Found? <==>
            exists i, caps :: 0 <= i < |regs| && Accepted(rx, regs[i]) && regs[i].verb == m && Fits(PatternTokens(regs[i]), caps, s)
  {
    var toks := LookupIsBestMatch(rx, regs, m, s);
    hide Find, Build, Latest, Fits, TriedBefore, Accepted, PatternTokens;
    var f := Find(rx, Build(rx, regs), m, s);
    if f.Found? {
      var i := LatestFrom(rx, regs, toks, m);
      assert Fits(PatternTokens(regs[i]), f.caps, s);
    } else {
      forall i, caps | 0 <= i < |regs| && Accepted(rx, regs[i]) && regs[i].verb == m
        ensures !Fits(PatternTokens(regs[i]), caps, s)
      {
        var toks := PatternTokens(regs[i]);
        LatestExists(rx, regs, i);
        var l := LatestFrom(rx, regs, toks, m);
        assert Live(rx, regs, toks, m);
      }
    }
  }
}
