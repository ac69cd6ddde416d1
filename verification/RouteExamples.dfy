/** Histories that show why isolation and independence of the order have conditions (adjacent
    wildcards, regular expressions, parameters that end differently, one route twice), and one with
    braces inside an expression. */
module RouteExamples {
  import opened Text
  import opened Patterns
  import opened PatternText
  import opened RouteTree
  import opened RouteRegister
  import opened RouteSiblings
  import opened RouteWays
  import opened RouteChoice
  import opened RouteFacts
  import opened Routing
  import opened Lookups
  import opened Isolation

  // ---------------------------------------------------------------- reading patterns

  predicate PlainKey(k: string) {
    '{' !in k && '}' !in k
  }

  lemma {:induction false} PlainBalanced(k: string)
    requires PlainKey(k)
    ensures Balanced(k)
  {
    forall n | 0 <= n <= |k| ensures Depth(k, n) == 0 {
      PlainDepth(k, n);
    }
  }

  lemma {:induction false} PlainDepth(k: string, n: nat)
    requires PlainKey(k) && n <= |k|
    ensures Depth(k, n) == 0
    decreases n
  {
    hide Depth;
    if n > 0 {
      PlainDepth(k, n - 1);
      DepthStep(k, n - 1);
    } else {
      NoDepth();
      DepthFront("", k, 0);
      assert "" + k == k;
    }
  }

  /** A pattern with these tokens and these different names is accepted. */
  lemma AcceptedPattern(rx: Engine, reg: Registration, toks: seq<Token>)
    requires reg.pattern != "" && reg.pattern[0] == '/' && Tokens(reg.pattern) == Ok(toks) && Compiles(rx, toks)
    requires Distinct(Names(reg.pattern))
    ensures Accepted(rx, reg) && Legible(rx, reg) && PatternTokens(reg) == toks
  {
    hide Tokens, Names, Compiles, Distinct;
  }

  // ---------------------------------------------------------------- histories of two registrations

  lemma LatestOfOne(rx: Engine, r: Registration, toks: seq<Token>, m: Method)
    ensures Latest(rx, [r], toks, m) == if Sets(rx, r, toks, m) then Some(EndpointOf(r)) else None
  {
    hide Accepted, PatternTokens, EndpointOf;
    assert [r][..0] == [];
    assert Latest(rx, [], toks, m) == None;
  }

  lemma LatestOfTwo(rx: Engine, r1: Registration, r2: Registration, toks: seq<Token>, m: Method)
    ensures Latest(rx, [r1] + [r2], toks, m) ==
            if Sets(rx, r2, toks, m) then Some(EndpointOf(r2)) else if Sets(rx, r1, toks, m) then Some(EndpointOf(r1)) else None
  {
    hide Accepted, PatternTokens, EndpointOf, Latest;
    LatestOfOne(rx, r1, toks, m);
    LatestSnoc(rx, [r1], r2, toks, m);
  }

  lemma SiblingsOfOne(rx: Engine, r: Registration, p: seq<Token>, t: NodeType)
    requires TakesParam(t) && Legible(rx, r) && GoesOn(PatternTokens(r), p, t)
    ensures Siblings(rx, [r], p, t) == [PatternTokens(r)[|p|]]
  {
    hide GoesOn, Legible, PatternTokens;
    assert [r][..0] == [];
    assert Siblings(rx, [], p, t) == [];
  }

  lemma SiblingsOfTwo(rx: Engine, r1: Registration, r2: Registration, p: seq<Token>, t: NodeType)
    requires TakesParam(t) && Legible(rx, r1) && GoesOn(PatternTokens(r1), p, t)
    requires Legible(rx, r2) && GoesOn(PatternTokens(r2), p, t) && PatternTokens(r1)[|p|] != PatternTokens(r2)[|p|]
    requires TailOf(PatternTokens(r2)[|p|]) == '/' || TailOf(PatternTokens(r1)[|p|]) != '/'
    ensures Siblings(rx, [r1] + [r2], p, t) == [PatternTokens(r1)[|p|], PatternTokens(r2)[|p|]]
  {
    hide GoesOn, Legible, PatternTokens, Siblings;
    SiblingsOfOne(rx, r1, p, t);
    SiblingsSnoc(rx, [r1], r2, p, t);
  }

  /** The second step of a way is a blank of a node that is not last. */
  lemma {:induction false} BlankNotLast(rx: Engine, r1: Registration, r2: Registration, p: Token, w: seq<Step>)
    requires |w| > 1 && w[0].tok == p && WildToken(w[1].tok) && Legible(rx, r1) && Legible(rx, r2)
    requires GoesOn(PatternTokens(r1), [p], KindOf(w[1].tok)) && GoesOn(PatternTokens(r2), [p], KindOf(w[1].tok))
    requires PatternTokens(r1)[1] == w[1].tok && PatternTokens(r2)[1] != w[1].tok
    requires TailOf(PatternTokens(r2)[1]) == '/' || TailOf(PatternTokens(r1)[1]) != '/'
    requires Allowed(SibsOf(rx, [r1] + [r2]), [], w)
    ensures w[1].Plain?
  {
    hide Siblings, Tokens, Compiles;
    SiblingsOfTwo(rx, r1, r2, [p], KindOf(w[1].tok));
    assert w[1..][0] == w[1] && [] + [p] == [p];
  }

  // ---------------------------------------------------------------- taking steps

  lemma TakeLit(rx: Engine, w: seq<Step>, c: char, s: string)
    requires w != [] && w[0] == Plain(Lit(c))
    ensures MatchWay(rx, w, s) == if s != "" && s[0] == c then MatchWay(rx, w[1..], s[1..]) else None
  {
    if s != "" && s[0] == c {
      NothingTaken(rx, w, s);
    }
  }

  lemma TextStep(rx: Engine, sib: Sibs, w: seq<Step>, c: char, s: string)
    requires w != [] && w[0].tok == Lit(c) && Allowed(sib, [], w)
    ensures MatchWay(rx, w, [c] + s) == MatchWay(rx, w[1..], s)
  {
    NoBlankText(sib, [], w, 0);
    TakeLit(rx, w, c, [c] + s);
    assert ([c] + s)[1..] == s;
  }

  // ---------------------------------------------------------------- adjacent wildcards

  const ADJACENT: string := "/{a}{b}/z"
  const PLAIN: string := "/{c}"

  const ADJACENT_TOKENS: seq<Token> := [Lit('/'), Param('{'), Param('/'), Lit('/'), Lit('z')]
  const PLAIN_TOKENS: seq<Token> := [Lit('/'), Param('/')]

  lemma AdjacentRead(rx: Engine, reg: Registration)
    requires reg.pattern == ADJACENT
    ensures Accepted(rx, reg) && Legible(rx, reg) && PatternTokens(reg) == ADJACENT_TOKENS
  {
    hide Tokens, Names, Lits, Compiles;
    var b, a := Braced("b", "/z"), Braced("a", Braced("b", "/z"));
    assert b[0] == '{' && ADJACENT == "/" + a by { assert b == "{b}/z" && a == "{a}{b}/z"; }
    hide Braced;
    NoTokens();
    LiteralTokens("/z", "");
    assert "/z" + "" == "/z";
    PlainBalanced("a");
    PlainBalanced("b");
    ParamTokens("b", "/z");
    ParamTokens("a", b);
    LiteralTokens("/", a);
    assert Lits("/") == [Lit('/')] && Lits("/z") == [Lit('/'), Lit('z')] by { ShortLits(); }
    assert Tokens(ADJACENT).value == ADJACENT_TOKENS;
    assert Names(ADJACENT) == ["a", "b"];
    assert Compiles(rx, ADJACENT_TOKENS) by { NoRex(rx, ADJACENT_TOKENS); }
    AcceptedPattern(rx, reg, ADJACENT_TOKENS);
  }

  lemma PlainRead(rx: Engine, reg: Registration)
    requires reg.pattern == PLAIN
    ensures Accepted(rx, reg) && Legible(rx, reg) && PatternTokens(reg) == PLAIN_TOKENS
  {
    hide Tokens, Names, Lits, Compiles;
    var c := Braced("c", "");
    assert PLAIN == "/" + c by { assert c == "{c}"; }
    hide Braced;
    NoTokens();
    PlainBalanced("c");
    ParamTokens("c", "");
    LiteralTokens("/", c);
    assert Lits("/") == [Lit('/')] by { ShortLits(); }
    assert Tokens(PLAIN).value == PLAIN_TOKENS;
    assert Names(PLAIN) == ["c"];
    assert Compiles(rx, PLAIN_TOKENS) by { NoRex(rx, PLAIN_TOKENS); }
    AcceptedPattern(rx, reg, PLAIN_TOKENS);
  }

  lemma ShortLits()
    ensures Lits("/") == [Lit('/')] && Lits("/z") == [Lit('/'), Lit('z')] && Lits("/x") == [Lit('/'), Lit('x')] && Lits("/y") == [Lit('/'), Lit('y')]
    ensures Lits(".") == [Lit('.')] && Lits("-") == [Lit('-')]
  {}

  lemma NoRex(rx: Engine, toks: seq<Token>)
    requires forall i :: 0 <= i < |toks| ==> !toks[i].Rex?
    ensures Compiles(rx, toks)
  {}

  lemma TakeXy(rx: Engine)
    ensures Take(rx, Param('{'), "xy/z") == None && Take(rx, Param('/'), "xy/z") == Some(2)
  {
    assert '{' !in "xy/z";
    assert "xy/z"[..2] == "xy";
    IndexByteIs("xy/z", '/', 2);
    assert '/' !in "xy";
  }

  /** The way that finds `/xy/z`: nothing for the first parameter, `xy` for the second. */
  lemma AdjacentMatches(rx: Engine)
    ensures MatchWay(rx, [Plain(Lit('/')), Blank(Param('{')), Plain(Param('/')), Plain(Lit('/')), Plain(Lit('z'))], "/xy/z").Some?
  {
    hide Take;
    var w := [Plain(Lit('/')), Blank(Param('{')), Plain(Param('/')), Plain(Lit('/')), Plain(Lit('z'))];
    TakeXy(rx);
    assert w[1..][0] == w[1] && w[1..][1..] == w[2..] && w[2..][0] == w[2] && w[2..][1..] == w[3..];
    assert w[3..] == Plains(Lits("/z")) by { ShortLits(); }
    LiteralMatches(rx, "/z");
    assert "xy/z"[2..] == "/z" && "/xy/z"[1..] == "xy/z";
    assert MatchWay(rx, w[2..], "xy/z").Some?;
    assert MatchWay(rx, w[1..], "xy/z").Some?;
    TakeLit(rx, w, '/', "/xy/z");
  }

  lemma {:induction false} NoMatchAdjacent(rx: Engine, sib: Sibs, w: seq<Step>)
    requires Allowed(sib, [], w) && ((Toks(w) == ADJACENT_TOKENS && w[1].Plain?) || Toks(w) == PLAIN_TOKENS)
    ensures MatchWay(rx, w, "/xy/z").None?
  {
    hide Take;
    assert w[0].tok == Toks(w)[0] == Lit('/') && w[1].tok == Toks(w)[1];
    assert "/xy/z" == ['/'] + "xy/z";
    TextStep(rx, sib, w, '/', "xy/z");
    TakeXy(rx);
    assert w[1..][0] == w[1];
    if Toks(w) == PLAIN_TOKENS {
      assert w[1..][1..] == [];
      assert "xy/z"[2..] == "/z";
    }
  }

  /** With adjacent wildcards a registration can take away another one's matches, although its own
      pattern does not fit the path: `/xy/z` is found under `/{a}{b}/z` until `/{c}` is registered. */
  lemma {:induction false} AdjacentNotIsolated(rx: Engine, m: Method, h: Handler, h': Handler)
    requires h != NoHandler
    ensures var r1, r2 := Registration(m, ADJACENT, h), Registration(m, PLAIN, h');
            && Find(rx, Build(rx, [r1]), m, "/xy/z").Found?
            && Find(rx, Build(rx, [r1] + [r2]), m, "/xy/z") == NotFound
            && !Concerns(rx, r2, m, "/xy/z")
  {
    hide Find, Build, Latest, Siblings, MatchWay, Tokens, Compiles, Keys, Fits;
    var r1, r2 := Registration(m, ADJACENT, h), Registration(m, PLAIN, h');
    AdjacentRead(rx, r1);
    PlainRead(rx, r2);
    var w := [Plain(Lit('/')), Blank(Param('{')), Plain(Param('/')), Plain(Lit('/')), Plain(Lit('z'))];
    assert Candidate(rx, [r1], m, "/xy/z", w) by { AdjacentCandidate(rx, r1, w); }
    var _ := LookupDecided(rx, [r1], m, "/xy/z");
    var v := LookupDecided(rx, [r1] + [r2], m, "/xy/z");
    if Find(rx, Build(rx, [r1] + [r2]), m, "/xy/z").Found? {
      LatestOfTwo(rx, r1, r2, Toks(v), m);
      assert Toks(v) == ADJACENT_TOKENS || Toks(v) == PLAIN_TOKENS;
      if Toks(v) == ADJACENT_TOKENS {
        assert v[0].tok == Toks(v)[0] && v[1].tok == Toks(v)[1];
        assert ADJACENT_TOKENS[..1] == [Lit('/')] && PLAIN_TOKENS[..1] == [Lit('/')];
        BlankNotLast(rx, r1, r2, Lit('/'), v);
      }
      NoMatchAdjacent(rx, SibsOf(rx, [r1] + [r2]), v);
    }
    forall caps ensures !Fits(PLAIN_TOKENS, caps, "/xy/z") {
      NoFit(rx, caps);
    }
  }

  /** Only the second step is blank, and its node is the last of its list. */
  lemma {:induction false} SecondBlank(sib: Sibs, w: seq<Step>)
    requires |w| > 1 && w[0].Plain? && w[1].Blank? && WildToken(w[1].tok) && w[2..] == Plains(Toks(w[2..]))
    requires LastOf(sib([w[0].tok], KindOf(w[1].tok)), w[1].tok)
    ensures Allowed(sib, [], w)
  {
    assert w[1..][0] == w[1] && w[1..][1..] == w[2..] && [] + [w[0].tok] == [w[0].tok];
    PlainsFirst(sib, [w[0].tok] + [w[1].tok], w[2..]);
  }

  lemma {:induction false} AdjacentCandidate(rx: Engine, r: Registration, w: seq<Step>)
    requires r.pattern == ADJACENT && r.handler != NoHandler
    requires w == [Plain(Lit('/')), Blank(Param('{')), Plain(Param('/')), Plain(Lit('/')), Plain(Lit('z'))]
    ensures Candidate(rx, [r], r.verb, "/xy/z", w)
  {
    hide Latest, Siblings, MatchWay, Tokens, Compiles, Keys;
    AdjacentRead(rx, r);
    assert Toks(w) == ADJACENT_TOKENS;
    LatestOfOne(rx, r, Toks(w), r.verb);
    AdjacentMatches(rx);
    assert ADJACENT_TOKENS[..1] == [Lit('/')];
    SiblingsOfOne(rx, r, [Lit('/')], NtParam);
    SecondBlank(SibsOf(rx, [r]), w);
  }

  /** A parameter never takes a slash. */
  lemma {:induction false} NoFit(rx: Engine, caps: seq<string>)
    ensures !Fits(PLAIN_TOKENS, caps, "/xy/z")
  {
    hide Fits, Take;
    MatchIffFits(rx, PLAIN_TOKENS, caps, "/xy/z");
    TakeXy(rx);
    assert PLAIN_TOKENS[1..] == [Param('/')] && [Param('/')][1..] == [] && "/xy/z"[1..] == "xy/z" && "xy/z"[2..] == "/z";
  }

  // ---------------------------------------------------------------- regular expressions

  const FIRST_REX: string := "/{p:a}/x"
  const OTHER_REX: string := "/{q:b}/y"

  const FIRST_TOKENS: seq<Token> := [Lit('/'), Rex("^a$", '/'), Lit('/'), Lit('x')]
  const OTHER_TOKENS: seq<Token> := [Lit('/'), Rex("^b$", '/'), Lit('/'), Lit('y')]

  lemma RexRead(rx: Engine, reg: Registration, k: string, re: string, rest: string, toks: seq<Token>)
    requires k != "" && PlainKey(k) && ':' !in k && PlainKey(re) && rx.compiles(Anchored(re)) && Literal(rest) && rest != ""
    requires reg.pattern == "/" + Braced(k + ":" + re, rest) && toks == [Lit('/'), Rex(Anchored(re), rest[0])] + Lits(rest)
    ensures Accepted(rx, reg) && Legible(rx, reg) && PatternTokens(reg) == toks
  {
    hide Tokens, Names, Lits, Anchored, Braced, Balanced;
    var s := Braced(k + ":" + re, rest);
    NoTokens();
    LiteralTokens(rest, "");
    assert rest + "" == rest;
    PlainBalanced(k + ":" + re);
    RexTokens(k, re, rest);
    LiteralTokens("/", s);
    assert Lits("/") == [Lit('/')] by { ShortLits(); }
    assert Tokens(reg.pattern).value == toks;
    assert Names(reg.pattern) == [k];
    assert Compiles(rx, toks) by { OneRex(rx, Rex(Anchored(re), rest[0]), rest); }
    AcceptedPattern(rx, reg, toks);
  }

  lemma OneRex(rx: Engine, tok: Token, rest: string)
    requires tok.Rex? && rx.compiles(tok.re)
    ensures Compiles(rx, [Lit('/'), tok] + Lits(rest))
  {}

  lemma RexPatterns()
    ensures FIRST_REX == "/" + Braced("p" + ":" + "a", "/x") && OTHER_REX == "/" + Braced("q" + ":" + "b", "/y")
    ensures FIRST_TOKENS == [Lit('/'), Rex(Anchored("a"), '/')] + Lits("/x") && OTHER_TOKENS == [Lit('/'), Rex(Anchored("b"), '/')] + Lits("/y")
    ensures Anchored("a") == "^a$" && Anchored("b") == "^b$"
  {
    ShortLits();
    assert "^" + "a" == "^a" && "^a" + "$" == "^a$" && "^" + "b" == "^b" && "^b" + "$" == "^b$";
    assert Braced("p" + ":" + "a", "/x") == "{p:a}/x" && Braced("q" + ":" + "b", "/y") == "{q:b}/y";
  }

  lemma NothingBeforeSlash(rx: Engine, re: string)
    ensures Take(rx, Rex(re, '/'), "/x") == None
  {
    IndexByteIs("/x", '/', 0);
  }

  lemma {:induction false} RexMatches(rx: Engine, w: seq<Step>)
    requires w == [Plain(Lit('/')), Blank(Rex("^a$", '/')), Plain(Lit('/')), Plain(Lit('x'))]
    ensures MatchWay(rx, w, "//x") == Some([""])
  {
    hide Take;
    assert w[2..] == Plains(Lits("/x")) by { ShortLits(); }
    LiteralMatches(rx, "/x");
    assert w[1..][0] == w[1] && w[1..][1..] == w[2..] && "//x"[1..] == "/x";
    assert TakeStep(rx, w[1], "/x") == Taken([""], "/x");
    assert MatchWay(rx, w[1..], "/x") == Some([""] + []);
    assert [""] + [] == [""];
    TakeLit(rx, w, '/', "//x");
  }

  lemma {:induction false} OnlyRexWay(rx: Engine, sib: Sibs, w: seq<Step>)
    requires Allowed(sib, [], w) && Toks(w) == FIRST_TOKENS && MatchWay(rx, w, "//x").Some?
    ensures MatchWay(rx, w, "//x") == Some([""])
  {
    hide MatchWay;
    assert forall i :: 0 <= i < 4 ==> w[i].tok == Toks(w)[i];
    if w[1].Plain? {
      NoMatchRex(rx, sib, w);
    }
    NoBlankText(sib, [], w, 0);
    NoBlankText(sib, [], w, 2);
    NoBlankText(sib, [], w, 3);
    RexMatches(rx, w);
  }

  lemma {:induction false} RexCandidate(rx: Engine, r: Registration, w: seq<Step>)
    requires Accepted(rx, r) && Legible(rx, r) && PatternTokens(r) == FIRST_TOKENS && r.handler != NoHandler
    requires w == [Plain(Lit('/')), Blank(Rex("^a$", '/')), Plain(Lit('/')), Plain(Lit('x'))]
    ensures Candidate(rx, [r], r.verb, "//x", w)
  {
    hide Latest, Siblings, MatchWay, Tokens, Compiles, Keys;
    assert Toks(w) == FIRST_TOKENS;
    LatestOfOne(rx, r, Toks(w), r.verb);
    RexMatches(rx, w);
    assert FIRST_TOKENS[..1] == [Lit('/')];
    SiblingsOfOne(rx, r, [Lit('/')], NtRegexp);
    SecondBlank(SibsOf(rx, [r]), w);
  }

  lemma {:induction false} NoMatchRex(rx: Engine, sib: Sibs, w: seq<Step>)
    requires Allowed(sib, [], w) && ((Toks(w) == FIRST_TOKENS && w[1].Plain?) || Toks(w) == OTHER_TOKENS)
    ensures MatchWay(rx, w, "//x").None?
  {
    hide Take;
    assert w[0].tok == Toks(w)[0] == Lit('/') && w[1].tok == Toks(w)[1];
    assert "//x" == ['/'] + "/x";
    TextStep(rx, sib, w, '/', "/x");
    NothingBeforeSlash(rx, "^a$");
    NothingBeforeSlash(rx, "^b$");
    assert w[1..][0] == w[1];
    if Toks(w) == OTHER_TOKENS {
      assert w[2].tok == Toks(w)[2] && w[3].tok == Toks(w)[3];
      NoBlankText(sib, [], w, 2);
      NoBlankText(sib, [], w, 3);
      assert w[1..][1..] == w[2..] && w[2..][0] == w[2] && w[2..][1..] == w[3..] && w[3..][0] == w[3];
      TakeLit(rx, w[2..], '/', "/x");
      assert "/x"[1..] == "x";
      TakeLit(rx, w[3..], 'y', "x");
    }
  }

  lemma {:induction false} FoundEmpty(rx: Engine, r: Registration)
    requires Accepted(rx, r) && Legible(rx, r) && PatternTokens(r) == FIRST_TOKENS && r.handler != NoHandler
    ensures Find(rx, Build(rx, [r]), r.verb, "//x") == Found(EndpointOf(r), [""])
  {
    hide Find, Build, Latest, Siblings, MatchWay, Tokens, Compiles, Keys, Allowed, EndpointOf;
    var w := [Plain(Lit('/')), Blank(Rex("^a$", '/')), Plain(Lit('/')), Plain(Lit('x'))];
    RexCandidate(rx, r, w);
    var v := LookupDecided(rx, [r], r.verb, "//x");
    LatestOfOne(rx, r, Toks(v), r.verb);
    OnlyRexWay(rx, SibsOf(rx, [r]), v);
  }

  lemma {:induction false} NothingLeft(rx: Engine, r1: Registration, r2: Registration, m: Method)
    requires Accepted(rx, r1) && Legible(rx, r1) && PatternTokens(r1) == FIRST_TOKENS
    requires Accepted(rx, r2) && Legible(rx, r2) && PatternTokens(r2) == OTHER_TOKENS
    ensures Find(rx, Build(rx, [r1] + [r2]), m, "//x") == NotFound
  {
    hide Find, Build, Latest, Siblings, MatchWay, Tokens, Compiles, Keys;
    var v := LookupDecided(rx, [r1] + [r2], m, "//x");
    if Find(rx, Build(rx, [r1] + [r2]), m, "//x").Found? {
      LatestOfTwo(rx, r1, r2, Toks(v), m);
      assert Toks(v) == FIRST_TOKENS || Toks(v) == OTHER_TOKENS;
      if Toks(v) == FIRST_TOKENS {
        assert v[0].tok == Toks(v)[0] && v[1].tok == Toks(v)[1];
        assert FIRST_TOKENS[..1] == [Lit('/')] && OTHER_TOKENS[..1] == [Lit('/')];
        assert "^a$"[1] != "^b$"[1];
        BlankNotLast(rx, r1, r2, Lit('/'), v);
      }
      NoMatchRex(rx, SibsOf(rx, [r1] + [r2]), v);
    }
  }

  /** Regular expressions are not isolated either: `//x` is found under `/{p:a}/x`, with an empty value
      that the expression never saw, until `/{q:b}/y` is registered. */
  lemma {:induction false} RegexpNotIsolated(rx: Engine, m: Method, h: Handler, h': Handler)
    requires h != NoHandler && rx.compiles("^a$") && rx.compiles("^b$")
    ensures var r1, r2 := Registration(m, FIRST_REX, h), Registration(m, OTHER_REX, h');
            var f := Find(rx, Build(rx, [r1]), m, "//x");
            && f.Found? && f.endpoint.pattern == FIRST_REX && f.caps == [""]
            && Find(rx, Build(rx, [r1] + [r2]), m, "//x") == NotFound
  {
    hide Find, Build, Latest, Siblings, MatchWay, Tokens, Compiles, Keys, Anchored, Lits, Braced;
    var r1, r2 := Registration(m, FIRST_REX, h), Registration(m, OTHER_REX, h');
    RexPatterns();
    RexRead(rx, r1, "p", "a", "/x", FIRST_TOKENS);
    RexRead(rx, r2, "q", "b", "/y", OTHER_TOKENS);
    FoundEmpty(rx, r1);
    NothingLeft(rx, r1, r2, m);
  }

  // ---------------------------------------------------------------- the order of registrations

  const DOTTED: string := "/{a}.{b}"
  const DASHED: string := "/{a}-{b}"

  function PairTokens(c: char): seq<Token> {
    [Lit('/'), Param(c), Lit(c), Param('/')]
  }

  lemma PairRead(rx: Engine, reg: Registration, c: char)
    requires !IsWild(c) && reg.pattern == "/" + Braced("a", [c] + Braced("b", ""))
    ensures Accepted(rx, reg) && Legible(rx, reg) && PatternTokens(reg) == PairTokens(c)
  {
    hide Tokens, Names, Lits, Compiles, Braced, Balanced;
    var b := Braced("b", "");
    NoTokens();
    PlainBalanced("a");
    PlainBalanced("b");
    ParamTokens("b", "");
    LiteralTokens([c], b);
    ParamTokens("a", [c] + b);
    LiteralTokens("/", Braced("a", [c] + b));
    assert Lits("/") == [Lit('/')] by { ShortLits(); }
    assert Lits([c]) == [Lit(c)] by { OneLit(c); }
    assert Tokens(reg.pattern).value == PairTokens(c);
    assert Names(reg.pattern) == ["a", "b"];
    assert Compiles(rx, PairTokens(c)) by { NoRex(rx, PairTokens(c)); }
    AcceptedPattern(rx, reg, PairTokens(c));
  }

  lemma OneLit(c: char)
    ensures Lits([c]) == [Lit(c)]
  {}

  lemma PairPatterns()
    ensures DOTTED == "/" + Braced("a", ['.'] + Braced("b", "")) && DASHED == "/" + Braced("a", ['-'] + Braced("b", ""))
  {
    assert Braced("b", "") == "{b}";
    assert Braced("a", ['.'] + "{b}") == "{a}.{b}" && Braced("a", ['-'] + "{b}") == "{a}-{b}";
  }

  lemma PairFits(c: char, x: string, y: string)
    requires c != '/' && c !in x && '/' !in x && '/' !in y && y != ""
    ensures Fits(PairTokens(c), [x, y], "/" + x + [c] + y)
  {
    var s := "/" + x + [c] + y;
    var toks := PairTokens(c);
    assert s[1..] == x + [c] + y && (x + [c] + y)[|x|..] == [c] + y && ([c] + y)[1..] == y && y[|y|..] == "";
    assert toks[1..] == [Param(c), Lit(c), Param('/')] && toks[1..][1..] == [Lit(c), Param('/')];
    assert toks[1..][1..][1..] == [Param('/')] && toks[1..][1..][1..][1..] == [];
    assert [x, y][1..] == [y] && [y][1..] == [];
    assert Fits([Param('/')], [y], y);
    assert Fits([Lit(c), Param('/')], [y], [c] + y);
  }

  /** The first of two such patterns answers: registered in the other order, the other one does. */
  lemma {:induction false} FirstAnswers(rx: Engine, r1: Registration, r2: Registration, c: char, d: char, m: Method, s: string, x: seq<string>, y: seq<string>)
    requires c != d && c != '/' && d != '/' && !IsWild(c) && !IsWild(d)
    requires Accepted(rx, r1) && Legible(rx, r1) && PatternTokens(r1) == PairTokens(c) && r1.verb == m && r1.handler != NoHandler
    requires Accepted(rx, r2) && Legible(rx, r2) && PatternTokens(r2) == PairTokens(d) && r2.verb == m && r2.handler != NoHandler
    requires Fits(PairTokens(c), x, s) && Fits(PairTokens(d), y, s)
    ensures var f := Find(rx, Build(rx, [r1] + [r2]), m, s); f.Found? && f.endpoint == EndpointOf(r1)
  {
    hide Find, Build, Latest, Siblings, Tokens, Compiles, Keys, Fits;
    var regs := [r1] + [r2];
    forall i | 0 <= i < |regs| ensures RegularReg(rx, regs[i]) {}
    LatestOfTwo(rx, r1, r2, PairTokens(c), m);
    LatestOfTwo(rx, r1, r2, PairTokens(d), m);
    assert PairTokens(c)[1] != PairTokens(d)[1];
    assert Live(rx, regs, PairTokens(c), m) && Live(rx, regs, PairTokens(d), m);
    var toks := LookupIsBestMatch(rx, regs, m, s);
    LatestOfTwo(rx, r1, r2, toks, m);
    if toks == PairTokens(d) {
      assert TriedBefore(rx, regs, PairTokens(d), PairTokens(c));
      NotTriedBefore(rx, r1, r2, c, d);
    }
  }

  lemma {:induction false} NotTriedBefore(rx: Engine, r1: Registration, r2: Registration, c: char, d: char)
    requires c != d && c != '/' && d != '/' && Legible(rx, r1) && Legible(rx, r2)
    requires PatternTokens(r1) == PairTokens(c) && PatternTokens(r2) == PairTokens(d)
    ensures !TriedBefore(rx, [r1] + [r2], PairTokens(d), PairTokens(c))
  {
    hide Siblings, Tokens, Compiles;
    var a, b := Plains(PairTokens(c)), Plains(PairTokens(d));
    assert PairTokens(c)[..1] == [Lit('/')] && PairTokens(d)[..1] == [Lit('/')];
    SiblingsOfTwo(rx, r1, r2, [Lit('/')], NtParam);
    assert a[1..][0] == Plain(Param(c)) && b[1..][0] == Plain(Param(d)) && [] + [Lit('/')] == [Lit('/')];
    assert !InOrder([Param(c), Param(d)], Param(d), Param(c));
    assert !StepBefore([Param(c), Param(d)], b[1..][0], a[1..][0]);
    var sib := SibsOf(rx, [r1] + [r2]);
    assert sib([Lit('/')], NtParam) == [Param(c), Param(d)];
    assert !Earlier(sib, [Lit('/')], b[1..], a[1..]);
  }

  /** `/p-q.r` fits both patterns, and the one registered first answers. */
  lemma OrderDecides(rx: Engine, m: Method, h: Handler, h': Handler)
    requires h != NoHandler && h' != NoHandler
    ensures var r1, r2 := Registration(m, DOTTED, h), Registration(m, DASHED, h');
            var f, f' := Find(rx, Build(rx, [r1] + [r2]), m, "/p-q.r"), Find(rx, Build(rx, [r2] + [r1]), m, "/p-q.r");
            f.Found? && f'.Found? && f.endpoint.pattern == DOTTED && f'.endpoint.pattern == DASHED
  {
    hide Find, Build, Fits, Tokens, Compiles, Keys, Braced;
    var r1, r2 := Registration(m, DOTTED, h), Registration(m, DASHED, h');
    PairPatterns();
    PairRead(rx, r1, '.');
    PairRead(rx, r2, '-');
    assert "/p-q.r" == "/" + "p-q" + ['.'] + "r" && "/p-q.r" == "/" + "p" + ['-'] + "q.r";
    PairFits('.', "p-q", "r");
    PairFits('-', "p", "q.r");
    FirstAnswers(rx, r1, r2, '.', '-', m, "/p-q.r", ["p-q", "r"], ["p", "q.r"]);
    FirstAnswers(rx, r2, r1, '-', '.', m, "/p-q.r", ["p", "q.r"], ["p-q", "r"]);
  }

  /** `/{a}` and `/{b}` are one route: whichever was registered last answers, and names the value. */
  lemma LastDecides(rx: Engine, m: Method, h: Handler, h': Handler)
    requires h != NoHandler && h' != NoHandler
    ensures var r1, r2 := Registration(m, "/{a}", h), Registration(m, "/{b}", h');
            var f, f' := Find(rx, Build(rx, [r1] + [r2]), m, "/v"), Find(rx, Build(rx, [r2] + [r1]), m, "/v");
            f.Found? && f'.Found? && f.endpoint.pattern == "/{b}" && f'.endpoint.pattern == "/{a}"
  {
    hide Find, Build, Fits, Tokens, Compiles, Keys, Braced;
    var r1, r2 := Registration(m, "/{a}", h), Registration(m, "/{b}", h');
    assert "/{a}" == "/" + Braced("a", "") && "/{b}" == "/" + Braced("b", "") by { OneBraced(); }
    OneRead(rx, r1, "a");
    OneRead(rx, r2, "b");
    OneRoute(rx, r1, r2, m);
    OneRoute(rx, r2, r1, m);
  }

  lemma OneBraced()
    ensures "/{a}" == "/" + Braced("a", "") && "/{b}" == "/" + Braced("b", "")
  {
    assert Braced("a", "") == "{a}" && Braced("b", "") == "{b}";
  }

  lemma OneRead(rx: Engine, reg: Registration, k: string)
    requires k != "" && PlainKey(k) && ':' !in k && reg.pattern == "/" + Braced(k, "")
    ensures Accepted(rx, reg) && Legible(rx, reg) && PatternTokens(reg) == [Lit('/'), Param('/')]
  {
    hide Tokens, Names, Lits, Compiles, Braced, Balanced;
    NoTokens();
    PlainBalanced(k);
    ParamTokens(k, "");
    LiteralTokens("/", Braced(k, ""));
    assert Lits("/") == [Lit('/')] by { ShortLits(); }
    assert Tokens(reg.pattern).value == [Lit('/'), Param('/')];
    assert Names(reg.pattern) == [k];
    assert Compiles(rx, [Lit('/'), Param('/')]) by { NoRex(rx, [Lit('/'), Param('/')]); }
    AcceptedPattern(rx, reg, [Lit('/'), Param('/')]);
  }

  lemma {:induction false} OneRoute(rx: Engine, r1: Registration, r2: Registration, m: Method)
    requires Accepted(rx, r1) && Legible(rx, r1) && PatternTokens(r1) == [Lit('/'), Param('/')] && r1.verb == m
    requires Accepted(rx, r2) && Legible(rx, r2) && PatternTokens(r2) == [Lit('/'), Param('/')] && r2.verb == m && r2.handler != NoHandler
    ensures var f := Find(rx, Build(rx, [r1] + [r2]), m, "/v"); f.Found? && f.endpoint == EndpointOf(r2)
  {
    hide Find, Build, Latest, Siblings, Tokens, Compiles, Keys, Fits, TriedBefore;
    var regs, toks := [r1] + [r2], [Lit('/'), Param('/')];
    forall i | 0 <= i < |regs| ensures RegularReg(rx, regs[i]) {}
    LatestOfTwo(rx, r1, r2, toks, m);
    assert Fits(toks, ["v"], "/v") by { OneFits(); }
    assert Live(rx, regs, toks, m);
    var best := LookupIsBestMatch(rx, regs, m, "/v");
    LatestOfTwo(rx, r1, r2, best, m);
  }

  lemma OneFits()
    ensures Fits([Lit('/'), Param('/')], ["v"], "/v")
  {
    var toks := [Lit('/'), Param('/')];
    assert "/v"[1..] == "v" && "v"[1..] == "" && toks[1..] == [Param('/')] && toks[1..][1..] == [] && ["v"][1..] == [];
    assert Fits([Param('/')], ["v"], "v");
  }

  // ---------------------------------------------------------------- the order of regular expressions

  const OTHER_SAME: string := "/{q:b}/x"

  function ExpressionTokens(re: string): seq<Token> {
    [Lit('/'), Rex(re, '/'), Lit('/'), Lit('x')]
  }

  /** A value that two regular expressions match: the one registered first answers. */
  lemma RegexpOrderDecides(rx: Engine, m: Method, h: Handler, h': Handler)
    requires h != NoHandler && h' != NoHandler && rx.compiles("^a$") && rx.compiles("^b$")
    requires rx.matches("^a$", "v") && rx.matches("^b$", "v")
    ensures var r1, r2 := Registration(m, FIRST_REX, h), Registration(m, OTHER_SAME, h');
            var f, f' := Find(rx, Build(rx, [r1] + [r2]), m, "/v/x"), Find(rx, Build(rx, [r2] + [r1]), m, "/v/x");
            f.Found? && f'.Found? && f.endpoint.pattern == FIRST_REX && f'.endpoint.pattern == OTHER_SAME
  {
    hide Find, Build, Tokens, Compiles, Keys, Anchored, Lits, Braced;
    var r1, r2 := Registration(m, FIRST_REX, h), Registration(m, OTHER_SAME, h');
    RexPatterns();
    assert OTHER_SAME == "/" + Braced("q" + ":" + "b", "/x") by { SameBraced(); }
    assert ExpressionTokens("^b$") == [Lit('/'), Rex("^b$", '/')] + Lits("/x") by { ShortLits(); }
    RexRead(rx, r1, "p", "a", "/x", ExpressionTokens("^a$"));
    RexRead(rx, r2, "q", "b", "/x", ExpressionTokens("^b$"));
    assert "^a$"[1] != "^b$"[1];
    FirstExpression(rx, r1, r2, "^a$", "^b$", m);
    FirstExpression(rx, r2, r1, "^b$", "^a$", m);
  }

  lemma SameBraced()
    ensures OTHER_SAME == "/" + Braced("q" + ":" + "b", "/x")
  {
    assert Braced("q" + ":" + "b", "/x") == "{q:b}/x";
  }

  lemma {:induction false} ExpressionMatches(rx: Engine, re: string)
    requires rx.matches(re, "v")
    ensures MatchWay(rx, Plains(ExpressionTokens(re)), "/v/x").Some?
  {
    hide Take;
    var w := Plains(ExpressionTokens(re));
    assert w[1..][1..] == Plains(Lits("/x")) by { ShortLits(); }
    LiteralMatches(rx, "/x");
    assert Take(rx, Rex(re, '/'), "v/x") == Some(1) by { TakeValue(rx, re); }
    assert "v/x"[1..] == "/x" && "/v/x"[1..] == "v/x" && w[1..][0] == w[1];
    assert MatchWay(rx, w[1..], "v/x").Some?;
    TakeLit(rx, w, '/', "/v/x");
  }

  lemma TakeValue(rx: Engine, re: string)
    requires rx.matches(re, "v")
    ensures Take(rx, Rex(re, '/'), "v/x") == Some(1)
  {
    assert "v/x"[..1] == "v";
    IndexByteIs("v/x", '/', 1);
  }

  lemma {:induction false} FirstExpression(rx: Engine, r1: Registration, r2: Registration, a: string, b: string, m: Method)
    requires a != b && rx.matches(a, "v")
    requires Accepted(rx, r1) && Legible(rx, r1) && PatternTokens(r1) == ExpressionTokens(a) && r1.verb == m && r1.handler != NoHandler
    requires Accepted(rx, r2) && Legible(rx, r2) && PatternTokens(r2) == ExpressionTokens(b) && r2.verb == m
    ensures var f := Find(rx, Build(rx, [r1] + [r2]), m, "/v/x"); f.Found? && f.endpoint == EndpointOf(r1)
  {
    hide Find, Build, Latest, Siblings, Tokens, Compiles, Keys, MatchWay, Allowed, SibsOf, Earlier;
    var regs, toks := [r1] + [r2], ExpressionTokens(a);
    assert toks[1] != ExpressionTokens(b)[1];
    LatestOfTwo(rx, r1, r2, toks, m);
    PlainsToks(toks);
    PlainsFirst(SibsOf(rx, regs), [], Plains(toks));
    ExpressionMatches(rx, a);
    assert Candidate(rx, regs, m, "/v/x", Plains(toks));
    var v := LookupDecided(rx, regs, m, "/v/x");
    LatestOfTwo(rx, r1, r2, Toks(v), m);
    if Toks(v) == ExpressionTokens(b) {
      SecondIsLater(rx, r1, r2, a, b, v);
    }
  }

  lemma {:induction false} SecondIsLater(rx: Engine, r1: Registration, r2: Registration, a: string, b: string, v: seq<Step>)
    requires a != b && Legible(rx, r1) && PatternTokens(r1) == ExpressionTokens(a) && Legible(rx, r2) && PatternTokens(r2) == ExpressionTokens(b)
    requires Toks(v) == ExpressionTokens(b) && Allowed(SibsOf(rx, [r1] + [r2]), [], v)
    ensures !Earlier(SibsOf(rx, [r1] + [r2]), [], v, Plains(ExpressionTokens(a)))
  {
    hide Siblings, Tokens, Compiles;
    var w, sib := Plains(ExpressionTokens(a)), SibsOf(rx, [r1] + [r2]);
    assert v[0].tok == Toks(v)[0] && v[1].tok == Toks(v)[1];
    NoBlankText(sib, [], v, 0);
    assert ExpressionTokens(a)[..1] == [Lit('/')] && ExpressionTokens(b)[..1] == [Lit('/')];
    SiblingsOfTwo(rx, r1, r2, [Lit('/')], NtRegexp);
    assert w[1..][0] == Plain(Rex(a, '/')) && v[1..][0].tok == Rex(b, '/') && [] + [Lit('/')] == [Lit('/')];
    assert !InOrder([Rex(a, '/'), Rex(b, '/')], Rex(b, '/'), Rex(a, '/'));
    assert sib([Lit('/')], NtRegexp) == [Rex(a, '/'), Rex(b, '/')];
    assert !StepBefore([Rex(a, '/'), Rex(b, '/')], v[1..][0], w[1..][0]);
    assert !Earlier(sib, [Lit('/')], v[1..], w[1..]);
  }

  // ---------------------------------------------------------------- braces inside an expression

  const ARTICLES: string := "/articles/{rid:^[0-9]{5,6}}"
  const DIGITS: string := "^[0-9]{5,6}$"

  lemma ArticlesWritten()
    ensures ARTICLES == "/articles/" + Braced("rid" + ":" + "^[0-9]{5,6}", "")
    ensures Balanced("rid" + ":" + "^[0-9]{5,6}") && Anchored("^[0-9]{5,6}") == DIGITS
  {
    hide Balanced, Braced;
    ArticlesParts();
    BodyIsBalanced();
    assert "^[0-9]{5,6}" + "$" == DIGITS;
  }

  lemma ArticlesParts()
    ensures ARTICLES == "/articles/" + Braced("rid" + ":" + "^[0-9]{5,6}", "")
  {
    assert Braced("rid" + ":" + "^[0-9]{5,6}", "") == "{rid:^[0-9]{5,6}}";
  }

  lemma BodyIsBalanced()
    ensures Balanced("rid" + ":" + "^[0-9]{5,6}")
  {
    hide Balanced;
    assert Braced("5,6", "") == "{5,6}";
    assert "rid" + ":" + "^[0-9]{5,6}" == "rid:^[0-9]" + "{5,6}";
    PlainBalanced("5,6");
    PlainBalanced("rid:^[0-9]");
    BalancedBraces("5,6");
    BalancedConcat("rid:^[0-9]", "{5,6}");
  }

  /** A pattern whose expression contains braces serves the values that the expression matches. */
  lemma {:induction false} BracesInExpression(rx: Engine, m: Method, h: Handler)
    requires h != NoHandler && rx.compiles(DIGITS) && rx.matches(DIGITS, "12345")
    ensures var f := Find(rx, Build(rx, [Registration(m, ARTICLES, h)]), m, "/articles/12345");
            f.Found? && f.endpoint.pattern == ARTICLES && f.caps == ["12345"]
  {
    hide Find, Build, Latest, Tokens, Names, Compiles, Keys, Lits, Anchored, Balanced, Braced, FitsWay, SibsOf, Allowed, Plains, Earlier, Toks;
    var r := Registration(m, ARTICLES, h);
    var tok, head := Rex(DIGITS, '/'), "/articles/";
    var toks := Lits(head) + [tok];
    ArticlesRead(rx, r);
    LatestOfOne(rx, r, toks, m);
    PlainsToks(toks);
    PlainsFirst(SibsOf(rx, [r]), [], Plains(toks));
    OneValue(rx, head, tok, "12345");
    assert Live(rx, [r], Toks(Plains(toks)), m);
    var w := LookupFits(rx, [r], m, head + "12345");
    assert head + "12345" == "/articles/12345";
    LatestOfOne(rx, r, Toks(w), m);
    LookupValue(rx, r, m, w, toks, Find(rx, Build(rx, [r]), m, head + "12345").caps);
  }

  lemma ArticlesRead(rx: Engine, r: Registration)
    requires r.pattern == ARTICLES && rx.compiles(DIGITS)
    ensures Accepted(rx, r) && Legible(rx, r) && PatternTokens(r) == Lits("/articles/") + [Rex(DIGITS, '/')]
  {
    hide Tokens, Names, Lits, Compiles, Braced, Balanced, Anchored;
    var k, re, head := "rid", "^[0-9]{5,6}", "/articles/";
    ArticlesWritten();
    NoTokens();
    RexTokens(k, re, "");
    LiteralTokens(head, Braced(k + ":" + re, ""));
    assert [Rex(DIGITS, '/')] + [] == [Rex(DIGITS, '/')] && [k] + [] == [k];
    assert Compiles(rx, Lits(head) + [Rex(DIGITS, '/')]) by { LastRex(rx, head, Rex(DIGITS, '/')); }
    AcceptedPattern(rx, r, Lits(head) + [Rex(DIGITS, '/')]);
  }

  lemma LastRex(rx: Engine, head: string, tok: Token)
    requires tok.Rex? && rx.compiles(tok.re)
    ensures Compiles(rx, Lits(head) + [tok])
  {}

  /** Literal text in front of a way is literal text in front of what fits it. */
  lemma {:induction false} TextFits(rx: Engine, head: string, w: seq<Step>, caps: seq<string>, s: string)
    ensures FitsWay(rx, Plains(Lits(head)) + w, caps, head + s) <==> FitsWay(rx, w, caps, s)
    decreases |head|
  {
    hide Takes;
    if head == "" {
      assert Plains(Lits(head)) + w == w && head + s == s;
    } else {
      var all := Plains(Lits(head)) + w;
      assert all[0] == Plain(Lit(head[0])) && all[1..] == Plains(Lits(head[1..])) + w;
      assert (head + s)[0] == head[0] && (head + s)[1..] == head[1..] + s;
      TextFits(rx, head[1..], w, caps, s);
    }
  }

  lemma {:induction false} OneValue(rx: Engine, head: string, tok: Token, v: string)
    requires tok.Rex? && tok.tail == '/' && '/' !in v && v != "" && rx.matches(tok.re, v)
    ensures FitsWay(rx, Plains(Lits(head) + [tok]), [v], head + v)
  {
    hide Lits;
    TextFits(rx, head, [Plain(tok)], [v], v);
    assert Plains(Lits(head) + [tok]) == Plains(Lits(head)) + [Plain(tok)];
    assert v[|v|..] == "" && [Plain(tok)][1..] == [] && [v][1..] == [];
    assert FitsWay(rx, [Plain(tok)], [v], v);
  }

  /** Of the two ways of such a pattern the one without a blank comes first. */
  lemma {:induction false} LookupValue(rx: Engine, r: Registration, m: Method, w: seq<Step>, toks: seq<Token>, caps: seq<string>)
    requires toks == Lits("/articles/") + [Rex(DIGITS, '/')] && Toks(w) == toks && Allowed(SibsOf(rx, [r]), [], w)
    requires rx.matches(DIGITS, "12345") && FitsWay(rx, w, caps, "/articles/" + "12345")
    ensures caps == ["12345"]
  {
    hide SibsOf, Lits, Allowed, FitsWay, Toks, Plains;
    var head, tok := "/articles/", Rex(DIGITS, '/');
    var last := w[|w| - 1];
    PlainHead(rx, SibsOf(rx, [r]), w, head, tok);
    TextFits(rx, head, [last], caps, "12345");
    LastValue(rx, last, caps);
  }

  lemma {:induction false} LastValue(rx: Engine, last: Step, caps: seq<string>)
    requires last.tok == Rex(DIGITS, '/') && FitsWay(rx, [last], caps, "12345")
    ensures caps == ["12345"]
  {
    assert [last][1..] == [];
    if last.Plain? {
      assert forall i :: 0 <= i < 5 ==> "12345"[i] != '/';
      assert caps == [caps[0]] + caps[1..];
    }
  }

  lemma {:induction false} PlainHead(rx: Engine, sib: Sibs, w: seq<Step>, head: string, tok: Token)
    requires Toks(w) == Lits(head) + [tok] && Allowed(sib, [], w)
    ensures |w| == |head| + 1 && w == Plains(Lits(head)) + [w[|head|]] && w[|head|].tok == tok
  {
    hide Allowed;
    forall i | 0 <= i < |head| ensures w[i] == Plain(Lit(head[i])) {
      assert w[i].tok == Toks(w)[i];
      NoBlankText(sib, [], w, i);
    }
    assert w[|head|].tok == Toks(w)[|head|];
  }
}
