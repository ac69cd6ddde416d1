/** Lookup as a linear scan, for every tree. A route can be matched in several ways: the search
    retries the last node of a regexp or parameter list with an empty value that nothing checks. */
module RouteWays {
  import opened Text
  import opened Patterns
  import opened RouteTree
  import opened RouteTable

  /** A token that is matched as usual, or one that is passed over with an empty value. */
  datatype Step = Plain(tok: Token) | Blank(tok: Token)

  datatype Way = Way(steps: seq<Step>, eps: Endpoints)

  function Plains(toks: seq<Token>): (steps: seq<Step>)
    ensures |steps| == |toks| && forall i :: 0 <= i < |toks| ==> steps[i] == Plain(toks[i])
  {
    seq(|toks|, i requires 0 <= i < |toks| => Plain(toks[i]))
  }

  function Blanks(toks: seq<Token>): (steps: seq<Step>)
    ensures |steps| == |toks| && forall i :: 0 <= i < |toks| ==> steps[i] == Blank(toks[i])
  {
    seq(|toks|, i requires 0 <= i < |toks| => Blank(toks[i]))
  }

  function Toks(steps: seq<Step>): (toks: seq<Token>)
    ensures |toks| == |steps| && forall i :: 0 <= i < |steps| ==> toks[i] == steps[i].tok
  {
    seq(|steps|, i requires 0 <= i < |steps| => steps[i].tok)
  }

  function PrefixedWays(ts: seq<Step>, ws: seq<Way>): (r: seq<Way>)
    ensures |r| == |ws|
    ensures forall i :: 0 <= i < |ws| ==> r[i] == Way(ts + ws[i].steps, ws[i].eps)
  {
    seq(|ws|, i requires 0 <= i < |ws| => Way(ts + ws[i].steps, ws[i].eps))
  }

  // ---------------------------------------------------------------- the ways of a tree

  /** All ways through a tree, in the order in which the search tries them. */
  function Ways(n: Node): seq<Way>
    decreases n, 2
  {
    OwnWay(n) + WaysBelow(n)
  }

  function OwnWay(n: Node): seq<Way> {
    if n.endpoints.Some? then [Way([], n.endpoints.value)] else []
  }

  function WaysBelow(n: Node): seq<Way>
    decreases n, 1
  {
    WaysOf(n.statics) + WildWays(n.regexps) + WildWays(n.params) + WaysOf(n.catchAlls)
  }

  function WaysOf(ns: seq<Node>): seq<Way>
    decreases ns, 0
  {
    if ns == [] then [] else WayBranch(ns[0]) + WaysOf(ns[1..])
  }

  function WayBranch(n: Node): seq<Way>
    decreases n, 3
  {
    PrefixedWays(Plains(NodeTokens(n)), Ways(n))
  }

  /** A regexp or parameter list: each node in turn, then the last one once more. */
  function WildWays(ns: seq<Node>): seq<Way>
    decreases ns, 1
  {
    WaysOf(ns) + Retry(ns)
  }

  function Retry(ns: seq<Node>): seq<Way>
    decreases ns, 0
  {
    if ns == [] then [] else PrefixedWays(Blanks(NodeTokens(ns[|ns| - 1])), Ways(ns[|ns| - 1]))
  }

  // ---------------------------------------------------------------- matching and scanning

  datatype Taken = Refused | Taken(vs: seq<string>, rest: string)

  /** What one step takes from the text, as captured values, and what it leaves of it. A blank is
      only tried where text is left. */
  function TakeStep(rx: Engine, st: Step, s: string): Taken {
    if st.Blank? then if s == "" then Refused else Taken([""], s)
    else match st.tok
      case Lit(c) => if s != "" && s[0] == c then Taken([], s[1..]) else Refused
      case Star => Taken([s], "")
      case _ => match Take(rx, st.tok, s)
        case None => Refused
        case Some(p) => Taken([s[..p]], s[p..])
  }

  /** The values a path gives to the wildcards of one way, taken from left to right. */
  function MatchWay(rx: Engine, steps: seq<Step>, s: string): Option<seq<string>>
    decreases |steps|
  {
    if steps == [] then if s == "" then Some([]) else None
    else
      var t := TakeStep(rx, steps[0], s);
      if t.Refused? then None else Ahead(t.vs, MatchWay(rx, steps[1..], t.rest))
  }

  function Ahead(vs: seq<string>, r: Option<seq<string>>): Option<seq<string>> {
    if r.Some? then Some(vs + r.value) else None
  }

  /** The reference lookup: the first way that serves the method and matches the path. */
  function ScanWays(rx: Engine, ws: seq<Way>, m: Method, s: string): Found {
    if ws == [] then NotFound
    else if Serves(Some(ws[0].eps), m) && MatchWay(rx, ws[0].steps, s).Some?
    then Found(ws[0].eps[m], MatchWay(rx, ws[0].steps, s).value)
    else ScanWays(rx, ws[1..], m, s)
  }

  lemma {:induction false} ScanConcat(rx: Engine, a: seq<Way>, b: seq<Way>, m: Method, s: string)
    ensures ScanWays(rx, a + b, m, s) == var r := ScanWays(rx, a, m, s); if r.Found? then r else ScanWays(rx, b, m, s)
    decreases |a|
  {
    hide MatchWay;
    if a == [] {
      assert a + b == b;
    } else {
      assert (a + b)[1..] == a[1..] + b;
      ScanConcat(rx, a[1..], b, m, s);
    }
  }

  lemma MatchStep(rx: Engine, st: Step, steps: seq<Step>, s: string)
    ensures MatchWay(rx, [st] + steps, s) ==
            var t := TakeStep(rx, st, s); if t.Refused? then None else Ahead(t.vs, MatchWay(rx, steps, t.rest))
  {
    hide TakeStep;
    assert ([st] + steps)[1..] == steps;
  }

  lemma {:induction false} MatchLits(rx: Engine, p: string, steps: seq<Step>, s: string)
    ensures MatchWay(rx, Plains(Lits(p)) + steps, s) == if p <= s then MatchWay(rx, steps, s[|p|..]) else None
    decreases |p|
  {
    hide Lits;
    var all := Plains(Lits(p)) + steps;
    if p == "" {
      assert all == steps && s[0..] == s;
    } else {
      assert all[1..] == Plains(Lits(p[1..])) + steps && all[0] == Plain(Lit(p[0]));
      if s != "" && s[0] == p[0] {
        MatchLits(rx, p[1..], steps, s[1..]);
        assert MatchWay(rx, all, s) == MatchWay(rx, all[1..], s[1..]) by { NothingTaken(rx, all, s); }
        assert p[1..] <= s[1..] <==> p <= s by {
          assert p == [p[0]] + p[1..] && s == [s[0]] + s[1..];
        }
      }
    }
  }

  /** Literal text in front of all ways of a list is checked once. */
  lemma {:induction false} ScanLits(rx: Engine, p: string, ws: seq<Way>, m: Method, s: string)
    ensures ScanWays(rx, PrefixedWays(Plains(Lits(p)), ws), m, s) ==
            if p <= s then ScanWays(rx, ws, m, s[|p|..]) else NotFound
    decreases |ws|
  {
    hide MatchWay, Lits, PrefixedWays, Plains;
    if ws != [] {
      var ts := Plains(Lits(p));
      assert PrefixedWays(ts, ws)[1..] == PrefixedWays(ts, ws[1..]);
      ScanLits(rx, p, ws[1..], m, s);
      MatchLits(rx, p, ws[0].steps, s);
    }
  }

  lemma NothingTaken(rx: Engine, steps: seq<Step>, s: string)
    requires steps != [] && steps[0].Plain? && steps[0].tok.Lit? && s != "" && s[0] == steps[0].tok.c
    ensures MatchWay(rx, steps, s) == MatchWay(rx, steps[1..], s[1..])
  {
    var r := MatchWay(rx, steps[1..], s[1..]);
    assert r.Some? ==> [] + r.value == r.value;
  }

  function PushAll(vs: seq<string>, f: Found): Found {
    if f.Found? then f.(caps := vs + f.caps) else NotFound
  }

  /** A step in front of all ways of a list is taken once. */
  lemma {:induction false} ScanStep(rx: Engine, st: Step, ws: seq<Way>, m: Method, s: string)
    ensures ScanWays(rx, PrefixedWays([st], ws), m, s) ==
            var t := TakeStep(rx, st, s); if t.Refused? then NotFound else PushAll(t.vs, ScanWays(rx, ws, m, t.rest))
    decreases |ws|
  {
    hide MatchWay, TakeStep, PrefixedWays;
    if ws != [] {
      assert PrefixedWays([st], ws)[1..] == PrefixedWays([st], ws[1..]);
      ScanStep(rx, st, ws[1..], m, s);
      MatchStep(rx, st, ws[0].steps, s);
    }
  }

  lemma NothingToScan(rx: Engine, m: Method, s: string)
    ensures ScanWays(rx, WaysOf([]), m, s) == NotFound && ScanWays(rx, WildWays([]), m, s) == NotFound
  {}

  // ---------------------------------------------------------------- lookup is a linear scan

  /** In every well-formed tree, with regular expressions and adjacent wildcards, the backtracking
      search below a node returns exactly what a linear scan over the ways below it returns: the same
      endpoint with the same captured values, or nothing. */
  lemma {:induction false} FindIsScan(rx: Engine, n: Node, m: Method, s: string)
    requires WellFormed(rx, n)
    ensures Find(rx, n, m, s) == ScanWays(rx, WaysBelow(n), m, s)
    decreases n, 1
  {
    StaticIsScan(rx, n.statics, m, s);
    WildIsScan(rx, n.regexps, NtRegexp, m, s);
    WildIsScan(rx, n.params, NtParam, m, s);
    CatchAllIsScan(rx, n.catchAlls, m, s);
    hide FindStatic, FindWild, Enter, WaysOf, WildWays, ScanWays, WellFormed;
    var a, b, c, d := WaysOf(n.statics), WildWays(n.regexps), WildWays(n.params), WaysOf(n.catchAlls);
    ScanConcat(rx, a + b + c, d, m, s);
    ScanConcat(rx, a + b, c, m, s);
    ScanConcat(rx, a, b, m, s);
  }

  lemma {:induction false} EnterIsScan(rx: Engine, n: Node, m: Method, s: string)
    requires WellFormed(rx, n)
    ensures Enter(rx, n, m, s) == ScanWays(rx, Ways(n), m, s)
    decreases n, 2
  {
    FindIsScan(rx, n, m, s);
    hide Find, WaysBelow;
    ScanConcat(rx, OwnWay(n), WaysBelow(n), m, s);
    OwnIsScan(rx, n, m, s);
  }

  lemma OwnIsScan(rx: Engine, n: Node, m: Method, s: string)
    ensures ScanWays(rx, OwnWay(n), m, s) ==
            if s == "" && Serves(n.endpoints, m) then Found(n.endpoints.value[m], []) else NotFound
  {
    if n.endpoints.Some? {
      assert [Way([], n.endpoints.value)][1..] == [];
      assert ScanWays(rx, [], m, s) == NotFound;
    }
  }

  /** Static children: only the one found by its label can match. */
  lemma {:induction false} StaticIsScan(rx: Engine, ns: seq<Node>, m: Method, s: string)
    requires ListOk(rx, ns, NtStatic) && AllWellFormed(rx, ns)
    ensures FindStatic(rx, ns, m, s) == ScanWays(rx, WaysOf(ns), m, s)
    decreases ns, 0
  {
    hide Enter, ScanWays, WayBranch, WellFormed, Ways;
    if ns == [] {
      NothingToScan(rx, m, s);
    } else {
      var c, rest := ns[0], ns[1..];
      var first := if s != "" then s[0] else NUL;
      assert ChildOk(rx, c, NtStatic);
      EnterIsScan(rx, c, m, if c.prefix <= s then s[|c.prefix|..] else "");
      BranchOfStatic(rx, c, m, s);
      ScanConcat(rx, WayBranch(c), WaysOf(rest), m, s);
      TailOfList(rx, ns, NtStatic);
      if c.first == first {
        assert forall i :: 0 <= i < |rest| ==> rest[i] == ns[i + 1] && Apart(ns[0], ns[i + 1], NtStatic);
        NoOtherStatic(rx, rest, m, s);
      } else {
        StaticIsScan(rx, rest, m, s);
        EdgeIndexCons(ns, first);
      }
    }
  }

  lemma BranchOfStatic(rx: Engine, c: Node, m: Method, s: string)
    requires c.typ == NtStatic
    ensures ScanWays(rx, WayBranch(c), m, s) == if c.prefix <= s then ScanWays(rx, Ways(c), m, s[|c.prefix|..]) else NotFound
  {
    hide ScanWays, Ways, PrefixedWays, Lits, Plains;
    ScanLits(rx, c.prefix, Ways(c), m, s);
  }

  lemma {:induction false} NoOtherStatic(rx: Engine, ns: seq<Node>, m: Method, s: string)
    requires forall i :: 0 <= i < |ns| ==> ChildOk(rx, ns[i], NtStatic) && (s == "" || ns[i].first != s[0])
    ensures ScanWays(rx, WaysOf(ns), m, s) == NotFound
    decreases |ns|
  {
    if ns != [] {
      var c, rest := ns[0], ns[1..];
      BranchOfStatic(rx, c, m, s);
      hide ScanWays, WayBranch;
      assert !(c.prefix <= s);
      ScanConcat(rx, WayBranch(c), WaysOf(rest), m, s);
      NoOtherStatic(rx, rest, m, s);
    } else {
      NothingToScan(rx, m, s);
    }
  }

  /** Regexps and parameters: the loop, and then the last node with an empty value. */
  lemma {:induction false} WildIsScan(rx: Engine, ns: seq<Node>, t: NodeType, m: Method, s: string)
    requires TakesParam(t) && ListOk(rx, ns, t) && AllWellFormed(rx, ns)
    ensures FindWild(rx, ns, m, s) == ScanWays(rx, WildWays(ns), m, s)
    decreases ns, 1
  {
    hide FindEach, Enter, Find, ScanWays, WaysOf, WellFormed, Retry;
    assert forall i :: 0 <= i < |ns| ==> ChildOk(rx, ns[i], t);
    hide ChildOk, ListOk;
    EachIsScan(rx, ns, m, s);
    ScanConcat(rx, WaysOf(ns), Retry(ns), m, s);
    if ns == [] {
      NothingToScan(rx, m, s);
    } else {
      var c := ns[|ns| - 1];
      EnterIsScan(rx, c, m, s);
      RetryIsScan(rx, ns, m, s);
      if s == "" {
        NothingAtTheEnd(rx, ns, m);
      } else {
        EnterIsFind(rx, c, m, s);
      }
    }
  }

  lemma EnterIsFind(rx: Engine, n: Node, m: Method, s: string)
    requires s != "" || n.endpoints.None?
    ensures Enter(rx, n, m, s) == Find(rx, n, m, s)
  {
    hide Find;
  }

  lemma RetryIsScan(rx: Engine, ns: seq<Node>, m: Method, s: string)
    requires ns != [] && TakesParam(ns[|ns| - 1].typ)
    ensures ScanWays(rx, Retry(ns), m, s) == if s == "" then NotFound else Push("", ScanWays(rx, Ways(ns[|ns| - 1]), m, s))
  {
    hide ScanWays, Ways, PrefixedWays;
    var c := ns[|ns| - 1];
    var tok := NodeTokens(c)[0];
    assert Blanks(NodeTokens(c)) == [Blank(tok)];
    ScanStep(rx, Blank(tok), Ways(c), m, s);
  }

  lemma {:induction false} NothingAtTheEnd(rx: Engine, ns: seq<Node>, m: Method)
    requires forall i :: 0 <= i < |ns| ==> TakesParam(ns[i].typ)
    ensures FindEach(rx, ns, m, "") == NotFound
  {
    if ns != [] {
      NothingAtTheEnd(rx, ns[1..], m);
    }
  }

  lemma {:induction false} EachIsScan(rx: Engine, ns: seq<Node>, m: Method, s: string)
    requires (forall i :: 0 <= i < |ns| ==> TakesParam(ns[i].typ)) && AllWellFormed(rx, ns)
    ensures FindEach(rx, ns, m, s) == ScanWays(rx, WaysOf(ns), m, s)
    decreases ns, 0
  {
    if ns != [] {
      var c, rest := ns[0], ns[1..];
      var tok := NodeTokens(c)[0];
      EachIsScan(rx, rest, m, s);
      var took := Take(rx, tok, s);
      if took.Some? {
        EnterIsScan(rx, c, m, s[took.value..]);
      }
      hide Take, ScanWays, Enter, Ways;
      assert Plains(NodeTokens(c)) == [Plain(tok)];
      ScanStep(rx, Plain(tok), Ways(c), m, s);
      ScanConcat(rx, WayBranch(c), WaysOf(rest), m, s);
    }
  }

  lemma {:induction false} CatchAllIsScan(rx: Engine, ns: seq<Node>, m: Method, s: string)
    requires ListOk(rx, ns, NtCatchAll) && AllWellFormed(rx, ns)
    ensures (if ns == [] then NotFound else Push(s, Enter(rx, ns[0], m, ""))) == ScanWays(rx, WaysOf(ns), m, s)
    decreases ns, 0
  {
    if ns == [] {
      NothingToScan(rx, m, s);
    } else {
      var c := ns[0];
      assert ns[1..] == [];
      assert ChildOk(rx, c, NtCatchAll);
      EnterIsScan(rx, c, m, "");
      hide ScanWays, Enter, Ways;
      assert Plains(NodeTokens(c)) == [Plain(Star)];
      ScanStep(rx, Plain(Star), Ways(c), m, s);
      assert WaysOf(ns) == WayBranch(c) + [];
      assert WaysOf(ns) == WayBranch(c);
    }
  }
}
