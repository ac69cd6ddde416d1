/** What one way of matching says about the text: the captured values rebuild it, and where blanks
    make a difference. */
module RouteFacts {
  import opened Text
  import opened Patterns
  import opened RouteWays
  import opened RouteChoice

  // ---------------------------------------------------------------- fitting

  /** The text fits the way with these values, said without computing them: literal bytes are there,
      each wildcard takes its value, a blank takes nothing in front of something, and a catch-all
      takes the rest. */
  predicate FitsWay(rx: Engine, w: seq<Step>, caps: seq<string>, s: string)
    decreases |w|
  {
    if w == [] then caps == [] && s == ""
    else if w[0].Blank? then caps != [] && caps[0] == "" && s != "" && FitsWay(rx, w[1..], caps[1..], s)
    else match w[0].tok
      case Lit(c) => s != "" && s[0] == c && FitsWay(rx, w[1..], caps, s[1..])
      case Star => caps != [] && caps[0] == s && FitsWay(rx, w[1..], caps[1..], "")
      case tok => caps != [] && Takes(rx, tok, caps[0], s) && FitsWay(rx, w[1..], caps[1..], s[|caps[0]|..])
  }

  lemma StepFits(rx: Engine, st: Step, s: string)
    requires st.Plain? && WildToken(st.tok)
    ensures TakeStep(rx, st, s).Taken? ==>
              var t := TakeStep(rx, st, s);
              |t.vs| == 1 && Takes(rx, st.tok, t.vs[0], s) && t.vs[0] <= s && t.rest == s[|t.vs[0]|..]
    ensures forall v :: Takes(rx, st.tok, v, s) ==> v <= s && TakeStep(rx, st, s) == Taken([v], s[|v|..])
  {
    hide Take, Takes;
    TakeIff(rx, st.tok, s);
    if Take(rx, st.tok, s).Some? {
      var p := Take(rx, st.tok, s).value;
      assert |s[..p]| == p && s[..p] <= s;
    }
    forall v | Takes(rx, st.tok, v, s) ensures v <= s && TakeStep(rx, st, s) == Taken([v], s[|v|..]) {
      assert s[..|v|] == v;
    }
  }

  /** The way matches with values exactly when the text fits it with them. */
  lemma {:induction false} WayFitsIff(rx: Engine, w: seq<Step>, caps: seq<string>, s: string)
    ensures MatchWay(rx, w, s) == Some(caps) <==> FitsWay(rx, w, caps, s)
    decreases |w|
  {
    hide Take, Takes;
    if w != [] {
      if w[0].Plain? && WildToken(w[0].tok) {
        StepFits(rx, w[0], s);
      }
      var t := TakeStep(rx, w[0], s);
      if t.Taken? {
        if t.vs == [] {
          WayFitsIff(rx, w[1..], caps, t.rest);
          assert forall r: seq<string> :: [] + r == r;
        } else if caps != [] {
          WayFitsIff(rx, w[1..], caps[1..], t.rest);
          assert caps == [caps[0]] + caps[1..];
          var r := MatchWay(rx, w[1..], t.rest);
          if r.Some? {
            assert (t.vs + r.value)[1..] == r.value && (t.vs + r.value)[0] == t.vs[0];
          }
        }
      }
    }
  }

  // ---------------------------------------------------------------- captured values

  /** `s` is the route's text with the values written in; a parameter's value has no '/' and not
      the byte behind the parameter; a regexp's value matches, or is empty. */
  predicate Captured(rx: Engine, toks: seq<Token>, caps: seq<string>, s: string)
    decreases |toks|
  {
    if toks == [] then caps == [] && s == ""
    else match toks[0]
      case Lit(c) => s != "" && s[0] == c && Captured(rx, toks[1..], caps, s[1..])
      case t =>
        && caps != [] && caps[0] <= s && Captured(rx, toks[1..], caps[1..], s[|caps[0]|..])
        && (t.Rex? ==> caps[0] == "" || rx.matches(t.re, caps[0]))
        && (t.Param? ==> '/' !in caps[0] && t.tail !in caps[0])
  }

  lemma {:induction false} CapturedFills(rx: Engine, toks: seq<Token>, caps: seq<string>, s: string)
    requires Captured(rx, toks, caps, s)
    ensures |caps| == Wilds(toks) && FillTokens(toks, caps) == s
    decreases |toks|
  {
    if toks != [] {
      if toks[0].Lit? {
        CapturedFills(rx, toks[1..], caps, s[1..]);
        assert s == [s[0]] + s[1..];
      } else {
        var v := caps[0];
        CapturedFills(rx, toks[1..], caps[1..], s[|v|..]);
        assert s == v + s[|v|..];
      }
    }
  }

  /** Blanks stand for regular expressions and parameters only. */
  predicate BlanksWild(w: seq<Step>) {
    forall i :: 0 <= i < |w| && w[i].Blank? ==> WildToken(w[i].tok)
  }

  lemma {:induction false} AllowedWild(sib: Sibs, p: seq<Token>, w: seq<Step>)
    requires Allowed(sib, p, w)
    ensures BlanksWild(w)
    decreases |w|
  {
    if w != [] {
      AllowedWild(sib, p + [w[0].tok], w[1..]);
      assert forall i :: 0 < i < |w| ==> w[i] == w[1..][i - 1];
    }
  }

  lemma TakeMatches(rx: Engine, tok: Token, s: string)
    requires WildToken(tok) && Take(rx, tok, s).Some?
    ensures tok.Rex? ==> Take(rx, tok, s).value > 0 && rx.matches(tok.re, s[..Take(rx, tok, s).value])
  {}

  /** Whatever way matches, the captured values written into the route give the text. */
  lemma {:induction false} WayCaptures(rx: Engine, w: seq<Step>, s: string)
    requires BlanksWild(w) && MatchWay(rx, w, s).Some?
    ensures Captured(rx, Toks(w), MatchWay(rx, w, s).value, s)
    decreases |w|
  {
    hide Take;
    if w != [] {
      var t := TakeStep(rx, w[0], s);
      assert forall i :: 0 <= i < |w| - 1 ==> w[1..][i] == w[i + 1];
      WayCaptures(rx, w[1..], t.rest);
      assert Toks(w)[1..] == Toks(w[1..]);
      var caps := MatchWay(rx, w[1..], t.rest).value;
      assert MatchWay(rx, w, s).value == t.vs + caps;
      if w[0].tok.Lit? {
        assert t.vs + caps == caps;
      } else {
        assert (t.vs + caps)[0] == t.vs[0] && (t.vs + caps)[1..] == caps;
        if w[0].Plain? && !w[0].tok.Star? {
          TakeMatches(rx, w[0].tok, s);
        }
        assert s[|t.vs[0]|..] == t.rest;
      }
    }
  }

  // ---------------------------------------------------------------- blanks that make no difference

  lemma {:induction false} PlainsMatch(rx: Engine, toks: seq<Token>, s: string)
    ensures MatchWay(rx, Plains(toks), s) == Match(rx, toks, s)
    decreases |toks|
  {
    hide Take;
    if toks != [] {
      var t := TakeStep(rx, Plain(toks[0]), s);
      assert Plains(toks)[1..] == Plains(toks[1..]);
      if t.Taken? {
        PlainsMatch(rx, toks[1..], t.rest);
        var r := Match(rx, toks[1..], t.rest);
        assert r.Some? ==> [] + r.value == r.value;
      }
    }
  }

  /** In a pattern without regular expressions and adjacent wildcards, what matches with blanks
      matches without, and captures the same. */
  lemma {:induction false} PlainInstead(rx: Engine, w: seq<Step>, s: string)
    requires BlanksWild(w) && Proper(Toks(w)) && Regular(Toks(w)) && MatchWay(rx, w, s).Some?
    ensures Match(rx, Toks(w), s) == MatchWay(rx, w, s)
    decreases |w|
  {
    if w != [] {
      var rest := w[1..];
      assert forall i :: 0 <= i < |w| - 1 ==> rest[i] == w[i + 1];
      assert Toks(w)[1..] == Toks(rest);
      assert Regular(Toks(rest)) by { assert forall i :: 0 <= i < |rest| ==> Toks(rest)[i] == Toks(w)[i + 1]; }
      var t := TakeStep(rx, w[0], s);
      PlainInstead(rx, rest, t.rest);
      hide Take, Proper, Regular;
      if w[0].Blank? {
        assert TakeStep(rx, Plain(w[0].tok), s) == t by { BlankIsPlain(rx, w, s); }
      }
      MatchCons(rx, w[0].tok, Toks(rest), s);
      assert Toks(w) == [w[0].tok] + Toks(rest);
    }
  }

  lemma MatchCons(rx: Engine, tok: Token, toks: seq<Token>, s: string)
    ensures Match(rx, [tok] + toks, s) ==
            var t := TakeStep(rx, Plain(tok), s); if t.Refused? then None else Ahead(t.vs, Match(rx, toks, t.rest))
  {
    hide Take;
    assert ([tok] + toks)[1..] == toks;
    var t := TakeStep(rx, Plain(tok), s);
    if t.Taken? {
      var r := Match(rx, toks, t.rest);
      assert r.Some? ==> [] + r.value == r.value;
    }
  }

  /** Behind such a parameter stands its tail as literal text, so that an empty value is also what
      the parameter itself takes. */
  lemma BlankIsPlain(rx: Engine, w: seq<Step>, s: string)
    requires w != [] && w[0].Blank? && BlanksWild(w) && Proper(Toks(w)) && Regular(Toks(w)) && MatchWay(rx, w, s).Some?
    ensures TakeStep(rx, Plain(w[0].tok), s) == TakeStep(rx, w[0], s)
  {
    var rest, tok := w[1..], w[0].tok;
    assert Toks(w)[0] == tok && Toks(w)[1..] == Toks(rest);
    assert tok.Param? && !IsWild(tok.tail);
    assert MatchWay(rx, rest, s).Some?;
    assert rest != [] && rest[0] == w[1];
    assert Toks(rest)[0] == rest[0].tok;
    assert rest[0].tok == Lit(tok.tail);
    assert rest[0].Plain?;
    IndexByteIs(s, tok.tail, 0);
    assert Take(rx, tok, s) == Some(0);
    assert s[..0] == "" && s[0..] == s;
  }

  // ---------------------------------------------------------------- one way for one capture

  function Plainer(w: seq<Step>, i: nat): seq<Step>
    requires i < |w|
  {
    w[i := Plain(w[i].tok)]
  }

  lemma SameToks(w: seq<Step>, i: nat)
    requires i < |w|
    ensures Toks(Plainer(w, i)) == Toks(w)
  {}

  lemma {:induction false} PlainerAllowed(sib: Sibs, p: seq<Token>, w: seq<Step>, i: nat)
    requires i < |w| && Allowed(sib, p, w)
    ensures Allowed(sib, p, Plainer(w, i))
    decreases |w|
  {
    var v := Plainer(w, i);
    if i == 0 {
      assert v[1..] == w[1..];
    } else {
      assert v[1..] == Plainer(w[1..], i - 1);
      PlainerAllowed(sib, p + [w[0].tok], w[1..], i - 1);
    }
  }

  lemma {:induction false} PlainerEarlier(sib: Sibs, p: seq<Token>, w: seq<Step>, i: nat)
    requires i < |w| && w[i].Blank? && WildToken(w[i].tok)
    ensures Earlier(sib, p, Plainer(w, i), w)
    decreases |w|
  {
    var v := Plainer(w, i);
    if i > 0 {
      assert v[1..] == Plainer(w[1..], i - 1);
      PlainerEarlier(sib, p + [w[0].tok], w[1..], i - 1);
    }
  }

  /** The way without blanks is allowed, and tried before any other way of the same route. */
  lemma {:induction false} PlainsFirst(sib: Sibs, p: seq<Token>, w: seq<Step>)
    ensures Allowed(sib, p, Plains(Toks(w)))
    ensures BlanksWild(w) && w != Plains(Toks(w)) ==> Earlier(sib, p, Plains(Toks(w)), w)
    decreases |w|
  {
    if w != [] {
      var rest := w[1..];
      assert Plains(Toks(w))[1..] == Plains(Toks(rest));
      assert forall i :: 0 <= i < |w| - 1 ==> rest[i] == w[i + 1];
      PlainsFirst(sib, p + [w[0].tok], rest);
      if w[0].Plain? && rest == Plains(Toks(rest)) {
        assert w == [w[0]] + rest;
        assert w == Plains(Toks(w));
      }
    }
  }

  /** Two ways of one route that capture the same differ in a blank that is none: its plain form
      matches as well. */
  lemma {:induction false} SameCaptures(rx: Engine, x: seq<Step>, y: seq<Step>, s: string) returns (first: bool, i: nat)
    requires Toks(x) == Toks(y) && BlanksWild(x) && BlanksWild(y) && x != y
    requires MatchWay(rx, x, s).Some? && MatchWay(rx, x, s) == MatchWay(rx, y, s)
    ensures i < |x| == |y|
    ensures var z := if first then x else y; z[i].Blank? && MatchWay(rx, Plainer(z, i), s).Some?
    decreases |x|
  {
    hide TakeStep, MatchWay, Toks;
    SameLength(x, y);
    var x1, y1 := x[1..], y[1..];
    MatchUncons(rx, x, s);
    MatchUncons(rx, y, s);
    if x[0] == y[0] {
      var t := TakeStep(rx, x[0], s);
      assert x == [x[0]] + x1 && y == [y[0]] + y1;
      SameTail(t.vs, MatchWay(rx, x1, t.rest).value, MatchWay(rx, y1, t.rest).value);
      first, i := SameCaptures(rx, x1, y1, t.rest);
      PlainerCons(rx, if first then x else y, i, s);
      i := i + 1;
    } else {
      i := 0;
      first := x[0].Blank?;
      var z, o := if first then x else y, if first then y else x;
      EmptyTake(rx, z, o, s);
      PlainerHere(rx, z, s);
    }
  }

  lemma SameLength(x: seq<Step>, y: seq<Step>)
    requires Toks(x) == Toks(y) && x != y && BlanksWild(x) && BlanksWild(y)
    ensures |x| == |y| > 0 && x[0].tok == y[0].tok && Toks(x[1..]) == Toks(y[1..])
    ensures BlanksWild(x[1..]) && BlanksWild(y[1..])
  {
    assert |x| == |Toks(x)| == |Toks(y)| == |y|;
    assert x != [];
    assert x[0].tok == Toks(x)[0] == Toks(y)[0] == y[0].tok;
    assert Toks(x[1..]) == Toks(x)[1..] && Toks(y[1..]) == Toks(y)[1..];
    assert forall k :: 0 <= k < |x| - 1 ==> x[1..][k] == x[k + 1] && y[1..][k] == y[k + 1];
  }

  lemma MatchUncons(rx: Engine, x: seq<Step>, s: string)
    requires x != [] && MatchWay(rx, x, s).Some?
    ensures var t := TakeStep(rx, x[0], s);
            t.Taken? && MatchWay(rx, x[1..], t.rest).Some? && MatchWay(rx, x, s).value == t.vs + MatchWay(rx, x[1..], t.rest).value
  {
    hide TakeStep;
  }

  lemma PlainerCons(rx: Engine, z: seq<Step>, i: nat, s: string)
    requires i + 1 < |z| && TakeStep(rx, z[0], s).Taken?
    requires MatchWay(rx, Plainer(z[1..], i), TakeStep(rx, z[0], s).rest).Some?
    ensures MatchWay(rx, Plainer(z, i + 1), s).Some?
  {
    hide TakeStep;
    assert Plainer(z, i + 1)[1..] == Plainer(z[1..], i);
  }

  lemma PlainerHere(rx: Engine, z: seq<Step>, s: string)
    requires z != [] && MatchWay(rx, z, s).Some? && TakeStep(rx, Plain(z[0].tok), s) == TakeStep(rx, z[0], s)
    ensures MatchWay(rx, Plainer(z, 0), s).Some?
  {
    hide TakeStep;
    assert Plainer(z, 0)[1..] == z[1..];
  }

  lemma SameTail(vs: seq<string>, a: seq<string>, b: seq<string>)
    requires vs + a == vs + b
    ensures a == b
  {
    assert a == (vs + a)[|vs|..] == (vs + b)[|vs|..] == b;
  }

  /** A blank and its plain form that capture the same take the same. */
  lemma EmptyTake(rx: Engine, z: seq<Step>, o: seq<Step>, s: string)
    requires z != [] && o != [] && z[0].Blank? && WildToken(z[0].tok) && o[0] == Plain(z[0].tok)
    requires MatchWay(rx, z, s).Some? && MatchWay(rx, z, s) == MatchWay(rx, o, s)
    ensures TakeStep(rx, Plain(z[0].tok), s) == TakeStep(rx, z[0], s)
  {
    var tz, to := TakeStep(rx, z[0], s), TakeStep(rx, o[0], s);
    var a, b := MatchWay(rx, z[1..], tz.rest).value, MatchWay(rx, o[1..], to.rest).value;
    assert (tz.vs + a)[0] == "" && (to.vs + b)[0] == to.vs[0];
    var p := Take(rx, z[0].tok, s).value;
    assert s[..p] == "" && p == 0;
    assert s[0..] == s;
  }
}
