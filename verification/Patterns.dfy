/** Routing patterns: how the router cuts a pattern into literal bytes and wildcards
    (internal/platform/router/tree.go, `patNextSegment` and `patParamKeys`), and what it means
    for a path to match the result. */
module Patterns {
  import opened Text

  datatype NodeType = NtStatic | NtRegexp | NtParam | NtCatchAll

  datatype PatternError =
    | WildcardBeforeParam
    | MissingBrace
    | WildcardNotLast
    | InvalidRegexp
    | DuplicateKey
    | MissingSlash
    | UnknownMethod

  datatype Result<+T> = Ok(value: T) | Err(error: PatternError)

  /** The regular expression library: which expressions compile and what they match. */
  datatype Engine = Engine(compiles: string -> bool, matches: (string, string) -> bool)

  datatype Segment = Segment(typ: NodeType, key: string, rexpat: string, tail: char, start: nat, end: nat)

  const NUL: char := 0 as char

  predicate TakesParam(t: NodeType) { t == NtParam || t == NtRegexp }

  predicate IsWild(c: char) { c == '{' || c == '*' }

  predicate Literal(s: string) { '{' !in s && '*' !in s }

  // ---------------------------------------------------------------- cutting a pattern

  /** The position in `s` at which the brace count, `open` at the start, drops to zero; -1 if never. */
  function ClosingBrace(s: string, open: nat): (p: int)
    ensures -1 <= p < |s|
    ensures open == 0 && s != "" && s[0] == '{' ==> p != 0
  {
    if s == "" then -1
    else if s[0] == '}' && open == 1 then 0
    else
      var open' := if s[0] == '{' then open + 1 else if s[0] == '}' && open > 0 then open - 1 else open;
      var q := ClosingBrace(s[1..], open');
      if q < 0 then -1 else q + 1
  }

  /** The expression is anchored on both sides unless it is empty. */
  function Anchored(re: string): (r: string)
    ensures re == "" ==> r == ""
    ensures re != "" ==> r != "" && r[0] == '^' && r[|r| - 1] == '$'
  {
    if re == "" then ""
    else
      var left := if re[0] != '^' then "^" + re else re;
      if left[|left| - 1] != '$' then left + "$" else left
  }

  function BraceSegment(pattern: string, start: nat, close: nat): (seg: Segment)
    requires start < close < |pattern|
    ensures TakesParam(seg.typ) && seg.start == start && seg.end == close + 1
    ensures seg.tail == if seg.end < |pattern| then pattern[seg.end] else '/'
  {
    var body := pattern[start + 1..close];
    var end := close + 1;
    var tail := if end < |pattern| then pattern[end] else '/';
    var colon := IndexByte(body, ':');
    if colon >= 0 then
      Segment(NtRegexp, body[..colon], Anchored(body[colon + 1..]), tail, start, end)
    else
      Segment(NtParam, body, "", tail, start, end)
  }

  /** `patNextSegment`. */
  function NextSegment(pattern: string): (r: Result<Segment>)
    ensures r.Ok? ==> r.value.start <= r.value.end <= |pattern|
    ensures r.Ok? ==> (r.value.typ == NtStatic <==> Literal(pattern))
    ensures r.Ok? && r.value.typ != NtStatic ==> r.value.start < r.value.end && Literal(pattern[..r.value.start])
    ensures r.Ok? && TakesParam(r.value.typ) ==>
              && pattern[r.value.start] == '{'
              && r.value.tail == if r.value.end < |pattern| then pattern[r.value.end] else '/'
    ensures r.Ok? && r.value.typ == NtCatchAll ==> pattern[r.value.start] == '*' && r.value.end == |pattern|
    ensures r.Ok? && r.value.typ == NtCatchAll ==> r.value.start == |pattern| - 1 && r.value.tail == NUL
    ensures r.Ok? && r.value.typ != NtRegexp ==> r.value.rexpat == ""
    ensures r.Ok? && pattern != "" && IsWild(pattern[0]) ==> r.value.typ != NtStatic && r.value.start == 0
  {
    var ps := IndexByte(pattern, '{');
    var ws := IndexByte(pattern, '*');
    if ps < 0 && ws < 0 then
      Ok(Segment(NtStatic, "", "", NUL, 0, |pattern|))
    else if ps >= 0 && ws >= 0 && ws < ps then
      Err(WildcardBeforeParam)
    else if ps >= 0 then
      assert '*' !in pattern[..ps] by {
        if ws >= 0 { assert pattern[..ps] == pattern[..ws][..ps]; }
      }
      var pe := ClosingBrace(pattern[ps..], 0);
      if pe < 0 then Err(MissingBrace) else Ok(BraceSegment(pattern, ps, ps + pe))
    else if ws < |pattern| - 1 then
      Err(WildcardNotLast)
    else
      Ok(Segment(NtCatchAll, "*", "", NUL, ws, |pattern|))
  }

  /** The counting loop of `patNextSegment`: where the brace that opens `rest` is closed, or 0. */
  method CountBraces(rest: string) returns (pe: nat)
    requires rest != "" && rest[0] == '{'
    ensures pe == if ClosingBrace(rest, 0) < 0 then 0 else ClosingBrace(rest, 0)
  {
    var cc: nat := 0;
    pe := 0;
    var i := 0;
    while i < |rest|
      invariant 0 <= i <= |rest| && pe == 0
      invariant i > 0 ==> cc > 0
      invariant ClosingBrace(rest, 0) == (var q := ClosingBrace(rest[i..], cc); if q < 0 then -1 else q + i)
    {
      var c := rest[i];
      assert rest[i..][1..] == rest[i + 1..];
      if c == '{' {
        cc := cc + 1;
      } else if c == '}' {
        cc := cc - 1;
        if cc == 0 {
          return i;
        }
      }
      i := i + 1;
    }
  }

  /** `patNextSegment` as written. */
  method PatNextSegment(pattern: string) returns (r: Result<Segment>)
    ensures r == NextSegment(pattern)
  {
    hide IndexByte, BraceSegment, ClosingBrace;
    var ps := IndexByte(pattern, '{');
    var ws := IndexByte(pattern, '*');
    if ps < 0 && ws < 0 {
      return Ok(Segment(NtStatic, "", "", NUL, 0, |pattern|));
    }
    if ps >= 0 && ws >= 0 && ws < ps {
      return Err(WildcardBeforeParam);
    }
    if ps >= 0 {
      var pe := CountBraces(pattern[ps..]);
      if pe == 0 {
        return Err(MissingBrace);
      }
      return Ok(BraceSegment(pattern, ps, ps + pe));
    }
    if ws < |pattern| - 1 {
      return Err(WildcardNotLast);
    }
    return Ok(Segment(NtCatchAll, "*", "", NUL, ws, |pattern|));
  }

  // ---------------------------------------------------------------- tokens

  /** What the tree distinguishes of a pattern: parameter names do not matter, the byte after a
      parameter (its tail) does. */
  datatype Token = Lit(c: char) | Rex(re: string, tail: char) | Param(tail: char) | Star

  function Lits(s: string): (ts: seq<Token>)
    ensures |ts| == |s| && forall i :: 0 <= i < |s| ==> ts[i] == Lit(s[i])
  {
    seq(|s|, i requires 0 <= i < |s| => Lit(s[i]))
  }

  function SegmentToken(seg: Segment): Token
    requires seg.typ != NtStatic
  {
    match seg.typ
    case NtRegexp => Rex(seg.rexpat, seg.tail)
    case NtParam => Param(seg.tail)
    case _ => Star
  }

  /** A whole pattern as tokens: an error as soon as one segment is malformed. */
  function Tokens(pattern: string): (r: Result<seq<Token>>)
    ensures r.Ok? && pattern != "" ==> r.value != []
    decreases |pattern|
  {
    match NextSegment(pattern)
    case Err(e) => Err(e)
    case Ok(seg) =>
      if seg.typ == NtStatic then Ok(Lits(pattern))
      else
        match Tokens(pattern[seg.end..])
        case Err(e) => Err(e)
        case Ok(rest) => Ok(Lits(pattern[..seg.start]) + [SegmentToken(seg)] + rest)
  }

  /** The first byte of what a token list was written as; '/' stands for the end. */
  function FirstByte(toks: seq<Token>): char {
    if toks == [] then '/'
    else match toks[0]
      case Lit(c) => c
      case Star => '*'
      case _ => '{'
  }

  /** Literal bytes are no wildcards, each tail is the byte that follows, and only the last token
      is a catch-all. */
  predicate Proper(toks: seq<Token>) {
    toks == [] ||
    (&& Proper(toks[1..])
     && match toks[0]
        case Lit(c) => !IsWild(c)
        case Star => toks[1..] == []
        case t => t.tail == FirstByte(toks[1..]))
  }

  /** No regular expressions and no wildcard right behind a parameter. */
  predicate Regular(toks: seq<Token>) {
    forall i :: 0 <= i < |toks| ==> !toks[i].Rex? && (toks[i].Param? ==> !IsWild(toks[i].tail))
  }

  lemma BraceSegmentCons(c: char, s: string, start: nat, close: nat)
    requires start < close < |s|
    ensures BraceSegment([c] + s, start + 1, close + 1) ==
            var seg := BraceSegment(s, start, close); seg.(start := start + 1, end := close + 2)
  {
    hide IndexByte, Anchored;
    var t := [c] + s;
    assert t[start + 2..close + 1] == s[start + 1..close] by {
      assert t[1..] == s && t[start + 2..close + 1] == t[1..][start + 1..close];
    }
    assert close + 1 < |s| ==> t[close + 2] == s[close + 1];
  }

  /** A literal byte in front of a pattern shifts its next segment by one. */
  lemma NextSegmentCons(c: char, s: string)
    requires !IsWild(c)
    ensures NextSegment([c] + s) ==
            match NextSegment(s)
            case Err(e) => Err(e)
            case Ok(seg) => if seg.typ == NtStatic then Ok(seg.(end := seg.end + 1))
                            else Ok(seg.(start := seg.start + 1, end := seg.end + 1))
  {
    hide BraceSegment, ClosingBrace, IndexByte;
    var t := [c] + s;
    var ps := IndexByte(s, '{');
    IndexByteCons(c, s, '{');
    IndexByteCons(c, s, '*');
    if ps >= 0 {
      assert t[ps + 1..] == s[ps..];
      var pe := ClosingBrace(s[ps..], 0);
      if pe >= 0 {
        BraceSegmentCons(c, s, ps, ps + pe);
      }
    }
  }

  lemma LitsCons(c: char, s: string)
    ensures Lits([c] + s) == [Lit(c)] + Lits(s)
  {}

  /** The tokens of a pattern that starts with a literal byte. */
  lemma {:induction false} TokensCons(c: char, s: string)
    requires !IsWild(c)
    ensures Tokens([c] + s) == match Tokens(s)
                               case Err(e) => Err(e)
                               case Ok(ts) => Ok([Lit(c)] + ts)
  {
    hide *;
    NextSegmentCons(c, s);
    var t := [c] + s;
    if NextSegment(s).Err? {
      TokensErr(s);
      TokensErr(t);
    } else if NextSegment(s).value.typ == NtStatic {
      TokensLiteral(s);
      TokensLiteral(t);
      LitsCons(c, s);
    } else {
      var seg := NextSegment(s).value;
      TokensUnfold(s, seg);
      TokensUnfold(t, seg.(start := seg.start + 1, end := seg.end + 1));
      HeadMoved(c, s, seg);
      if Tokens(s[seg.end..]).Ok? {
        Associate([Lit(c)], Lits(s[..seg.start]) + [SegmentToken(seg)], Tokens(s[seg.end..]).value);
      }
    }
  }

  lemma HeadMoved(c: char, s: string, seg: Segment)
    requires seg.start <= seg.end <= |s| && seg.typ != NtStatic
    ensures var t, seg' := [c] + s, seg.(start := seg.start + 1, end := seg.end + 1);
            && t[seg'.end..] == s[seg.end..]
            && Lits(t[..seg'.start]) + [SegmentToken(seg')] == [Lit(c)] + (Lits(s[..seg.start]) + [SegmentToken(seg)])
  {
    hide Lits, SegmentToken;
    var t := [c] + s;
    assert t[seg.end + 1..] == s[seg.end..];
    assert t[..seg.start + 1] == [c] + s[..seg.start];
    LitsCons(c, s[..seg.start]);
    SegmentTokenMoved(seg);
    Associate([Lit(c)], Lits(s[..seg.start]), [SegmentToken(seg)]);
  }

  lemma Associate<T>(a: seq<T>, b: seq<T>, c: seq<T>)
    ensures a + b + c == a + (b + c)
  {}

  lemma TokensErr(p: string)
    requires NextSegment(p).Err?
    ensures Tokens(p) == Err(NextSegment(p).error)
  {
    hide NextSegment;
  }

  lemma TokensLiteral(p: string)
    requires NextSegment(p).Ok? && NextSegment(p).value.typ == NtStatic
    ensures Tokens(p) == Ok(Lits(p))
  {
    hide NextSegment, Lits;
  }

  lemma TokensUnfold(p: string, seg: Segment)
    requires NextSegment(p) == Ok(seg) && seg.typ != NtStatic
    ensures seg.start < seg.end <= |p|
    ensures Tokens(p) == match Tokens(p[seg.end..])
                         case Err(e) => Err(e)
                         case Ok(rest) => Ok(Lits(p[..seg.start]) + [SegmentToken(seg)] + rest)
  {
    hide Lits, SegmentToken;
  }

  lemma SegmentTokenMoved(seg: Segment)
    requires seg.typ != NtStatic
    ensures SegmentToken(seg.(start := seg.start + 1, end := seg.end + 1)) == SegmentToken(seg)
  {}

  lemma LiteralTail(p: string)
    requires Literal(p) && p != ""
    ensures !IsWild(p[0]) && Literal(p[1..])
  {
    assert p[0] in p;
  }

  lemma {:induction false} TokensLits(p: string, s: string)
    requires Literal(p)
    ensures Tokens(p + s) == match Tokens(s)
                             case Err(e) => Err(e)
                             case Ok(ts) => Ok(Lits(p) + ts)
    decreases |p|
  {
    hide Tokens, NextSegment, Lits;
    if p == "" {
      assert p + s == s;
      if Tokens(s).Ok? { assert Lits(p) + Tokens(s).value == Tokens(s).value; }
    } else {
      var c, q := p[0], p[1..];
      LiteralTail(p);
      hide Literal;
      assert p + s == [c] + (q + s);
      TokensCons(c, q + s);
      TokensLits(q, s);
      if Tokens(s).Ok? {
        assert p == [c] + q;
        LitsCons(c, q);
        assert [Lit(c)] + Lits(q) + Tokens(s).value == [Lit(c)] + (Lits(q) + Tokens(s).value);
      }
    }
  }

  /** The first token of a pattern that starts with a wildcard. */
  lemma TokensWild(s: string)
    requires s != "" && IsWild(s[0])
    ensures NextSegment(s).Ok? ==>
              var seg := NextSegment(s).value;
              && seg.typ != NtStatic && seg.start == 0 && seg.end > 0
              && (s[0] == '{' <==> TakesParam(seg.typ))
              && (Tokens(s).Ok? <==> Tokens(s[seg.end..]).Ok?)
              && (Tokens(s).Ok? ==> Tokens(s).value == [SegmentToken(seg)] + Tokens(s[seg.end..]).value)
    ensures NextSegment(s).Err? ==> Tokens(s).Err?
  {
    hide NextSegment;
    if NextSegment(s).Ok? {
      var seg := NextSegment(s).value;
      assert Lits(s[..0]) == [];
      var rest := Tokens(s[seg.end..]);
      if rest.Ok? {
        assert [] + [SegmentToken(seg)] + rest.value == [SegmentToken(seg)] + rest.value;
      }
    }
  }

  lemma TokensEmpty()
    ensures Tokens("") == Ok([])
  {}

  /** The tokens start with the pattern's first byte. */
  lemma TokensFirstByte(s: string)
    requires Tokens(s).Ok?
    ensures FirstByte(Tokens(s).value) == if s == "" then '/' else s[0]
  {
    hide NextSegment, Tokens;
    if s == "" {
      assert Literal(s);
      TokensEmpty();
    } else {
      if IsWild(s[0]) {
        TokensWild(s);
      } else {
        assert s == [s[0]] + s[1..];
        TokensCons(s[0], s[1..]);
      }
    }
  }

  lemma {:induction false} TokensProper(s: string)
    requires Tokens(s).Ok?
    ensures Proper(Tokens(s).value)
    decreases |s|
  {
    hide NextSegment, Tokens;
    if s == "" {
      TokensEmpty();
    } else {
      if IsWild(s[0]) {
        TokensWild(s);
        var seg := NextSegment(s).value;
        if seg.typ == NtCatchAll {
          assert s[seg.end..] == "";
          TokensEmpty();
        }
        TokensProper(s[seg.end..]);
        TokensFirstByte(s[seg.end..]);
        assert Tokens(s).value[1..] == Tokens(s[seg.end..]).value;
      } else {
        assert s == [s[0]] + s[1..];
        TokensCons(s[0], s[1..]);
        TokensProper(s[1..]);
        assert Tokens(s).value[1..] == Tokens(s[1..]).value;
      }
    }
  }

  // ---------------------------------------------------------------- matching

  /** How many bytes of `s` a parameter takes: up to its tail, or for tail '/' up to the end, but
      never across a '/'. */
  function Take(rx: Engine, tok: Token, s: string): (r: Option<nat>)
    requires tok.Param? || tok.Rex?
    ensures r.Some? ==> s != "" && r.value <= |s|
    ensures r.Some? ==> tok.tail !in s[..r.value]
    ensures r.Some? && tok.Param? ==> '/' !in s[..r.value]
  {
    if s == "" then None
    else
      var q := IndexByte(s, tok.tail);
      if q < 0 && tok.tail != '/' then None
      else
        var p := if q < 0 then |s| else q;
        assert q < 0 ==> s[..p] == s;
        if tok.Rex? then
          if p > 0 && rx.matches(tok.re, s[..p]) then Some(p) else None
        else if IndexByte(s[..p], '/') >= 0 then None
        else Some(p)
  }

  /** What a wildcard takes of a text, said without computing it: the text in front of the first byte
      that is its tail, or all of it where the tail is '/' and does not occur. The value of a parameter
      does not go across a '/'; that of an expression is not empty and matches it. */
  predicate Takes(rx: Engine, tok: Token, v: string, s: string)
    requires tok.Param? || tok.Rex?
  {
    && s != "" && v <= s && tok.tail !in v
    && (if v == s then tok.tail == '/' else s[|v|] == tok.tail)
    && (if tok.Rex? then v != "" && rx.matches(tok.re, v) else '/' !in v)
  }

  lemma TakesLeast(rx: Engine, tok: Token, v: string, s: string)
    requires (tok.Param? || tok.Rex?) && Takes(rx, tok, v, s)
    ensures Take(rx, tok, s) == Some(|v|)
  {
    assert s[..|v|] == v;
    if v == s {
      assert tok.tail !in s;
    } else {
      IndexByteIs(s, tok.tail, |v|);
    }
  }

  lemma TakeTakes(rx: Engine, tok: Token, s: string)
    requires (tok.Param? || tok.Rex?) && Take(rx, tok, s).Some?
    ensures Takes(rx, tok, s[..Take(rx, tok, s).value], s)
  {
    var p := Take(rx, tok, s).value;
    assert p == |s| ==> s[..p] == s;
    assert p < |s| ==> |s[..p]| != |s|;
  }

  /** A wildcard takes what it should, and is passed over exactly where there is nothing that it could
      take. */
  lemma TakeIff(rx: Engine, tok: Token, s: string)
    requires tok.Param? || tok.Rex?
    ensures forall v :: Takes(rx, tok, v, s) <==> v <= s && Take(rx, tok, s) == Some(|v|)
    ensures Take(rx, tok, s).None? <==> forall v :: !Takes(rx, tok, v, s)
  {
    hide Take, Takes;
    if Take(rx, tok, s).Some? {
      TakeTakes(rx, tok, s);
    }
    forall v ensures Takes(rx, tok, v, s) <==> v <= s && Take(rx, tok, s) == Some(|v|) {
      if Takes(rx, tok, v, s) {
        TakesLeast(rx, tok, v, s);
        TakesFront(rx, tok, v, s);
      } else {
        assert v <= s ==> s[..|v|] == v;
      }
    }
  }

  lemma TakesFront(rx: Engine, tok: Token, v: string, s: string)
    requires (tok.Param? || tok.Rex?) && Takes(rx, tok, v, s)
    ensures v <= s
  {}

  function Cons(v: string, r: Option<seq<string>>): (r': Option<seq<string>>)
  {
    match r
    case None => None
    case Some(vs) => Some([v] + vs)
  }

  /** The values a path gives to the wildcards of one pattern, taken from left to right. */
  function Match(rx: Engine, toks: seq<Token>, s: string): (r: Option<seq<string>>)
    decreases |toks|
  {
    if toks == [] then if s == "" then Some([]) else None
    else match toks[0]
      case Lit(c) => if s != "" && s[0] == c then Match(rx, toks[1..], s[1..]) else None
      case Star => Cons(s, Match(rx, toks[1..], ""))
      case t =>
        match Take(rx, t, s)
        case None => None
        case Some(p) => Cons(s[..p], Match(rx, toks[1..], s[p..]))
  }

  /** The declarative reading: `s` is the pattern with `caps` written in, no value contains a '/'
      or the byte that follows its parameter, and a parameter is not asked to match at the end. */
  predicate Fits(toks: seq<Token>, caps: seq<string>, s: string)
    decreases |toks|
  {
    if toks == [] then caps == [] && s == ""
    else match toks[0]
      case Lit(c) => s != "" && s[0] == c && Fits(toks[1..], caps, s[1..])
      case Star => caps != [] && caps[0] == s && Fits(toks[1..], caps[1..], "")
      case t =>
        && caps != [] && s != "" && caps[0] <= s
        && t.tail !in caps[0] && '/' !in caps[0]
        && Fits(toks[1..], caps[1..], s[|caps[0]|..])
  }

  /** For a regular pattern the left-to-right cut finds the values exactly when some values fit,
      and there are no other values that do. */
  lemma {:induction false} MatchIffFits(rx: Engine, toks: seq<Token>, caps: seq<string>, s: string)
    requires Proper(toks) && Regular(toks)
    ensures Match(rx, toks, s) == Some(caps) <==> Fits(toks, caps, s)
    decreases |toks|
  {
    if toks == [] {
    } else {
      var rest := toks[1..];
      assert forall i :: 0 <= i < |rest| ==> rest[i] == toks[i + 1];
      match toks[0]
      case Lit(c) =>
        if s != "" { MatchIffFits(rx, rest, caps, s[1..]); }
      case Star =>
        if caps != [] { MatchIffFits(rx, rest, caps[1..], ""); assert caps == [caps[0]] + caps[1..]; }
      case Param(t) =>
        if caps != [] && s != "" && caps[0] <= s {
          var v := caps[0];
          assert caps == [v] + caps[1..];
          assert s[..|v|] == v;
          MatchIffFits(rx, rest, caps[1..], s[|v|..]);
          if Fits(toks, caps, s) {
            TakeIsUnique(rx, toks, v, s);
          }
        }
        if Match(rx, toks, s) == Some(caps) {
          var p := Take(rx, toks[0], s).value;
          assert caps[0] == s[..p];
          assert caps[1..] == Match(rx, rest, s[p..]).value;
        }
    }
  }

  lemma TakeIsUnique(rx: Engine, toks: seq<Token>, v: string, s: string)
    requires toks != [] && toks[0].Param? && Proper(toks) && Regular(toks)
    requires s != "" && v <= s && toks[0].tail !in v && '/' !in v
    requires exists caps :: Fits(toks[1..], caps, s[|v|..])
    ensures Take(rx, toks[0], s) == Some(|v|)
  {
    var t, rest := toks[0].tail, toks[1..];
    assert s[..|v|] == v;
    var caps :| Fits(rest, caps, s[|v|..]);
    if rest == [] {
      assert s == v;
    } else {
      assert !rest[0].Rex? && !rest[0].Param? by { assert rest[0] == toks[1]; }
      assert rest[0] == Lit(t);
      assert s[|v|] == t;
      IndexByteIs(s, t, |v|);
    }
  }

  // ---------------------------------------------------------------- writing values into a pattern

  /** The pattern with its wildcards replaced, in order, by the given values. */
  function Fill(pattern: string, caps: seq<string>): string
    requires Tokens(pattern).Ok?
    decreases |pattern|
  {
    var seg := NextSegment(pattern).value;
    if seg.typ == NtStatic || caps == [] then pattern
    else pattern[..seg.start] + caps[0] + Fill(pattern[seg.end..], caps[1..])
  }

  function Wilds(toks: seq<Token>): (n: nat) {
    if toks == [] then 0 else (if toks[0].Lit? then 0 else 1) + Wilds(toks[1..])
  }

  function FillTokens(toks: seq<Token>, caps: seq<string>): string {
    if toks == [] then ""
    else if toks[0].Lit? then [toks[0].c] + FillTokens(toks[1..], caps)
    else if caps == [] then ""
    else caps[0] + FillTokens(toks[1..], caps[1..])
  }

  lemma {:induction false} WildsLits(p: string, toks: seq<Token>)
    ensures Wilds(Lits(p) + toks) == Wilds(toks)
  {
    hide Lits;
    var all := Lits(p) + toks;
    if p == "" {
      assert all == toks;
    } else {
      assert all[1..] == Lits(p[1..]) + toks;
      WildsLits(p[1..], toks);
    }
  }

  lemma {:induction false} FillLits(p: string, toks: seq<Token>, caps: seq<string>)
    ensures FillTokens(Lits(p) + toks, caps) == p + FillTokens(toks, caps)
  {
    hide Lits;
    var all := Lits(p) + toks;
    if p == "" {
      assert all == toks;
      assert p + FillTokens(toks, caps) == FillTokens(toks, caps);
    } else {
      assert all[1..] == Lits(p[1..]) + toks;
      FillLits(p[1..], toks, caps);
      assert all[0] == Lit(p[0]);
      assert FillTokens(all, caps) == [p[0]] + (p[1..] + FillTokens(toks, caps));
      assert [p[0]] + (p[1..] + FillTokens(toks, caps)) == p + FillTokens(toks, caps);
    }
  }

  /** A pattern with a wildcard is literal text, the wildcard, and the rest. */
  lemma TokensParts(pattern: string, seg: Segment)
    requires NextSegment(pattern) == Ok(seg) && seg.typ != NtStatic && Tokens(pattern).Ok?
    ensures Tokens(pattern[seg.end..]).Ok?
    ensures Tokens(pattern).value ==
            Lits(pattern[..seg.start]) + ([SegmentToken(seg)] + Tokens(pattern[seg.end..]).value)
  {
    hide NextSegment, Lits, SegmentToken;
    var a, b, c := Lits(pattern[..seg.start]), [SegmentToken(seg)], Tokens(pattern[seg.end..]).value;
    assert a + b + c == a + (b + c);
  }

  lemma FillUnfold(pattern: string, seg: Segment, caps: seq<string>)
    requires NextSegment(pattern) == Ok(seg) && Tokens(pattern).Ok?
    ensures seg.typ == NtStatic ==> Tokens(pattern).value == Lits(pattern) + [] && Fill(pattern, caps) == pattern
    ensures seg.typ != NtStatic && caps != [] ==>
              && Tokens(pattern[seg.end..]).Ok?
              && Fill(pattern, caps) == pattern[..seg.start] + (caps[0] + Fill(pattern[seg.end..], caps[1..]))
  {
    hide NextSegment, Lits, SegmentToken;
    if seg.typ != NtStatic && caps != [] {
      var a, b, c := pattern[..seg.start], caps[0], Fill(pattern[seg.end..], caps[1..]);
      assert a + b + c == a + (b + c);
    }
  }

  lemma FillTokensWild(tok: Token, rest: seq<Token>, caps: seq<string>)
    requires !tok.Lit?
    ensures Wilds([tok] + rest) == 1 + Wilds(rest)
    ensures caps != [] ==> FillTokens([tok] + rest, caps) == caps[0] + FillTokens(rest, caps[1..])
  {
    assert ([tok] + rest)[1..] == rest;
  }

  /** Writing values into the text of a pattern is writing them into its tokens. */
  lemma {:induction false} FillIsFillTokens(pattern: string, caps: seq<string>)
    requires Tokens(pattern).Ok? && |caps| == Wilds(Tokens(pattern).value)
    ensures Fill(pattern, caps) == FillTokens(Tokens(pattern).value, caps)
    decreases |pattern|
  {
    assert NextSegment(pattern).Ok?;
    hide NextSegment, Lits, Fill, Tokens;
    var seg := NextSegment(pattern).value;
    if seg.typ == NtStatic {
      FillUnfold(pattern, seg, caps);
      FillLits(pattern, [], caps);
    } else {
      var head := pattern[..seg.start];
      TokensParts(pattern, seg);
      var tok, rest := SegmentToken(seg), Tokens(pattern[seg.end..]).value;
      hide Wilds, FillTokens, SegmentToken;
      WildsLits(head, [tok] + rest);
      FillTokensWild(tok, rest, caps);
      FillUnfold(pattern, seg, caps);
      FillLits(head, [tok] + rest, caps);
      FillIsFillTokens(pattern[seg.end..], caps[1..]);
    }
  }

  // ---------------------------------------------------------------- parameter names

  /** The names of the wildcards of a well-formed pattern, in order. */
  function Names(pattern: string): (names: seq<string>)
    requires Tokens(pattern).Ok?
    decreases |pattern|
  {
    var seg := NextSegment(pattern).value;
    if seg.typ == NtStatic then [] else [seg.key] + Names(pattern[seg.end..])
  }

  predicate Distinct(names: seq<string>) {
    forall i, j :: 0 <= i < j < |names| ==> names[i] != names[j]
  }

  /** `patParamKeys`: the names, unless the pattern is malformed or repeats one. */
  function Keys(pattern: string): Result<seq<string>> {
    match Tokens(pattern)
    case Err(e) => Err(e)
    case Ok(_) => if Distinct(Names(pattern)) then Ok(Names(pattern)) else Err(DuplicateKey)
  }

  lemma NamesUnfold(pat: string, seg: Segment)
    requires NextSegment(pat) == Ok(seg)
    ensures seg.typ == NtStatic ==> Tokens(pat).Ok? && Names(pat) == []
    ensures seg.typ != NtStatic ==> (Tokens(pat).Ok? <==> Tokens(pat[seg.end..]).Ok?)
    ensures seg.typ != NtStatic && Tokens(pat).Ok? ==> Names(pat) == [seg.key] + Names(pat[seg.end..])
  {
    hide NextSegment;
  }

  lemma {:induction false} NamesCount(pattern: string)
    requires Tokens(pattern).Ok?
    ensures |Names(pattern)| == Wilds(Tokens(pattern).value)
    decreases |pattern|
  {
    assert NextSegment(pattern).Ok?;
    hide NextSegment, Lits, Names, Tokens;
    var seg := NextSegment(pattern).value;
    NamesUnfold(pattern, seg);
    if seg.typ == NtStatic {
      FillUnfold(pattern, seg, []);
      WildsLits(pattern, []);
    } else {
      TokensParts(pattern, seg);
      var tok, rest := SegmentToken(seg), Tokens(pattern[seg.end..]).value;
      hide Wilds, SegmentToken;
      WildsLits(pattern[..seg.start], [tok] + rest);
      FillTokensWild(tok, rest, []);
      NamesCount(pattern[seg.end..]);
    }
  }

  lemma Repeated(names: seq<string>, i: nat, j: nat)
    requires i < j < |names| && names[i] == names[j]
    ensures !Distinct(names)
  {}

  /** `patParamKeys` as written; which of two errors it meets first depends on the pattern. */
  method PatParamKeys(pattern: string) returns (r: Result<seq<string>>)
    ensures r.Ok? <==> Keys(pattern).Ok?
    ensures r.Ok? ==> r == Keys(pattern)
  {
    hide NextSegment, Names, Tokens;
    var pat := pattern;
    var keys: seq<string> := [];
    while true
      invariant |pat| <= |pattern|
      invariant Distinct(keys)
      invariant Tokens(pattern).Ok? <==> Tokens(pat).Ok?
      invariant Tokens(pat).Ok? ==> Names(pattern) == keys + Names(pat)
      decreases |pat|
    {
      var next := PatNextSegment(pat);
      if next.Err? {
        assert Tokens(pat).Err? by { TokensErr(pat); }
        return Err(next.error);
      }
      var seg := next.value;
      NamesUnfold(pat, seg);
      if seg.typ == NtStatic {
        assert keys + Names(pat) == keys;
        return Ok(keys);
      }
      var i := 0;
      while i < |keys|
        invariant 0 <= i <= |keys|
        invariant forall j :: 0 <= j < i ==> keys[j] != seg.key
      {
        if keys[i] == seg.key {
          if Tokens(pat).Ok? {
            Repeated(Names(pattern), i, |keys|);
          }
          return Err(DuplicateKey);
        }
        i := i + 1;
      }
      if Tokens(pat).Ok? {
        assert keys + Names(pat) == keys + [seg.key] + Names(pat[seg.end..]);
      }
      keys := keys + [seg.key];
      pat := pat[seg.end..];
    }
  }
}
