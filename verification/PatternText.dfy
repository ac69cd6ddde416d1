/** How a pattern is written and that it is read back as it was written: literal bytes, braces around a
    name or a name and an expression, and a catch-all at the end
    (internal/platform/router/tree.go, `patNextSegment`). */
module PatternText {
  import opened Text
  import opened Patterns

  // ---------------------------------------------------------------- braces

  /** How many braces are open behind the first `k` bytes. */
  function Depth(s: string, k: nat): int
    requires k <= |s|
  {
    var opening: int := multiset(s[..k])['{'];
    opening - multiset(s[..k])['}']
  }

  /** What can stand between two braces: closed as often as opened, and never closed before opened. */
  predicate Balanced(s: string) {
    Depth(s, |s|) == 0 && forall k :: 0 <= k <= |s| ==> Depth(s, k) >= 0
  }

  function Weight(c: char): int {
    if c == '{' then 1 else if c == '}' then -1 else 0
  }

  lemma DepthCons(s: string, k: nat)
    requires k < |s|
    ensures Depth(s, 0) == 0 && Depth(s, k + 1) == Weight(s[0]) + Depth(s[1..], k)
  {
    assert s[..k + 1] == [s[0]] + s[1..][..k];
    assert multiset(s[..k + 1]) == multiset{s[0]} + multiset(s[1..][..k]);
  }

  lemma DepthStep(s: string, k: nat)
    requires k < |s|
    ensures Depth(s, k + 1) == Depth(s, k) + Weight(s[k])
  {
    assert s[..k + 1] == s[..k] + [s[k]];
    assert multiset(s[..k + 1]) == multiset(s[..k]) + multiset{s[k]};
  }

  lemma DepthFront(s: string, t: string, k: nat)
    requires k <= |s|
    ensures Depth(s + t, k) == Depth(s, k)
  {
    assert (s + t)[..k] == s[..k];
  }

  /** The count of braces, `open` at the start, first comes to zero there. */
  lemma {:induction false} ClosingFrom(s: string, open: nat)
    requires open > 0
    ensures var p := ClosingBrace(s, open);
            if p < 0 then forall k :: 0 <= k <= |s| ==> open + Depth(s, k) > 0
            else s[p] == '}' && open + Depth(s, p + 1) == 0 && forall k :: 0 <= k <= p ==> open + Depth(s, k) > 0
    decreases |s|
  {
    hide Depth;
    if s == "" {
      assert Depth("", 0) == 0 by { NoDepth(); }
    } else {
      DepthCons(s, 0);
      if s[0] == '}' && open == 1 {
        NoDepth();
        DepthFront("", s[1..], 0);
        assert "" + s[1..] == s[1..];
      } else {
        var open' := open + Weight(s[0]);
        ClosingFrom(s[1..], open');
        var q := ClosingBrace(s[1..], open');
        forall k | 0 <= k <= (if q < 0 then |s| else q + 1) ensures open + Depth(s, k) > 0 {
          if k > 0 {
            DepthCons(s, k - 1);
          }
        }
        if q >= 0 {
          DepthCons(s, q + 1);
        }
      }
    }
  }

  lemma NoDepth()
    ensures Depth("", 0) == 0
  {}

  /** A brace is closed at the first position where the count comes to zero, and not at all if there is
      none. */
  lemma ClosesFirst(s: string)
    requires s != "" && s[0] == '{'
    ensures var p := ClosingBrace(s, 0);
            if p < 0 then forall k :: 0 < k <= |s| ==> Depth(s, k) > 0
            else p > 0 && s[p] == '}' && Depth(s, p + 1) == 0 && forall k :: 0 < k <= p ==> Depth(s, k) > 0
  {
    hide Depth, ClosingBrace;
    OpenedOnce(s);
    ClosingFrom(s[1..], 1);
    var p := ClosingBrace(s, 0);
    forall k | 0 < k <= (if p < 0 then |s| else p) ensures Depth(s, k) > 0 {
      DepthCons(s, k - 1);
    }
    if p >= 0 {
      DepthCons(s, p);
    }
  }

  lemma OpenedOnce(s: string)
    requires s != "" && s[0] == '{'
    ensures ClosingBrace(s, 0) == var q := ClosingBrace(s[1..], 1); if q < 0 then -1 else q + 1
  {}

  lemma DepthBehind(a: string, b: string, k: nat)
    requires k <= |b|
    ensures Depth(a + b, |a| + k) == Depth(a, |a|) + Depth(b, k)
  {
    assert (a + b)[..|a| + k] == a + b[..k] && a[..|a|] == a;
    assert multiset(a + b[..k]) == multiset(a) + multiset(b[..k]);
  }

  /** Balanced texts one behind the other are balanced. */
  lemma BalancedConcat(a: string, b: string)
    requires Balanced(a) && Balanced(b)
    ensures Balanced(a + b)
  {
    hide Depth;
    DepthBehind(a, b, |b|);
    forall k | 0 <= k <= |a + b| ensures Depth(a + b, k) >= 0 {
      if k <= |a| {
        DepthFront(a, b, k);
      } else {
        DepthBehind(a, b, k - |a|);
      }
    }
  }

  // ---------------------------------------------------------------- errors

  /** There is a brace, no wildcard in front of it, and nothing behind it that closes it. */
  predicate Unclosed(p: string) {
    var ps := IndexByte(p, '{');
    ps >= 0 && '*' !in p[..ps] && forall k :: 0 < k <= |p| - ps ==> Depth(p[ps..], k) != 0
  }

  lemma InFront(p: string, n: nat)
    requires n <= |p|
    ensures '*' in p[..n] <==> 0 <= IndexByte(p, '*') < n
  {
    var ws := IndexByte(p, '*');
    if 0 <= ws < n {
      assert p[..n][ws] == '*';
    } else if ws >= n {
      assert p[..n] == p[..ws][..n];
    }
  }

  lemma UnclosedIff(p: string)
    requires IndexByte(p, '{') >= 0 && '*' !in p[..IndexByte(p, '{')]
    ensures Unclosed(p) <==> ClosingBrace(p[IndexByte(p, '{')..], 0) < 0
  {
    hide IndexByte, ClosingBrace, Depth;
    var s := p[IndexByte(p, '{')..];
    ClosesFirst(s);
    if ClosingBrace(s, 0) >= 0 {
      var e := ClosingBrace(s, 0) + 1;
      assert Depth(s, e) == 0;
    }
  }

  /** Exactly when a pattern is refused at its next wildcard, and why. */
  lemma SegmentErrors(p: string)
    ensures NextSegment(p) == Err(WildcardBeforeParam) <==> '{' in p && '*' in p[..IndexByte(p, '{')]
    ensures NextSegment(p) == Err(MissingBrace) <==> Unclosed(p)
    ensures NextSegment(p) == Err(WildcardNotLast) <==> '{' !in p && p != "" && '*' in p[..|p| - 1]
    ensures NextSegment(p).Err? ==> NextSegment(p).error in {WildcardBeforeParam, MissingBrace, WildcardNotLast}
  {
    hide BraceSegment, ClosingBrace, Unclosed;
    var ps := IndexByte(p, '{');
    if ps >= 0 {
      InFront(p, ps);
      if '*' in p[..ps] {
        assert !Unclosed(p) by { NotUnclosed(p); }
      } else {
        UnclosedIff(p);
      }
    } else {
      assert !Unclosed(p) by { NotUnclosed(p); }
      if p != "" {
        InFront(p, |p| - 1);
      }
    }
  }

  lemma NotUnclosed(p: string)
    requires IndexByte(p, '{') < 0 || '*' in p[..IndexByte(p, '{')]
    ensures !Unclosed(p)
  {}

  // ---------------------------------------------------------------- anchors

  /** An expression is anchored where it is not anchored already, and nothing else happens to it. */
  lemma AnchoredIs(re: string)
    requires re != ""
    ensures var r := Anchored(re);
            && r[0] == '^' && r[|r| - 1] == '$'
            && (if re[0] == '^' then re <= r else re <= r[1..])
            && |r| == |re| + (if re[0] == '^' then 0 else 1) + (if re[|re| - 1] == '$' then 0 else 1)
  {}

  // ---------------------------------------------------------------- writing

  /** What a pattern is written of. */
  datatype Part = Byte(c: char) | Braces(body: string) | Rest

  function Written(parts: seq<Part>): string {
    if parts == [] then ""
    else (match parts[0]
          case Byte(c) => [c]
          case Braces(body) => "{" + body + "}"
          case Rest => "*") + Written(parts[1..])
  }

  predicate Writable(parts: seq<Part>) {
    parts == [] ||
    (&& Writable(parts[1..])
     && match parts[0]
        case Byte(c) => !IsWild(c)
        case Braces(body) => Balanced(body)
        case Rest => parts[1..] == [])
  }

  /** The byte behind a wildcard; '/' stands for the end. */
  function TailBehind(rest: string): char {
    if rest == "" then '/' else rest[0]
  }

  /** What a wildcard with this text stands for: a name, or what is in front of the first colon and the
      expression behind it. */
  predicate Means(body: string, tail: char, name: string, tok: Token) {
    if ':' !in body then name == body && tok == Param(tail)
    else ':' !in name && name + ":" <= body && tok == Rex(Anchored(body[|name| + 1..]), tail)
  }

  /** The tokens and names that the parts stand for. */
  predicate Stands(parts: seq<Part>, toks: seq<Token>, names: seq<string>)
    decreases |parts|
  {
    if parts == [] then toks == [] && names == []
    else
      && toks != []
      && match parts[0]
         case Byte(c) => toks[0] == Lit(c) && Stands(parts[1..], toks[1..], names)
         case Braces(body) =>
           names != [] && Means(body, TailBehind(Written(parts[1..])), names[0], toks[0]) && Stands(parts[1..], toks[1..], names[1..])
         case Rest => names != [] && names[0] == "*" && toks[0] == Star && Stands(parts[1..], toks[1..], names[1..])
  }

  // ---------------------------------------------------------------- reading braces

  function Braced(k: string, rest: string): string {
    "{" + k + "}" + rest
  }

  lemma BracedParts(k: string, rest: string)
    ensures var s := Braced(k, rest); |s| == |k| + |rest| + 2 && s[0] == '{' && s[1..] == k + "}" + rest && s[|k| + 2..] == rest
    ensures Braced(k, rest)[1..|k| + 1] == k && (rest != "" ==> Braced(k, rest)[|k| + 2] == rest[0])
  {}

  lemma OpensAndCloses(k: string, rest: string)
    requires Balanced(k)
    ensures ClosingBrace(Braced(k, rest), 0) == |k| + 1
  {
    hide ClosingBrace, Depth;
    var s := Braced(k, rest);
    ClosesFirst(s);
    var n := |k| + 1;
    forall i | 0 < i <= n ensures Depth(s, i) > 0 {
      InsideBraces(k, rest, i);
    }
    InsideBraces(k, rest, n);
    DepthStep(s, n);
    assert Depth(s, n + 1) == 0;
  }

  lemma InsideBraces(k: string, rest: string, i: nat)
    requires 0 < i <= |k| + 1
    ensures |Braced(k, rest)| >= i && Depth(Braced(k, rest), i) == 1 + Depth(k, i - 1)
  {
    hide Depth;
    var s := Braced(k, rest);
    DepthCons(s, i - 1);
    assert s[1..] == k + ("}" + rest);
    DepthFront(k, "}" + rest, i - 1);
  }

  /** So is a balanced text between braces. */
  lemma BalancedBraces(k: string)
    requires Balanced(k)
    ensures Balanced(Braced(k, ""))
  {
    hide Depth;
    var s := Braced(k, "");
    forall i | 0 < i <= |k| + 1 ensures Depth(s, i) > 0 {
      InsideBraces(k, "", i);
    }
    InsideBraces(k, "", |k| + 1);
    DepthStep(s, |k| + 1);
    DepthCons(s, 0);
  }

  /** The segment of a parameter, or of a regular expression if the key has a colon. */
  lemma BracedSegment(k: string, rest: string)
    requires Balanced(k)
    ensures |Braced(k, rest)| > |k| + 1
    ensures NextSegment(Braced(k, rest)) == Ok(BraceSegment(Braced(k, rest), 0, |k| + 1))
  {
    hide IndexByte, ClosingBrace, BraceSegment, Braced, Balanced;
    var s := Braced(k, rest);
    BracedParts(k, rest);
    IndexByteIs(s, '{', 0);
    assert s[0..] == s;
    OpensAndCloses(k, rest);
  }

  /** Braces are read as what their text means. */
  lemma BracedMeans(body: string, rest: string, name: string, tok: Token)
    requires Balanced(body) && Means(body, TailBehind(rest), name, tok)
    ensures Tokens(rest).Ok? ==> Tokens(Braced(body, rest)) == Ok([tok] + Tokens(rest).value)
    ensures Tokens(rest).Ok? ==> Names(Braced(body, rest)) == [name] + Names(rest)
  {
    hide NextSegment, Tokens, Names, Braced, IndexByte, Anchored, Balanced;
    BracedParts(body, rest);
    BracedSegment(body, rest);
    if ':' in body {
      assert body[|name|] == ':' && body[..|name|] == name;
      IndexByteIs(body, ':', |name|);
    }
    var seg := NextSegment(Braced(body, rest)).value;
    assert seg.key == name && SegmentToken(seg) == tok && seg.end == |body| + 2;
    NamesUnfold(Braced(body, rest), seg);
    if Tokens(rest).Ok? {
      TokensWild(Braced(body, rest));
    }
  }

  lemma ParamTokens(k: string, rest: string)
    requires Balanced(k) && ':' !in k
    ensures Tokens(rest).Ok? ==> Tokens(Braced(k, rest)) == Ok([Param(TailBehind(rest))] + Tokens(rest).value)
    ensures Tokens(rest).Ok? ==> Names(Braced(k, rest)) == [k] + Names(rest)
  {
    hide Tokens, Names, Braced, Balanced;
    BracedMeans(k, rest, k, Param(TailBehind(rest)));
  }

  lemma RexTokens(k: string, re: string, rest: string)
    requires ':' !in k && Balanced(k + ":" + re)
    ensures var s := Braced(k + ":" + re, rest);
            && (Tokens(rest).Ok? ==> Tokens(s) == Ok([Rex(Anchored(re), TailBehind(rest))] + Tokens(rest).value))
            && (Tokens(rest).Ok? ==> Names(s) == [k] + Names(rest))
  {
    hide Tokens, Names, Braced, Anchored, Balanced;
    var body := k + ":" + re;
    assert body[|k|] == ':' && body[..|k| + 1] == k + ":" && body[|k| + 1..] == re;
    BracedMeans(body, rest, k, Rex(Anchored(re), TailBehind(rest)));
  }

  /** A wildcard in braces ends at the first position where they are closed, and its segment is what the
      text between them means. */
  lemma SegmentIs(p: string)
    requires NextSegment(p).Ok? && TakesParam(NextSegment(p).value.typ)
    ensures var seg := NextSegment(p).value;
            && '*' !in p[..seg.start] && '{' !in p[..seg.start] && seg.start + 1 < seg.end && p[seg.end - 1] == '}'
            && Depth(p[seg.start..], seg.end - seg.start) == 0
            && (forall k :: 0 < k < seg.end - seg.start ==> Depth(p[seg.start..], k) > 0)
            && Means(p[seg.start + 1..seg.end - 1], TailBehind(p[seg.end..]), seg.key, SegmentToken(seg))
  {
    hide Depth, ClosingBrace, Means, BraceSegment, TailBehind;
    var seg := NextSegment(p).value;
    var close := ClosingBrace(p[seg.start..], 0);
    assert seg == BraceSegment(p, seg.start, seg.start + close);
    ClosesFirst(p[seg.start..]);
    BraceMeans(p, seg.start, seg.start + close);
  }

  lemma BraceMeans(p: string, start: nat, close: nat)
    requires start < close < |p|
    ensures var seg := BraceSegment(p, start, close); Means(p[start + 1..close], TailBehind(p[close + 1..]), seg.key, SegmentToken(seg))
  {
    hide IndexByte, Anchored;
    var body := p[start + 1..close];
    var colon := IndexByte(body, ':');
    if colon >= 0 {
      assert body[..colon] + ":" == body[..colon + 1];
    }
  }

  // ---------------------------------------------------------------- reading text

  lemma {:induction false} LiteralTokens(p: string, rest: string)
    requires Literal(p) && Tokens(rest).Ok?
    ensures Tokens(p + rest) == Ok(Lits(p) + Tokens(rest).value) && Names(p + rest) == Names(rest)
    decreases |p|
  {
    hide NextSegment, Lits, Tokens, Names;
    TokensLits(p, rest);
    if p == "" {
      assert p + rest == rest;
    } else {
      assert p + rest == [p[0]] + (p[1..] + rest);
      assert !IsWild(p[0]) && Literal(p[1..]);
      LiteralTokens(p[1..], rest);
      NamesCons(p[0], p[1..] + rest);
    }
  }

  lemma NamesCons(c: char, s: string)
    requires !IsWild(c) && Tokens(s).Ok? && Tokens([c] + s).Ok?
    ensures Names([c] + s) == Names(s)
  {
    hide *;
    NextSegmentCons(c, s);
    ReadableSegment(s);
    ReadableSegment([c] + s);
    var seg, seg' := NextSegment(s).value, NextSegment([c] + s).value;
    NamesUnfold(s, seg);
    NamesUnfold([c] + s, seg');
    if seg.typ != NtStatic {
      assert ([c] + s)[seg'.end..] == s[seg.end..];
    }
  }

  lemma ReadableSegment(s: string)
    requires Tokens(s).Ok?
    ensures NextSegment(s).Ok? && NextSegment(s).value.end <= |s|
  {
    hide NextSegment;
  }

  lemma NoTokens()
    ensures Tokens("") == Ok([]) && Names("") == []
  {
    TokensEmpty();
  }

  lemma StarTokens()
    ensures Tokens("*") == Ok([Star]) && Names("*") == ["*"]
  {
    NoTokens();
    IndexByteIs("*", '*', 0);
    assert NextSegment("*") == Ok(Segment(NtCatchAll, "*", "", NUL, 0, 1)) && "*"[1..] == "";
    hide NextSegment;
    TokensWild("*");
    NamesUnfold("*", NextSegment("*").value);
    assert [Star] + [] == [Star] && ["*"] + [] == ["*"];
  }

  // ---------------------------------------------------------------- reading what was written

  /** What was written is read as what it stands for. */
  lemma {:induction false} WrittenIsRead(parts: seq<Part>, toks: seq<Token>, names: seq<string>)
    requires Writable(parts) && Stands(parts, toks, names)
    ensures Tokens(Written(parts)) == Ok(toks) && Names(Written(parts)) == names
    decreases |parts|
  {
    hide Tokens, Names, Balanced, Means;
    if parts == [] {
      NoTokens();
    } else {
      var rest := Written(parts[1..]);
      assert toks == [toks[0]] + toks[1..];
      match parts[0]
      case Byte(c) =>
        WrittenIsRead(parts[1..], toks[1..], names);
        assert Lits([c]) == [Lit(c)];
        LiteralTokens([c], rest);
      case Braces(body) =>
        WrittenIsRead(parts[1..], toks[1..], names[1..]);
        BracedMeans(body, rest, names[0], toks[0]);
        assert "{" + body + "}" + rest == Braced(body, rest);
        assert names == [names[0]] + names[1..];
      case Rest =>
        assert rest == "" && "*" + rest == "*" && toks[1..] == [] && names[1..] == [];
        assert names == ["*"] && toks == [Star];
        StarTokens();
    }
  }

  /** Every pattern that can be read was written in this way. */
  lemma {:induction false} ReadIsWritten(pattern: string) returns (parts: seq<Part>)
    requires Tokens(pattern).Ok?
    ensures Writable(parts) && Written(parts) == pattern && Stands(parts, Tokens(pattern).value, Names(pattern))
    decreases |pattern|
  {
    hide Tokens, Names, NextSegment, Balanced, Means, Lits;
    if pattern == "" {
      parts := [];
      NoTokens();
    } else if !IsWild(pattern[0]) {
      var c, rest := pattern[0], pattern[1..];
      assert pattern == [c] + rest;
      TokensCons(c, rest);
      NamesCons(c, rest);
      var more := ReadIsWritten(rest);
      parts := [Byte(c)] + more;
      assert parts[1..] == more && Tokens(pattern).value[1..] == Tokens(rest).value;
    } else if pattern[0] == '{' {
      var body, rest := FirstBraces(pattern);
      var more := ReadIsWritten(rest);
      var name, tok := Meaning(body, TailBehind(rest));
      BracedMeans(body, rest, name, tok);
      parts := [Braces(body)] + more;
      assert parts[1..] == more && Tokens(pattern).value[1..] == Tokens(rest).value && Names(pattern)[1..] == Names(rest);
    } else {
      OnlyStar(pattern);
      parts := [Rest];
      StarTokens();
      assert parts[1..] == [] && Written([]) == "" && "*" + "" == "*";
      assert [Star][1..] == [] && ["*"][1..] == [];
    }
  }

  lemma Meaning(body: string, tail: char) returns (name: string, tok: Token)
    ensures Means(body, tail, name, tok)
  {
    hide Anchored;
    var colon := IndexByte(body, ':');
    if colon < 0 {
      name, tok := body, Param(tail);
    } else {
      name, tok := body[..colon], Rex(Anchored(body[colon + 1..]), tail);
      assert body[..colon] + ":" == body[..colon + 1];
    }
  }

  lemma FirstBraces(pattern: string) returns (body: string, rest: string)
    requires pattern != "" && pattern[0] == '{' && Tokens(pattern).Ok?
    ensures Balanced(body) && pattern == Braced(body, rest) && Tokens(rest).Ok?
  {
    hide BraceSegment, ClosingBrace, Tokens;
    assert NextSegment(pattern).Ok? by { ReadableSegment(pattern); }
    IndexByteIs(pattern, '{', 0);
    assert pattern[0..] == pattern;
    ClosesFirst(pattern);
    var p := ClosingBrace(pattern, 0);
    body, rest := pattern[1..p], pattern[p + 1..];
    assert pattern == "{" + body + "}" + rest;
    BodyBalanced(body, rest);
    TokensWild(pattern);
  }

  lemma BodyBalanced(body: string, rest: string)
    requires var s, p := Braced(body, rest), |body| + 1; |s| > p && Depth(s, p + 1) == 0 && forall k :: 0 < k <= p ==> Depth(s, k) > 0
    ensures Balanced(body)
  {
    hide Depth;
    var s, p := Braced(body, rest), |body| + 1;
    DepthStep(s, p);
    forall k | 0 <= k <= |body| ensures Depth(body, k) == Depth(s, k + 1) - 1 {
      InsideBraces(body, rest, k + 1);
    }
    forall k | 0 <= k <= |body| ensures Depth(body, k) >= 0 {
      assert Depth(s, k + 1) > 0;
    }
  }

  lemma OnlyStar(pattern: string)
    requires pattern != "" && pattern[0] == '*' && Tokens(pattern).Ok?
    ensures pattern == "*"
  {
    hide Tokens;
    ReadableSegment(pattern);
    IndexByteIs(pattern, '*', 0);
  }

  /** A pattern is read exactly as it was written: the tokens and names are those of the one way to
      write it, and it is refused exactly where there is none. */
  lemma ReadIff(pattern: string, toks: seq<Token>, names: seq<string>)
    ensures Tokens(pattern) == Ok(toks) && Names(pattern) == names <==>
            exists parts :: Writable(parts) && Written(parts) == pattern && Stands(parts, toks, names)
    ensures Tokens(pattern).Ok? <==> exists parts :: Writable(parts) && Written(parts) == pattern
  {
    hide Tokens, Names, Written, Writable, Stands;
    if Tokens(pattern).Ok? {
      var parts := ReadIsWritten(pattern);
    }
    forall parts, toks', names' | Writable(parts) && Written(parts) == pattern && Stands(parts, toks', names')
      ensures Tokens(pattern) == Ok(toks') && Names(pattern) == names'
    {
      WrittenIsRead(parts, toks', names');
    }
    if parts :| Writable(parts) && Written(parts) == pattern {
      var _, _ := SomeMeaning(parts);
    }
  }

  lemma {:induction false} SomeMeaning(parts: seq<Part>) returns (toks: seq<Token>, names: seq<string>)
    ensures Stands(parts, toks, names)
    decreases |parts|
  {
    hide Means, Written;
    if parts == [] {
      toks, names := [], [];
    } else {
      var ts, ns := SomeMeaning(parts[1..]);
      match parts[0]
      case Byte(c) =>
        toks, names := [Lit(c)] + ts, ns;
      case Braces(body) =>
        var name, tok := Meaning(body, TailBehind(Written(parts[1..])));
        toks, names := [tok] + ts, [name] + ns;
        assert names[1..] == ns;
      case Rest =>
        toks, names := [Star] + ts, ["*"] + ns;
        assert names[1..] == ns;
      assert toks[1..] == ts;
    }
  }
}
