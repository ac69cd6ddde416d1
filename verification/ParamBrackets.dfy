/** Key paths written between brackets behind a parameter's name, and how they are read back
    (internal/platform/validator/req_resp_decoder.go). */
module ParamBrackets {
  import opened Text
  import opened ParamObjects

  /** The texts between brackets, as the expression `\[(.*?)\]` finds them from left to right: from
      a bracket to the nearest closing one, unless a line break comes first. */
  function Brackets(s: string): seq<string>
    decreases |s|
  {
    var i := IndexByte(s, '[');
    if i < 0 then []
    else
      var rest := s[i + 1..];
      var j := IndexByte(rest, ']');
      if j >= 0 && '\n' !in rest[..j] then [rest[..j]] + Brackets(rest[j + 1..]) else Brackets(rest)
  }

  function Bracketed(path: seq<string>): string {
    if path == [] then "" else "[" + path[0] + "]" + Bracketed(path[1..])
  }

  predicate KeySafe(k: string) {
    ']' !in k && '\n' !in k
  }

  /** No bracket of the name is read as one: between each and the next closing bracket, or the end,
      there is a line break. */
  predicate Inert(s: string)
    decreases |s|
  {
    var i := IndexByte(s, '[');
    i < 0 ||
    (var rest := s[i + 1..];
     '\n' in UpToClosing(rest) && Inert(rest))
  }

  /** For names without a line break: no opening bracket at all. */
  lemma InertIff(s: string)
    requires '\n' !in s
    ensures Inert(s) <==> '[' !in s
  {
    if '[' in s {
      var i := IndexByte(s, '[');
      var rest := s[i + 1..];
      assert forall k :: 0 <= k < |rest| ==> rest[k] == s[i + 1 + k];
    }
  }

  /** The part of a text in which a line break keeps an opening bracket in front of it from being read. */
  function UpToClosing(rest: string): string {
    var j := IndexByte(rest, ']');
    if j >= 0 then rest[..j] else rest
  }

  /** What follows the first opening bracket. */
  lemma {:induction false} BracketsAt(s: string, i: nat)
    requires i < |s| && s[i] == '[' && '[' !in s[..i]
    ensures var rest := s[i + 1..];
            var j := IndexByte(rest, ']');
            Brackets(s) == if j >= 0 && '\n' !in rest[..j] then [rest[..j]] + Brackets(rest[j + 1..]) else Brackets(rest)
    ensures Inert(s) <==> '\n' in UpToClosing(s[i + 1..]) && Inert(s[i + 1..])
  {
    hide IndexByte;
    IndexByteIs(s, '[', i);
  }

  lemma {:induction false} BracketsAfter(front: string, i: nat, tail: string)
    requires i < |front| && front[i] == '[' && '[' !in front[..i]
    ensures var rest := front[i + 1..] + tail;
            var j := IndexByte(rest, ']');
            Brackets(front + tail) == if j >= 0 && '\n' !in rest[..j] then [rest[..j]] + Brackets(rest[j + 1..]) else Brackets(rest)
  {
    hide IndexByte, Brackets, Inert;
    var s := front + tail;
    assert s[i] == '[' && s[..i] == front[..i] && s[i + 1..] == front[i + 1..] + tail;
    BracketsAt(s, i);
  }

  /** The first opening bracket. */
  lemma FirstBracket(s: string) returns (i: nat)
    requires '[' in s
    ensures i < |s| && s[i] == '[' && '[' !in s[..i]
  {
    i := IndexByte(s, '[');
  }

  lemma NoneInert(s: string)
    requires '[' !in s
    ensures Inert(s) && Brackets(s) == []
  {}

  lemma {:induction false} InertFront(front: string, tail: string)
    requires Inert(front) && (tail == "" || tail[0] == '[')
    ensures Brackets(front + tail) == Brackets(tail)
    decreases |front|
  {
    hide Brackets, Inert, IndexByte, UpToClosing;
    if '[' in front {
      var i := FirstBracket(front);
      BracketsAt(front, i);
      BracketsAfter(front, i, tail);
      BreakBefore(front[i + 1..], tail);
      InertFront(front[i + 1..], tail);
    } else {
      PlainFront(front, tail);
    }
  }

  /** A line break before the closing bracket of the front is one before that of the whole. */
  lemma BreakBefore(rest: string, tail: string)
    requires '\n' in UpToClosing(rest)
    ensures var j := IndexByte(rest + tail, ']'); j >= 0 ==> '\n' in (rest + tail)[..j]
  {
    var s := rest + tail;
    var j0, j := IndexByte(rest, ']'), IndexByte(s, ']');
    if j >= 0 {
      if j0 >= 0 {
        assert s[..j0] == rest[..j0] && s[j0] == ']';
        IndexByteIs(s, ']', j0);
      } else {
        assert forall k :: 0 <= k < |rest| ==> s[k] == rest[k];
        assert s[..j] == rest + tail[..j - |rest|];
      }
    }
  }

  lemma {:induction false} PlainFront(front: string, tail: string)
    requires '[' !in front && (tail == "" || tail[0] == '[')
    ensures Brackets(front + tail) == Brackets(tail)
  {
    hide IndexByte, Brackets, Inert;
    var s := front + tail;
    if tail == "" {
      assert s == front;
      NoneInert(front);
      NoneInert(tail);
    } else {
      assert s[|front|] == '[' && s[..|front|] == front && s[|front| + 1..] == tail[1..] && tail[..0] == "";
      BracketsAt(s, |front|);
      BracketsAt(tail, 0);
    }
  }

  lemma {:induction false} KeyFirst(k: string, tail: string)
    requires KeySafe(k)
    ensures Brackets("[" + k + "]" + tail) == [k] + Brackets(tail)
  {
    hide IndexByte, Brackets, Inert;
    var s := "[" + k + "]" + tail;
    assert s[0] == '[' && s[..0] == "";
    BracketsAt(s, 0);
    var rest := s[1..];
    assert rest[|k|] == ']' && rest[..|k|] == k && rest[|k| + 1..] == tail;
    IndexByteIs(rest, ']', |k|);
  }

  lemma {:induction false} BracketsOf(front: string, path: seq<string>)
    requires Inert(front) && forall i :: 0 <= i < |path| ==> KeySafe(path[i])
    ensures Brackets(front + Bracketed(path)) == path
    decreases |path|
  {
    hide Brackets, Bracketed, Inert, KeySafe;
    BracketedCons(path);
    InertFront(front, Bracketed(path));
    if path == [] {
      NoneInert("");
    } else {
      var tail := Bracketed(path[1..]);
      assert "" + tail == tail;
      NoneInert("");
      BracketsOf("", path[1..]);
      KeyFirst(path[0], tail);
      assert path == [path[0]] + path[1..];
    }
  }

  lemma BracketedCons(path: seq<string>)
    ensures if path == [] then Bracketed(path) == "" else Bracketed(path) == "[" + path[0] + "]" + Bracketed(path[1..])
  {}

  // ---------------------------------------------------------------- what the expression matches

  /** A bracket opens at `i` and closes at `j`: nothing closes it earlier, and no line break comes between. */
  predicate Pair(s: string, i: int, j: int) {
    0 <= i < j < |s| && s[i] == '[' && s[j] == ']' && forall k :: i < k < j ==> s[k] != ']' && s[k] != '\n'
  }

  predicate Inside(ms: seq<(nat, nat)>, i: int) {
    exists a :: 0 <= a < |ms| && ms[a].0 <= i <= ms[a].1
  }

  /** The pairs found from a position on: one behind the other, and no pair begins outside of them. */
  ghost predicate Finds(s: string, from: nat, ms: seq<(nat, nat)>) {
    && (forall a :: 0 <= a < |ms| ==> from <= ms[a].0 && Pair(s, ms[a].0, ms[a].1))
    && (forall a, b :: 0 <= a < b < |ms| ==> ms[a].1 < ms[b].0)
    && (forall i, j :: from <= i && Pair(s, i, j) ==> Inside(ms, i))
  }

  predicate TextsOf(s: string, ms: seq<(nat, nat)>, texts: seq<string>) {
    && |texts| == |ms|
    && forall a :: 0 <= a < |ms| ==> ms[a].0 < ms[a].1 <= |s| && texts[a] == s[ms[a].0 + 1..ms[a].1]
  }

  /** The texts between brackets, stated on the positions of the whole text. */
  ghost predicate ReadAs(s: string, texts: seq<string>) {
    exists ms :: Finds(s, 0, ms) && TextsOf(s, ms, texts)
  }

  lemma InsideCons(m: (nat, nat), ms: seq<(nat, nat)>, i: int)
    ensures Inside([m] + ms, i) <==> m.0 <= i <= m.1 || Inside(ms, i)
  {
    var all := [m] + ms;
    assert all[0] == m && forall a :: 0 <= a < |ms| ==> all[a + 1] == ms[a];
    if Inside(all, i) {
      var a :| 0 <= a < |all| && all[a].0 <= i <= all[a].1;
      assert a == 0 || all[(a - 1) + 1] == ms[a - 1];
    }
  }

  lemma PairOpens(s: string, i: int, j: int)
    requires Pair(s, i, j)
    ensures 0 <= i < j < |s| && s[i] == '['
  {}

  lemma FindsFirst(s: string, from: nat, i: nat, j: nat, ms: seq<(nat, nat)>)
    requires from <= i && Pair(s, i, j) && (forall k :: from <= k < i && k < |s| ==> s[k] != '[') && Finds(s, j + 1, ms)
    ensures Finds(s, from, [(i, j)] + ms)
  {
    hide Pair, Inside;
    var all := [(i, j)] + ms;
    PairOpens(s, i, j);
    forall i', j' | from <= i' && Pair(s, i', j') ensures Inside(all, i') {
      PairOpens(s, i', j');
      InsideCons((i, j), ms, i');
    }
  }

  lemma FindsBehind(s: string, from: nat, i: nat, ms: seq<(nat, nat)>)
    requires from <= i && (forall k :: from <= k < i && k < |s| ==> s[k] != '[') && (forall j :: !Pair(s, i, j)) && Finds(s, i + 1, ms)
    ensures Finds(s, from, ms)
  {}

  /** The first opening bracket from a position on. */
  lemma FirstFrom(s: string, from: nat) returns (at: nat)
    requires from <= |s| && '[' in s[from..]
    ensures from <= at < |s| && s[at] == '[' && (forall k :: from <= k < at ==> s[k] != '[')
    ensures var tail := s[at + 1..];
            var j := IndexByte(tail, ']');
            Brackets(s[from..]) == if j >= 0 && '\n' !in tail[..j] then [tail[..j]] + Brackets(tail[j + 1..]) else Brackets(tail)
  {
    hide *;
    var rest := s[from..];
    var i := FirstBracket(rest);
    at := from + i;
    BracketsAt(rest, i);
    assert rest[i + 1..] == s[at + 1..];
    assert forall k :: from <= k < at ==> s[k] == rest[..i][k - from];
  }

  /** The pair it opens, if it is closed in time. */
  lemma PairFrom(s: string, at: nat) returns (end: nat)
    requires at < |s| && s[at] == '['
    requires var tail := s[at + 1..]; var j := IndexByte(tail, ']'); j >= 0 && '\n' !in tail[..j]
    ensures var tail := s[at + 1..];
            var j := IndexByte(tail, ']');
            j >= 0 && end == at + 1 + j < |s| && tail[..j] == s[at + 1..end] && tail[j + 1..] == s[end + 1..] && Pair(s, at, end)
  {
    hide *;
    var tail := s[at + 1..];
    var j := IndexByte(tail, ']');
    IndexByteFacts(tail, ']');
    end := at + 1 + j;
    assert tail[..j] == s[at + 1..end] && tail[j + 1..] == s[end + 1..];
    PairAt(s, at, end);
  }

  lemma OneMoreText(s: string, at: nat, end: nat, ms: seq<(nat, nat)>, texts: seq<string>)
    requires at < end <= |s| && TextsOf(s, ms, texts)
    ensures TextsOf(s, [(at, end)] + ms, [s[at + 1..end]] + texts)
  {}

  lemma {:induction false} BracketsFound(s: string, from: nat) returns (ms: seq<(nat, nat)>)
    requires from <= |s|
    ensures Finds(s, from, ms) && TextsOf(s, ms, Brackets(s[from..]))
    decreases |s| - from
  {
    hide *;
    if '[' !in s[from..] {
      ms := [];
      NoneFound(s, from);
    } else {
      var at := FirstFrom(s, from);
      var tail := s[at + 1..];
      var j := IndexByte(tail, ']');
      if j >= 0 && '\n' !in tail[..j] {
        var end := PairFrom(s, at);
        var more := BracketsFound(s, end + 1);
        ms := [(at, end)] + more;
        FindsFirst(s, from, at, end, more);
        OneMoreText(s, at, end, more, Brackets(s[end + 1..]));
      } else {
        ms := BracketsFound(s, at + 1);
        NoPair(s, at);
        FindsBehind(s, from, at, ms);
      }
    }
  }

  lemma NoneFound(s: string, from: nat)
    requires from <= |s| && '[' !in s[from..]
    ensures Finds(s, from, []) && TextsOf(s, [], Brackets(s[from..]))
  {
    hide Brackets, Inert;
    NoneInert(s[from..]);
    assert forall k :: from <= k < |s| ==> s[k] == s[from..][k - from];
  }

  lemma PairAt(s: string, i: nat, j: nat)
    requires i < j < |s| && s[i] == '[' && s[j] == ']' && ']' !in s[i + 1..j] && '\n' !in s[i + 1..j]
    ensures Pair(s, i, j)
  {
    assert forall k :: i < k < j ==> s[k] == s[i + 1..j][k - i - 1];
  }

  lemma PairIs(s: string, i: nat, j: nat)
    requires Pair(s, i, j)
    ensures var tail := s[i + 1..]; IndexByte(tail, ']') == j - i - 1 && '\n' !in tail[..j - i - 1]
  {
    hide IndexByte;
    var tail := s[i + 1..];
    assert tail[j - i - 1] == ']' && forall k :: 0 <= k < j - i - 1 ==> tail[k] == s[i + 1 + k];
    IndexByteIs(tail, ']', j - i - 1);
  }

  lemma NoPair(s: string, i: nat)
    requires i < |s|
    requires var j := IndexByte(s[i + 1..], ']'); j < 0 || '\n' in s[i + 1..][..j]
    ensures forall j :: !Pair(s, i, j)
  {
    hide IndexByte;
    forall j ensures !Pair(s, i, j) {
      if Pair(s, i, j) {
        PairIs(s, i, j);
      }
    }
  }

  /** Whatever is found the other way begins no earlier. */
  lemma FirstFound(s: string, from: nat, ms: seq<(nat, nat)>, ms': seq<(nat, nat)>)
    requires Finds(s, from, ms) && Finds(s, from, ms') && ms != []
    ensures ms' != [] && ms'[0].0 <= ms[0].0 && Pair(s, ms[0].0, ms[0].1)
  {
    hide Pair;
    assert Inside(ms', ms[0].0);
    var a :| 0 <= a < |ms'| && ms'[a].0 <= ms[0].0 <= ms'[a].1;
    if a > 0 {
      PairOpens(s, ms'[0].0, ms'[0].1);
    }
  }

  lemma {:induction false} FoundOnce(s: string, from: nat, ms: seq<(nat, nat)>, ms': seq<(nat, nat)>)
    requires Finds(s, from, ms) && Finds(s, from, ms')
    ensures ms == ms'
    decreases |ms|
  {
    hide *;
    if ms != [] {
      FirstFound(s, from, ms, ms');
      FirstFound(s, from, ms', ms);
      SameEnd(s, ms[0].0, ms[0].1, ms'[0].1);
      FindsRest(s, from, ms);
      FindsRest(s, from, ms');
      FoundOnce(s, ms[0].1 + 1, ms[1..], ms'[1..]);
      assert ms == [ms[0]] + ms[1..] && ms' == [ms'[0]] + ms'[1..];
    } else if ms' != [] {
      FirstFound(s, from, ms', ms);
    }
  }

  lemma SameEnd(s: string, i: nat, j: nat, j': nat)
    requires Pair(s, i, j) && Pair(s, i, j')
    ensures j == j'
  {}

  lemma FindsRest(s: string, from: nat, ms: seq<(nat, nat)>)
    requires Finds(s, from, ms) && ms != []
    ensures Finds(s, ms[0].1 + 1, ms[1..])
  {
    hide Pair, Inside;
    assert ms == [ms[0]] + ms[1..];
    forall i, j | ms[0].1 + 1 <= i && Pair(s, i, j) ensures Inside(ms[1..], i) {
      PairOpens(s, ms[0].0, ms[0].1);
      InsideCons(ms[0], ms[1..], i);
    }
  }

  /** The texts read are those of the leftmost pairs that do not overlap, for every text. */
  lemma BracketsReadAs(s: string, texts: seq<string>)
    ensures Brackets(s) == texts <==> ReadAs(s, texts)
  {
    hide Brackets, Finds;
    var ms := BracketsFound(s, 0);
    assert s[0..] == s;
    if ReadAs(s, texts) {
      var ms' :| Finds(s, 0, ms') && TextsOf(s, ms', texts);
      FoundOnce(s, 0, ms, ms');
    }
  }

  // ---------------------------------------------------------------- names and keys that are misread

  /** Whatever is read between brackets is a safe key. */
  lemma {:induction false} BracketsSafe(s: string)
    ensures forall i :: 0 <= i < |Brackets(s)| ==> KeySafe(Brackets(s)[i])
    decreases |s|
  {
    hide Brackets, Inert, IndexByte;
    if '[' in s {
      var i := FirstBracket(s);
      var rest := s[i + 1..];
      var j := IndexByte(rest, ']');
      BracketsAt(s, i);
      BracketsSafe(rest);
      if j >= 0 {
        IndexByteFacts(rest, ']');
        BracketsSafe(rest[j + 1..]);
      }
    } else {
      NoneInert(s);
    }
  }

  function Length(path: seq<string>): nat {
    |Join(path, DELIMITER)|
  }

  lemma LengthCons(k: string, path: seq<string>)
    ensures Length([k] + path) == |k| + if path == [] then 0 else 1 + Length(path)
  {
    assert ([k] + path)[1..] == path;
  }

  /** A bracket of the name that is read makes the key paths longer. */
  lemma {:induction false} LongerUnlessInert(param: string, path: seq<string>)
    requires !Inert(param) && path != [] && forall i :: 0 <= i < |path| ==> KeySafe(path[i])
    ensures Brackets(param + Bracketed(path)) != [] && Length(Brackets(param + Bracketed(path))) > Length(path)
    decreases |param|
  {
    hide *;
    if '[' !in param {
      NoneInert(param);
    }
    var i := FirstBracket(param);
    BracketsAt(param, i);
    LongerBehind(param, i, path);
    var rest := param[i + 1..];
    if '\n' in UpToClosing(rest) {
      LongerUnlessInert(rest, path);
    } else if IndexByte(rest, ']') >= 0 {
      ReadsUpTo(rest);
      NameBracket(rest, IndexByte(rest, ']'), path);
    }
  }

  /** What the first bracket of the name makes of the key. */
  lemma LongerBehind(param: string, i: nat, path: seq<string>)
    requires path != [] && (forall k :: 0 <= k < |path| ==> KeySafe(path[k]))
    requires i < |param| && param[i] == '[' && '[' !in param[..i]
    ensures var rest := param[i + 1..];
            var s, j, b := rest + Bracketed(path), IndexByte(rest, ']'), Brackets(param + Bracketed(path));
            if '\n' in UpToClosing(rest) then b == Brackets(s)
            else if j >= 0 then j < |s| && b == [s[..j]] + Brackets(s[j + 1..])
            else b != [] && Length(b) > Length(path)
  {
    hide Brackets, Bracketed, Length, IndexByte, Inert, KeySafe;
    var rest, tail := param[i + 1..], Bracketed(path);
    BracketsAfter(param, i, tail);
    if '\n' in UpToClosing(rest) {
      BreakBefore(rest, tail);
    } else if IndexByte(rest, ']') >= 0 {
      ClosedInName(rest, tail);
    } else {
      OpenBracket(rest, path);
    }
  }

  lemma ClosedInName(rest: string, tail: string)
    requires IndexByte(rest, ']') >= 0
    ensures var j := IndexByte(rest, ']'); j < |rest| && IndexByte(rest + tail, ']') == j && (rest + tail)[..j] == rest[..j]
  {
    hide IndexByte;
    IndexByteFacts(rest, ']');
    var s, j := rest + tail, IndexByte(rest, ']');
    assert s[..j] == rest[..j] && s[j] == ']';
    IndexByteIs(s, ']', j);
  }

  lemma ReadsUpTo(rest: string)
    ensures UpToClosing(rest) == var j := IndexByte(rest, ']'); if j >= 0 then rest[..j] else rest
  {}

  /** The bracket is closed in the name: its text comes in front of what is read behind it. */
  lemma {:induction false} NameBracket(rest: string, j: nat, path: seq<string>)
    requires path != [] && forall i :: 0 <= i < |path| ==> KeySafe(path[i])
    requires IndexByte(rest, ']') == j
    ensures var s := rest + Bracketed(path); j < |s| && Length([s[..j]] + Brackets(s[j + 1..])) > Length(path)
    decreases |rest|, 0
  {
    hide Brackets, Bracketed, Length, IndexByte, Inert, KeySafe;
    var s, behind := rest + Bracketed(path), rest[j + 1..];
    IndexByteFacts(rest, ']');
    assert s[j + 1..] == behind + Bracketed(path);
    if Inert(behind) {
      BracketsOf(behind, path);
    } else {
      LongerUnlessInert(behind, path);
    }
    LengthCons(s[..j], Brackets(s[j + 1..]));
  }

  lemma IndexByteFacts(s: string, c: char)
    requires IndexByte(s, c) >= 0
    ensures var j := IndexByte(s, c); j < |s| && s[j] == c && c !in s[..j]
  {}

  /** The bracket is closed by that of the first key: the rest of the name becomes part of the key. */
  lemma OpenBracket(rest: string, path: seq<string>)
    requires path != [] && forall i :: 0 <= i < |path| ==> KeySafe(path[i])
    requires IndexByte(rest, ']') < 0 && '\n' !in rest
    ensures var s := rest + Bracketed(path);
            var j := IndexByte(s, ']');
            && j >= 0 && '\n' !in s[..j]
            && Length([s[..j]] + Brackets(s[j + 1..])) > Length(path)
  {
    hide *;
    BracketedCons(path);
    var s, k, tail := rest + Bracketed(path), path[0], Bracketed(path[1..]);
    var j := |rest| + 1 + |k|;
    KeyIsSafe(path);
    NotThere(rest, ']');
    ClosedByKey(rest, k, tail);
    assert "" + tail == tail;
    NoneInert("");
    BracketsOf("", path[1..]);
    assert path == [k] + path[1..];
    LengthCons(k, path[1..]);
    LengthCons(s[..j], path[1..]);
  }

  lemma KeyIsSafe(path: seq<string>)
    requires path != [] && forall i :: 0 <= i < |path| ==> KeySafe(path[i])
    ensures ']' !in path[0] && '\n' !in path[0]
  {}

  lemma ClosedByKey(rest: string, k: string, tail: string)
    requires ']' !in rest && ']' !in k && '\n' !in rest && '\n' !in k
    ensures var s, j := rest + ("[" + k + "]" + tail), |rest| + 1 + |k|;
            && j < |s| && IndexByte(s, ']') == j && s[j + 1..] == tail
            && '\n' !in s[..j] && |s[..j]| > |k|
  {
    hide *;
    var s, j := rest + ("[" + k + "]" + tail), |rest| + 1 + |k|;
    assert s == rest + "[" + k + "]" + tail;
    assert s[..j] == rest + "[" + k && s[j] == ']' && s[j + 1..] == tail;
    IndexByteIs(s, ']', j);
  }

  lemma NotThere(s: string, c: char)
    requires IndexByte(s, c) < 0
    ensures c !in s
  {}

  /** A key path is read back exactly when no bracket of the name is read as one and no key contains
      a closing bracket or a line break. */
  lemma BracketsIff(param: string, path: seq<string>)
    requires path != []
    ensures Brackets(param + Bracketed(path)) == path <==> Inert(param) && forall i :: 0 <= i < |path| ==> KeySafe(path[i])
  {
    hide Brackets, Bracketed, Inert, Length;
    BracketsSafe(param + Bracketed(path));
    if forall i :: 0 <= i < |path| ==> KeySafe(path[i]) {
      if Inert(param) {
        BracketsOf(param, path);
      } else {
        LongerUnlessInert(param, path);
      }
    }
  }
}
