/** Byte strings and the few operations of Go's `strings` package the models use.
    A `char` stands for one byte of a Go string. */
module Text {

  datatype Option<+T> = None | Some(value: T)

  /** `strings.IndexByte`: the first position of `c`, or -1. */
  function IndexByte(s: string, c: char): (p: int)
    ensures -1 <= p < |s|
    ensures p >= 0 ==> s[p] == c && c !in s[..p]
    ensures p < 0 ==> c !in s
  {
    if s == "" then -1
    else if s[0] == c then 0
    else
      var q := IndexByte(s[1..], c);
      assert q >= 0 ==> s[..q + 1] == [s[0]] + s[1..][..q];
      if q < 0 then -1 else q + 1
  }

  /** Only the first occurrence satisfies what `IndexByte` promises. */
  lemma IndexByteIs(s: string, c: char, p: nat)
    requires p < |s| && s[p] == c && c !in s[..p]
    ensures IndexByte(s, c) == p
  {
    assert forall i :: 0 <= i < p ==> s[..p][i] == s[i];
    var q := IndexByte(s, c);
    assert forall i :: 0 <= i < q ==> s[..q][i] == s[i];
  }

  lemma IndexByteCons(a: char, s: string, c: char)
    requires a != c
    ensures IndexByte([a] + s, c) == if IndexByte(s, c) < 0 then -1 else IndexByte(s, c) + 1
  {
    assert ([a] + s)[1..] == s;
  }

  predicate OccursAt(s: string, sep: string, p: int) {
    0 <= p && p + |sep| <= |s| && s[p..p + |sep|] == sep
  }

  /** `strings.Index`: the first position at which `sep` occurs, or -1. */
  function Index(s: string, sep: string): (p: int)
    ensures p == -1 || OccursAt(s, sep, p)
    ensures forall q :: OccursAt(s, sep, q) ==> 0 <= p <= q
  {
    IndexFrom(s, sep, 0)
  }

  function IndexFrom(s: string, sep: string, from: nat): (p: int)
    requires from <= |s|
    ensures p == -1 || (from <= p && OccursAt(s, sep, p))
    ensures forall q :: from <= q && OccursAt(s, sep, q) ==> 0 <= p <= q
    decreases |s| - from
  {
    if OccursAt(s, sep, from) then from
    else if from == |s| then -1
    else IndexFrom(s, sep, from + 1)
  }

  /** `strings.Split` with a non-empty separator. */
  function Split(s: string, sep: string): (parts: seq<string>)
    requires sep != ""
    ensures parts != []
  {
    var p := Index(s, sep);
    if p < 0 then [s] else [s[..p]] + Split(s[p + |sep|..], sep)
  }

  /** `strings.Join`. */
  function Join(parts: seq<string>, sep: string): string {
    if parts == [] then ""
    else if |parts| == 1 then parts[0]
    else parts[0] + sep + Join(parts[1..], sep)
  }

  /** The separator is found where `part` ends when it is written behind `part`. */
  predicate EndsAt(part: string, sep: string) {
    Index(part + sep, sep) == |part|
  }

  /** What lets a list be joined and split again: every part but the last is cut where it ends,
      and the last part does not contain the separator. */
  predicate Splittable(parts: seq<string>, sep: string)
    requires parts != []
  {
    if |parts| == 1 then Index(parts[0], sep) < 0
    else EndsAt(parts[0], sep) && Splittable(parts[1..], sep)
  }

  /** Joining what was split gives the text back. */
  lemma {:induction false} JoinSplit(s: string, sep: string)
    requires sep != ""
    ensures Join(Split(s, sep), sep) == s
    decreases |s|
  {
    var p := Index(s, sep);
    if p >= 0 {
      JoinSplit(s[p + |sep|..], sep);
      var parts := Split(s, sep);
      assert parts[1..] == Split(s[p + |sep|..], sep);
      assert s == s[..p] + sep + s[p + |sep|..];
    }
  }

  /** The first occurrence of `sep` does not depend on what follows it. */
  lemma IndexInFront(part: string, sep: string, rest: string)
    requires sep != ""
    ensures Index(part + sep + rest, sep) == Index(part + sep, sep)
  {
    var s, t := part + sep + rest, part + sep;
    var q := Index(s, sep);
    assert OccursAt(t, sep, |part|);
    var p := Index(t, sep);
    assert s[p..p + |sep|] == t[p..p + |sep|];
    assert OccursAt(s, sep, p);
    assert s[q..q + |sep|] == t[q..q + |sep|];
    assert OccursAt(t, sep, q);
  }

  lemma SplitCons(first: string, sep: string, rest: string)
    requires sep != ""
    ensures var parts := Split(first + sep + rest, sep);
            && |parts| > 1
            && (EndsAt(first, sep) ==> parts == [first] + Split(rest, sep))
            && (!EndsAt(first, sep) ==> parts[0] != first)
  {
    hide Index, EndsAt;
    var s := first + sep + rest;
    IndexInFront(first, sep, rest);
    assert OccursAt(first + sep, sep, |first|);
    var p := Index(s, sep);
    assert p == |first| <==> EndsAt(first, sep) by { EndsAtIs(first, sep); }
    if p == |first| {
      assert s[p + |sep|..] == rest && s[..p] == first;
    }
  }

  lemma EndsAtIs(part: string, sep: string)
    ensures EndsAt(part, sep) <==> Index(part + sep, sep) == |part|
  {}

  /** Splitting a joined list gives the list back exactly when it is splittable. */
  lemma {:induction false} SplitJoin(parts: seq<string>, sep: string)
    requires sep != "" && parts != []
    ensures Split(Join(parts, sep), sep) == parts <==> Splittable(parts, sep)
    decreases |parts|
  {
    hide Index, EndsAt;
    if |parts| == 1 {
      assert parts == [Join(parts, sep)];
    } else {
      var first, rest := parts[0], parts[1..];
      SplitJoin(rest, sep);
      hide Split, Splittable;
      SplitCons(first, sep, Join(rest, sep));
      SplittableCons(parts, sep);
      assert parts == [first] + rest;
    }
  }

  lemma SplittableCons(parts: seq<string>, sep: string)
    requires |parts| > 1
    ensures Splittable(parts, sep) <==> EndsAt(parts[0], sep) && Splittable(parts[1..], sep)
  {}

  /** Parts without the first byte of the separator can always be joined and split. */
  lemma {:induction false} FreeOfByte(parts: seq<string>, sep: string)
    requires sep != "" && parts != []
    requires forall i :: 0 <= i < |parts| ==> sep[0] !in parts[i]
    ensures Splittable(parts, sep)
    decreases |parts|
  {
    var first := parts[0];
    if |parts| == 1 {
      assert forall q :: OccursAt(first, sep, q) ==> first[q..q + |sep|][0] == first[q];
    } else {
      FreeOfByte(parts[1..], sep);
      var t := first + sep;
      assert OccursAt(t, sep, |first|);
      var p := Index(t, sep);
      assert t[p] == t[p..p + |sep|][0] == sep[0];
    }
  }

  /** With a separator of one byte, a list can be joined and split again exactly when no part
      contains that byte. */
  lemma {:induction false} SplittableByte(parts: seq<string>, c: char)
    requires parts != []
    ensures Splittable(parts, [c]) <==> forall i :: 0 <= i < |parts| ==> c !in parts[i]
    decreases |parts|
  {
    hide Index;
    var first := parts[0];
    if |parts| == 1 {
      assert forall i :: 0 <= i < |first| && first[i] == c ==> OccursAt(first, [c], i);
    } else {
      SplittableByte(parts[1..], c);
      SplittableCons(parts, [c]);
      var t := first + [c];
      forall i | 0 <= i < |first| && first[i] == c ensures OccursAt(t, [c], i) {
        assert t[i..i + 1] == [c];
      }
      EndsAtIs(first, [c]);
    }
    if forall i :: 0 <= i < |parts| ==> c !in parts[i] {
      FreeOfByte(parts, [c]);
    }
  }

  /** No part contains the byte the text was split at. */
  lemma SplitParts(s: string, c: char)
    ensures forall i :: 0 <= i < |Split(s, [c])| ==> c !in Split(s, [c])[i]
  {
    hide Split, Join, Splittable;
    var parts := Split(s, [c]);
    JoinSplit(s, [c]);
    SplitJoin(parts, [c]);
    SplittableByte(parts, c);
  }
}
