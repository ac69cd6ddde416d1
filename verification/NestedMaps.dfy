/** Nested maps addressed by key paths: `deepGet` and `deepSet`
    (internal/platform/validator/req_resp_decoder.go). */
module NestedMaps {
  import opened Text

  /** What a nested map holds under a key. */
  datatype Item<K> = Leaf(text: string) | Sub(entries: map<K, Item<K>>)

  /** `deepGet`: follows the keys, and stops early at a value that is not a map. */
  function DeepGet<K>(m: map<K, Item<K>>, keys: seq<K>): Option<Item<K>>
    decreases |keys|
  {
    if keys == [] then Some(Sub(m))
    else if keys[0] !in m then None
    else match m[keys[0]]
      case Leaf(_) => Some(m[keys[0]])
      case Sub(e) => DeepGet(e, keys[1..])
  }

  /** A value that is not a map stands in the way of these keys: `deepSet` panics. */
  predicate Blocked<K>(m: map<K, Item<K>>, keys: seq<K>)
    decreases |keys|
  {
    |keys| > 1 && keys[0] in m && (m[keys[0]].Leaf? || Blocked(m[keys[0]].entries, keys[1..]))
  }

  /** The map found under a key, or a new empty one. */
  function SubOf<K>(m: map<K, Item<K>>, k: K): map<K, Item<K>> {
    if k in m && m[k].Sub? then m[k].entries else map[]
  }

  /** `deepSet`: creates the maps on the way and sets the last key. Where it panics nothing has
      been changed yet. */
  function DeepSet<K>(m: map<K, Item<K>>, keys: seq<K>, value: string): map<K, Item<K>>
    requires keys != []
    decreases |keys|
  {
    if Blocked(m, keys) then m
    else if |keys| == 1 then m[keys[0] := Leaf(value)]
    else m[keys[0] := Sub(DeepSet(SubOf(m, keys[0]), keys[1..], value))]
  }

  // ---------------------------------------------------------------- leaves

  /** The text stored at exactly this path. */
  function At<K>(m: map<K, Item<K>>, path: seq<K>): Option<string>
    decreases |path|
  {
    if path == [] || path[0] !in m then None
    else match m[path[0]]
      case Leaf(s) => if |path| == 1 then Some(s) else None
      case Sub(e) => At(e, path[1..])
  }

  /** No map inside is empty. */
  predicate NoEmpty<K(!new)>(m: map<K, Item<K>>)
    decreases Sub(m)
  {
    forall k :: k in m && m[k].Sub? ==> m[k].entries != map[] && NoEmpty(m[k].entries)
  }

  predicate ProperPrefix<K(==)>(p: seq<K>, q: seq<K>) {
    p <= q && p != q
  }

  /** One path is a proper prefix of the other. */
  predicate Clash<K(==)>(p: seq<K>, q: seq<K>) {
    ProperPrefix(p, q) || ProperPrefix(q, p)
  }

  lemma PrefixCons<K>(p: seq<K>, q: seq<K>)
    requires p != [] && q != []
    ensures ProperPrefix(p, q) <==> p[0] == q[0] && ProperPrefix(p[1..], q[1..])
  {
    if p <= q {
      assert p[1..] <= q[1..];
      assert p == [p[0]] + p[1..] && q == [q[0]] + q[1..];
    }
    if p[0] == q[0] && p[1..] <= q[1..] {
      assert p == [p[0]] + p[1..] && q == [q[0]] + q[1..];
    }
  }

  /** A map that is not empty, nor any map inside, has a leaf. */
  lemma {:induction false} LeafBelow<K(!new)>(m: map<K, Item<K>>) returns (p: seq<K>)
    requires NoEmpty(m) && m != map[]
    ensures p != [] && At(m, p).Some?
    decreases Sub(m)
  {
    var k :| k in m;
    match m[k]
    case Leaf(s) =>
      p := [k];
    case Sub(e) =>
      var q := LeafBelow(e);
      p := [k] + q;
      assert p[1..] == q;
  }

  /** A path that clashes with no leaf can be set: nothing is in the way, and the effect is that
      of one leaf more. */
  lemma {:induction false} SetAt<K(!new)>(m: map<K, Item<K>>, keys: seq<K>, value: string, p: seq<K>)
    requires keys != [] && NoEmpty(m)
    requires forall q :: At(m, q).Some? ==> !Clash(q, keys)
    ensures !Blocked(m, keys)
    ensures At(DeepSet(m, keys, value), p) == if p == keys then Some(value) else At(m, p)
    decreases |keys|
  {
    var k, rest := keys[0], keys[1..];
    if k in m && |keys| > 1 && m[k].Leaf? {
      assert At(m, [k]).Some?;
      assert ProperPrefix([k], keys);
      assert false;
    }
    if |keys| == 1 {
      if k in m && m[k].Sub? {
        var q := LeafBelow(m[k].entries);
        assert ([k] + q)[1..] == q && At(m, [k] + q).Some?;
        assert ProperPrefix(keys, [k] + q);
      }
      assert keys == [k];
      assert p != [] && p[0] == k && |p| == 1 ==> p == [k];
    } else {
      var e := SubOf(m, k);
      forall q | At(e, q).Some? ensures !Clash(q, rest) {
        assert ([k] + q)[1..] == q && At(m, [k] + q).Some?;
        PrefixCons([k] + q, keys);
        PrefixCons(keys, [k] + q);
      }
      SetAt(e, rest, value, if p == [] then [] else p[1..]);
      if p != [] && p[0] == k {
        assert p == [k] + p[1..] && keys == [k] + rest;
      }
    }
  }

  /** `deepSet` panics exactly when a leaf stands at a proper part of the path. */
  lemma {:induction false} BlockedIff<K(!new)>(m: map<K, Item<K>>, keys: seq<K>)
    ensures Blocked(m, keys) <==> exists n :: 0 < n < |keys| && At(m, keys[..n]).Some?
    decreases |keys|
  {
    if keys != [] && keys[0] in m && m[keys[0]].Sub? {
      var e, rest := m[keys[0]].entries, keys[1..];
      BlockedIff(e, rest);
      GetStep(m, keys);
      if n :| 0 < n < |rest| && At(e, rest[..n]).Some? {
        assert At(m, keys[..n + 1]).Some?;
      }
      if n :| 0 < n < |keys| && At(m, keys[..n]).Some? {
        assert At(m, keys[..(n - 1) + 1]) == At(e, rest[..n - 1]);
      }
    } else if keys != [] {
      assert forall n :: 0 < n < |keys| ==> keys[..n][0] == keys[0];
      if |keys| > 1 && keys[0] in m {
        assert At(m, keys[..1]).Some?;
      }
    }
  }

  /** Where it does not panic it puts one leaf at the path, drops what lay below, and keeps every
      other leaf. */
  lemma {:induction false} SetExact<K(!new)>(m: map<K, Item<K>>, keys: seq<K>, value: string, p: seq<K>)
    requires keys != [] && !Blocked(m, keys)
    ensures At(DeepSet(m, keys, value), p) ==
            if p == keys then Some(value) else if ProperPrefix(keys, p) then None else At(m, p)
    decreases |keys|
  {
    if p != [] {
      PrefixCons(keys, p);
      if p[0] == keys[0] {
        assert p == [p[0]] + p[1..] && keys == [keys[0]] + keys[1..];
        if |keys| > 1 {
          SetExact(SubOf(m, keys[0]), keys[1..], value, p[1..]);
        }
      }
    }
  }

  lemma {:induction false} SetNoEmpty<K(!new)>(m: map<K, Item<K>>, keys: seq<K>, value: string)
    requires keys != [] && NoEmpty(m)
    ensures NoEmpty(DeepSet(m, keys, value))
    ensures keys[0] in DeepSet(m, keys, value)
    decreases |keys|
  {
    if !Blocked(m, keys) && |keys| > 1 {
      SetNoEmpty(SubOf(m, keys[0]), keys[1..], value);
    }
  }

  /** The leaves determine the nested map. */
  lemma {:induction false} SameLeaves<K(!new)>(a: map<K, Item<K>>, b: map<K, Item<K>>)
    requires NoEmpty(a) && NoEmpty(b) && forall p :: At(a, p) == At(b, p)
    ensures a == b
    decreases Sub(a)
  {
    forall k | k in a ensures k in b && a[k] == b[k] {
      SameEntry(a, b, k);
      if a[k].Sub? {
        forall p ensures At(a[k].entries, p) == At(b[k].entries, p) {
          assert ([k] + p)[1..] == p;
          assert At(a, [k] + p) == At(b, [k] + p);
        }
        SameLeaves(a[k].entries, b[k].entries);
      }
    }
    forall k | k in b ensures k in a {
      SameEntry(b, a, k);
    }
  }

  lemma SameEntry<K(!new)>(a: map<K, Item<K>>, b: map<K, Item<K>>, k: K)
    requires NoEmpty(a) && NoEmpty(b) && k in a && forall p :: At(a, p) == At(b, p)
    ensures k in b && (a[k].Leaf? || b[k].Leaf? ==> a[k] == b[k])
  {
    assert At(a, [k]) == At(b, [k]) && [k][1..] == [];
    if a[k].Sub? {
      var q := LeafBelow(a[k].entries);
      assert ([k] + q)[1..] == q;
      assert At(b, [k] + q).Some?;
    }
  }

  // ---------------------------------------------------------------- many paths

  /** Setting one path after the other; None where `deepSet` panics. */
  function SetAll<K>(m: map<K, Item<K>>, sets: seq<(seq<K>, string)>): Option<map<K, Item<K>>>
    requires forall i :: 0 <= i < |sets| ==> sets[i].0 != []
    decreases |sets|
  {
    if sets == [] then Some(m)
    else if Blocked(m, sets[0].0) then None
    else SetAll(DeepSet(m, sets[0].0, sets[0].1), sets[1..])
  }

  predicate Paths<K(==)>(sets: seq<(seq<K>, string)>) {
    && (forall i :: 0 <= i < |sets| ==> sets[i].0 != [])
    && (forall i, j :: 0 <= i < j < |sets| ==> sets[i].0 != sets[j].0)
  }

  predicate PrefixFree<K(==)>(sets: seq<(seq<K>, string)>) {
    forall i, j :: 0 <= i < j < |sets| ==> !Clash(sets[i].0, sets[j].0)
  }

  ghost predicate Stores<K(!new)>(sets: seq<(seq<K>, string)>, p: seq<K>, v: string) {
    (p, v) in sets
  }

  /** The nested map has exactly these leaves. */
  ghost predicate Spells<K(!new)>(m: map<K, Item<K>>, sets: seq<(seq<K>, string)>) {
    NoEmpty(m) && forall p, v :: At(m, p) == Some(v) <==> Stores(sets, p, v)
  }

  /** No path of the list is the same as, or clashes with, a leaf. */
  ghost predicate Clear<K(!new)>(m: map<K, Item<K>>, sets: seq<(seq<K>, string)>) {
    forall i, q :: 0 <= i < |sets| && At(m, q).Some? ==> q != sets[i].0 && !Clash(q, sets[i].0)
  }

  /** In any order, prefix-free paths are set without a panic, and each becomes a leaf. */
  lemma {:induction false} SetAllAt<K(!new)>(m: map<K, Item<K>>, sets: seq<(seq<K>, string)>, p: seq<K>, v: string)
    requires NoEmpty(m) && Paths(sets) && PrefixFree(sets) && Clear(m, sets)
    ensures SetAll(m, sets).Some? && NoEmpty(SetAll(m, sets).value)
    ensures At(SetAll(m, sets).value, p) == Some(v) <==> At(m, p) == Some(v) || Stores(sets, p, v)
    decreases |sets|
  {
    hide NoEmpty, At, Clash, DeepSet, Blocked;
    if sets != [] {
      var (keys, value) := sets[0];
      var rest := sets[1..];
      var m' := DeepSet(m, keys, value);
      forall q ensures !Blocked(m, keys) && At(m', q) == if q == keys then Some(value) else At(m, q) {
        SetAt(m, keys, value, q);
      }
      SetNoEmpty(m, keys, value);
      ClashSymmetric(sets);
      assert Clear(m', rest);
      assert Paths(rest) && PrefixFree(rest);
      SetAllAt(m', rest, p, v);
      assert sets == [sets[0]] + rest;
      assert Stores(sets, p, v) <==> (p == keys && v == value) || Stores(rest, p, v);
      if p == keys {
        NotStoredTwice(sets, v);
      }
    }
  }

  lemma ClashSymmetric<K>(sets: seq<(seq<K>, string)>)
    requires PrefixFree(sets) && sets != []
    ensures forall i :: 1 <= i < |sets| ==> !Clash(sets[0].0, sets[i].0)
  {}

  lemma NotStoredTwice<K(!new)>(sets: seq<(seq<K>, string)>, v: string)
    requires Paths(sets) && sets != []
    ensures !Stores(sets[1..], sets[0].0, v)
  {}

  /** Prefix-free paths give one nested map, whatever the order: the one that spells them. */
  lemma SetAllSpells<K(!new)>(sets: seq<(seq<K>, string)>)
    requires Paths(sets) && PrefixFree(sets)
    ensures SetAll(map[], sets).Some? && Spells(SetAll(map[], sets).value, sets)
  {
    hide NoEmpty, At, Clash, SetAll;
    EmptyMap<K>();
    forall p, v
      ensures && SetAll(map[], sets).Some? && NoEmpty(SetAll(map[], sets).value)
              && (At(SetAll(map[], sets).value, p) == Some(v) <==> Stores(sets, p, v))
    {
      SetAllAt(map[], sets, p, v);
    }
    var p0: seq<K>, v0 := [], "";
    SetAllAt(map[], sets, p0, v0);
  }

  lemma EmptyMap<K(!new)>()
    ensures NoEmpty<K>(map[]) && forall p: seq<K> :: At(map[], p) == None
  {}

  lemma SpellsUnique<K(!new)>(a: map<K, Item<K>>, b: map<K, Item<K>>, sets: seq<(seq<K>, string)>, sets': seq<(seq<K>, string)>)
    requires Spells(a, sets) && Spells(b, sets') && forall x :: x in sets <==> x in sets'
    ensures a == b
  {
    hide NoEmpty, At;
    forall p ensures At(a, p) == At(b, p) {
      if At(a, p).Some? {
        assert Stores(sets, p, At(a, p).value);
        assert Stores(sets', p, At(a, p).value);
      } else if At(b, p).Some? {
        assert Stores(sets', p, At(b, p).value);
        assert Stores(sets, p, At(b, p).value);
      }
    }
    SameLeaves(a, b);
  }

  /** Two orders of the same prefix-free paths give the same nested map. */
  lemma SetAllAnyOrder<K(!new)>(sets: seq<(seq<K>, string)>, sets': seq<(seq<K>, string)>)
    requires Paths(sets) && Paths(sets') && PrefixFree(sets) && forall x :: x in sets <==> x in sets'
    ensures SetAll(map[], sets).Some? && SetAll(map[], sets') == SetAll(map[], sets)
  {
    hide SetAll, Spells;
    assert PrefixFree(sets') by {
      forall i, j | 0 <= i < j < |sets'| ensures !Clash(sets'[i].0, sets'[j].0) {
        assert sets'[i] in sets && sets'[j] in sets;
        NoClashAmong(sets, sets'[i], sets'[j]);
      }
    }
    SetAllSpells(sets);
    SetAllSpells(sets');
    SpellsUnique(SetAll(map[], sets).value, SetAll(map[], sets').value, sets, sets');
  }

  lemma NoClashAmong<K>(sets: seq<(seq<K>, string)>, x: (seq<K>, string), y: (seq<K>, string))
    requires PrefixFree(sets) && x in sets && y in sets
    ensures !Clash(x.0, y.0)
  {
    var i :| 0 <= i < |sets| && sets[i] == x;
    var j :| 0 <= j < |sets| && sets[j] == y;
    assert if i < j then !Clash(sets[i].0, sets[j].0) else i == j || !Clash(sets[j].0, sets[i].0);
  }

  /** `deepGet` finds each leaf at its own path. */
  lemma {:induction false} GetLeaf<K(!new)>(m: map<K, Item<K>>, p: seq<K>)
    requires At(m, p).Some?
    ensures DeepGet(m, p) == Some(Leaf(At(m, p).value))
    decreases |p|
  {
    if m[p[0]].Sub? {
      GetLeaf(m[p[0]].entries, p[1..]);
    }
  }

  /** Below this path lie exactly the leaves of that map. */
  ghost predicate Below<K(!new)>(m: map<K, Item<K>>, keys: seq<K>, e: map<K, Item<K>>) {
    forall q :: At(m, keys + q) == At(e, q)
  }

  /** What `deepGet` finds: the leaf at the path or at the first part of it that is a leaf, else the map
      with the leaves below the path, else nothing, and then there is no leaf below. */
  lemma {:induction false} GetIs<K(!new)>(m: map<K, Item<K>>, keys: seq<K>)
    ensures match DeepGet(m, keys)
            case Some(Leaf(s)) => exists n :: 0 < n <= |keys| && At(m, keys[..n]) == Some(s)
            case Some(Sub(e)) => Below(m, keys, e)
            case None => Below(m, keys, map[])
    decreases |keys|
  {
    if keys == [] {
      assert forall q :: keys + q == q;
    } else {
      assert forall q :: (keys + q)[0] == keys[0] && (keys + q)[1..] == keys[1..] + q;
      if keys[0] in m {
        if m[keys[0]].Leaf? {
          assert keys[..1][0] == keys[0] && At(m, keys[..1]).Some?;
        } else {
          GetIs(m[keys[0]].entries, keys[1..]);
          GetStep(m, keys);
        }
      }
    }
  }

  lemma GetStep<K(!new)>(m: map<K, Item<K>>, keys: seq<K>)
    requires keys != [] && keys[0] in m && m[keys[0]].Sub?
    ensures forall n :: 0 <= n < |keys| ==> At(m, keys[..n + 1]) == At(m[keys[0]].entries, keys[1..][..n])
  {
    forall n | 0 <= n < |keys| ensures At(m, keys[..n + 1]) == At(m[keys[0]].entries, keys[1..][..n]) {
      assert keys[..n + 1][1..] == keys[1..][..n] && keys[..n + 1][0] == keys[0];
    }
  }

  /** Every stored value is read back at its own path. */
  lemma SetThenGet<K(!new)>(sets: seq<(seq<K>, string)>, i: nat)
    requires Paths(sets) && PrefixFree(sets) && i < |sets|
    ensures SetAll(map[], sets).Some? && DeepGet(SetAll(map[], sets).value, sets[i].0) == Some(Leaf(sets[i].1))
  {
    hide SetAll, At, NoEmpty;
    SetAllSpells(sets);
    assert Stores(sets, sets[i].0, sets[i].1);
    GetLeaf(SetAll(map[], sets).value, sets[i].0);
  }

  // ---------------------------------------------------------------- paths that are not prefix-free

  lemma {:induction false} SetAllConcat<K>(m: map<K, Item<K>>, a: seq<(seq<K>, string)>, b: seq<(seq<K>, string)>)
    requires forall i :: 0 <= i < |a| ==> a[i].0 != []
    requires forall i :: 0 <= i < |b| ==> b[i].0 != []
    ensures SetAll(m, a + b) == if SetAll(m, a).None? then None else SetAll(SetAll(m, a).value, b)
    decreases |a|
  {
    hide DeepSet, Blocked;
    if a == [] {
      assert a + b == b;
    } else {
      assert (a + b)[0] == a[0] && (a + b)[1..] == a[1..] + b;
      if !Blocked(m, a[0].0) {
        SetAllConcat(DeepSet(m, a[0].0, a[0].1), a[1..], b);
      }
    }
  }

  /** Once a path is set, everything below it is blocked. */
  lemma {:induction false} SetBlocks<K>(m: map<K, Item<K>>, p: seq<K>, v: string, q: seq<K>)
    requires p != [] && ProperPrefix(p, q) && !Blocked(m, p)
    ensures Blocked(DeepSet(m, p, v), q)
    decreases |p|
  {
    PrefixCons(p, q);
    if |p| > 1 {
      SetBlocks(SubOf(m, p[0]), p[1..], v, q[1..]);
    }
  }

  /** Whenever one path is a proper prefix of another, setting it first makes `deepSet` panic. */
  lemma PrefixFirstPanics<K>(m: map<K, Item<K>>, x: (seq<K>, string), y: (seq<K>, string))
    requires x.0 != [] && ProperPrefix(x.0, y.0)
    ensures SetAll(m, [x, y]).None?
  {
    hide DeepSet, Blocked;
    if !Blocked(m, x.0) {
      SetBlocks(m, x.0, x.1, y.0);
      assert [x, y][1..] == [y];
      var m' := DeepSet(m, x.0, x.1);
      assert SetAll(m', [y]) == None;
    }
  }

  /** Setting a path adds that leaf and no other; it may remove some. */
  lemma {:induction false} SetLeaf<K(!new)>(m: map<K, Item<K>>, keys: seq<K>, value: string, p: seq<K>, v: string)
    requires keys != [] && At(DeepSet(m, keys, value), p) == Some(v)
    ensures (p == keys && v == value) || At(m, p) == Some(v)
    decreases |keys|
  {
    if !Blocked(m, keys) && p[0] == keys[0] {
      assert p == [p[0]] + p[1..] && keys == [keys[0]] + keys[1..];
      if |keys| > 1 {
        SetLeaf(SubOf(m, keys[0]), keys[1..], value, p[1..], v);
      }
    }
  }

  /** In whatever order, with or without clashes, the leaves are values that were set. */
  lemma {:induction false} StoredLeaf<K(!new)>(m: map<K, Item<K>>, sets: seq<(seq<K>, string)>, p: seq<K>, v: string)
    requires (forall i :: 0 <= i < |sets| ==> sets[i].0 != []) && SetAll(m, sets).Some?
    requires At(SetAll(m, sets).value, p) == Some(v)
    ensures At(m, p) == Some(v) || Stores(sets, p, v)
    decreases |sets|
  {
    hide At, DeepSet, Blocked;
    if sets != [] {
      StoredLeaf(DeepSet(m, sets[0].0, sets[0].1), sets[1..], p, v);
      if At(DeepSet(m, sets[0].0, sets[0].1), p) == Some(v) {
        SetLeaf(m, sets[0].0, sets[0].1, p, v);
      }
      assert sets[0] == (sets[0].0, sets[0].1);
    }
  }

  /** The same paths and values in some order. */
  ghost predicate Reordered<K(!new)>(order: seq<(seq<K>, string)>, sets: seq<(seq<K>, string)>) {
    Paths(order) && forall x :: x in order <==> x in sets
  }

  ghost predicate NeverPanics<K(!new)>(sets: seq<(seq<K>, string)>) {
    forall order :: Reordered(order, sets) ==> SetAll(map[], order).Some?
  }

  /** No order panics exactly when the paths are prefix-free. */
  lemma NeverPanicsIff<K(!new)>(sets: seq<(seq<K>, string)>)
    requires Paths(sets)
    ensures NeverPanics(sets) <==> PrefixFree(sets)
  {
    hide SetAll, Clash;
    if PrefixFree(sets) {
      forall order | Reordered(order, sets) ensures SetAll(map[], order).Some? {
        SetAllAnyOrder(sets, order);
      }
    } else {
      var i, j :| 0 <= i < j < |sets| && Clash(sets[i].0, sets[j].0);
      var order := PanickingOrder(sets, i, j);
      assert !NeverPanics(sets);
    }
  }

  function ToEnd<T>(s: seq<T>, i: nat): seq<T>
    requires i < |s|
  {
    s[..i] + s[i + 1..] + [s[i]]
  }

  lemma ReorderedToEnd<K(!new)>(sets: seq<(seq<K>, string)>, i: nat)
    requires Paths(sets) && i < |sets|
    ensures Reordered(ToEnd(sets, i), sets)
  {
    var order := ToEnd(sets, i);
    assert forall k :: 0 <= k < |order| ==> order[k] == sets[if k < i then k else if k < |sets| - 1 then k + 1 else i];
    assert sets == sets[..i] + [sets[i]] + sets[i + 1..];
  }

  lemma PanickingOrder<K(!new)>(sets: seq<(seq<K>, string)>, i: nat, j: nat) returns (order: seq<(seq<K>, string)>)
    requires Paths(sets) && i < j < |sets| && Clash(sets[i].0, sets[j].0)
    ensures Reordered(order, sets) && SetAll(map[], order).None?
  {
    hide SetAll, Paths;
    var last := |sets| - 1;
    if ProperPrefix(sets[i].0, sets[j].0) {
      order := ToEnd(ToEnd(sets, i), j - 1);
      ReorderedToEnd(sets, i);
      ReorderedToEnd(ToEnd(sets, i), j - 1);
    } else {
      order := ToEnd(ToEnd(sets, j), i);
      ReorderedToEnd(sets, j);
      ReorderedToEnd(ToEnd(sets, j), i);
    }
    PanicsAtEnd(order);
  }

  lemma PanicsAtEnd<K>(order: seq<(seq<K>, string)>)
    requires Paths(order) && |order| >= 2 && ProperPrefix(order[|order| - 2].0, order[|order| - 1].0)
    ensures SetAll(map[], order).None?
  {
    hide SetAll;
    var n := |order|;
    var rest, x, y := order[..n - 2], order[n - 2], order[n - 1];
    assert order == rest + [x, y];
    SetAllConcat(map[], rest, [x, y]);
    if SetAll(map[], rest).Some? {
      PrefixFirstPanics(SetAll(map[], rest).value, x, y);
    }
  }
}
