/** Nested maps as the source keeps them: maps on the heap that hold other maps by reference and
    are changed in place. Each carries, as ghost state, the value it stands for. */
module NestedDicts {
  import opened Text
  import opened NestedMaps

  datatype Cell<K(==)> = Plain(text: string) | Nested(dict: Dict<K>)

  class Dict<K(==)> {
    var cells: map<K, Cell<K>>
    ghost var model: map<K, Item<K>>
    ghost var parent: Dict?<K>
    ghost var name: Option<K>

    constructor ()
      ensures cells == map[] && model == map[] && parent == null
    {
      cells, model, parent, name := map[], map[], null, None;
    }
  }

  /** A cell stands for this item; a map inside belongs to this place only. */
  ghost predicate CellFits<K>(d: Dict<K>, k: K, c: Cell<K>, item: Item<K>, all: set<Dict<K>>)
    reads all`model, all`parent, all`name
  {
    match c
    case Plain(s) => item == Leaf(s)
    case Nested(e) => e in all && item == Sub(e.model) && e.parent == d && e.name == Some(k)
  }

  ghost predicate Whole<K(!new)>(d: Dict<K>, all: set<Dict<K>>)
    reads d, all`model, all`parent, all`name
  {
    && d.cells.Keys == d.model.Keys
    && forall k :: k in d.cells ==> CellFits(d, k, d.cells[k], d.model[k], all)
  }

  ghost predicate AllWhole<K(!new)>(all: set<Dict<K>>)
    reads all
  {
    forall d :: d in all ==> Whole(d, all)
  }

  /** What the map stands for while `c` is about to take the value `m`. */
  ghost function Due<K>(d: Dict<K>, c: Dict<K>, m: map<K, Item<K>>): map<K, Item<K>>
    reads d`model
  {
    if d == c then m else d.model
  }

  ghost predicate CellDue<K>(d: Dict<K>, k: K, x: Cell<K>, item: Item<K>, all: set<Dict<K>>, c: Dict<K>, m: map<K, Item<K>>)
    reads all`model, all`parent, all`name
  {
    match x
    case Plain(s) => item == Leaf(s)
    case Nested(e) => e in all && item == Sub(Due(e, c, m)) && e.parent == d && e.name == Some(k)
  }

  /** All maps but `c` already have the values they will have once `c` stands for `m`. */
  ghost predicate Awaiting<K(!new)>(all: set<Dict<K>>, c: Dict<K>, m: map<K, Item<K>>)
    reads all
  {
    && c in all && Whole(c, all)
    && forall d :: d in all && d != c ==>
         d.cells.Keys == d.model.Keys && forall k :: k in d.cells ==> CellDue(d, k, d.cells[k], d.model[k], all, c, m)
  }

  /** `deepGet`. */
  method GetDeep<K(!new)>(m0: Dict<K>, keys: seq<K>, ghost all: set<Dict<K>>) returns (r: Option<Cell<K>>)
    requires AllWhole(all) && m0 in all
    ensures r.None? <==> DeepGet(m0.model, keys).None?
    ensures r.Some? ==> match r.value
                        case Plain(s) => DeepGet(m0.model, keys) == Some(Leaf(s))
                        case Nested(d) => d in all && DeepGet(m0.model, keys) == Some(Sub(d.model))
  {
    var m := m0;
    var i := 0;
    assert keys[0..] == keys;
    while i < |keys|
      invariant 0 <= i <= |keys| && m in all
      invariant DeepGet(m0.model, keys) == DeepGet(m.model, keys[i..])
    {
      assert keys[i..][1..] == keys[i + 1..];
      assert Whole(m, all);
      if keys[i] !in m.cells {
        return None;
      }
      var val := m.cells[keys[i]];
      assert CellFits(m, keys[i], val, m.model[keys[i]], all);
      if val.Plain? {
        return Some(val);
      }
      m := val.dict;
      i := i + 1;
    }
    return Some(Nested(m));
  }

  /** The maps passed on the way down: their parents were passed before. */
  ghost predicate Passed<K(!new)>(passed: set<Dict<K>>, m: Dict<K>)
    reads passed`parent, m`parent
  {
    && m !in passed && (m.parent == null || m.parent in passed)
    && forall p :: p in passed ==> p.parent == null || p.parent in passed
  }

  /** Setting a longer path sets the rest of the path in the map under the first key. */
  lemma SetStep<K>(m: map<K, Item<K>>, keys: seq<K>, value: string)
    requires |keys| > 1 && !(keys[0] in m && m[keys[0]].Leaf?)
    ensures Blocked(m, keys) <==> Blocked(SubOf(m, keys[0]), keys[1..])
    ensures DeepSet(m, keys, value) == m[keys[0] := Sub(DeepSet(SubOf(m, keys[0]), keys[1..], value))]
  {
    if Blocked(m, keys) {
      assert m[keys[0]] == Sub(m[keys[0]].entries);
      assert m == m[keys[0] := m[keys[0]]];
    }
  }

  /** A new empty map that belongs under `key` of `m`. */
  method NewDict<K(==,!new)>(m: Dict<K>, key: K, ghost all: set<Dict<K>>, ghost due: map<K, Item<K>>) returns (e: Dict<K>)
    requires Awaiting(all, m, due)
    ensures fresh(e) && Awaiting(all + {e}, m, due)
    ensures e.parent == m && e.name == Some(key) && e.model == map[] && e.cells == map[]
  {
    e := new Dict();
    e.parent, e.name := m, Some(key);
  }

  /** One level of `deepSet` where the key is missing: an empty map is put under it. */
  method Hang<K(==,!new)>(m: Dict<K>, key: K, e: Dict<K>, ghost all: set<Dict<K>>, ghost passed: set<Dict<K>>, ghost sub: map<K, Item<K>>)
    requires Awaiting(all, m, m.model[key := Sub(sub)]) && Passed(passed, m) && passed <= all && key !in m.cells
    requires e in all && e !in passed && e != m && e.parent == m && e.name == Some(key) && e.model == map[] && e.cells == map[]
    modifies m`cells, m`model
    ensures Awaiting(all, e, sub) && Passed(passed + {m}, e)
    ensures m.model == old(m.model)[key := Sub(sub)]
  {
    m.cells := m.cells[key := Nested(e)];
    m.model := m.model[key := Sub(sub)];
  }

  /** One level of `deepSet` where there is a map under the key. */
  method IntoBelow<K(==,!new)>(m: Dict<K>, key: K, ghost all: set<Dict<K>>, ghost passed: set<Dict<K>>, ghost sub: map<K, Item<K>>)
      returns (e: Dict<K>)
    requires Awaiting(all, m, m.model[key := Sub(sub)]) && Passed(passed, m) && passed <= all
    requires key in m.cells && m.cells[key].Nested?
    modifies m`model
    ensures e in all && e != m && Awaiting(all, e, sub) && Passed(passed + {m}, e)
    ensures m.model == old(m.model)[key := Sub(sub)] && old(m.model)[key] == Sub(e.model)
  {
    assert CellFits(m, key, m.cells[key], m.model[key], all);
    e := m.cells[key].dict;
    m.model := m.model[key := Sub(sub)];
  }

  /** The last key is set: everything is whole again. */
  method PutLast<K(==,!new)>(m: Dict<K>, key: K, value: string, ghost all: set<Dict<K>>)
    requires Awaiting(all, m, m.model[key := Leaf(value)])
    modifies m`cells, m`model
    ensures AllWhole(all) && m.model == old(m.model)[key := Leaf(value)]
  {
    m.model := m.model[key := Leaf(value)];
    m.cells := m.cells[key := Plain(value)];
  }

  lemma NothingDue<K(!new)>(m: Dict<K>, all: set<Dict<K>>)
    requires Awaiting(all, m, m.model)
    ensures AllWhole(all)
  {
    forall d | d in all ensures Whole(d, all) {
      if d != m {
        assert forall k :: k in d.cells ==> CellDue(d, k, d.cells[k], d.model[k], all, m, m.model);
      }
    }
  }

  /** `deepSet`: false where the source panics, and then nothing has changed. The maps on the way
      are given the value they will have as soon as the walk has passed them. */
  method SetDeep<K(==,!new)>(m0: Dict<K>, keys: seq<K>, value: string, ghost all: set<Dict<K>>) returns (ok: bool, ghost all': set<Dict<K>>)
    requires keys != [] && AllWhole(all) && m0 in all && m0.parent == null
    modifies all
    ensures all <= all' && fresh(all' - all) && AllWhole(all') && m0.parent == null
    ensures ok <==> !Blocked(old(m0.model), keys)
    ensures m0.model == DeepSet(old(m0.model), keys, value)
  {
    hide DeepSet, Blocked, CellDue, CellFits;
    var m := m0;
    all' := all;
    ghost var passed: set<Dict<K>> := {};
    StartSet(m0, DeepSet(m0.model, keys, value), all);
    hide Awaiting, AllWhole;
    assert keys[0..] == keys;
    for i := 0 to |keys| - 1
      invariant all <= all' && fresh(all' - all) && passed <= all' && Passed(passed, m)
      invariant Awaiting(all', m, DeepSet(m.model, keys[i..], value))
      invariant Blocked(m.model, keys[i..]) <==> Blocked(old(m0.model), keys)
      invariant Due(m0, m, DeepSet(m.model, keys[i..], value)) == DeepSet(old(m0.model), keys, value)
      invariant m0.parent == null && (m0 == m || m0 in passed)
    {
      var key := keys[i];
      assert keys[i..][1..] == keys[i + 1..];
      if key in m.cells && m.cells[key].Plain? {
        CellOf(m, key, all', DeepSet(m.model, keys[i..], value));
        StopsHere(m.model, keys[i..], value);
        NothingDue(m, all');
        return false, all';
      }
      CellOf(m, key, all', DeepSet(m.model, keys[i..], value));
      SetStep(m.model, keys[i..], value);
      ghost var sub := DeepSet(SubOf(m.model, key), keys[i + 1..], value);
      ghost var was := m;
      if key !in m.cells {
        var e := NewDict(m, key, all', DeepSet(m.model, keys[i..], value));
        all' := all' + {e};
        Hang(m, key, e, all', passed, sub);
        m := e;
      } else {
        m := IntoBelow(m, key, all', passed, sub);
      }
      passed := passed + {was};
    }
    SetLast(m.model, keys[|keys| - 1..], value);
    var key := keys[|keys| - 1];
    PutLast(m, key, value, all');
    ok := true;
  }

  lemma StartSet<K(!new)>(m: Dict<K>, due: map<K, Item<K>>, all: set<Dict<K>>)
    requires AllWhole(all) && m in all && m.parent == null
    ensures Awaiting(all, m, due)
  {}

  /** What stands under a key of the map the walk has come to. */
  lemma CellOf<K(!new)>(m: Dict<K>, key: K, all: set<Dict<K>>, due: map<K, Item<K>>)
    requires Awaiting(all, m, due)
    ensures m in all && (key in m.cells <==> key in m.model)
    ensures key in m.cells ==> (m.cells[key].Plain? <==> m.model[key].Leaf?)
  {
    assert key in m.cells ==> CellFits(m, key, m.cells[key], m.model[key], all);
  }

  lemma StopsHere<K>(m: map<K, Item<K>>, keys: seq<K>, value: string)
    requires |keys| > 1 && keys[0] in m && m[keys[0]].Leaf?
    ensures Blocked(m, keys) && DeepSet(m, keys, value) == m
  {}

  lemma SetLast<K>(m: map<K, Item<K>>, keys: seq<K>, value: string)
    requires |keys| == 1
    ensures !Blocked(m, keys) && DeepSet(m, keys, value) == m[keys[0] := Leaf(value)]
  {}
}
