/** Specification storages: what is read from a database of OpenAPI documents, when a newly read
    one differs from the one in use, and how rows are marked as applied
    (internal/platform/storage/dbv1.go, dbv2.go, storage.go). */
module SpecStorage {
  import opened Text

  /** Ids are values of Go's `int`. */
  type SchemaId = n: int | -0x8000_0000_0000_0000 <= n < 0x8000_0000_0000_0000

  datatype Row = Row(id: SchemaId, version: string, content: string, status: string)

  datatype Entry = Entry(version: string, content: string, status: string)

  datatype Spec = Spec(document: string)

  /** Parsing a document: from content, version and id. */
  type Parser = (string, string, SchemaId) -> Option<Spec>

  /** What a storage holds. Level 1 is the database layout without a status, level 2 the one with. */
  datatype Loaded = Loaded(level: nat, raw: map<SchemaId, Entry>, specs: map<SchemaId, Spec>)

  // ---------------------------------------------------------------- reading rows

  function EntryOf(row: Row, level: nat): Entry {
    Entry(row.version, row.content, if level == 2 then row.status else "")
  }

  /** The entries of a table, a later row replacing an earlier one with the same id. */
  function Entries(rows: seq<Row>, level: nat): map<SchemaId, Entry> {
    if rows == [] then map[]
    else Entries(rows[..|rows| - 1], level)[rows[|rows| - 1].id := EntryOf(rows[|rows| - 1], level)]
  }

  function ParseEntry(parse: Parser, id: SchemaId, e: Entry): Option<Spec> {
    parse(e.content, e.version, id)
  }

  /** What is kept of the entries: those that can be parsed, with what they were parsed to. */
  function Keep(parse: Parser, entries: map<SchemaId, Entry>, level: nat): Loaded {
    Loaded(level,
           map id | id in entries && ParseEntry(parse, id, entries[id]).Some? :: entries[id],
           map id | id in entries && ParseEntry(parse, id, entries[id]).Some? :: ParseEntry(parse, id, entries[id]).value)
  }

  predicate AllParse(parse: Parser, entries: map<SchemaId, Entry>) {
    forall id :: id in entries ==> ParseEntry(parse, id, entries[id]).Some?
  }

  /** Every entry has its parsed document, and no other document is there. */
  predicate Whole(parse: Parser, l: Loaded) {
    && l.specs.Keys == l.raw.Keys
    && forall id :: id in l.raw ==> ParseEntry(parse, id, l.raw[id]) == Some(l.specs[id])
  }

  lemma KeepWhole(parse: Parser, entries: map<SchemaId, Entry>, level: nat)
    ensures Whole(parse, Keep(parse, entries, level))
  {}

  // ---------------------------------------------------------------- rows and what is kept of them

  /** The last row with this id. */
  predicate LastRow(rows: seq<Row>, i: int, id: SchemaId) {
    0 <= i < |rows| && rows[i].id == id && forall j :: i < j < |rows| ==> rows[j].id != id
  }

  predicate Parses(parse: Parser, row: Row) {
    parse(row.content, row.version, row.id).Some?
  }

  /** Every id whose last row can be parsed is kept, and no other: with the version, the content and, in
      the layout with a status, the status of that row, and with what its content was parsed to. */
  ghost predicate LoadedFrom(rows: seq<Row>, parse: Parser, l: Loaded) {
    && l.specs.Keys == l.raw.Keys
    && (forall id :: id in l.raw ==> exists i :: LastRow(rows, i, id) && Parses(parse, rows[i]))
    && (forall i, id :: LastRow(rows, i, id) && Parses(parse, rows[i]) ==>
          && id in l.raw
          && l.raw[id].version == rows[i].version && l.raw[id].content == rows[i].content
          && l.raw[id].status == (if l.level == 2 then rows[i].status else "")
          && Some(l.specs[id]) == parse(rows[i].content, rows[i].version, id))
  }

  /** The last row of every id can be parsed. */
  ghost predicate EveryParses(rows: seq<Row>, parse: Parser) {
    forall i, id :: LastRow(rows, i, id) ==> Parses(parse, rows[i])
  }

  lemma {:induction false} EntriesLast(rows: seq<Row>, level: nat, id: SchemaId)
    ensures id in Entries(rows, level) <==> exists i :: LastRow(rows, i, id)
    ensures forall i :: LastRow(rows, i, id) ==> id in Entries(rows, level) && Entries(rows, level)[id] == EntryOf(rows[i], level)
    decreases |rows|
  {
    hide EntryOf;
    if rows != [] {
      var last := |rows| - 1;
      var front := rows[..last];
      EntriesLast(front, level, id);
      if rows[last].id == id {
        assert LastRow(rows, last, id);
      } else {
        forall i ensures LastRow(rows, i, id) <==> LastRow(front, i, id) {
          if LastRow(front, i, id) {
            assert forall j :: i < j < last ==> rows[j] == front[j];
          }
          if LastRow(rows, i, id) {
            assert i < last && forall j :: i < j < last ==> front[j] == rows[j];
          }
        }
      }
    }
  }

  lemma KeepLoaded(rows: seq<Row>, parse: Parser, level: nat)
    ensures LoadedFrom(rows, parse, Keep(parse, Entries(rows, level), level))
    ensures AllParse(parse, Entries(rows, level)) <==> EveryParses(rows, parse)
  {
    hide Entries, LastRow;
    var entries := Entries(rows, level);
    var l := Keep(parse, entries, level);
    forall id | id in entries ensures exists i :: 0 <= i < |rows| && LastRow(rows, i, id) && rows[i].id == id && entries[id] == EntryOf(rows[i], level) {
      EntriesLast(rows, level, id);
      var i :| LastRow(rows, i, id);
      LastRowIs(rows, i, id);
    }
    forall i, id | LastRow(rows, i, id) ensures 0 <= i < |rows| && rows[i].id == id && id in entries && entries[id] == EntryOf(rows[i], level) {
      EntriesLast(rows, level, id);
      LastRowIs(rows, i, id);
    }
  }

  lemma LastRowIs(rows: seq<Row>, i: int, id: SchemaId)
    requires LastRow(rows, i, id)
    ensures 0 <= i < |rows| && rows[i].id == id
  {}

  // ---------------------------------------------------------------- comparing storages

  predicate SameVersions(a: map<SchemaId, Entry>, b: map<SchemaId, Entry>) {
    a.Keys == b.Keys && forall id :: id in b ==> a[id].version == b[id].version
  }

  predicate AnyNew(l: Loaded) {
    l.level == 2 && exists id :: id in l.raw && l.raw[id].status == "new"
  }

  // ---------------------------------------------------------------- marking rows

  /** `UPDATE openapi_schemas SET status = 'applied' WHERE schema_id IN (...)`. */
  function MarkRows(rows: seq<Row>, ids: set<SchemaId>): seq<Row> {
    seq(|rows|, i requires 0 <= i < |rows| => if rows[i].id in ids then rows[i].(status := "applied") else rows[i])
  }

  function MarkEntries(raw: map<SchemaId, Entry>, ids: set<SchemaId>): map<SchemaId, Entry> {
    map id | id in raw :: if id in ids then raw[id].(status := "applied") else raw[id]
  }

  function NewIds(raw: map<SchemaId, Entry>): set<SchemaId> {
    set id | id in raw && raw[id].status == "new"
  }

  /** Reading the marked rows gives the marked entries. */
  lemma {:induction false} EntriesMarked(rows: seq<Row>, ids: set<SchemaId>)
    ensures Entries(MarkRows(rows, ids), 2) == MarkEntries(Entries(rows, 2), ids)
    decreases |rows|
  {
    if rows != [] {
      var last := |rows| - 1;
      EntriesMarked(rows[..last], ids);
      assert MarkRows(rows, ids)[..last] == MarkRows(rows[..last], ids);
    }
  }

  /** Marking changes neither ids nor versions nor what is parsed. */
  lemma KeepMarked(parse: Parser, entries: map<SchemaId, Entry>, ids: set<SchemaId>)
    ensures AllParse(parse, MarkEntries(entries, ids)) <==> AllParse(parse, entries)
    ensures var l := Keep(parse, entries, 2); Keep(parse, MarkEntries(entries, ids), 2) == l.(raw := MarkEntries(l.raw, ids))
  {
    MarkedParse(parse, entries, ids);
    hide ParseEntry;
    var marked, l := MarkEntries(entries, ids), Keep(parse, entries, 2);
    assert marked.Keys == entries.Keys;
    KeepIs(parse, marked, MarkEntries(l.raw, ids), l.specs, 2);
  }

  lemma MarkedParse(parse: Parser, entries: map<SchemaId, Entry>, ids: set<SchemaId>)
    ensures forall id :: id in entries ==> ParseEntry(parse, id, MarkEntries(entries, ids)[id]) == ParseEntry(parse, id, entries[id])
  {}

  lemma KeepIs(parse: Parser, entries: map<SchemaId, Entry>, raw: map<SchemaId, Entry>, specs: map<SchemaId, Spec>, level: nat)
    requires forall id :: id in raw <==> id in entries && ParseEntry(parse, id, entries[id]).Some?
    requires forall id :: id in raw ==> raw[id] == entries[id]
    requires specs.Keys == raw.Keys && forall id :: id in specs ==> ParseEntry(parse, id, entries[id]) == Some(specs[id])
    ensures Keep(parse, entries, level) == Loaded(level, raw, specs)
  {
    hide ParseEntry;
    assert Keep(parse, entries, level).raw == raw;
    assert Keep(parse, entries, level).specs == specs;
  }

  // ---------------------------------------------------------------- the storage object

  class SQLLite {
    const level: nat
    var rawSpecs: map<SchemaId, Entry>
    var openAPISpec: map<SchemaId, Spec>
    var isReady: bool

    constructor (level: nat)
      ensures this.level == level && rawSpecs == map[] && openAPISpec == map[] && isReady
    {
      this.level := level;
      rawSpecs, openAPISpec, isReady := map[], map[], true;
    }

    function Value(): Loaded
      reads this
    {
      Loaded(level, rawSpecs, openAPISpec)
    }

    /** `Load`: None for a file that is missing or cannot be read. True means that every document
        was parsed. */
    method Load(rows: Option<seq<Row>>, parse: Parser) returns (ok: bool)
      modifies this`rawSpecs, this`openAPISpec, this`isReady
      ensures rows.None? ==> !ok && rawSpecs == old(rawSpecs) && openAPISpec == old(openAPISpec) && !isReady
      ensures rows.Some? ==> isReady && Value() == Keep(parse, Entries(rows.value, level), level)
      ensures rows.Some? ==> (ok <==> AllParse(parse, Entries(rows.value, level)))
      ensures rows.Some? ==> LoadedFrom(rows.value, parse, Value()) && (ok <==> EveryParses(rows.value, parse))
    {
      hide LoadedFrom, EveryParses;
      isReady := false;
      if rows.None? {
        return false;
      }
      var entries: map<SchemaId, Entry> := map[];
      for i := 0 to |rows.value|
        invariant entries == Entries(rows.value[..i], level)
      {
        assert rows.value[..i + 1][..i] == rows.value[..i];
        entries := entries[rows.value[i].id := EntryOf(rows.value[i], level)];
      }
      assert rows.value[..|rows.value|] == rows.value;
      rawSpecs := entries;
      KeepLoaded(rows.value, parse, level);
      ok := ParseAll(parse);
      isReady := true;
    }

    /** The second half of `Load`: parses every entry and drops those that cannot be parsed. */
    method ParseAll(parse: Parser) returns (ok: bool)
      modifies this`rawSpecs, this`openAPISpec
      ensures Value() == Keep(parse, old(rawSpecs), level) && (ok <==> AllParse(parse, old(rawSpecs)))
    {
      hide ParseEntry, Keep;
      ghost var all := rawSpecs;
      var specs: map<SchemaId, Spec> := map[];
      var todo := rawSpecs.Keys;
      ok := true;
      while todo != {}
        invariant todo <= rawSpecs.Keys && rawSpecs.Keys <= all.Keys
        invariant forall id :: id in rawSpecs ==> rawSpecs[id] == all[id]
        invariant forall id :: id in all && id !in todo ==> (id in rawSpecs <==> ParseEntry(parse, id, all[id]).Some?)
        invariant forall id :: id in specs <==> id in rawSpecs && id !in todo
        invariant forall id :: id in specs ==> ParseEntry(parse, id, all[id]) == Some(specs[id])
        invariant ok <==> forall id :: id in all && id !in todo ==> ParseEntry(parse, id, all[id]).Some?
        decreases |todo|
      {
        var id :| id in todo;
        todo := todo - {id};
        var parsed := ParseEntry(parse, id, rawSpecs[id]);
        if parsed.None? {
          ok := false;
          rawSpecs := rawSpecs - {id};
        } else {
          specs := specs[id := parsed.value];
        }
      }
      openAPISpec := specs;
      KeepIs(parse, all, rawSpecs, specs, level);
    }

    /** `AfterLoad`: marks the rows with status `new`, in the table and then in the storage. `works`
        says whether the statement is carried out. */
    method AfterLoad(rows: seq<Row>, works: bool) returns (rows': seq<Row>, ok: bool)
      modifies this`rawSpecs
      ensures level != 2 || NewIds(old(rawSpecs)) == {} ==> ok && rows' == rows && rawSpecs == old(rawSpecs)
      ensures level == 2 && NewIds(old(rawSpecs)) != {} ==>
                && ok == works
                && rows' == (if works then MarkRows(rows, NewIds(old(rawSpecs))) else rows)
                && rawSpecs == if works then MarkEntries(old(rawSpecs), NewIds(old(rawSpecs))) else old(rawSpecs)
      ensures |rows'| == |rows| && rawSpecs.Keys == old(rawSpecs).Keys
      ensures forall i :: 0 <= i < |rows| ==>
                rows'[i] == rows[i].(status := if level == 2 && works && rows[i].id in old(rawSpecs) && old(rawSpecs)[rows[i].id].status == "new"
                                               then "applied" else rows[i].status)
      ensures forall id :: id in rawSpecs ==>
                rawSpecs[id] == old(rawSpecs)[id].(status := if level == 2 && works && old(rawSpecs)[id].status == "new"
                                                             then "applied" else old(rawSpecs)[id].status)
    {
      if level != 2 {
        return rows, true;
      }
      var updated: set<SchemaId> := {};
      var todo := rawSpecs.Keys;
      while todo != {}
        invariant todo <= rawSpecs.Keys && rawSpecs == old(rawSpecs)
        invariant updated == set id | id in rawSpecs && id !in todo && rawSpecs[id].status == "new"
      {
        var id :| id in todo;
        todo := todo - {id};
        if rawSpecs[id].status == "new" {
          updated := updated + {id};
        }
      }
      assert updated == NewIds(rawSpecs);
      assert forall id :: id in rawSpecs && rawSpecs[id].status == "new" ==> id in updated;
      if updated == {} {
        return rows, true;
      }
      if !works {
        return rows, false;
      }
      rows' := MarkRows(rows, updated);
      ghost var ids := updated;
      while updated != {}
        invariant updated <= ids <= rawSpecs.Keys == old(rawSpecs).Keys
        invariant forall id :: id in rawSpecs ==>
                    rawSpecs[id] == if id in ids && id !in updated then old(rawSpecs)[id].(status := "applied") else old(rawSpecs)[id]
      {
        var id :| id in updated;
        updated := updated - {id};
        rawSpecs := rawSpecs[id := rawSpecs[id].(status := "applied")];
      }
      ok := true;
    }

    /** `SchemaIDs`: the ids in ascending order. */
    method SchemaIDs() returns (ids: seq<SchemaId>)
      ensures forall i, j :: 0 <= i < j < |ids| ==> ids[i] < ids[j]
      ensures forall id :: id in ids <==> id in rawSpecs
      ensures |ids| == |rawSpecs|
    {
      ids := [];
      var todo := rawSpecs.Keys;
      while todo != {}
        invariant todo <= rawSpecs.Keys && |ids| + |todo| == |rawSpecs.Keys|
        invariant forall i, j :: 0 <= i < j < |ids| ==> ids[i] < ids[j]
        invariant forall id :: id in ids <==> id in rawSpecs && id !in todo
      {
        var id :| id in todo;
        todo := todo - {id};
        ids := InsertSorted(ids, id);
      }
    }

    /** `getSchemaVersions`. */
    method SchemaVersions() returns (versions: map<SchemaId, string>)
      ensures versions == Versions(rawSpecs)
    {
      versions := map[];
      var ids := SchemaIDs();
      for i := 0 to |ids|
        invariant forall id :: id in versions <==> id in ids[..i]
        invariant forall id :: id in versions ==> id in rawSpecs && versions[id] == rawSpecs[id].version
      {
        assert ids[..i + 1] == ids[..i] + [ids[i]];
        versions := versions[ids[i] := rawSpecs[ids[i]].version];
      }
      assert ids[..|ids|] == ids;
    }

    /** `ShouldUpdate`: compares with a newly read storage, each level in its own way. */
    method ShouldUpdate(newer: SQLLite) returns (r: bool)
      ensures level == 1 ==> (r <==> !SameVersions(rawSpecs, newer.rawSpecs))
      ensures level != 1 && newer.level == 2 ==> (r <==> !SameVersions(rawSpecs, newer.rawSpecs) || AnyNew(newer.Value()))
      ensures level != 1 && newer.level != 2 ==> (r <==> rawSpecs.Keys != newer.rawSpecs.Keys)
    {
      if level == 1 {
        var before := SchemaVersions();
        var after := newer.SchemaVersions();
        VersionsAgree(rawSpecs, newer.rawSpecs);
        return before != after;
      }
      var newIds := newer.SchemaIDs();
      var currentIds := SchemaIDs();
      if |currentIds| != |newIds| {
        assert |rawSpecs.Keys| != |newer.rawSpecs.Keys|;
        return true;
      }
      for i := 0 to |newIds|
        invariant forall k :: 0 <= k < i ==> newIds[k] in rawSpecs
      {
        if newIds[i] !in currentIds {
          assert newIds[i] in newer.rawSpecs && newIds[i] !in rawSpecs;
          return true;
        }
      }
      assert newer.rawSpecs.Keys <= rawSpecs.Keys by {
        forall id | id in newer.rawSpecs ensures id in rawSpecs {
          assert id in newIds;
        }
      }
      SameSize(newer.rawSpecs.Keys, rawSpecs.Keys);
      if newer.level == 2 {
        r := AnyChanged(newer, newIds);
      } else {
        r := false;
      }
    }

    /** The last part of `ShouldUpdate`: a status or a version that has changed. */
    method AnyChanged(newer: SQLLite, ids: seq<SchemaId>) returns (r: bool)
      requires rawSpecs.Keys == newer.rawSpecs.Keys && newer.level == 2 && forall id :: id in ids <==> id in newer.rawSpecs
      ensures r <==> !SameVersions(rawSpecs, newer.rawSpecs) || AnyNew(newer.Value())
    {
      for i := 0 to |ids|
        invariant forall k :: 0 <= k < i ==> !Changed(rawSpecs, newer.rawSpecs, ids[k])
      {
        var id := ids[i];
        if newer.rawSpecs[id].status == "new" || newer.rawSpecs[id].version != rawSpecs[id].version {
          return true;
        }
      }
      assert forall id :: id in newer.rawSpecs ==> !Changed(rawSpecs, newer.rawSpecs, id);
      return false;
    }
  }

  predicate Changed(current: map<SchemaId, Entry>, newer: map<SchemaId, Entry>, id: SchemaId) {
    id in current && id in newer && (newer[id].status == "new" || newer[id].version != current[id].version)
  }

  function Versions(raw: map<SchemaId, Entry>): map<SchemaId, string> {
    map id | id in raw :: raw[id].version
  }

  lemma VersionsAgree(a: map<SchemaId, Entry>, b: map<SchemaId, Entry>)
    ensures Versions(a) == Versions(b) <==> SameVersions(a, b)
  {
    if Versions(a) == Versions(b) {
      assert a.Keys == Versions(a).Keys == Versions(b).Keys == b.Keys;
      assert forall id :: id in b ==> a[id].version == Versions(a)[id] == Versions(b)[id];
    }
  }

  /** Equal length and containment one way give the same set. */
  lemma SameSize<T>(a: set<T>, b: set<T>)
    requires a <= b && |a| == |b|
    ensures a == b
  {
    if x :| x in b && x !in a {
      assert a <= b - {x};
      SubsetSmaller(a, b - {x});
    }
  }

  lemma {:induction false} SubsetSmaller<T>(a: set<T>, b: set<T>)
    requires a <= b
    ensures |a| <= |b|
    decreases |a|
  {
    if a != {} {
      var x :| x in a;
      SubsetSmaller(a - {x}, b - {x});
    }
  }

  method InsertSorted(ids: seq<SchemaId>, id: SchemaId) returns (r: seq<SchemaId>)
    requires id !in ids && forall i, j :: 0 <= i < j < |ids| ==> ids[i] < ids[j]
    ensures forall i, j :: 0 <= i < j < |r| ==> r[i] < r[j]
    ensures |r| == |ids| + 1 && forall x :: x in r <==> x == id || x in ids
  {
    var k := 0;
    while k < |ids| && ids[k] < id
      invariant 0 <= k <= |ids| && forall i :: 0 <= i < k ==> ids[i] < id
    {
      k := k + 1;
    }
    r := ids[..k] + [id] + ids[k..];
    assert ids == ids[..k] + ids[k..];
    assert r[k] == id;
  }
}
