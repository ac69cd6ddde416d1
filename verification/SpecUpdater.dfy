/** The periodic reload of specifications in API mode
    (cmd/api-firewall/internal/handlers/api/updater.go). */
module SpecUpdater {
  import opened Text
  import opened SpecStorage

  /** The database as a reload finds it: the rows each layout reads, None where that fails, and
      whether the statement that marks rows is carried out. */
  datatype Database = Database(v1: Option<seq<Row>>, v2: Option<seq<Row>>, marks: bool)

  // ---------------------------------------------------------------- one reload, on values

  /** A storage read without an error: the rows are there and every document is parsed. */
  function Read(rows: Option<seq<Row>>, parse: Parser, level: nat): Option<Loaded> {
    if rows.Some? && AllParse(parse, Entries(rows.value, level)) then Some(Keep(parse, Entries(rows.value, level), level)) else None
  }

  /** Which layout is read depends on the configured version; by default the newer one is tried
      first. */
  function ReadDb(db: Database, version: nat, parse: Parser): Option<Loaded> {
    if version == 1 then Read(db.v1, parse, 1)
    else if version == 2 then Read(db.v2, parse, 2)
    else if Read(db.v2, parse, 2).Some? then Read(db.v2, parse, 2) else Read(db.v1, parse, 1)
  }

  /** Does the newly read storage differ from the one in use? */
  predicate Differs(current: Loaded, newer: Loaded) {
    if current.level == 1 then !SameVersions(current.raw, newer.raw)
    else if newer.level == 2 then !SameVersions(current.raw, newer.raw) || AnyNew(newer)
    else current.raw.Keys != newer.raw.Keys
  }

  /** Does a tick replace the storage in use? */
  predicate Swaps(current: Loaded, db: Database, version: nat, parse: Parser) {
    var newer := ReadDb(db, version, parse);
    newer.Some? && current.level <= newer.value.level && Differs(current, newer.value)
  }

  predicate Marks(l: Loaded, db: Database) {
    l.level == 2 && NewIds(l.raw) != {} && db.marks && db.v2.Some?
  }

  /** The storage and the database after a tick. */
  function Tick(current: Loaded, db: Database, version: nat, parse: Parser): (Loaded, Database) {
    if !Swaps(current, db, version, parse) then (current, db)
    else
      var newer := ReadDb(db, version, parse).value;
      if Marks(newer, db) then
        (newer.(raw := MarkEntries(newer.raw, NewIds(newer.raw))), db.(v2 := Some(MarkRows(db.v2.value, NewIds(newer.raw)))))
      else (newer, db)
  }

  function Ticks(current: Loaded, db: Database, version: nat, parse: Parser, n: nat): (Loaded, Database) {
    if n == 0 then (current, db)
    else
      var (c, d) := Ticks(current, db, version, parse, n - 1);
      Tick(c, d, version, parse)
  }

  // ---------------------------------------------------------------- when there is something to do

  /** The rows of this layout are there and can all be parsed. */
  ghost predicate Complete(rows: Option<seq<Row>>, parse: Parser) {
    rows.Some? && EveryParses(rows.value, parse)
  }

  lemma ReadIs(rows: Option<seq<Row>>, parse: Parser, level: nat)
    ensures Read(rows, parse, level).Some? <==> Complete(rows, parse)
    ensures Read(rows, parse, level).Some? ==>
              Read(rows, parse, level).value.level == level && LoadedFrom(rows.value, parse, Read(rows, parse, level).value)
  {
    hide Entries, AllParse, EveryParses, LoadedFrom;
    if rows.Some? {
      KeepLoaded(rows.value, parse, level);
    }
  }

  /** Which layout is read: the configured one, and by default the one with a status wherever it can be
      read, else the other. */
  lemma LayoutRead(db: Database, version: nat, parse: Parser)
    ensures var l := ReadDb(db, version, parse);
            if version != 1 && Complete(db.v2, parse) then l.Some? && l.value.level == 2 && LoadedFrom(db.v2.value, parse, l.value)
            else if version != 2 && Complete(db.v1, parse) then l.Some? && l.value.level == 1 && LoadedFrom(db.v1.value, parse, l.value)
            else l.None?
  {
    hide Read, Complete, LoadedFrom;
    ReadIs(db.v1, parse, 1);
    ReadIs(db.v2, parse, 2);
  }

  /** The ids with their versions are the same. */
  ghost predicate SameIds(a: Loaded, b: Loaded) {
    && (forall id: SchemaId :: id in a.raw <==> id in b.raw)
    && (forall id :: id in a.raw && id in b.raw ==> a.raw[id].version == b.raw[id].version)
  }

  /** When a tick replaces the storage: a storage was read that is not of an older layout and has other
      ids or versions than the one in use or, where that one has a status, a new row. */
  lemma SwapsIff(current: Loaded, db: Database, version: nat, parse: Parser)
    requires current.level == 1 || current.level == 2
    ensures Swaps(current, db, version, parse) <==>
            var l := ReadDb(db, version, parse);
            && l.Some? && l.value.level >= current.level
            && (!SameIds(current, l.value) ||
                (current.level == 2 && exists id :: id in l.value.raw && l.value.raw[id].status == "new"))
  {
    hide ReadDb;
    var l := ReadDb(db, version, parse);
    if l.Some? {
      ReadLevel(db, version, parse);
      SameIdsIff(current, l.value);
    }
  }

  lemma SameIdsIff(a: Loaded, b: Loaded)
    ensures SameIds(a, b) <==> SameVersions(a.raw, b.raw)
  {
    if SameIds(a, b) {
      assert a.raw.Keys == b.raw.Keys;
    }
  }

  /** What a tick that replaces the storage leaves behind: the documents that were read, with the new rows
      marked as applied in the storage and in the table, if the statement works. */
  lemma TickIs(current: Loaded, db: Database, version: nat, parse: Parser)
    requires Swaps(current, db, version, parse)
    ensures var l, (c, d) := ReadDb(db, version, parse).value, Tick(current, db, version, parse);
            && c.level == l.level && c.specs == l.specs && c.raw.Keys == l.raw.Keys
            && (forall id :: id in l.raw ==>
                  c.raw[id] == l.raw[id].(status := if l.level == 2 && db.marks && l.raw[id].status == "new" then "applied" else l.raw[id].status))
            && d.v1 == db.v1 && d.marks == db.marks && (l.level != 2 ==> d.v2 == db.v2)
    ensures var l, d := ReadDb(db, version, parse).value, Tick(current, db, version, parse).1;
            l.level == 2 ==>
              && db.v2.Some? && d.v2.Some? && |d.v2.value| == |db.v2.value|
              && forall i :: 0 <= i < |db.v2.value| ==>
                   var row := db.v2.value[i];
                   d.v2.value[i] == row.(status := if db.marks && row.id in l.raw && l.raw[row.id].status == "new" then "applied" else row.status)
  {
    hide ReadDb, SameVersions, AnyNew;
    var l := ReadDb(db, version, parse).value;
    ReadLevel(db, version, parse);
    if l.level == 2 {
      ReadsRows(db.v2, parse);
    }
    assert forall id :: id in l.raw && l.raw[id].status == "new" ==> id in NewIds(l.raw);
  }

  lemma ReadLevel(db: Database, version: nat, parse: Parser)
    requires ReadDb(db, version, parse).Some?
    ensures var l := ReadDb(db, version, parse).value;
            && (l.level == 1 || (l.level == 2 && version != 1 && Read(db.v2, parse, 2) == Some(l)))
            && Whole(parse, l)
  {
    hide Entries;
    KeepWhole(parse, if db.v2.Some? then Entries(db.v2.value, 2) else map[], 2);
    KeepWhole(parse, if db.v1.Some? then Entries(db.v1.value, 1) else map[], 1);
  }

  /** After the rows were marked, the database reads as the marked storage. */
  lemma ReadMarked(rows: seq<Row>, parse: Parser, ids: set<SchemaId>)
    requires Read(Some(rows), parse, 2).Some?
    ensures var l := Read(Some(rows), parse, 2).value;
            Read(Some(MarkRows(rows, ids)), parse, 2) == Some(l.(raw := MarkEntries(l.raw, ids)))
  {
    hide Entries, MarkRows, MarkEntries, Keep, AllParse;
    EntriesMarked(rows, ids);
    KeepMarked(parse, Entries(rows, 2), ids);
  }

  lemma NoneNewAfterMarking(l: Loaded)
    ensures NewIds(MarkEntries(l.raw, NewIds(l.raw))) == {}
  {
    var ids := NewIds(l.raw);
    forall id | id in l.raw ensures MarkEntries(l.raw, ids)[id].status != "new" {}
  }

  lemma AnyNewIff(l: Loaded)
    requires l.level == 2
    ensures AnyNew(l) <==> NewIds(l.raw) != {}
  {
    if AnyNew(l) {
      var id :| id in l.raw && l.raw[id].status == "new";
      assert id in NewIds(l.raw);
    }
  }

  lemma SameAsItself(l: Loaded)
    ensures SameVersions(l.raw, l.raw)
  {}

  /** Quiescence: after a tick that replaced the storage, a tick over the unchanged database does
      nothing exactly when no new row was read or the rows could be marked. */
  lemma QuiescentIff(current: Loaded, db: Database, version: nat, parse: Parser)
    requires Swaps(current, db, version, parse)
    ensures var (c, d) := Tick(current, db, version, parse);
            !Swaps(c, d, version, parse) <==> !AnyNew(ReadDb(db, version, parse).value) || db.marks
  {
    hide Read, MarkRows, MarkEntries, NewIds, SameVersions, AnyNew;
    var l := ReadDb(db, version, parse).value;
    ReadLevel(db, version, parse);
    SameAsItself(l);
    if l.level == 2 {
      AnyNewIff(l);
      if Marks(l, db) {
        MarkedQuiescent(l, db, version, parse);
      } else {
        assert db.v2.Some? by { ReadsRows(db.v2, parse); }
      }
    } else {
      NoStatus(l);
    }
  }

  lemma ReadsRows(rows: Option<seq<Row>>, parse: Parser)
    requires Read(rows, parse, 2).Some?
    ensures rows.Some?
  {}

  lemma NoStatus(l: Loaded)
    requires l.level != 2
    ensures !AnyNew(l)
  {}

  lemma MarkedQuiescent(l: Loaded, db: Database, version: nat, parse: Parser)
    requires ReadDb(db, version, parse) == Some(l) && l.level == 2 && version != 1 && Read(db.v2, parse, 2) == Some(l) && Marks(l, db)
    ensures var ids := NewIds(l.raw);
            !Swaps(l.(raw := MarkEntries(l.raw, ids)), db.(v2 := Some(MarkRows(db.v2.value, ids))), version, parse)
  {
    hide Read, MarkRows, MarkEntries, NewIds, SameVersions, AnyNew;
    var ids := NewIds(l.raw);
    var l' := l.(raw := MarkEntries(l.raw, ids));
    ReadMarked(db.v2.value, parse, ids);
    NoneNewAfterMarking(l);
    AnyNewIff(l');
    SameAsItself(l');
  }

  /** Then no number of further ticks changes anything. */
  lemma {:induction false} StaysQuiet(current: Loaded, db: Database, version: nat, parse: Parser, n: nat)
    requires !Swaps(current, db, version, parse)
    ensures Ticks(current, db, version, parse, n) == (current, db)
    decreases n
  {
    hide Swaps;
    if n > 0 {
      StaysQuiet(current, db, version, parse, n - 1);
    }
  }

  // ---------------------------------------------------------------- runs

  datatype State = State(storage: Loaded, db: Database)

  /** A tick, or any change of the database from outside between two ticks. */
  ghost predicate Next(s: State, s': State, version: nat, parse: Parser) {
    || (s'.storage, s'.db) == Tick(s.storage, s.db, version, parse)
    || s'.storage == s.storage
  }

  ghost predicate Run(states: seq<State>, version: nat, parse: Parser) {
    forall k :: 0 <= k < |states| - 1 ==> Next(states[k], states[k + 1], version, parse)
  }

  lemma TickKeepsLevel(current: Loaded, db: Database, version: nat, parse: Parser)
    ensures Tick(current, db, version, parse).0.level >= current.level
    ensures Whole(parse, current) ==> Whole(parse, Tick(current, db, version, parse).0)
  {
    hide ReadDb, SameVersions, AnyNew, MarkRows, Whole;
    if Swaps(current, db, version, parse) {
      ReadLevel(db, version, parse);
      var l := ReadDb(db, version, parse).value;
      MarkWhole(parse, l, NewIds(l.raw));
    }
  }

  lemma MarkWhole(parse: Parser, l: Loaded, ids: set<SchemaId>)
    requires Whole(parse, l)
    ensures Whole(parse, l.(raw := MarkEntries(l.raw, ids)))
  {
    MarkedParse(parse, l.raw, ids);
  }

  /** Over every run the storage's level never decreases, and its documents match its entries. */
  lemma {:induction false} ReloadSafe(states: seq<State>, version: nat, parse: Parser, i: nat, j: nat)
    requires Run(states, version, parse) && i <= j < |states|
    ensures states[i].storage.level <= states[j].storage.level
    ensures Whole(parse, states[i].storage) ==> Whole(parse, states[j].storage)
    decreases j
  {
    hide Tick, Whole;
    if i < j {
      ReloadSafe(states, version, parse, i, j - 1);
      var s := states[j - 1];
      assert Next(states[j - 1], states[j], version, parse);
      TickKeepsLevel(s.storage, s.db, version, parse);
    }
  }

  // ---------------------------------------------------------------- the updater

  /** Reads a storage of one layout; null where there is an error. */
  method OpenStorage(rows: Option<seq<Row>>, parse: Parser, level: nat) returns (r: SQLLite?)
    ensures r == null <==> Read(rows, parse, level).None?
    ensures r != null ==> fresh(r) && Read(rows, parse, level) == Some(r.Value())
  {
    hide Entries, Keep, AllParse;
    var s := new SQLLite(level);
    var ok := s.Load(rows, parse);
    if !ok {
      return null;
    }
    return s;
  }

  /** `LoadOpenAPIDB`. */
  method LoadOpenAPIDB(db: Database, version: nat, parse: Parser) returns (r: SQLLite?)
    ensures r == null <==> ReadDb(db, version, parse).None?
    ensures r != null ==> fresh(r) && ReadDb(db, version, parse) == Some(r.Value())
  {
    hide Read;
    if version == 1 {
      r := OpenStorage(db.v1, parse, 1);
    } else {
      r := OpenStorage(db.v2, parse, 2);
      if version != 2 && r == null {
        r := OpenStorage(db.v1, parse, 1);
      }
    }
  }

  class Specification {
    const version: nat
    var sqlLiteStorage: SQLLite
    /** The storage the installed request handler was built from, and the one health reports on. */
    var handlerStorage: SQLLite
    var healthStorage: SQLLite

    /** Requests, health reports and the updater always see the same storage. */
    ghost predicate Valid()
      reads this
    {
      handlerStorage == sqlLiteStorage && healthStorage == sqlLiteStorage
    }

    constructor (version: nat, storage: SQLLite)
      ensures Valid() && sqlLiteStorage == storage && this.version == version
    {
      this.version := version;
      sqlLiteStorage, handlerStorage, healthStorage := storage, storage, storage;
    }

    /** One turn of the loop in `Run`. */
    method OnTick(db: Database, parse: Parser) returns (db': Database)
      requires Valid()
      modifies this
      ensures Valid()
      ensures (sqlLiteStorage.Value(), db') == Tick(old(sqlLiteStorage.Value()), db, version, parse)
      ensures if Swaps(old(sqlLiteStorage.Value()), db, version, parse) then fresh(sqlLiteStorage) else sqlLiteStorage == old(sqlLiteStorage)
    {
      hide ReadDb, MarkRows, MarkEntries, NewIds, SameVersions, AnyNew;
      db' := db;
      var newSpecDB := LoadOpenAPIDB(db, version, parse);
      if newSpecDB == null {
        return;
      }
      if sqlLiteStorage.level > newSpecDB.level {
        return;
      }
      var update := sqlLiteStorage.ShouldUpdate(newSpecDB);
      if update {
        ghost var newer := newSpecDB.Value();
        sqlLiteStorage := newSpecDB;
        handlerStorage := sqlLiteStorage;
        healthStorage := sqlLiteStorage;
        ReadLevel(db, version, parse);
        if newer.level == 2 {
          ReadsRows(db.v2, parse);
        }
        var rows, ok := sqlLiteStorage.AfterLoad(if db.v2.Some? then db.v2.value else [], db.marks);
        if db.v2.Some? {
          db' := db.(v2 := Some(rows));
        }
      }
    }
  }
}
