/** API mode: routers and specifications are replaced together, so that in every state between
    operations they are of one generation (pkg/APIMode/apifw.go, pkg/APIMode/helpers.go). A lookup
    against one id is such an operation. A request against several ids is one lookup for each, and
    a reload may come between them: each goroutine reads the routers for itself. */
module ApiFirewall {
  import opened Text
  import opened Patterns
  import opened RouteTree
  import opened Routing
  import opened RouterLookup
  import opened MuxRouter
  import opened SpecStorage
  import opened SpecUpdater

  /** An operation of a specification with its path below the server's base path. */
  datatype Operation = Operation(verb: string, path: string, handler: Handler)

  /** What the router loader and the joining of paths make of a document, from its id, version and
      content; None where one of them reports an error. */
  type Planner = (SchemaId, string, Spec) -> Option<seq<Operation>>

  /** The parts of the process that do not change: method names, upper-casing, regular
      expressions, and the parsing and planning of documents. */
  datatype Setting = Setting(methods: MethodTable, upper: string -> string, rx: Engine, parse: Parser, plan: Planner)

  /** These are the registrations of the operations, all accepted, in order. */
  ghost predicate Registered(methods: map<string, Method>, upper: string -> string, rx: Engine, ops: seq<Operation>, regs: seq<Registration>) {
    && |regs| == |ops|
    && forall i :: 0 <= i < |ops| ==>
         && upper(ops[i].verb) in methods
         && regs[i] == Registration(methods[upper(ops[i].verb)], ops[i].path, ops[i].handler)
         && Accepted(rx, regs[i])
  }

  /** Every operation can be registered: its method is known and its pattern acceptable. */
  ghost predicate Acceptable(methods: map<string, Method>, upper: string -> string, rx: Engine, ops: seq<Operation>) {
    forall i :: 0 <= i < |ops| ==>
      && upper(ops[i].verb) in methods
      && Accepted(rx, Registration(methods[upper(ops[i].verb)], ops[i].path, ops[i].handler))
  }

  lemma RegisteredAcceptable(methods: map<string, Method>, upper: string -> string, rx: Engine, ops: seq<Operation>, regs: seq<Registration>)
    requires Registered(methods, upper, rx, ops, regs)
    ensures Acceptable(methods, upper, rx, ops)
  {
    hide Accepted;
  }

  lemma NotAcceptable(methods: map<string, Method>, upper: string -> string, rx: Engine, ops: seq<Operation>, i: nat)
    requires i < |ops|
    requires upper(ops[i].verb) !in methods || !Accepted(rx, Registration(methods[upper(ops[i].verb)], ops[i].path, ops[i].handler))
    ensures !Acceptable(methods, upper, rx, ops)
  {
    hide Accepted;
  }

  lemma OneMoreRegistered(methods: map<string, Method>, upper: string -> string, rx: Engine, ops: seq<Operation>, i: nat, regs: seq<Registration>)
    requires i < |ops| && Registered(methods, upper, rx, ops[..i], regs) && upper(ops[i].verb) in methods
    requires Accepted(rx, Registration(methods[upper(ops[i].verb)], ops[i].path, ops[i].handler))
    ensures Registered(methods, upper, rx, ops[..i + 1],
                       regs + [Registration(methods[upper(ops[i].verb)], ops[i].path, ops[i].handler)])
  {
    hide Accepted;
    assert ops[..i + 1] == ops[..i] + [ops[i]];
  }

  /** The router holds exactly these operations. */
  ghost predicate Routed(env: Setting, mux: Mux, ops: seq<Operation>)
    reads env.methods, mux, mux.nodes
  {
    mux.Valid() && mux.rx == env.rx && Registered(env.methods.methods, env.upper, env.rx, ops, mux.regs)
  }

  /** The routes of one specification; null where an operation is refused. */
  method BuildRouter(env: Setting, ops: seq<Operation>) returns (r: Mux?)
    ensures r != null <==> Acceptable(env.methods.methods, env.upper, env.rx, ops)
    ensures r != null ==> fresh(r) && fresh(r.nodes) && Routed(env, r, ops)
  {
    hide Accepted, Mux.Valid, Registered, Acceptable;
    var mux := new Mux(env.rx);
    assert Registered(env.methods.methods, env.upper, env.rx, ops[..0], []) by { NoneRegistered(env, ops); }
    for i := 0 to |ops|
      invariant fresh(mux) && fresh(mux.nodes) && mux.Valid() && mux.rx == env.rx
      invariant Registered(env.methods.methods, env.upper, env.rx, ops[..i], mux.regs)
    {
      ghost var regs := mux.regs;
      var err := mux.AddEndpoint(env.methods, env.upper, ops[i].verb, ops[i].path, ops[i].handler);
      if err.Some? {
        NotAcceptable(env.methods.methods, env.upper, env.rx, ops, i);
        return null;
      }
      OneMoreRegistered(env.methods.methods, env.upper, env.rx, ops, i, regs);
    }
    assert ops[..|ops|] == ops;
    RegisteredAcceptable(env.methods.methods, env.upper, env.rx, ops, mux.regs);
    return mux;
  }

  lemma NoneRegistered(env: Setting, ops: seq<Operation>)
    ensures Registered(env.methods.methods, env.upper, env.rx, ops[..0], [])
  {}

  /** The router of this id was built from this entry and its document. */
  ghost predicate RouterOf(env: Setting, mux: Mux, id: SchemaId, e: Entry, spec: Spec)
    reads env.methods, mux, mux.nodes
  {
    var ops := env.plan(id, e.version, spec);
    ops.Some? && Routed(env, mux, ops.value)
  }

  /** A router can be built from this entry and its document. */
  ghost predicate Routable(env: Setting, id: SchemaId, e: Entry, spec: Spec)
    reads env.methods
  {
    var ops := env.plan(id, e.version, spec);
    ops.Some? && Acceptable(env.methods.methods, env.upper, env.rx, ops.value)
  }

  /** A router can be built for every id. */
  ghost predicate AllRoutable(env: Setting, l: Loaded)
    requires l.specs.Keys == l.raw.Keys
    reads env.methods
  {
    forall id :: id in l.raw ==> Routable(env, id, l.raw[id], l.specs[id])
  }

  /** The routers belong to this content of a storage: the same ids, and each was built from the
      document of its id. */
  ghost predicate OneGeneration(env: Setting, routers: map<SchemaId, Mux>, l: Loaded)
    reads env.methods, routers.Values, set id, n | id in routers && n in routers[id].nodes :: n
  {
    && Whole(env.parse, l) && routers.Keys == l.raw.Keys
    && forall id :: id in routers ==> RouterOf(env, routers[id], id, l.raw[id], l.specs[id])
  }

  /** `getRouters`: one router for each id, or an error. */
  method GetRouters(env: Setting, storage: SQLLite) returns (r: Option<map<SchemaId, Mux>>)
    requires Whole(env.parse, storage.Value())
    ensures r.Some? <==> AllRoutable(env, storage.Value())
    ensures r.Some? ==> OneGeneration(env, r.value, storage.Value())
    ensures r.Some? ==> forall id :: id in r.value ==> fresh(r.value[id]) && fresh(r.value[id].nodes)
  {
    hide *;
    ValueIs(env, storage);
    var routers: map<SchemaId, Mux> := map[];
    var ids := storage.SchemaIDs();
    for i := 0 to |ids|
      invariant forall k :: 0 <= k < i ==> ids[k] in routers
      invariant forall id :: id in routers ==> fresh(routers[id]) && fresh(routers[id].nodes)
      invariant forall id :: id in routers ==>
                  id in storage.rawSpecs && RouterOf(env, routers[id], id, storage.rawSpecs[id], storage.openAPISpec[id])
    {
      var id := ids[i];
      var mux := PlanRouter(env, id, storage.rawSpecs[id], storage.openAPISpec[id]);
      if mux == null {
        NotAllRoutable(env, storage.Value(), id);
        return None;
      }
      routers := routers[id := mux];
    }
    forall id | id in storage.rawSpecs ensures id in routers {
      assert id in ids;
    }
    GenerationIs(env, routers, storage.Value());
    return Some(routers);
  }

  lemma ValueIs(env: Setting, storage: SQLLite)
    requires Whole(env.parse, storage.Value())
    ensures storage.Value().raw == storage.rawSpecs && storage.Value().specs == storage.openAPISpec
    ensures storage.openAPISpec.Keys == storage.rawSpecs.Keys
  {
    SpecsThere(env.parse, storage.Value());
  }

  lemma NotAllRoutable(env: Setting, l: Loaded, id: SchemaId)
    requires l.specs.Keys == l.raw.Keys && id in l.raw && !Routable(env, id, l.raw[id], l.specs[id])
    ensures !AllRoutable(env, l)
  {
    hide Routable;
  }

  lemma GenerationIs(env: Setting, routers: map<SchemaId, Mux>, l: Loaded)
    requires Whole(env.parse, l) && routers.Keys == l.raw.Keys && l.specs.Keys == l.raw.Keys
    requires forall id :: id in routers ==> RouterOf(env, routers[id], id, l.raw[id], l.specs[id])
    ensures OneGeneration(env, routers, l) && AllRoutable(env, l)
  {
    hide RouterOf, Routable;
    forall id | id in l.raw ensures Routable(env, id, l.raw[id], l.specs[id]) {
      RouterRoutable(env, routers[id], id, l.raw[id], l.specs[id]);
    }
  }

  lemma RouterRoutable(env: Setting, mux: Mux, id: SchemaId, e: Entry, spec: Spec)
    requires RouterOf(env, mux, id, e, spec)
    ensures Routable(env, id, e, spec)
  {
    hide Registered, Acceptable, Mux.Valid;
    RegisteredAcceptable(env.methods.methods, env.upper, env.rx, env.plan(id, e.version, spec).value, mux.regs);
  }

  /** The router of one specification. */
  method PlanRouter(env: Setting, id: SchemaId, e: Entry, spec: Spec) returns (r: Mux?)
    ensures r != null <==> Routable(env, id, e, spec)
    ensures r != null ==> fresh(r) && fresh(r.nodes) && RouterOf(env, r, id, e, spec)
  {
    hide Routed;
    var ops := env.plan(id, e.version, spec);
    if ops.None? {
      return null;
    }
    r := BuildRouter(env, ops.value);
  }

  lemma SpecsThere(parse: Parser, l: Loaded)
    requires Whole(parse, l)
    ensures l.specs.Keys == l.raw.Keys
  {}

  // ---------------------------------------------------------------- reading with marking

  /** The layout with status: rows are marked right after they were read, also where some document
      could not be parsed; None where either step fails. */
  function ReadMarking(db: Database, parse: Parser): (Option<Loaded>, Database) {
    if db.v2.None? then (None, db)
    else
      var entries := Entries(db.v2.value, 2);
      var l := Keep(parse, entries, 2);
      var ids := NewIds(l.raw);
      if ids == {} then (if AllParse(parse, entries) then Some(l) else None, db)
      else if !db.marks then (None, db)
      else
        (if AllParse(parse, entries) then Some(l.(raw := MarkEntries(l.raw, ids))) else None,
         db.(v2 := Some(MarkRows(db.v2.value, ids))))
  }

  /** What is read for a configured version, and what becomes of the database. */
  function ReadNew(db: Database, version: nat, parse: Parser): (Option<Loaded>, Database) {
    if version == 1 then (Read(db.v1, parse, 1), db)
    else
      var (l, d) := ReadMarking(db, parse);
      if version == 2 || l.Some? then (l, d) else (Read(d.v1, parse, 1), d)
  }

  /** The last row of this id can be parsed and is new. */
  ghost predicate NewRow(rows: seq<Row>, parse: Parser, id: SchemaId) {
    exists i :: LastRow(rows, i, id) && Parses(parse, rows[i]) && rows[i].status == "new"
  }

  lemma NewIdsIff(rows: seq<Row>, parse: Parser, id: SchemaId)
    ensures id in NewIds(Keep(parse, Entries(rows, 2), 2).raw) <==> NewRow(rows, parse, id)
  {
    hide Entries, LastRow, Parses;
    KeepLoaded(rows, parse, 2);
  }

  /** Reading the layout with a status: the new rows that can be parsed are marked, if the statement works,
      whether or not other rows can be parsed. The read succeeds exactly if all can be parsed and none
      was left to mark, and then it gives what the table holds after it. */
  lemma MarkingIs(db: Database, parse: Parser)
    ensures db.v2.None? ==> ReadMarking(db, parse) == (None, db)
    ensures var (l, d) := ReadMarking(db, parse);
            db.v2.Some? ==>
              && d.v1 == db.v1 && d.marks == db.marks && d.v2.Some? && |d.v2.value| == |db.v2.value|
              && (forall i :: 0 <= i < |db.v2.value| ==>
                    var row := db.v2.value[i];
                    d.v2.value[i] == row.(status := if db.marks && NewRow(db.v2.value, parse, row.id) then "applied" else row.status))
              && (l.Some? <==> EveryParses(db.v2.value, parse) && (db.marks || forall id :: !NewRow(db.v2.value, parse, id)))
              && (l.Some? ==> l.value.level == 2 && LoadedFrom(d.v2.value, parse, l.value))
  {
    hide Entries, LoadedFrom, EveryParses, NewRow, MarkEntries, Keep, AllParse;
    if db.v2.Some? {
      var rows := db.v2.value;
      var l := Keep(parse, Entries(rows, 2), 2);
      var ids := NewIds(l.raw);
      forall id ensures id in ids <==> NewRow(rows, parse, id) {
        NewIdsIff(rows, parse, id);
      }
      KeepLoaded(rows, parse, 2);
      EntriesMarked(rows, ids);
      KeepMarked(parse, Entries(rows, 2), ids);
      KeepLoaded(MarkRows(rows, ids), parse, 2);
      LevelKept(parse, Entries(rows, 2));
      assert ids == {} <==> forall id :: !NewRow(rows, parse, id);
    }
  }

  lemma LevelKept(parse: Parser, entries: map<SchemaId, Entry>)
    ensures Keep(parse, entries, 2).level == 2
  {}

  /** Which layout is read: the configured one, and by default the one with a status, whose rows may be
      marked even if it is then given up for the other. */
  lemma NewLayoutRead(db: Database, version: nat, parse: Parser)
    ensures version == 1 ==> ReadNew(db, version, parse) == (Read(db.v1, parse, 1), db)
    ensures version != 1 ==> ReadNew(db, version, parse).1 == ReadMarking(db, parse).1
    ensures version != 1 && ReadMarking(db, parse).0.Some? ==> ReadNew(db, version, parse).0 == ReadMarking(db, parse).0
    ensures var l := ReadNew(db, version, parse).0;
            version != 1 && ReadMarking(db, parse).0.None? ==>
              if version == 2 || !Complete(db.v1, parse) then l.None?
              else l.Some? && l.value.level == 1 && LoadedFrom(db.v1.value, parse, l.value)
  {
    hide Read, ReadMarking, Complete, LoadedFrom, LastRow, NewRow, EveryParses;
    MarkingIs(db, parse);
    ReadIs(db.v1, parse, 1);
  }

  method OpenAndMark(db: Database, parse: Parser) returns (r: SQLLite?, db': Database)
    ensures r == null <==> ReadMarking(db, parse).0.None?
    ensures r != null ==> fresh(r) && Some(r.Value()) == ReadMarking(db, parse).0
    ensures db' == ReadMarking(db, parse).1
  {
    hide Entries, MarkRows, NewIds, MarkEntries, Keep, AllParse;
    db' := db;
    var s := new SQLLite(2);
    var ok := s.Load(db.v2, parse);
    if db.v2.None? {
      return null, db;
    }
    var rows, marked := s.AfterLoad(db.v2.value, db.marks);
    db' := db.(v2 := Some(rows));
    if !ok || !marked {
      return null, db';
    }
    return s, db';
  }

  /** `NewOpenAPIDB`. */
  method NewOpenAPIDB(db: Database, version: nat, parse: Parser) returns (r: SQLLite?, db': Database)
    ensures r == null <==> ReadNew(db, version, parse).0.None?
    ensures r != null ==> fresh(r) && Some(r.Value()) == ReadNew(db, version, parse).0
    ensures db' == ReadNew(db, version, parse).1
  {
    hide Read, ReadMarking;
    r, db' := null, db;
    if version != 1 {
      r, db' := OpenAndMark(db, parse);
    }
    if version == 1 || (version != 2 && r == null) {
      r := OpenStorage(db'.v1, parse, 1);
    }
  }

  /** Whatever is read has a document for each entry, and no row that is still to be marked. */
  lemma NewIsSettled(db: Database, version: nat, parse: Parser)
    requires ReadNew(db, version, parse).0.Some?
    ensures var l := ReadNew(db, version, parse).0.value;
            Whole(parse, l) && (l.level == 1 || l.level == 2) && (l.level == 2 ==> NewIds(l.raw) == {})
  {
    hide Entries, MarkRows, NewIds, MarkEntries, AllParse, Whole;
    if db.v2.Some? {
      var l := Keep(parse, Entries(db.v2.value, 2), 2);
      KeepWhole(parse, Entries(db.v2.value, 2), 2);
      MarkWhole(parse, l, NewIds(l.raw));
      NoneNewAfterMarking(l);
    }
    if db.v1.Some? {
      KeepWhole(parse, Entries(db.v1.value, 1), 1);
    }
  }

  // ---------------------------------------------------------------- the firewall

  class APIFWModeAPI {
    const env: Setting
    const version: nat
    var routers: map<SchemaId, Mux>
    var specsStorage: SQLLite

    /** Requests are routed by the documents of the storage in use: the router ids are exactly its
        ids, each has its parsed document, and each router was built from that document. */
    ghost predicate Valid()
      reads this, specsStorage, env.methods, routers.Values, set id, n | id in routers && n in routers[id].nodes :: n
    {
      OneGeneration(env, routers, specsStorage.Value())
    }

    constructor (env: Setting, version: nat, routers: map<SchemaId, Mux>, storage: SQLLite)
      requires OneGeneration(env, routers, storage.Value())
      ensures Valid() && this.env == env && this.version == version
      ensures this.routers == routers && specsStorage == storage
    {
      this.env, this.version := env, version;
      this.routers, this.specsStorage := routers, storage;
    }

    /** What a reload comes to: both routers and storage are replaced, or neither. They are replaced
        exactly when a storage is read that is not of an older layout, differs from the one in use,
        and gives a router for every id. */
    twostate predicate Reloaded(db: Database, updated: bool, err: bool)
      reads this, specsStorage, env.methods
    {
      var l := ReadNew(db, version, env.parse).0;
      && (!updated ==> routers == old(routers) && specsStorage == old(specsStorage))
      && if l.None? || l.value.level < old(specsStorage).level then !updated && err
         else if !Differs(old(specsStorage.Value()), l.value) then !updated && !err
         else l.value.specs.Keys == l.value.raw.Keys &&
              if !AllRoutable(env, l.value) then !updated && err
              else updated && !err && specsStorage.Value() == l.value
    }

    /** `UpdateSpecsStorage`, which also returns the ids in use afterwards. */
    method UpdateSpecsStorage(db: Database) returns (ids: seq<SchemaId>, updated: bool, err: bool, db': Database)
      requires Valid()
      modifies this
      ensures Valid() && db' == ReadNew(db, version, env.parse).1
      ensures Reloaded(db, updated, err)
      ensures forall id :: id in ids <==> id in specsStorage.rawSpecs
    {
      hide OneGeneration, ReadNew, AllRoutable, Reloaded;
      updated, err, db' := Reload(db);
      ids := specsStorage.SchemaIDs();
    }

    method Reload(db: Database) returns (updated: bool, err: bool, db': Database)
      requires Valid()
      modifies this
      ensures Valid() && db' == ReadNew(db, version, env.parse).1
      ensures Reloaded(db, updated, err)
    {
      hide OneGeneration, Whole, SameVersions, AnyNew, ReadNew, NewIds, AllRoutable;
      updated, err := false, true;
      var newSpecDB;
      newSpecDB, db' := NewOpenAPIDB(db, version, env.parse);
      if newSpecDB == null {
        return;
      }
      if specsStorage.level > newSpecDB.level {
        return;
      }
      NewIsSettled(db, version, env.parse);
      SpecsThere(env.parse, newSpecDB.Value());
      var update := specsStorage.ShouldUpdate(newSpecDB);
      if !update {
        err := false;
        return;
      }
      var built := GetRouters(env, newSpecDB);
      if built.None? {
        return;
      }
      routers := built.value;
      specsStorage := newSpecDB;
      updated := true;
      var rows, marked := specsStorage.AfterLoad(if db'.v2.Some? then db'.v2.value else [], db'.marks);
      if db'.v2.Some? {
        db' := db'.(v2 := Some(rows));
      }
      err := !marked;
    }

    /** `find`: the handler for a request against one specification; None for an unknown id. The
        answer is the lookup among the operations of that id's document. */
    method FindHandler(rctx: RouteContext, id: SchemaId, verb: string, path: string) returns (r: Option<Handler>)
      requires Valid()
      modifies rctx
      ensures r.None? <==> id !in specsStorage.rawSpecs
      ensures r.None? ==> unchanged(rctx)
      ensures r.Some? && verb !in env.methods.methods ==> r.value == NoHandler
      ensures r.Some? && verb in env.methods.methods ==>
                exists ops, regs ::
                  && env.plan(id, specsStorage.rawSpecs[id].version, specsStorage.openAPISpec[id]) == Some(ops)
                  && Registered(env.methods.methods, env.upper, env.rx, ops, regs)
                  && Answered(rctx, Find(env.rx, Build(env.rx, regs), env.methods.methods[verb], path), r.value,
                              old(rctx.urlKeys), old(rctx.urlValues), old(rctx.routePatterns))
    {
      hide Registered, Answered, Mux.Valid, Whole, Build, Find;
      if id !in routers {
        return None;
      }
      SpecsThere(env.parse, specsStorage.Value());
      var mux := routers[id];
      assert RouterOf(env, mux, id, specsStorage.rawSpecs[id], specsStorage.openAPISpec[id]);
      ghost var ops, regs := env.plan(id, specsStorage.rawSpecs[id].version, specsStorage.openAPISpec[id]).value, mux.regs;
      var h := mux.Find(env.methods, rctx, verb, path);
      assert Registered(env.methods.methods, env.upper, env.rx, ops, regs);
      return Some(h);
    }
  }

  /** A storage is read and a router can be built for each of its ids. */
  ghost predicate Startable(env: Setting, l: Option<Loaded>)
    reads env.methods
  {
    l.Some? && l.value.specs.Keys == l.value.raw.Keys && AllRoutable(env, l.value)
  }

  /** `NewAPIFirewall`: null where it reports an error. */
  method Start(env: Setting, version: nat, db: Database) returns (a: APIFWModeAPI?, db': Database)
    ensures a != null <==> Startable(env, ReadNew(db, version, env.parse).0)
    ensures a != null ==> fresh(a) && a.Valid() && a.env == env && a.version == version
    ensures a != null ==> Some(a.specsStorage.Value()) == ReadNew(db, version, env.parse).0
    ensures db' == ReadNew(db, version, env.parse).1
  {
    hide OneGeneration, Whole, ReadNew, AllRoutable;
    a := null;
    var storage;
    storage, db' := NewOpenAPIDB(db, version, env.parse);
    if storage == null {
      return;
    }
    NewIsSettled(db, version, env.parse);
    SpecsThere(env.parse, storage.Value());
    var routers := GetRouters(env, storage);
    if routers.Some? {
      a := new APIFWModeAPI(env, version, routers.value, storage);
    }
  }
}
