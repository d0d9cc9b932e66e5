/** The importer object: `XmlImport` with its connection, its two prepared
    statements and its lookup cache, and `load` as a loop over the nodes
    the reader visits. Each method is tied to the functional reference in
    Pipeline. */
module Importer {
  import opened Values
  import opened Schema
  import opened Sql
  import opened Params
  import opened Store
  import opened Pipeline

  class XmlImport {
    /** The subclass: its table, `$attr`, `$defaultParams` and `$lookup`. */
    const mapping: Mapping
    /** The destination database's verdict on each statement. */
    const accept: Oracle
    /** What `$this->pdo` sees of the database. */
    var db: Db
    /** `$this->lookupMap`. */
    var lookupMap: map<string, nat>
    /** The SQL of `$this->stmt` and `$this->lookupStmt`, once prepared. */
    var stmt: Option<string>
    var lookupStmt: Option<string>
    /** The connection the statements were prepared on. */
    var preparedOn: nat

    /** The subclasses' constant data is well formed. */
    ghost predicate Valid() {
      WellFormed(mapping)
    }

    /** `new Users(...)` and its siblings: `initAttr` fills in the
        subclass's data; nothing is prepared or looked up yet. */
    constructor (e: EntityType, accept: Oracle, db: Db)
      ensures Valid()
      ensures mapping == MappingOf(e) && this.accept == accept && this.db == db
      ensures lookupMap == map[] && stmt == None && lookupStmt == None
    {
      mapping := MappingOf(e);
      this.accept := accept;
      this.db := db;
      lookupMap := map[];
      stmt := None;
      lookupStmt := None;
      preparedOn := 0;
      new;
      AllWellFormed(e);
    }

    /** `prepareInsert`: the insert into the class's table, on the current
        connection. */
    method PrepareInsert()
      modifies this
      ensures stmt == Some(InsertSql(mapping.className, Columns(mapping)))
      ensures preparedOn == db.connections
      ensures db == old(db) && lookupMap == old(lookupMap) && lookupStmt == old(lookupStmt)
    {
      stmt := Some(InsertSql(mapping.className, Columns(mapping)));
      preparedOn := db.connections;
    }

    /** `prepareLookupInsert`: the insert into the side table, on the
        current connection; called only for a class with a lookup. */
    method PrepareLookupInsert()
      requires mapping.lookup.Some?
      modifies this
      ensures lookupStmt == Some(LookupInsertSql(mapping.lookup.value.name))
      ensures preparedOn == db.connections
      ensures db == old(db) && lookupMap == old(lookupMap) && stmt == old(stmt)
    {
      lookupStmt := Some(LookupInsertSql(mapping.lookup.value.name));
      preparedOn := db.connections;
    }

    /** `lookup($xml)`, run through the prepared side-table statement. */
    method Lookup(n: Node) returns (v: Value)
      requires mapping.lookup.Some? && lookupStmt.Some?
      modifies this
      ensures Resolution(db, lookupMap, v)
           == Resolve(mapping.lookup.value, accept, old(db), old(lookupMap), n, preparedOn == old(db).connections)
      ensures stmt == old(stmt) && lookupStmt == old(lookupStmt) && preparedOn == old(preparedOn)
    {
      var spec := mapping.lookup.value;
      var value := AsString(GetAttribute(n, spec.attribute));
      if value !in lookupMap {
        var (db1, ok) := ExecuteSide(db, accept, LookupTable(spec.name), value, preparedOn == db.connections);
        db := db1;
        if !ok {
          v := False;
          return;
        }
        lookupMap := lookupMap[value := LastInsertId(db, SequenceName(spec.name))];
      }
      v := Key(lookupMap[value]);
    }

    /** One record of `load`: the lookup, the parameter array and the
        insert through the prepared statement. */
    method Record(n: Node) returns (params: Row, ok: bool)
      requires Valid() && db.open && stmt.Some?
      requires mapping.lookup.Some? ==> lookupStmt.Some?
      modifies this
      ensures var cur := preparedOn == old(db).connections;
        var res := ResolveIn(mapping, accept, old(db), old(lookupMap), n, cur);
        && lookupMap == res.cache
        && params == Params.Params(mapping, n, res.value)
        && (db, ok) == Execute(res.db, accept, mapping.className, params, cur)
      ensures db.open && db.connections == old(db).connections
      ensures stmt == old(stmt) && lookupStmt == old(lookupStmt) && preparedOn == old(preparedOn)
    {
      var current := preparedOn == db.connections;
      ghost var db0, cache0 := db, lookupMap;
      var resolved := Null;
      if mapping.lookup.Some? {
        resolved := Lookup(n);
      }
      assert Resolution(db, lookupMap, resolved) == ResolveIn(mapping, accept, db0, cache0, n, current);
      ResolveInCounters(mapping, accept, db0, cache0, n, current);
      params := BuildParams(mapping, n, resolved);
      var (db1, accepted) := Execute(db, accept, mapping.className, params, current);
      db, ok := db1, accepted;
    }

    /** `$i++` and, at the thresholds, the commit, `$j++`, the reconnect
        (without preparing the statements again) and the new transaction. */
    method Advance(i: nat, j: nat) returns (i': nat, j': nat)
      requires db.open
      modifies this
      ensures (db, i', j', preparedOn) == Tick(old(db), i, j, preparedOn, false)
      ensures lookupMap == old(lookupMap) && stmt == old(stmt) && lookupStmt == old(lookupStmt)
      ensures preparedOn == old(preparedOn)
    {
      i', j' := i + 1, j;
      if i' % CommitEvery == 0 {
        db := Commit(db);
        j' := j' + 1;
        if j' % RenewEvery == 0 {
          db := Connect(db);
        }
        db := Begin(db);
      }
    }

    /** One pass of the read loop (lines 107-146): a node that is not a
        `row` element is skipped; a record is looked up, built, inserted
        and counted. `accepted` follows the rows the store took. */
    method Visit(n: Node, i: nat, j: nat, ghost accepted: seq<Row>) returns (i': nat, j': nat, ghost accepted': seq<Row>)
      requires Valid() && db.open && stmt.Some?
      requires mapping.lookup.Some? ==> lookupStmt.Some?
      modifies this
      ensures LoadState(db, lookupMap, i', j', preparedOn, accepted')
           == Step(mapping, accept, false, LoadState(old(db), old(lookupMap), i, j, old(preparedOn), accepted), n)
      ensures stmt == old(stmt) && lookupStmt == old(lookupStmt) && preparedOn == old(preparedOn)
    {
      ghost var before := LoadState(db, lookupMap, i, j, preparedOn, accepted);
      i', j', accepted' := i, j, accepted;
      if n.kind != Element || n.localName != "row" {
        return;
      }
      StepRecord(mapping, accept, false, before, n);
      var params, ok := Record(n);
      i', j' := Advance(i, j);
      if ok {
        accepted' := accepted + [params];
      }
    }

    /** `load($file)` over the nodes the reader visits: a new connection
        and transaction, both statements prepared, then each node visited,
        and a final commit. The statements are not prepared again after a
        reconnect. */
    method Load(nodes: seq<Node>)
      requires Valid()
      modifies this
      ensures var r := Pipeline.Load(mapping, accept, false, old(db), old(lookupMap), nodes);
        db == r.db && lookupMap == r.cache && preparedOn == r.preparedOn
      ensures stmt == Some(InsertSql(mapping.className, Columns(mapping)))
      ensures lookupStmt == if mapping.lookup.Some? then Some(LookupInsertSql(mapping.lookup.value.name)) else old(lookupStmt)
      ensures preparedOn == old(db).connections + 1
    {
      ghost var st0 := Start(db, lookupMap);
      db := Begin(Connect(db));
      PrepareInsert();
      if mapping.lookup.Some? {
        PrepareLookupInsert();
      }
      var i, j, k := 0, 0, 0;
      ghost var accepted: seq<Row> := [];
      while k < |nodes|
        invariant 0 <= k <= |nodes|
        invariant db.open
        invariant LoadState(db, lookupMap, i, j, preparedOn, accepted) == RunAll(mapping, accept, false, st0, nodes[..k])
        invariant stmt == Some(InsertSql(mapping.className, Columns(mapping)))
        invariant lookupStmt == if mapping.lookup.Some? then Some(LookupInsertSql(mapping.lookup.value.name)) else old(lookupStmt)
        invariant preparedOn == old(db).connections + 1
      {
        assert nodes[..k + 1][..k] == nodes[..k] && nodes[..k + 1][k] == nodes[k];
        i, j, accepted := Visit(nodes[k], i, j, accepted);
        k := k + 1;
      }
      assert nodes[..k] == nodes;
      db := Commit(db);
    }
  }
}
