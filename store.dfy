/** The destination database behind PDO, as an abstract value: the rows
    of the main table that are committed and those pending in the open
    transaction, the side table of lookup descriptions, and counters of
    executed statements, commits and connections. Whether the store
    accepts a statement is decided by an oracle. */
module Store {
  import opened Values

  /** A statement the importer executes. */
  datatype Insert =
    | MainInsert(table: string, row: Row)
    | SideInsert(table: string, description: string)

  /** Whether the store accepts the statement executed at a given position
      of the run (a constraint violation, a bad value, ... rejects it). */
  type Oracle = (nat, Insert) -> bool

  /** `side[k]` is the description of the side-table row with id k + 1
      (ids come from an auto-increment). `connections` numbers the current
      connection; `pending` and `open` are its transaction and `lastId` the
      id of the last side-table row inserted through it (0 before any). A
      statement prepared on an earlier connection keeps using that
      connection, which is no longer in a transaction. */
  datatype Db = Db(
    committed: seq<Row>,
    pending: seq<Row>,
    side: seq<string>,
    executed: nat,
    commits: nat,
    connections: nat,
    open: bool,
    lastId: nat)

  /** `new PDO(...)`: a fresh connection, with no transaction and no
      insert id of its own yet; a transaction still open on the connection
      it replaces is lost with it. */
  function Connect(d: Db): (r: Db)
    ensures r.connections == d.connections + 1 && !r.open && r.pending == [] && r.lastId == 0
    ensures r.committed == d.committed && r.side == d.side
    ensures r.executed == d.executed && r.commits == d.commits
  {
    d.(pending := [], open := false, connections := d.connections + 1, lastId := 0)
  }

  /** `beginTransaction()`; PDO refuses to nest transactions. */
  function Begin(d: Db): (r: Db)
    requires !d.open
    ensures r == d.(open := true)
  {
    d.(open := true)
  }

  /** `commit()`; PDO refuses it when no transaction is open. */
  function Commit(d: Db): (r: Db)
    requires d.open
    ensures r.committed == d.committed + d.pending && r.pending == [] && !r.open
    ensures r.commits == d.commits + 1
    ensures r.side == d.side && r.executed == d.executed && r.connections == d.connections
    ensures r.lastId == d.lastId
  {
    d.(committed := d.committed + d.pending, pending := [], open := false, commits := d.commits + 1)
  }

  /** `$this->stmt->execute($params)`: one main-table insert; `ok` is false
      where PDO returns false. `current` says whether the statement was
      prepared on the current connection. Inside that connection's
      transaction the row is pending; otherwise (no transaction, or a
      statement of an earlier connection) it is committed at once. */
  function Execute(d: Db, accept: Oracle, table: string, row: Row, current: bool): (r: (Db, bool))
    ensures r.1 == accept(d.executed, MainInsert(table, row))
    ensures r.0.executed == d.executed + 1
    ensures r.0.open == d.open && r.0.side == d.side && r.0.lastId == d.lastId
    ensures r.0.commits == d.commits && r.0.connections == d.connections
    ensures current && d.open ==> r.0.committed == d.committed && r.0.pending == d.pending + (if r.1 then [row] else [])
    ensures !(current && d.open) ==> r.0.pending == d.pending && r.0.committed == d.committed + (if r.1 then [row] else [])
  {
    var ok := accept(d.executed, MainInsert(table, row));
    var d1 := d.(executed := d.executed + 1);
    if !ok then (d1, false)
    else if current && d.open then (d1.(pending := d.pending + [row]), true)
    else (d1.(committed := d.committed + [row]), true)
  }

  /** `$this->lookupStmt->execute(array("Description" => $value))`: on
      success the side table gains a row with the next id, which becomes
      the current connection's last insert id only when the statement
      belongs to this connection. */
  function ExecuteSide(d: Db, accept: Oracle, table: string, text: string, current: bool): (r: (Db, bool))
    ensures r.1 == accept(d.executed, SideInsert(table, text))
    ensures r.0.side == if r.1 then d.side + [text] else d.side
    ensures r.0.lastId == if r.1 && current then |d.side| + 1 else d.lastId
    ensures r.0 == d.(executed := d.executed + 1, side := r.0.side, lastId := r.0.lastId)
  {
    var ok := accept(d.executed, SideInsert(table, text));
    var side := if ok then d.side + [text] else d.side;
    var last := if ok && current then |side| else d.lastId;
    (d.(executed := d.executed + 1, side := side, lastId := last), ok)
  }

  /** `lastInsertId($sequence)` on the current connection: the id of the
      last side-table row inserted through it, 0 when there is none (as
      MySQL answers; MySQL also ignores the sequence name). */
  function LastInsertId(d: Db, sequence: string): (id: nat)
  {
    d.lastId
  }
}
