/** A functional reference for the read loop of `load`: one step per node
    the reader visits, threading the store, the lookup cache and the two
    counters (rows processed, threshold commits). */
module Pipeline {
  import opened Values
  import opened Schema
  import opened Sql
  import opened Params
  import opened Store

  /** Rows per transaction (line 135). */
  const CommitEvery: nat := 10000
  /** Threshold commits per connection (line 139). */
  const RenewEvery: nat := 80

  /** What `lookup` leaves behind: the store, the cache and its result. */
  datatype Resolution = Resolution(db: Db, cache: map<string, nat>, value: Value)

  /** `lookup($xml)`: the text of the lookup attribute (null cast to "")
      resolves through the cache; on a miss one side-table insert runs and,
      when it succeeds, the current connection's last insert id is cached
      and returned; when it fails the result is `false` and nothing is
      cached. `current` says whether the lookup statement belongs to the
      current connection. */
  function Resolve(spec: LookupSpec, accept: Oracle, db: Db, cache: map<string, nat>, n: Node, current: bool): Resolution {
    var text := AsString(GetAttribute(n, spec.attribute));
    if text in cache then Resolution(db, cache, Key(cache[text]))
    else
      var (db1, ok) := ExecuteSide(db, accept, LookupTable(spec.name), text, current);
      if !ok then Resolution(db1, cache, False)
      else
        var id := LastInsertId(db1, SequenceName(spec.name));
        Resolution(db1, cache[text := id], Key(id))
  }

  /** The state of the read loop: the store, `$this->lookupMap`, `$i`, `$j`,
      the connection both statements were prepared on and, for the proofs,
      the rows the store accepted so far. */
  datatype LoadState = LoadState(db: Db, cache: map<string, nat>, rows: nat, batches: nat, preparedOn: nat, accepted: seq<Row>)

  /** The statements belong to the current connection. */
  predicate Current(st: LoadState) {
    st.preparedOn == st.db.connections
  }

  /** The lookup result a record binds: `lookup($xml)` for a class with a
      lookup, nothing otherwise. */
  function ResolveIn(m: Mapping, accept: Oracle, db: Db, cache: map<string, nat>, n: Node, current: bool): Resolution {
    match m.lookup
    case Some(spec) => Resolve(spec, accept, db, cache, n, current)
    case None => Resolution(db, cache, Null)
  }

  /** Lines 134-145: `$i++`, and at every multiple of 10000 a commit,
      `$j++`, a new connection at every multiple of 80 commits, and a new
      transaction. With `reprepare` the statements are prepared again on
      the new connection; as written they are not. Returns the store, `$i`,
      `$j` and the connection the statements belong to. */
  function Tick(db: Db, rows: nat, batches: nat, preparedOn: nat, reprepare: bool): (r: (Db, nat, nat, nat))
    requires db.open
    ensures r.0.open
  {
    var i := rows + 1;
    if i % CommitEvery == 0 then
      var j := batches + 1;
      var db2 := Commit(db);
      var renew := j % RenewEvery == 0;
      var db3 := if renew then Connect(db2) else db2;
      (Begin(db3), i, j, if renew && reprepare then db3.connections else preparedOn)
    else (db, i, batches, preparedOn)
  }

  /** One node of the reader. */
  function Step(m: Mapping, accept: Oracle, rp: bool, st: LoadState, n: Node): (r: LoadState)
    requires st.db.open
    ensures r.db.open
  {
    if !IsRow(n) then st
    else
      var cur := Current(st);
      var res := ResolveIn(m, accept, st.db, st.cache, n, cur);
      var params := Params.Params(m, n, res.value);
      var (db1, ok) := Execute(res.db, accept, m.className, params, cur);
      var (db2, i, j, p) := Tick(db1, st.rows, st.batches, st.preparedOn, rp);
      LoadState(db2, res.cache, i, j, p, if ok then st.accepted + [params] else st.accepted)
  }

  /** The read loop over the nodes in order. */
  function RunAll(m: Mapping, accept: Oracle, rp: bool, st: LoadState, nodes: seq<Node>): (r: LoadState)
    requires st.db.open
    ensures r.db.open
    decreases |nodes|
  {
    if nodes == [] then st
    else Step(m, accept, rp, RunAll(m, accept, rp, st, nodes[..|nodes| - 1]), nodes[|nodes| - 1])
  }

  /** The state `load` starts its loop in: a new connection with an open
      transaction and both statements prepared on it, both counters at
      zero. */
  function Start(db: Db, cache: map<string, nat>): (st: LoadState)
    ensures st.db.open && Current(st) && st.db.lastId == 0
  {
    var d := Begin(Connect(db));
    LoadState(d, cache, 0, 0, d.connections, [])
  }

  /** `load`: the loop, then the final commit. `rp` false is the code as
      written, true the variant that prepares its statements again after
      each reconnect. */
  function Load(m: Mapping, accept: Oracle, rp: bool, db: Db, cache: map<string, nat>, nodes: seq<Node>): LoadState {
    var r := RunAll(m, accept, rp, Start(db, cache), nodes);
    r.(db := Commit(r.db))
  }

  lemma RunSnoc(m: Mapping, accept: Oracle, rp: bool, st: LoadState, nodes: seq<Node>, n: Node)
    requires st.db.open
    ensures RunAll(m, accept, rp, st, nodes + [n]) == Step(m, accept, rp, RunAll(m, accept, rp, st, nodes), n)
  {
    assert (nodes + [n])[..|nodes|] == nodes;
    if nodes == [] {
      assert RunAll(m, accept, rp, st, []) == st;
    }
  }

  /** Nodes that are not `row` elements change nothing: the run over all
      nodes is the run over the records alone. */
  lemma {:induction false} RunFilter(m: Mapping, accept: Oracle, rp: bool, st: LoadState, nodes: seq<Node>)
    requires st.db.open
    ensures RunAll(m, accept, rp, st, nodes) == RunAll(m, accept, rp, st, RowsOf(nodes))
    decreases |nodes|
  {
    if nodes != [] {
      var init, last := nodes[..|nodes| - 1], nodes[|nodes| - 1];
      RunFilter(m, accept, rp, st, init);
      var s := RunAll(m, accept, rp, st, init);
      assert RunAll(m, accept, rp, st, nodes) == Step(m, accept, rp, s, last);
      if IsRow(last) {
        assert RowsOf(nodes) == RowsOf(init) + [last];
        RunSnoc(m, accept, rp, st, RowsOf(init), last);
      } else {
        assert RowsOf(nodes) == RowsOf(init);
        assert Step(m, accept, rp, s, last) == s;
      }
    }
  }

  /** A load sees only the records of the document. */
  lemma LoadFilter(m: Mapping, accept: Oracle, rp: bool, db: Db, cache: map<string, nat>, nodes: seq<Node>)
    ensures Load(m, accept, rp, db, cache, nodes) == Load(m, accept, rp, db, cache, RowsOf(nodes))
  {
    RunFilter(m, accept, rp, Start(db, cache), nodes);
  }

  /** Tick counts one row; `$j` stays the number of full batches of 10000
      rows, each of them one commit, and a reconnect follows every 80th. */
  lemma TickCounts(db: Db, rows: nat, batches: nat, prep: nat, rp: bool)
    requires db.open && batches == rows / CommitEvery
    ensures var (d, i, j, p) := Tick(db, rows, batches, prep, rp);
      && i == rows + 1
      && j == i / CommitEvery
      && d.commits == db.commits + (j - batches)
      && d.connections == db.connections + (j / RenewEvery - batches / RenewEvery)
  {
  }

  /** Tick moves pending rows to the committed ones and loses none. A
      reconnect leaves no pending rows and no insert id on the new
      connection; only with `rp` do the statements follow it. */
  lemma TickDelivers(db: Db, rows: nat, batches: nat, prep: nat, rp: bool)
    requires db.open
    ensures var (d, i, j, p) := Tick(db, rows, batches, prep, rp);
      && i == rows + 1
      && d.committed + d.pending == db.committed + db.pending
      && d.side == db.side && d.executed == db.executed
      && (d.pending != [] ==> d == db && p == prep)
      && (d.connections == db.connections ==> p == prep && d.lastId == db.lastId)
      && (d.connections != db.connections ==> d.connections == db.connections + 1 && d.lastId == 0)
      && (prep <= db.connections ==> p <= d.connections)
      && (rp && prep == db.connections ==> p == d.connections)
  {
  }

  /** What one record does to the state, in terms of its lookup result,
      its parameter array and whether the store accepted the insert. */
  lemma StepRecord(m: Mapping, accept: Oracle, rp: bool, st: LoadState, n: Node)
    requires st.db.open && IsRow(n)
    ensures var cur := Current(st);
      var res := ResolveIn(m, accept, st.db, st.cache, n, cur);
      var params := Params.Params(m, n, res.value);
      var (db1, ok) := Execute(res.db, accept, m.className, params, cur);
      var r := Step(m, accept, rp, st, n);
      && (r.db, r.rows, r.batches, r.preparedOn) == Tick(db1, st.rows, st.batches, st.preparedOn, rp)
      && r.cache == res.cache
      && r.accepted == if ok then st.accepted + [params] else st.accepted
  {
  }

  /** A lookup leaves the counters, the transaction and the main table alone. */
  lemma ResolveInCounters(m: Mapping, accept: Oracle, db: Db, cache: map<string, nat>, n: Node, current: bool)
    ensures var r := ResolveIn(m, accept, db, cache, n, current).db;
      && r.commits == db.commits && r.connections == db.connections && r.open == db.open
      && r.committed == db.committed && r.pending == db.pending
  {
  }

  // ---------------------------------------------------------------------
  // Lookup

  /** A cached text returns its id and leaves the store alone. */
  lemma ResolveCached(spec: LookupSpec, accept: Oracle, db: Db, cache: map<string, nat>, n: Node, current: bool)
    requires AsString(GetAttribute(n, spec.attribute)) in cache
    ensures var r := Resolve(spec, accept, db, cache, n, current);
      r.db == db && r.cache == cache && r.value == Key(cache[AsString(GetAttribute(n, spec.attribute))])
  {
  }

  /** A new text runs exactly one side-table insert; on success its
      description is the text and, the statement being the current
      connection's, the new row's id is cached and returned. */
  lemma ResolveNew(spec: LookupSpec, accept: Oracle, db: Db, cache: map<string, nat>, n: Node)
    requires AsString(GetAttribute(n, spec.attribute)) !in cache
    requires accept(db.executed, SideInsert(LookupTable(spec.name), AsString(GetAttribute(n, spec.attribute))))
    ensures var text := AsString(GetAttribute(n, spec.attribute));
      var r := Resolve(spec, accept, db, cache, n, true);
      && r.db.side == db.side + [text]
      && r.db.executed == db.executed + 1
      && r.cache == cache[text := |db.side| + 1]
      && r.value == Key(|db.side| + 1)
  {
  }

  /** As written, after a reconnect: the side-table row is added through
      the old connection, but the id is asked of the new one, so the text
      is cached under whatever that connection last inserted instead of
      its own row's id. */
  lemma ResolveStale(spec: LookupSpec, accept: Oracle, db: Db, cache: map<string, nat>, n: Node)
    requires AsString(GetAttribute(n, spec.attribute)) !in cache
    requires accept(db.executed, SideInsert(LookupTable(spec.name), AsString(GetAttribute(n, spec.attribute))))
    ensures var text := AsString(GetAttribute(n, spec.attribute));
      var r := Resolve(spec, accept, db, cache, n, false);
      && r.db.side == db.side + [text]
      && r.db.lastId == db.lastId
      && r.cache == cache[text := db.lastId]
      && r.value == Key(db.lastId)
  {
  }

  /** A failed side-table insert returns `false`, caches nothing and adds no
      row, so the same text is tried again next time. */
  lemma ResolveFailed(spec: LookupSpec, accept: Oracle, db: Db, cache: map<string, nat>, n: Node, current: bool)
    requires AsString(GetAttribute(n, spec.attribute)) !in cache
    requires !accept(db.executed, SideInsert(LookupTable(spec.name), AsString(GetAttribute(n, spec.attribute))))
    ensures var r := Resolve(spec, accept, db, cache, n, current);
      && r.value == False
      && r.cache == cache
      && AsString(GetAttribute(n, spec.attribute)) !in r.cache
      && r.db.side == db.side
      && r.db.executed == db.executed + 1
  {
  }

  /** The cache agrees with the side table rows added since `base`: every
      cached text names the row holding it, every added row is cached under
      its own id, and there are as many cached texts as added rows (so no
      text was inserted twice). */
  ghost predicate Memo(cache: map<string, nat>, side: seq<string>, base: nat) {
    && base <= |side|
    && (forall t :: t in cache ==> base < cache[t] <= |side| && side[cache[t] - 1] == t)
    && (forall k :: base <= k < |side| ==> side[k] in cache && cache[side[k]] == k + 1)
    && |cache| == |side| - base
  }

  /** Caching a new text under the id of the row just appended keeps the agreement. */
  lemma MemoAdd(cache: map<string, nat>, side: seq<string>, base: nat, text: string)
    requires Memo(cache, side, base) && text !in cache
    ensures Memo(cache[text := |side| + 1], side + [text], base)
  {
    var c, s := cache[text := |side| + 1], side + [text];
    forall t | t in c ensures base < c[t] <= |s| && s[c[t] - 1] == t {
      if t != text {
        assert cache[t] <= |side| && s[c[t] - 1] == side[cache[t] - 1];
      }
    }
    forall k | base <= k < |s| ensures s[k] in c && c[s[k]] == k + 1 {
      if k < |side| {
        assert side[k] in cache && s[k] == side[k];
        assert side[k] != text;
      }
    }
  }

  /** Either nothing was cached or one new text was cached under the row just
      appended: the agreement holds afterwards. */
  lemma MemoNext(cache: map<string, nat>, side: seq<string>, base: nat, r: Resolution, text: string)
    requires Memo(cache, side, base)
    requires || (r.cache == cache && r.db.side == side)
             || (text !in cache && r.cache == cache[text := |side| + 1] && r.db.side == side + [text])
    ensures Memo(r.cache, r.db.side, base)
  {
    if r.cache != cache || r.db.side != side {
      MemoAdd(cache, side, base, text);
    }
  }

  lemma ResolveKeepsMemo(spec: LookupSpec, accept: Oracle, db: Db, cache: map<string, nat>, n: Node, base: nat)
    requires Memo(cache, db.side, base)
    ensures var r := Resolve(spec, accept, db, cache, n, true);
      Memo(r.cache, r.db.side, base) && cache.Keys <= r.cache.Keys
  {
    var text := AsString(GetAttribute(n, spec.attribute));
    var r := Resolve(spec, accept, db, cache, n, true);
    if text in cache {
      ResolveCached(spec, accept, db, cache, n, true);
    } else if accept(db.executed, SideInsert(LookupTable(spec.name), text)) {
      ResolveNew(spec, accept, db, cache, n);
    } else {
      ResolveFailed(spec, accept, db, cache, n, true);
    }
    MemoNext(cache, db.side, base, r, text);
  }

  /** A lookup forgets no cached text and caches at most its own. */
  lemma ResolveKeys(spec: LookupSpec, accept: Oracle, db: Db, cache: map<string, nat>, n: Node, current: bool)
    ensures var r := Resolve(spec, accept, db, cache, n, current);
      cache.Keys <= r.cache.Keys <= cache.Keys + {LookupText(spec, n)}
  {
  }

  /** When the store accepts side-table inserts, a lookup leaves its text
      cached and forgets nothing. */
  lemma ResolveCaches(spec: LookupSpec, accept: Oracle, db: Db, cache: map<string, nat>, n: Node, current: bool)
    requires AcceptsLookups(accept, LookupTable(spec.name))
    ensures var r := Resolve(spec, accept, db, cache, n, current);
      LookupText(spec, n) in r.cache && cache.Keys <= r.cache.Keys
  {
    assert accept(db.executed, SideInsert(LookupTable(spec.name), LookupText(spec, n)));
  }

  // ---------------------------------------------------------------------
  // Texts seen

  function LookupText(spec: LookupSpec, n: Node): string {
    AsString(GetAttribute(n, spec.attribute))
  }

  /** The lookup texts of the record nodes among `nodes`. */
  function Texts(spec: LookupSpec, nodes: seq<Node>): set<string>
    decreases |nodes|
  {
    if nodes == [] then {}
    else
      var last := nodes[|nodes| - 1];
      Texts(spec, nodes[..|nodes| - 1]) + (if IsRow(last) then {LookupText(spec, last)} else {})
  }

  /** The store accepts every side-table insert. */
  ghost predicate AcceptsLookups(accept: Oracle, table: string) {
    forall k: nat, t: string :: accept(k, SideInsert(table, t))
  }

  /** A record step leaves the side table and the cache as the lookup did. */
  lemma StepFromResolution(m: Mapping, accept: Oracle, rp: bool, st: LoadState, n: Node, res: Resolution)
    requires st.db.open && m.lookup.Some? && IsRow(n)
    requires res == Resolve(m.lookup.value, accept, st.db, st.cache, n, Current(st))
    ensures var r := Step(m, accept, rp, st, n); r.cache == res.cache && r.db.side == res.db.side
  {
    StepRecord(m, accept, rp, st, n);
    var (db1, ok) := Execute(res.db, accept, m.className, Params.Params(m, n, res.value), Current(st));
    TickDelivers(db1, st.rows, st.batches, st.preparedOn, rp);
  }

  /** When the statements are prepared again after each reconnect, they
      always belong to the current connection. */
  lemma StepCurrent(m: Mapping, accept: Oracle, st: LoadState, n: Node)
    requires st.db.open && Current(st)
    ensures Current(Step(m, accept, true, st, n))
  {
    if IsRow(n) {
      StepRecord(m, accept, true, st, n);
      var res := ResolveIn(m, accept, st.db, st.cache, n, true);
      ResolveInCounters(m, accept, st.db, st.cache, n, true);
      var (db1, ok) := Execute(res.db, accept, m.className, Params.Params(m, n, res.value), true);
      TickDelivers(db1, st.rows, st.batches, st.preparedOn, true);
    }
  }

  /** One step of a run that prepares its statements again after each
      reconnect keeps the statements current and the cache in agreement
      with the side table, caching at most the record's own text. */
  lemma StepMemo(m: Mapping, accept: Oracle, p: LoadState, n: Node, base: nat)
    requires p.db.open && Current(p) && m.lookup.Some?
    requires Memo(p.cache, p.db.side, base)
    ensures var r := Step(m, accept, true, p, n);
      && Current(r)
      && Memo(r.cache, r.db.side, base)
      && r.cache.Keys <= p.cache.Keys + (if IsRow(n) then {LookupText(m.lookup.value, n)} else {})
  {
    StepCurrent(m, accept, p, n);
    if IsRow(n) {
      var spec := m.lookup.value;
      ResolveKeepsMemo(spec, accept, p.db, p.cache, n, base);
      ResolveKeys(spec, accept, p.db, p.cache, n, true);
      StepFromResolution(m, accept, true, p, n, Resolve(spec, accept, p.db, p.cache, n, true));
    }
  }

  /** Over a run that prepares its statements again after each reconnect,
      the cache keeps its agreement with the side table and caches only
      texts it has seen. */
  lemma {:induction false} RunMemo(m: Mapping, accept: Oracle, st: LoadState, nodes: seq<Node>, base: nat)
    requires st.db.open && Current(st) && m.lookup.Some?
    requires Memo(st.cache, st.db.side, base)
    ensures var r := RunAll(m, accept, true, st, nodes);
      && Current(r)
      && Memo(r.cache, r.db.side, base)
      && r.cache.Keys <= st.cache.Keys + Texts(m.lookup.value, nodes)
    decreases |nodes|
  {
    if nodes != [] {
      var init, last := nodes[..|nodes| - 1], nodes[|nodes| - 1];
      RunMemo(m, accept, st, init, base);
      StepMemo(m, accept, RunAll(m, accept, true, st, init), last, base);
    }
  }

  /** When the store accepts every side-table insert, every text of the
      records read ends up cached. */
  lemma {:induction false} RunCachesSeen(m: Mapping, accept: Oracle, rp: bool, st: LoadState, nodes: seq<Node>)
    requires st.db.open && m.lookup.Some?
    requires AcceptsLookups(accept, LookupTable(m.lookup.value.name))
    ensures st.cache.Keys + Texts(m.lookup.value, nodes) <= RunAll(m, accept, rp, st, nodes).cache.Keys
    decreases |nodes|
  {
    if nodes != [] {
      var init, last := nodes[..|nodes| - 1], nodes[|nodes| - 1];
      RunCachesSeen(m, accept, rp, st, init);
      var p := RunAll(m, accept, rp, st, init);
      if IsRow(last) {
        var spec := m.lookup.value;
        ResolveCaches(spec, accept, p.db, p.cache, last, Current(p));
        StepFromResolution(m, accept, rp, p, last, Resolve(spec, accept, p.db, p.cache, last, Current(p)));
      }
    }
  }

  /** Memoisation over a whole load from an empty cache, when statements
      are prepared again after each reconnect: one side-table row per
      distinct text, never more, and each text cached under its own row's
      id; when every side-table insert succeeds, exactly one row per
      distinct text of the records read. */
  lemma LoadMemo(m: Mapping, accept: Oracle, db: Db, nodes: seq<Node>)
    requires m.lookup.Some?
    ensures var r := Load(m, accept, true, db, map[], nodes);
      && Memo(r.cache, r.db.side, |db.side|)
      && r.cache.Keys <= Texts(m.lookup.value, nodes)
      && (AcceptsLookups(accept, LookupTable(m.lookup.value.name)) ==>
            r.cache.Keys == Texts(m.lookup.value, nodes)
            && |r.db.side| - |db.side| == |Texts(m.lookup.value, nodes)|)
  {
    var st := Start(db, map[]);
    RunMemo(m, accept, st, nodes, |db.side|);
    if AcceptsLookups(accept, LookupTable(m.lookup.value.name)) {
      RunCachesSeen(m, accept, true, st, nodes);
    }
  }

  /** The part of the agreement that holds whichever connection the
      statements belong to: the cached texts are exactly the texts of the
      side rows added since `base`, no text was added twice, and there are
      as many cached texts as added rows. The ids cached are not constrained. */
  ghost predicate MemoCount(cache: map<string, nat>, side: seq<string>, base: nat) {
    && base <= |side|
    && (forall t :: t in cache ==> t in side[base..])
    && (forall k :: base <= k < |side| ==> side[k] in cache)
    && (forall a, b :: base <= a < b < |side| ==> side[a] != side[b])
    && |cache| == |side| - base
  }

  /** The texts of the side rows from index `base` on. */
  ghost function AddedTexts(side: seq<string>, base: nat): set<string> {
    set k | base <= k < |side| :: side[k]
  }

  /** Under `MemoCount`, the cached texts are exactly the added ones. */
  lemma CountTexts(cache: map<string, nat>, side: seq<string>, base: nat)
    requires MemoCount(cache, side, base)
    ensures AddedTexts(side, base) == cache.Keys
  {
    forall t | t in cache ensures t in AddedTexts(side, base) {
      var k :| 0 <= k < |side[base..]| && side[base..][k] == t;
      assert side[base + k] == t;
    }
  }

  /** Caching a new text, under any id, with its side row appended. */
  lemma CountAdd(cache: map<string, nat>, side: seq<string>, base: nat, text: string, id: nat)
    requires MemoCount(cache, side, base) && text !in cache
    ensures MemoCount(cache[text := id], side + [text], base)
  {
    var c, s := cache[text := id], side + [text];
    assert s[base..] == side[base..] + [text];
    forall k | base <= k < |side| ensures s[k] != text {
      assert s[k] == side[k] && side[k] in cache;
    }
  }

  lemma CountNext(cache: map<string, nat>, side: seq<string>, base: nat, r: Resolution, text: string, id: nat)
    requires MemoCount(cache, side, base)
    requires || (r.cache == cache && r.db.side == side)
             || (text !in cache && r.db.side == side + [text] && r.cache == cache[text := id])
    ensures MemoCount(r.cache, r.db.side, base)
  {
    if r.cache != cache || r.db.side != side {
      CountAdd(cache, side, base, text, id);
    }
  }

  /** Whether or not the statement belongs to the current connection, a
      lookup keeps the count agreement. */
  lemma ResolveCount(spec: LookupSpec, accept: Oracle, db: Db, cache: map<string, nat>, n: Node, current: bool, base: nat)
    requires MemoCount(cache, db.side, base)
    ensures var r := Resolve(spec, accept, db, cache, n, current);
      MemoCount(r.cache, r.db.side, base)
  {
    var text := AsString(GetAttribute(n, spec.attribute));
    var r := Resolve(spec, accept, db, cache, n, current);
    if text in cache {
      ResolveCached(spec, accept, db, cache, n, current);
    } else if accept(db.executed, SideInsert(LookupTable(spec.name), text)) {
      if current {
        ResolveNew(spec, accept, db, cache, n);
        assert r.cache == cache[text := |db.side| + 1];
      } else {
        ResolveStale(spec, accept, db, cache, n);
        assert r.cache == cache[text := db.lastId];
      }
    } else {
      ResolveFailed(spec, accept, db, cache, n, current);
    }
    CountNext(cache, db.side, base, r, text, if text in r.cache then r.cache[text] else 0);
  }

  lemma StepCount(m: Mapping, accept: Oracle, rp: bool, p: LoadState, n: Node, base: nat)
    requires p.db.open && m.lookup.Some?
    requires MemoCount(p.cache, p.db.side, base)
    ensures var r := Step(m, accept, rp, p, n);
      && MemoCount(r.cache, r.db.side, base)
      && r.cache.Keys <= p.cache.Keys + (if IsRow(n) then {LookupText(m.lookup.value, n)} else {})
  {
    if IsRow(n) {
      var spec := m.lookup.value;
      ResolveCount(spec, accept, p.db, p.cache, n, Current(p), base);
      ResolveKeys(spec, accept, p.db, p.cache, n, Current(p));
      StepFromResolution(m, accept, rp, p, n, Resolve(spec, accept, p.db, p.cache, n, Current(p)));
    }
  }

  lemma {:induction false} RunCount(m: Mapping, accept: Oracle, rp: bool, st: LoadState, nodes: seq<Node>, base: nat)
    requires st.db.open && m.lookup.Some?
    requires MemoCount(st.cache, st.db.side, base)
    ensures var r := RunAll(m, accept, rp, st, nodes);
      && MemoCount(r.cache, r.db.side, base)
      && r.cache.Keys <= st.cache.Keys + Texts(m.lookup.value, nodes)
    decreases |nodes|
  {
    if nodes != [] {
      var init, last := nodes[..|nodes| - 1], nodes[|nodes| - 1];
      RunCount(m, accept, rp, st, init, base);
      StepCount(m, accept, rp, RunAll(m, accept, rp, st, init), last, base);
    }
  }

  /** For any number of records, as written as well as with the statements
      prepared again: from an empty cache, no text gets two side rows, the
      cached texts are exactly those of the rows added, and when every
      side-table insert succeeds there is exactly one row per distinct text
      read. (As written, past a reconnect the ids cached can be wrong; see
      `Scenarios.StrandedLookup`.) */
  lemma LoadOneRowPerText(m: Mapping, accept: Oracle, rp: bool, db: Db, nodes: seq<Node>)
    requires m.lookup.Some?
    ensures var r := Load(m, accept, rp, db, map[], nodes);
      && MemoCount(r.cache, r.db.side, |db.side|)
      && r.cache.Keys <= Texts(m.lookup.value, nodes)
      && (AcceptsLookups(accept, LookupTable(m.lookup.value.name)) ==>
            r.cache.Keys == Texts(m.lookup.value, nodes)
            && AddedTexts(r.db.side, |db.side|) == Texts(m.lookup.value, nodes)
            && |r.db.side| - |db.side| == |Texts(m.lookup.value, nodes)|)
  {
    var st := Start(db, map[]);
    RunCount(m, accept, rp, st, nodes, |db.side|);
    var r := Load(m, accept, rp, db, map[], nodes);
    CountTexts(r.cache, r.db.side, |db.side|);
    if AcceptsLookups(accept, LookupTable(m.lookup.value.name)) {
      RunCachesSeen(m, accept, rp, st, nodes);
    }
  }

  // ---------------------------------------------------------------------
  // Counting rows, commits and connections

  /** `$i` counts every record, inserted or not; `$j` counts threshold
      commits, the store saw one commit per threshold and one reconnect
      per 80 threshold commits. */
  lemma {:induction false} RunCounts(m: Mapping, accept: Oracle, rp: bool, st: LoadState, nodes: seq<Node>)
    requires st.db.open && st.batches == st.rows / CommitEvery
    ensures var r := RunAll(m, accept, rp, st, nodes);
      && r.rows == st.rows + CountRows(nodes)
      && r.batches == r.rows / CommitEvery
      && r.db.commits == st.db.commits + (r.batches - st.batches)
      && r.db.connections == st.db.connections + (r.batches / RenewEvery - st.batches / RenewEvery)
    decreases |nodes|
  {
    if nodes != [] {
      var init, last := nodes[..|nodes| - 1], nodes[|nodes| - 1];
      RunCounts(m, accept, rp, st, init);
      var p := RunAll(m, accept, rp, st, init);
      if IsRow(last) {
        StepRecord(m, accept, rp, p, last);
        var res := ResolveIn(m, accept, p.db, p.cache, last, Current(p));
        var (db1, ok) := Execute(res.db, accept, m.className, Params.Params(m, last, res.value), Current(p));
        ResolveInCounters(m, accept, p.db, p.cache, last, Current(p));
        TickCounts(db1, p.rows, p.batches, p.preparedOn, rp);
      }
    }
  }

  lemma DivDiv(n: nat)
    ensures n / CommitEvery / RenewEvery == n / 800000
  {
    var q := n / 800000;
    var r := n % 800000;
    assert n == q * 800000 + r;
    assert n / CommitEvery == q * 80 + r / CommitEvery;
  }

  /** After a load over n records: n rows processed, n div 10000 threshold
      commits plus the final one, and the first connection plus one more
      per 800000 records; no transaction stays open. */
  lemma LoadCounts(m: Mapping, accept: Oracle, rp: bool, db: Db, cache: map<string, nat>, nodes: seq<Node>)
    ensures var r := Load(m, accept, rp, db, cache, nodes);
      && r.rows == CountRows(nodes)
      && r.batches == CountRows(nodes) / CommitEvery
      && r.db.commits == db.commits + CountRows(nodes) / CommitEvery + 1
      && r.db.connections == db.connections + 1 + CountRows(nodes) / 800000
      && !r.db.open && r.db.pending == []
  {
    RunCounts(m, accept, rp, Start(db, cache), nodes);
    DivDiv(CountRows(nodes));
  }

  /** Exactly 10000 records: one commit at the threshold and the final one. */
  lemma ThresholdCommit(m: Mapping, accept: Oracle, rp: bool, db: Db, cache: map<string, nat>, nodes: seq<Node>)
    requires CountRows(nodes) == CommitEvery
    ensures Load(m, accept, rp, db, cache, nodes).db.commits == db.commits + 2
    ensures Load(m, accept, rp, db, cache, nodes).db.connections == db.connections + 1
  {
    LoadCounts(m, accept, rp, db, cache, nodes);
  }

  /** 10000 * 80 + 1 records: exactly one renewal of the connection. */
  lemma OneRenewal(m: Mapping, accept: Oracle, rp: bool, db: Db, cache: map<string, nat>, nodes: seq<Node>)
    requires CountRows(nodes) == CommitEvery * RenewEvery + 1
    ensures Load(m, accept, rp, db, cache, nodes).db.connections == db.connections + 2
    ensures Load(m, accept, rp, db, cache, nodes).db.commits == db.commits + 81
  {
    LoadCounts(m, accept, rp, db, cache, nodes);
  }

  // ---------------------------------------------------------------------
  // The reconnect

  /** Below the 80th threshold commit no reconnect happens, so preparing
      the statements again would change nothing. */
  lemma TickNoRenewal(db: Db, rows: nat, batches: nat, prep: nat)
    requires db.open && batches == rows / CommitEvery && rows + 1 < CommitEvery * RenewEvery
    ensures Tick(db, rows, batches, prep, false) == Tick(db, rows, batches, prep, true)
  {
    TickCounts(db, rows, batches, prep, false);
    var i := rows + 1;
    if i % CommitEvery == 0 {
      assert batches + 1 == i / CommitEvery < RenewEvery;
    }
  }

  lemma {:induction false} RunAgree(m: Mapping, accept: Oracle, st: LoadState, nodes: seq<Node>)
    requires st.db.open && st.batches == st.rows / CommitEvery
    requires st.rows + CountRows(nodes) < CommitEvery * RenewEvery
    ensures RunAll(m, accept, false, st, nodes) == RunAll(m, accept, true, st, nodes)
    decreases |nodes|
  {
    if nodes != [] {
      var init, last := nodes[..|nodes| - 1], nodes[|nodes| - 1];
      RunAgree(m, accept, st, init);
      RunCounts(m, accept, false, st, init);
      var p := RunAll(m, accept, false, st, init);
      if IsRow(last) {
        var cur := Current(p);
        var res := ResolveIn(m, accept, p.db, p.cache, last, cur);
        var (db1, ok) := Execute(res.db, accept, m.className, Params.Params(m, last, res.value), cur);
        ResolveInCounters(m, accept, p.db, p.cache, last, cur);
        TickNoRenewal(db1, p.rows, p.batches, p.preparedOn);
        StepRecord(m, accept, false, p, last);
        StepRecord(m, accept, true, p, last);
      }
    }
  }

  /** A load of fewer than 800000 records never reconnects; the code as
      written and the variant that prepares its statements again agree. */
  lemma LoadAgree(m: Mapping, accept: Oracle, db: Db, cache: map<string, nat>, nodes: seq<Node>)
    requires CountRows(nodes) < CommitEvery * RenewEvery
    ensures Load(m, accept, false, db, cache, nodes) == Load(m, accept, true, db, cache, nodes)
  {
    RunAgree(m, accept, Start(db, cache), nodes);
  }

  /** The code as written memoises its lookups correctly as long as it
      does not reconnect. */
  lemma LoadMemoBelowRenewal(m: Mapping, accept: Oracle, db: Db, nodes: seq<Node>)
    requires m.lookup.Some? && CountRows(nodes) < CommitEvery * RenewEvery
    ensures Memo(Load(m, accept, false, db, map[], nodes).cache, Load(m, accept, false, db, map[], nodes).db.side, |db.side|)
  {
    LoadAgree(m, accept, db, map[], nodes);
    LoadMemo(m, accept, db, nodes);
  }

  /** As written, the 800000th record's step commits, reconnects and opens
      a transaction on the new connection, but both statements stay on the
      old one; prepared again they would follow. */
  lemma RenewalStrands(db: Db, prep: nat)
    requires db.open && prep == db.connections
    ensures var (d, i, j, p) := Tick(db, CommitEvery * RenewEvery - 1, RenewEvery - 1, prep, false);
      && d.open && d.connections == db.connections + 1 && d.pending == [] && d.lastId == 0
      && p == prep && p != d.connections
    ensures var (d, i, j, p) := Tick(db, CommitEvery * RenewEvery - 1, RenewEvery - 1, prep, true);
      p == d.connections
  {
  }

  // ---------------------------------------------------------------------
  // What reaches the main table

  /** The rows in the store since the load began are exactly the accepted
      parameter arrays, in order; each has exactly the mapped columns. A
      stranded statement commits each row at once, and then nothing is
      pending. */
  ghost predicate Delivered(m: Mapping, base: seq<Row>, st: LoadState) {
    && st.db.committed + st.db.pending == base + st.accepted
    && |st.accepted| <= st.rows
    && (forall k :: 0 <= k < |st.accepted| ==> st.accepted[k].Keys == ColumnSet(m))
    && st.preparedOn <= st.db.connections
    && (!Current(st) ==> st.db.pending == [])
  }

  /** One step keeps the agreement between the store and the accepted rows. */
  lemma StepDelivers(m: Mapping, accept: Oracle, rp: bool, p: LoadState, n: Node, base: seq<Row>)
    requires WellFormed(m) && p.db.open && Delivered(m, base, p)
    ensures Delivered(m, base, Step(m, accept, rp, p, n))
  {
    if IsRow(n) {
      var cur := Current(p);
      StepRecord(m, accept, rp, p, n);
      var res := ResolveIn(m, accept, p.db, p.cache, n, cur);
      var params := Params.Params(m, n, res.value);
      var (db1, ok) := Execute(res.db, accept, m.className, params, cur);
      ResolveInCounters(m, accept, p.db, p.cache, n, cur);
      ParamsColumns(m, n, res.value);
      DeliveredStep(m, base, p, Step(m, accept, rp, p, n), db1, params, ok, rp);
    }
  }

  /** The bookkeeping of one record step, given what the insert did. */
  lemma DeliveredStep(m: Mapping, base: seq<Row>, p: LoadState, r: LoadState, db1: Db, params: Row, ok: bool, rp: bool)
    requires Delivered(m, base, p) && db1.open
    requires params.Keys == ColumnSet(m)
    requires db1.connections == p.db.connections
    requires Current(p) ==> db1.committed == p.db.committed && db1.pending == p.db.pending + (if ok then [params] else [])
    requires !Current(p) ==> db1.pending == p.db.pending && db1.committed == p.db.committed + (if ok then [params] else [])
    requires (r.db, r.rows, r.batches, r.preparedOn) == Tick(db1, p.rows, p.batches, p.preparedOn, rp)
    requires r.accepted == if ok then p.accepted + [params] else p.accepted
    ensures Delivered(m, base, r)
  {
    TickDelivers(db1, p.rows, p.batches, p.preparedOn, rp);
    assert db1.committed + db1.pending == p.db.committed + p.db.pending + (if ok then [params] else []);
    if ok {
      assert base + p.accepted + [params] == base + (p.accepted + [params]);
    }
  }

  lemma {:induction false} RunDelivers(m: Mapping, accept: Oracle, rp: bool, st: LoadState, nodes: seq<Node>, base: seq<Row>)
    requires WellFormed(m) && st.db.open && Delivered(m, base, st)
    ensures Delivered(m, base, RunAll(m, accept, rp, st, nodes))
    decreases |nodes|
  {
    if nodes != [] {
      var init := nodes[..|nodes| - 1];
      RunDelivers(m, accept, rp, st, init, base);
      StepDelivers(m, accept, rp, RunAll(m, accept, rp, st, init), nodes[|nodes| - 1], base);
    }
  }

  /** A load commits, after the rows committed before it, exactly the rows
      the store accepted, in input order, each with exactly the mapped
      columns; a rejected row is dropped and the load goes on. */
  lemma LoadDelivers(m: Mapping, accept: Oracle, rp: bool, db: Db, cache: map<string, nat>, nodes: seq<Node>)
    requires WellFormed(m)
    ensures var r := Load(m, accept, rp, db, cache, nodes);
      && r.db.committed == db.committed + r.accepted
      && |r.accepted| <= CountRows(nodes)
      && (forall k :: 0 <= k < |r.accepted| ==> r.accepted[k].Keys == ColumnSet(m))
  {
    var st := Start(db, cache);
    RunDelivers(m, accept, rp, st, nodes, db.committed);
    RunCounts(m, accept, rp, st, nodes);
  }

  // ---------------------------------------------------------------------
  // Loading twice

  /** The store accepts every insert into the main table. */
  ghost predicate AcceptsRows(accept: Oracle, table: string) {
    forall k: nat, row: Row :: accept(k, MainInsert(table, row))
  }

  /** The parameter arrays of the records among `nodes`, for a class
      without a lookup. */
  function ParamsOf(m: Mapping, nodes: seq<Node>): (ps: seq<Row>)
    ensures |ps| == CountRows(nodes)
    decreases |nodes|
  {
    if nodes == [] then []
    else
      var last := nodes[|nodes| - 1];
      ParamsOf(m, nodes[..|nodes| - 1]) + (if IsRow(last) then [Params.Params(m, last, Null)] else [])
  }

  /** Without a lookup and with every row accepted, the run accepts one
      parameter array per record, in order. */
  lemma {:induction false} RunAccepted(m: Mapping, accept: Oracle, rp: bool, st: LoadState, nodes: seq<Node>)
    requires st.db.open && m.lookup.None? && AcceptsRows(accept, m.className)
    ensures RunAll(m, accept, rp, st, nodes).accepted == st.accepted + ParamsOf(m, nodes)
    decreases |nodes|
  {
    if nodes != [] {
      var init, last := nodes[..|nodes| - 1], nodes[|nodes| - 1];
      RunAccepted(m, accept, rp, st, init);
      var p := RunAll(m, accept, rp, st, init);
      if IsRow(last) {
        StepRecord(m, accept, rp, p, last);
        assert accept(p.db.executed, MainInsert(m.className, Params.Params(m, last, Null)));
        assert st.accepted + ParamsOf(m, init) + [Params.Params(m, last, Null)] == st.accepted + ParamsOf(m, nodes);
      } else {
        assert ParamsOf(m, nodes) == ParamsOf(m, init);
      }
    }
  }

  /** Without a lookup and with every row accepted, a load commits one
      row per record, in order, after the rows already there. */
  lemma LoadAccepted(m: Mapping, accept: Oracle, rp: bool, db: Db, cache: map<string, nat>, nodes: seq<Node>)
    requires WellFormed(m) && m.lookup.None? && AcceptsRows(accept, m.className)
    ensures Load(m, accept, rp, db, cache, nodes).db.committed == db.committed + ParamsOf(m, nodes)
  {
    LoadDelivers(m, accept, rp, db, cache, nodes);
    RunAccepted(m, accept, rp, Start(db, cache), nodes);
  }

  /** Loading the same document twice commits every row twice: the
      importer does not deduplicate. */
  lemma LoadTwice(m: Mapping, accept: Oracle, rp: bool, db: Db, nodes: seq<Node>)
    requires WellFormed(m) && m.lookup.None? && AcceptsRows(accept, m.className)
    ensures var r1 := Load(m, accept, rp, db, map[], nodes);
      var r2 := Load(m, accept, rp, r1.db, r1.cache, nodes);
      r2.db.committed == db.committed + ParamsOf(m, nodes) + ParamsOf(m, nodes)
  {
    var r1 := Load(m, accept, rp, db, map[], nodes);
    LoadAccepted(m, accept, rp, db, map[], nodes);
    LoadAccepted(m, accept, rp, r1.db, r1.cache, nodes);
  }

  /** With every row accepted, whatever the class, a run accepts one
      parameter array per record. */
  lemma {:induction false} RunAcceptsAll(m: Mapping, accept: Oracle, rp: bool, st: LoadState, nodes: seq<Node>)
    requires st.db.open && AcceptsRows(accept, m.className)
    ensures |RunAll(m, accept, rp, st, nodes).accepted| == |st.accepted| + CountRows(nodes)
    decreases |nodes|
  {
    if nodes != [] {
      var init, last := nodes[..|nodes| - 1], nodes[|nodes| - 1];
      RunAcceptsAll(m, accept, rp, st, init);
      var p := RunAll(m, accept, rp, st, init);
      if IsRow(last) {
        StepRecord(m, accept, rp, p, last);
        var res := ResolveIn(m, accept, p.db, p.cache, last, Current(p));
        assert accept(res.db.executed, MainInsert(m.className, Params.Params(m, last, res.value)));
      }
    }
  }

  /** One load with every insert accepted: one main row per record and one
      side row per distinct text, whatever the store held before. */
  lemma LoadAllAccepted(m: Mapping, accept: Oracle, rp: bool, db: Db, nodes: seq<Node>)
    requires WellFormed(m) && m.lookup.Some?
    requires AcceptsRows(accept, m.className) && AcceptsLookups(accept, LookupTable(m.lookup.value.name))
    ensures var r := Load(m, accept, rp, db, map[], nodes);
      && r.db.committed == db.committed + r.accepted
      && |r.accepted| == CountRows(nodes)
      && |r.db.side| == |db.side| + |Texts(m.lookup.value, nodes)|
      && AddedTexts(r.db.side, |db.side|) == Texts(m.lookup.value, nodes)
  {
    LoadDelivers(m, accept, rp, db, map[], nodes);
    RunAcceptsAll(m, accept, rp, Start(db, map[]), nodes);
    LoadOneRowPerText(m, accept, rp, db, nodes);
  }

  /** A class with a lookup, loaded twice by two runs of the program (each
      starting with an empty cache): every record is committed twice and
      every distinct text gets a second side row. */
  lemma LoadTwiceWithLookup(m: Mapping, accept: Oracle, rp: bool, db: Db, nodes: seq<Node>)
    requires WellFormed(m) && m.lookup.Some?
    requires AcceptsRows(accept, m.className) && AcceptsLookups(accept, LookupTable(m.lookup.value.name))
    ensures var r1 := Load(m, accept, rp, db, map[], nodes);
      var r2 := Load(m, accept, rp, r1.db, map[], nodes);
      && r2.db.committed == db.committed + r1.accepted + r2.accepted
      && |r1.accepted| == |r2.accepted| == CountRows(nodes)
      && |r2.db.side| == |db.side| + 2 * |Texts(m.lookup.value, nodes)|
      && AddedTexts(r1.db.side, |db.side|) == Texts(m.lookup.value, nodes)
      && AddedTexts(r2.db.side, |r1.db.side|) == Texts(m.lookup.value, nodes)
  {
    var r1 := Load(m, accept, rp, db, map[], nodes);
    LoadAllAccepted(m, accept, rp, db, nodes);
    LoadAllAccepted(m, accept, rp, r1.db, nodes);
  }
}
