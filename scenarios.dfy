/** End-to-end runs of the importer on small inputs. */
module Scenarios {
  import opened Values
  import opened Schema
  import opened Params
  import opened Store
  import opened Pipeline

  /** A `<row Name="..."/>` element of Badges.xml. */
  function Badge(name: string): Node {
    Node(Element, "row", map["Name" := name])
  }

  /** A store that accepts every statement. */
  function AcceptAll(): Oracle {
    (k: nat, ins: Insert) => true
  }

  /** One record step of Badges, with statements of the current
      connection and a store that accepts everything: the lookup outcome
      and the row accepted. */
  lemma BadgeStep(rp: bool, st: LoadState, name: string)
    requires st.db.open && Current(st)
    ensures var r := Step(MappingOf(Badges), AcceptAll(), rp, st, Badge(name));
      var id := if name in st.cache then st.cache[name] else |st.db.side| + 1;
      && r.db.side == (if name in st.cache then st.db.side else st.db.side + [name])
      && r.cache == st.cache[name := id]
      && |r.accepted| == |st.accepted| + 1
      && r.accepted[..|st.accepted|] == st.accepted
      && "BadgeTypeId" in r.accepted[|st.accepted|]
      && r.accepted[|st.accepted|]["BadgeTypeId"] == Key(id)
  {
    var m, accept, n := MappingOf(Badges), AcceptAll(), Badge(name);
    var spec := m.lookup.value;
    assert spec == LookupSpec("Name", "BadgeType");
    assert LookupText(spec, n) == name;
    StepRecord(m, accept, rp, st, n);
    var res := ResolveIn(m, accept, st.db, st.cache, n, true);
    if name in st.cache {
      ResolveCached(spec, accept, st.db, st.cache, n, true);
    } else {
      ResolveNew(spec, accept, st.db, st.cache, n);
    }
    BadgeTypeIdPrecedence(n, res.value);
    var (db1, ok) := Execute(res.db, accept, m.className, Params.Params(m, n, res.value), true);
    TickDelivers(db1, st.rows, st.batches, st.preparedOn, rp);
  }

  /** Badges named x, x, y with x != y, as the code is written: the side
      table gains the rows x and y, and the main table three rows, the
      first two with the same type id and the third with another. */
  lemma RepeatThenNew(db: Db, x: string, y: string)
    requires x != y
    ensures var r := Load(MappingOf(Badges), AcceptAll(), false, db, map[], [Badge(x), Badge(x), Badge(y)]);
      && r.db.side == db.side + [x, y]
      && r.db.committed == db.committed + r.accepted
      && |r.accepted| == 3
      && (forall k :: 0 <= k < 3 ==> "BadgeTypeId" in r.accepted[k])
      && r.accepted[0]["BadgeTypeId"] == r.accepted[1]["BadgeTypeId"] == Key(|db.side| + 1)
      && r.accepted[2]["BadgeTypeId"] == Key(|db.side| + 2)
  {
    var m, accept := MappingOf(Badges), AcceptAll();
    var nodes := [Badge(x), Badge(x), Badge(y)];
    CountThree(Badge(x), Badge(x), Badge(y));
    LoadAgree(m, accept, db, map[], nodes);
    RunRepeatThenNew(db, x, y);
    BadgesWellFormed();
    LoadDelivers(m, accept, false, db, map[], nodes);
  }

  lemma CountThree(a: Node, b: Node, c: Node)
    requires IsRow(a) && IsRow(b) && IsRow(c)
    ensures CountRows([a, b, c]) == 3
  {
    assert [a][..0] == [];
    assert CountRows([a]) == 1;
    assert [a, b][..1] == [a];
    assert CountRows([a, b]) == 2;
    assert [a, b, c][..2] == [a, b];
  }

  /** The read loop over x, x, y from a fresh start. */
  lemma RunRepeatThenNew(db: Db, x: string, y: string)
    requires x != y
    ensures var r := RunAll(MappingOf(Badges), AcceptAll(), true, Start(db, map[]), [Badge(x), Badge(x), Badge(y)]);
      && r.db.side == db.side + [x, y]
      && |r.accepted| == 3
      && (forall k :: 0 <= k < 3 ==> "BadgeTypeId" in r.accepted[k])
      && r.accepted[0]["BadgeTypeId"] == r.accepted[1]["BadgeTypeId"] == Key(|db.side| + 1)
      && r.accepted[2]["BadgeTypeId"] == Key(|db.side| + 2)
  {
    var m, accept := MappingOf(Badges), AcceptAll();
    var s0 := Start(db, map[]);
    RunThree(m, accept, true, s0, Badge(x), Badge(x), Badge(y));
    var s2 := Step(m, accept, true, Step(m, accept, true, s0, Badge(x)), Badge(x));
    TwoSame(s0, x);
    ThirdBadge(s2, |db.side|, x, y);
  }

  /** A new name read after two rows of x: its own id, a second side row. */
  lemma ThirdBadge(s2: LoadState, base: nat, x: string, y: string)
    requires s2.db.open && Current(s2) && x != y
    requires |s2.db.side| == base + 1 && s2.cache == map[x := base + 1]
    requires |s2.accepted| == 2
    requires "BadgeTypeId" in s2.accepted[0] && "BadgeTypeId" in s2.accepted[1]
    requires s2.accepted[0]["BadgeTypeId"] == s2.accepted[1]["BadgeTypeId"] == Key(base + 1)
    ensures var s3 := Step(MappingOf(Badges), AcceptAll(), true, s2, Badge(y));
      && s3.db.side == s2.db.side + [y]
      && |s3.accepted| == 3
      && (forall k :: 0 <= k < 3 ==> "BadgeTypeId" in s3.accepted[k])
      && s3.accepted[0]["BadgeTypeId"] == s3.accepted[1]["BadgeTypeId"] == Key(base + 1)
      && s3.accepted[2]["BadgeTypeId"] == Key(base + 2)
  {
    assert y !in s2.cache;
    BadgeStep(true, s2, y);
    var s3 := Step(MappingOf(Badges), AcceptAll(), true, s2, Badge(y));
    assert s3.accepted[..2] == s2.accepted;
    assert s3.accepted[0] == s2.accepted[0] && s3.accepted[1] == s2.accepted[1];
  }

  /** The same badge name twice from an empty cache: one side row, two
      main rows with the same type id. */
  lemma TwoSame(s0: LoadState, x: string)
    requires s0.db.open && Current(s0) && s0.cache == map[] && s0.accepted == []
    ensures var m, accept := MappingOf(Badges), AcceptAll();
      var s2 := Step(m, accept, true, Step(m, accept, true, s0, Badge(x)), Badge(x));
      && s2.db.open && Current(s2)
      && s2.db.side == s0.db.side + [x]
      && s2.cache == map[x := |s0.db.side| + 1]
      && |s2.accepted| == 2
      && "BadgeTypeId" in s2.accepted[0] && "BadgeTypeId" in s2.accepted[1]
      && s2.accepted[0]["BadgeTypeId"] == s2.accepted[1]["BadgeTypeId"] == Key(|s0.db.side| + 1)
  {
    var m, accept := MappingOf(Badges), AcceptAll();
    var s1 := Step(m, accept, true, s0, Badge(x));
    BadgeStep(true, s0, x);
    StepCurrent(m, accept, s0, Badge(x));
    BadgeStep(true, s1, x);
    StepCurrent(m, accept, s1, Badge(x));
    var s2 := Step(m, accept, true, s1, Badge(x));
    assert s2.accepted[0] == s1.accepted[0];
  }

  lemma RunThree(m: Mapping, accept: Oracle, rp: bool, s0: LoadState, a: Node, b: Node, c: Node)
    requires s0.db.open
    ensures RunAll(m, accept, rp, s0, [a, b, c])
         == Step(m, accept, rp, Step(m, accept, rp, Step(m, accept, rp, s0, a), b), c)
  {
    RunSnoc(m, accept, rp, s0, [], a);
    RunSnoc(m, accept, rp, s0, [a], b);
    RunSnoc(m, accept, rp, s0, [a, b], c);
    assert [] + [a] == [a] && [a] + [b] == [a, b] && [a, b] + [c] == [a, b, c];
  }

  /** A Badges record read through stranded statements (prepared on an
      earlier connection, the current one having inserted nothing): a new
      name gets its side-table row, but the row binds and caches type id
      0, and it is committed at once while a transaction is open. */
  lemma StrandedStep(st: LoadState, name: string)
    requires st.db.open && !Current(st) && st.db.lastId == 0 && st.db.pending == [] && name !in st.cache
    ensures var r := Step(MappingOf(Badges), AcceptAll(), false, st, Badge(name));
      && r.db.side == st.db.side + [name]
      && r.cache == st.cache[name := 0]
      && |r.accepted| == |st.accepted| + 1
      && "BadgeTypeId" in r.accepted[|st.accepted|]
      && r.accepted[|st.accepted|]["BadgeTypeId"] == Key(0)
      && r.db.open && r.db.pending == []
      && r.db.committed == st.db.committed + [r.accepted[|st.accepted|]]
  {
    var m, accept, n := MappingOf(Badges), AcceptAll(), Badge(name);
    var spec := m.lookup.value;
    assert spec == LookupSpec("Name", "BadgeType");
    assert LookupText(spec, n) == name;
    StepRecord(m, accept, false, st, n);
    var res := ResolveIn(m, accept, st.db, st.cache, n, false);
    ResolveStale(spec, accept, st.db, st.cache, n);
    ResolveInCounters(m, accept, st.db, st.cache, n, false);
    BadgeTypeIdPrecedence(n, res.value);
    var params := Params.Params(m, n, res.value);
    var (db1, ok) := Execute(res.db, accept, m.className, params, false);
    TickDelivers(db1, st.rows, st.batches, st.preparedOn, false);
  }

  /** As written: the record that triggers the 80th threshold commit also
      reconnects; the next record's new badge name is bound and cached
      with type id 0 instead of the id of its side-table row (which is
      |side| + 2), and its row is committed outside the transaction. */
  lemma StrandedLookup(st: LoadState, x: string, y: string)
    requires st.db.open && Current(st) && st.rows == CommitEvery * RenewEvery - 1 && st.batches == RenewEvery - 1
    requires x != y && x !in st.cache && y !in st.cache
    ensures var m, accept := MappingOf(Badges), AcceptAll();
      var s2 := Step(m, accept, false, Step(m, accept, false, st, Badge(x)), Badge(y));
      && s2.db.side == st.db.side + [x, y]
      && y in s2.cache && s2.cache[y] == 0
      && |s2.accepted| == |st.accepted| + 2
      && "BadgeTypeId" in s2.accepted[|st.accepted| + 1]
      && s2.accepted[|st.accepted| + 1]["BadgeTypeId"] == Key(0)
      && s2.db.open && s2.db.pending == []
  {
    var m, accept := MappingOf(Badges), AcceptAll();
    var s1 := Step(m, accept, false, st, Badge(x));
    BadgeStep(false, st, x);
    StepRecord(m, accept, false, st, Badge(x));
    var res := ResolveIn(m, accept, st.db, st.cache, Badge(x), true);
    ResolveInCounters(m, accept, st.db, st.cache, Badge(x), true);
    var (db1, ok) := Execute(res.db, accept, m.className, Params.Params(m, Badge(x), res.value), true);
    RenewalStrands(db1, st.preparedOn);
    assert y !in s1.cache;
    StrandedStep(s1, y);
  }

  /** The same two records when the statements are prepared again after
      the reconnect: the new name gets the id of its own side-table row. */
  lemma ReprepareLookup(st: LoadState, x: string, y: string)
    requires st.db.open && Current(st) && st.rows == CommitEvery * RenewEvery - 1 && st.batches == RenewEvery - 1
    requires x != y && x !in st.cache && y !in st.cache
    ensures var m, accept := MappingOf(Badges), AcceptAll();
      var s2 := Step(m, accept, true, Step(m, accept, true, st, Badge(x)), Badge(y));
      && s2.db.side == st.db.side + [x, y]
      && y in s2.cache && s2.cache[y] == |st.db.side| + 2
      && |s2.accepted| == |st.accepted| + 2
      && "BadgeTypeId" in s2.accepted[|st.accepted| + 1]
      && s2.accepted[|st.accepted| + 1]["BadgeTypeId"] == Key(|st.db.side| + 2)
  {
    var m, accept := MappingOf(Badges), AcceptAll();
    var s1 := Step(m, accept, true, st, Badge(x));
    BadgeStep(true, st, x);
    StepCurrent(m, accept, st, Badge(x));
    assert y !in s1.cache;
    BadgeStep(true, s1, y);
  }

  /** The Scholar, Scholar, Editor example. */
  lemma ScholarScholarEditor(db: Db)
    ensures var r := Load(MappingOf(Badges), AcceptAll(), false, db, map[],
                          [Badge("Scholar"), Badge("Scholar"), Badge("Editor")]);
      && r.db.side == db.side + ["Scholar", "Editor"]
      && r.db.committed == db.committed + r.accepted
      && |r.accepted| == 3
      && (forall k :: 0 <= k < 3 ==> "BadgeTypeId" in r.accepted[k])
      && r.accepted[0]["BadgeTypeId"] == r.accepted[1]["BadgeTypeId"] != r.accepted[2]["BadgeTypeId"]
  {
    RepeatThenNew(db, "Scholar", "Editor");
  }
}
