/** Building the parameter array of one record (the body of the read loop
    before the insert): nulls for every column, then the class defaults,
    then the lookup id, then every truthy source attribute. */
module Params {
  import opened Values
  import opened Schema

  /** array_combine(array_values($attr), array_fill(0, n, null)). */
  function Nulls(cols: seq<string>): Row {
    map c | c in cols :: Null
  }

  /** `$defaultParams` as parameter values. */
  function DefaultRow(m: Mapping): Row {
    map c | c in m.defaults :: Str(m.defaults[c])
  }

  /** The parameters before the attributes are read: nulls, overlaid by
      the defaults (array_merge), and the lookup result under the lookup key. */
  function Base(m: Mapping, resolved: Value): Row {
    var row := Nulls(Columns(m)) + DefaultRow(m);
    match m.lookup
    case None => row
    case Some(spec) => row[LookupKey(spec) := resolved]
  }

  /** One pass of the attribute loop: a truthy attribute overwrites its column. */
  function Apply(row: Row, pair: (string, string), n: Node): Row {
    var a := GetAttribute(n, pair.0);
    if Truthy(a) then row[pair.1 := Str(a.value)] else row
  }

  /** The attribute loop over `attr` in order. */
  function Overlay(row: Row, attr: seq<(string, string)>, n: Node): Row
    decreases |attr|
  {
    if attr == [] then row
    else Apply(Overlay(row, attr[..|attr| - 1], n), attr[|attr| - 1], n)
  }

  /** The parameter array bound to the insert of record `n`; `resolved` is
      what lookup returned (ignored by classes without a lookup). */
  function Params(m: Mapping, n: Node, resolved: Value): Row {
    Overlay(Base(m, resolved), m.attr, n)
  }

  function ColumnSet(m: Mapping): set<string> {
    set c | c in Columns(m)
  }

  /** The value the importer's precedence picks for the k-th column: a
      truthy source attribute, else the lookup result for the lookup key,
      else the default, else null. */
  function Chosen(m: Mapping, n: Node, resolved: Value, k: nat): Value
    requires k < |m.attr|
  {
    var (src, col) := m.attr[k];
    var a := GetAttribute(n, src);
    if Truthy(a) then Str(a.value)
    else if m.lookup.Some? && col == LookupKey(m.lookup.value) then resolved
    else if col in m.defaults then Str(m.defaults[col])
    else Null
  }

  predicate DistinctColumns(attr: seq<(string, string)>) {
    forall a, b :: 0 <= a < b < |attr| ==> attr[a].1 != attr[b].1
  }

  // ---------------------------------------------------------------------
  // Lemmas

  /** The attribute loop writes only columns that are already keys. */
  lemma {:induction false} OverlayKeys(row: Row, attr: seq<(string, string)>, n: Node)
    requires forall k :: 0 <= k < |attr| ==> attr[k].1 in row
    ensures Overlay(row, attr, n).Keys == row.Keys
    decreases |attr|
  {
    if attr != [] {
      OverlayKeys(row, attr[..|attr| - 1], n);
    }
  }

  /** With distinct destination columns, a column ends up holding its
      attribute when that is truthy and its earlier value otherwise. */
  lemma {:induction false} OverlayAt(row: Row, attr: seq<(string, string)>, n: Node, k: nat)
    requires DistinctColumns(attr) && k < |attr|
    requires forall j :: 0 <= j < |attr| ==> attr[j].1 in row
    ensures attr[k].1 in Overlay(row, attr, n)
    ensures var a := GetAttribute(n, attr[k].0);
      Overlay(row, attr, n)[attr[k].1] == if Truthy(a) then Str(a.value) else row[attr[k].1]
    decreases |attr|
  {
    var init := attr[..|attr| - 1];
    OverlayKeys(row, init, n);
    if k < |attr| - 1 {
      OverlayAt(row, init, n, k);
    } else {
      OverlayKeys(row, init, n);
      OverlayUntouched(row, init, n, attr[k].1);
    }
  }

  /** A column no pair of `attr` names keeps its value. */
  lemma {:induction false} OverlayUntouched(row: Row, attr: seq<(string, string)>, n: Node, c: string)
    requires c in row
    requires forall j :: 0 <= j < |attr| ==> attr[j].1 != c
    ensures c in Overlay(row, attr, n) && Overlay(row, attr, n)[c] == row[c]
    decreases |attr|
  {
    if attr != [] {
      OverlayUntouched(row, attr[..|attr| - 1], n, c);
    }
  }

  lemma BaseKeys(m: Mapping, resolved: Value)
    requires WellFormed(m)
    ensures Base(m, resolved).Keys == ColumnSet(m)
  {
  }

  lemma BaseAt(m: Mapping, resolved: Value, k: nat)
    requires WellFormed(m) && k < |m.attr|
    ensures Columns(m)[k] in Base(m, resolved)
    ensures var col := Columns(m)[k];
      Base(m, resolved)[col] ==
        if m.lookup.Some? && col == LookupKey(m.lookup.value) then resolved
        else if col in m.defaults then Str(m.defaults[col])
        else Null
  {
  }

  /** Every parameter array has exactly the destination columns as keys:
      none missing, none added by the defaults or the lookup. */
  lemma ParamsColumns(m: Mapping, n: Node, resolved: Value)
    requires WellFormed(m)
    ensures Params(m, n, resolved).Keys == ColumnSet(m)
  {
    BaseKeys(m, resolved);
    OverlayKeys(Base(m, resolved), m.attr, n);
  }

  /** Each column holds the value the precedence order chooses. */
  lemma ParamsPrecedence(m: Mapping, n: Node, resolved: Value, k: nat)
    requires WellFormed(m) && k < |m.attr|
    ensures Columns(m)[k] in Params(m, n, resolved)
    ensures Params(m, n, resolved)[Columns(m)[k]] == Chosen(m, n, resolved, k)
  {
    BaseKeys(m, resolved);
    BaseAt(m, resolved, k);
    OverlayAt(Base(m, resolved), m.attr, n, k);
  }

  /** The whole parameter array: exactly the destination columns, each
      holding the value the precedence order chooses. */
  lemma ParamsChosen(m: Mapping, n: Node, resolved: Value)
    requires WellFormed(m)
    ensures Params(m, n, resolved).Keys == ColumnSet(m)
    ensures forall k :: 0 <= k < |m.attr| ==>
      Columns(m)[k] in Params(m, n, resolved) && Params(m, n, resolved)[Columns(m)[k]] == Chosen(m, n, resolved, k)
  {
    ParamsColumns(m, n, resolved);
    forall k | 0 <= k < |m.attr|
      ensures Columns(m)[k] in Params(m, n, resolved) && Params(m, n, resolved)[Columns(m)[k]] == Chosen(m, n, resolved, k)
    {
      ParamsPrecedence(m, n, resolved, k);
    }
  }

  /** A comment whose UserId is "0" gets the default user "-1". */
  lemma CommentWithUserZero(n: Node, resolved: Value)
    requires GetAttribute(n, "UserId") == Some("0")
    ensures var p := Params(MappingOf(Comments), n, resolved); "UserId" in p && p["UserId"] == Str("-1")
  {
    AllWellFormed(Comments);
    CommentsColumns();
    ParamsPrecedence(MappingOf(Comments), n, resolved, 2);
  }

  /** A column whose attribute is not truthy, that is not the lookup key
      and that has a default gets the default. */
  lemma DefaultWhenFalsy(m: Mapping, n: Node, resolved: Value, k: nat)
    requires WellFormed(m) && k < |m.attr|
    requires !Truthy(GetAttribute(n, m.attr[k].0))
    requires m.lookup.None? && m.attr[k].1 in m.defaults
    ensures var p := Params(m, n, resolved);
      m.attr[k].1 in p && p[m.attr[k].1] == Str(m.defaults[m.attr[k].1])
  {
    ParamsPrecedence(m, n, resolved, k);
  }

  lemma PostsScoreColumns()
    ensures MappingOf(Posts).lookup.None?
    ensures MappingOf(Posts).attr[5] == ("Score", "Score")
    ensures MappingOf(Posts).attr[6] == ("ViewCount", "ViewCount")
    ensures "Score" in MappingOf(Posts).defaults && MappingOf(Posts).defaults["Score"] == "0"
    ensures "ViewCount" in MappingOf(Posts).defaults && MappingOf(Posts).defaults["ViewCount"] == "0"
  {
  }

  /** A post without Score and ViewCount attributes gets "0" for both. */
  lemma PostWithoutCounts(n: Node, resolved: Value)
    requires "Score" !in n.attributes && "ViewCount" !in n.attributes
    ensures var p := Params(MappingOf(Posts), n, resolved);
      "Score" in p && "ViewCount" in p && p["Score"] == Str("0") && p["ViewCount"] == Str("0")
  {
    PostsWellFormed();
    PostsScoreColumns();
    DefaultWhenFalsy(MappingOf(Posts), n, resolved, 5);
    DefaultWhenFalsy(MappingOf(Posts), n, resolved, 6);
  }

  /** A badge's truthy BadgeTypeId attribute overrides the lookup result;
      otherwise the lookup result is bound. */
  lemma BadgeTypeIdPrecedence(n: Node, resolved: Value)
    ensures var p := Params(MappingOf(Badges), n, resolved); var a := GetAttribute(n, "BadgeTypeId");
      "BadgeTypeId" in p && p["BadgeTypeId"] == if Truthy(a) then Str(a.value) else resolved
  {
    AllWellFormed(Badges);
    BadgesColumns();
    assert LookupKey(MappingOf(Badges).lookup.value) == "BadgeTypeId";
    ParamsPrecedence(MappingOf(Badges), n, resolved, 1);
  }

  // ---------------------------------------------------------------------
  // The loop itself

  /** Lines 112-125 of the read loop, given the lookup result. */
  method BuildParams(m: Mapping, n: Node, resolved: Value) returns (params: Row)
    requires WellFormed(m)
    ensures params == Params(m, n, resolved)
    ensures params.Keys == ColumnSet(m)
    ensures forall k :: 0 <= k < |m.attr| ==> Columns(m)[k] in params && params[Columns(m)[k]] == Chosen(m, n, resolved, k)
  {
    var row := Nulls(Columns(m));
    row := row + DefaultRow(m);
    if m.lookup.Some? {
      row := row[LookupKey(m.lookup.value) := resolved];
    }
    assert row == Base(m, resolved);
    params := OverlayAttributes(row, m.attr, n);
    ParamsChosen(m, n, resolved);
  }

  /** Lines 121-125: every truthy source attribute overwrites its column. */
  method OverlayAttributes(row: Row, attr: seq<(string, string)>, n: Node) returns (params: Row)
    ensures params == Overlay(row, attr, n)
  {
    params := row;
    for i := 0 to |attr|
      invariant params == Overlay(row, attr[..i], n)
    {
      assert attr[..i + 1][..i] == attr[..i] && attr[..i + 1][i] == attr[i];
      var (k, v) := attr[i];
      var a := GetAttribute(n, k);
      if Truthy(a) {
        params := params[v := Str(a.value)];
      }
    }
    assert attr[..|attr|] == attr;
  }
}
