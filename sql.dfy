/** The SQL text the importer prepares: the main insert built from the
    ordered destination columns, the side-table insert of a lookup, and
    the name of the sequence whose last value is the new lookup id. */
module Sql {
  import opened Values

  /** PHP `join(sep, parts)`. */
  function Join(sep: char, parts: seq<string>): string {
    if |parts| == 0 then ""
    else if |parts| == 1 then parts[0]
    else parts[0] + [sep] + Join(sep, parts[1..])
  }

  /** The position of the first `c` in `s`. */
  function IndexOf(s: string, c: char): (k: nat)
    requires c in s
    ensures k < |s| && s[k] == c && c !in s[..k]
  {
    if s[0] == c then 0 else 1 + IndexOf(s[1..], c)
  }

  /** PHP `explode(sep, s)`: the pieces of `s` between separators; never empty. */
  function Split(sep: char, s: string): (parts: seq<string>)
    ensures |parts| > 0
    decreases |s|
  {
    if sep !in s then [s]
    else
      var k := IndexOf(s, sep);
      [s[..k]] + Split(sep, s[k + 1..])
  }

  /** The characters from 'A' to 'z': the ASCII letters and a few
      punctuation marks, none of which the generated SQL uses as a
      delimiter. */
  predicate NameChar(c: char) {
    'A' <= c <= 'z'
  }

  /** A non-empty table or column name of such characters only. */
  predicate Word(s: string) {
    |s| > 0 && forall k :: 0 <= k < |s| ==> NameChar(s[k])
  }

  /** The statement placeholder of a column: `":" . $str`. */
  function Placeholder(column: string): string {
    ":" + column
  }

  /** `array_map(function ($str) { return ":".$str; }, $cols)`. */
  function Placeholders(cols: seq<string>): (ps: seq<string>)
  {
    seq(|cols|, k requires 0 <= k < |cols| => Placeholder(cols[k]))
  }

  /** prepareInsert: the parameterised insert of one row into `table`. */
  function InsertSql(table: string, cols: seq<string>): string {
    "INSERT INTO " + table + " (" + Join(',', cols) + ") VALUES ("
      + Join(',', Placeholders(cols)) + ")"
  }

  /** The side table of a lookup: `current($this->lookup) . "s"`. */
  function LookupTable(name: string): string {
    name + "s"
  }

  /** prepareLookupInsert: a one-column insert of the text into the side table. */
  function LookupInsertSql(name: string): string {
    "INSERT INTO " + LookupTable(name) + " (Description) VALUES (:Description)"
  }

  /** PHP `strtolower` on one character (ASCII letters only). */
  function LowerChar(c: char): char {
    if 'A' <= c <= 'Z' then (c as int + 32) as char else c
  }

  function Lower(s: string): (r: string)
  {
    seq(|s|, k requires 0 <= k < |s| => LowerChar(s[k]))
  }

  /** The sequence name handed to lastInsertId after a lookup insert. */
  function SequenceName(name: string): string {
    Lower(name + "s_" + name + "id_seq")
  }

  // ---------------------------------------------------------------------
  // Reading a statement back

  /** The parts of a parsed insert statement. */
  datatype InsertStatement = InsertStatement(table: string, columns: seq<string>, placeholders: seq<string>)

  function StripPrefix(p: string, s: string): Option<string> {
    if |p| <= |s| && s[..|p|] == p then Some(s[|p|..]) else None
  }

  /** Splits `s` before the first `c`: the text before it, and the rest from `c` on. */
  function Until(c: char, s: string): Option<(string, string)> {
    if c in s then var k := IndexOf(s, c); Some((s[..k], s[k..])) else None
  }

  /** Reads an `INSERT INTO t (c1,...,cn) VALUES (p1,...,pn)` statement back
      into its table, its column list and its placeholder list. */
  function ParseInsert(sql: string): Option<InsertStatement> {
    match StripPrefix("INSERT INTO ", sql)
    case None => None
    case Some(r1) =>
      match Until(' ', r1)
      case None => None
      case Some((table, r2)) =>
        match StripPrefix(" (", r2)
        case None => None
        case Some(r3) =>
          match Until(')', r3)
          case None => None
          case Some((colText, r4)) =>
            match StripPrefix(") VALUES (", r4)
            case None => None
            case Some(r5) =>
              if |r5| > 0 && r5[|r5| - 1] == ')' && ')' !in r5[..|r5| - 1] then
                Some(InsertStatement(table, Split(',', colText), Split(',', r5[..|r5| - 1])))
              else None
  }

  // ---------------------------------------------------------------------
  // Lemmas

  lemma StripPrefixConcat(p: string, t: string)
    ensures StripPrefix(p, p + t) == Some(t)
  {
    assert (p + t)[..|p|] == p;
    assert (p + t)[|p|..] == t;
  }

  lemma {:induction false} IndexOfConcat(a: string, c: char, t: string)
    requires c !in a
    ensures c in a + [c] + t && IndexOf(a + [c] + t, c) == |a|
  {
    assert (a + [c] + t)[|a|] == c;
    if a != [] {
      assert (a + [c] + t)[1..] == a[1..] + [c] + t;
      IndexOfConcat(a[1..], c, t);
    }
  }

  lemma UntilConcat(c: char, a: string, t: string)
    requires c !in a && |t| > 0 && t[0] == c
    ensures Until(c, a + t) == Some((a, t))
  {
    assert a + t == a + [c] + t[1..];
    IndexOfConcat(a, c, t[1..]);
    assert (a + t)[..|a|] == a;
    assert (a + t)[|a|..] == t;
  }

  /** Joined parts hold a character only if the separator or some part does. */
  lemma {:induction false} JoinFree(sep: char, parts: seq<string>, c: char)
    requires c != sep
    requires forall k :: 0 <= k < |parts| ==> c !in parts[k]
    ensures c !in Join(sep, parts)
  {
    if |parts| > 1 {
      JoinFree(sep, parts[1..], c);
    }
  }

  /** explode undoes join when no part holds the separator. */
  lemma {:induction false} SplitJoin(sep: char, parts: seq<string>)
    requires |parts| > 0
    requires forall k :: 0 <= k < |parts| ==> sep !in parts[k]
    ensures Split(sep, Join(sep, parts)) == parts
  {
    if |parts| > 1 {
      var rest := Join(sep, parts[1..]);
      IndexOfConcat(parts[0], sep, rest);
      var s := parts[0] + [sep] + rest;
      assert s[..|parts[0]|] == parts[0];
      assert s[|parts[0]| + 1..] == rest;
      SplitJoin(sep, parts[1..]);
      assert parts == [parts[0]] + parts[1..];
    }
  }

  lemma WordFree(s: string, c: char)
    requires Word(s) && !NameChar(c)
    ensures c !in s
  {
  }

  /** The statement reads back as the table, the columns in order and one
      placeholder per column, the k-th being ":" followed by column k. */
  lemma InsertRoundTrip(table: string, cols: seq<string>)
    requires Word(table) && |cols| > 0
    requires forall k :: 0 <= k < |cols| ==> Word(cols[k])
    ensures ParseInsert(InsertSql(table, cols)) == Some(InsertStatement(table, cols, Placeholders(cols)))
  {
    var ps := Placeholders(cols);
    var j1, j2 := Join(',', cols), Join(',', ps);
    forall k | 0 <= k < |cols| ensures ',' !in cols[k] && ')' !in cols[k] {
      WordFree(cols[k], ',');
      WordFree(cols[k], ')');
    }
    forall k | 0 <= k < |ps| ensures ',' !in ps[k] && ')' !in ps[k] {
      WordFree(cols[k], ',');
      WordFree(cols[k], ')');
      assert ps[k] == [':'] + cols[k];
    }
    JoinFree(',', cols, ')');
    JoinFree(',', ps, ')');
    WordFree(table, ' ');
    var r5 := j2 + ")";
    var r4 := ") VALUES (" + r5;
    var r3 := j1 + r4;
    var r2 := " (" + r3;
    var r1 := table + r2;
    assert InsertSql(table, cols) == "INSERT INTO " + r1;
    StripPrefixConcat("INSERT INTO ", r1);
    UntilConcat(' ', table, r2);
    StripPrefixConcat(" (", r3);
    UntilConcat(')', j1, r4);
    StripPrefixConcat(") VALUES (", r5);
    assert r5[..|r5| - 1] == j2;
    SplitJoin(',', cols);
    SplitJoin(',', ps);
  }

  /** The side-table insert is the one-column insert of `Description`. */
  lemma LookupInsertIsInsert(name: string)
    ensures LookupInsertSql(name) == InsertSql(LookupTable(name), ["Description"])
  {
    DescriptionPlaceholders();
    var t := LookupTable(name);
    var tail := " (" + "Description" + ") VALUES (" + ":Description" + ")";
    assert tail == " (Description) VALUES (:Description)";
    assert InsertSql(t, ["Description"]) == "INSERT INTO " + t + tail;
  }

  lemma DescriptionPlaceholders()
    ensures Placeholders(["Description"]) == [":Description"]
    ensures Join(',', ["Description"]) == "Description"
    ensures Join(',', [":Description"]) == ":Description"
  {
    var ps := Placeholders(["Description"]);
    assert ps[0] == ":" + "Description" == ":Description";
    assert ps == [ps[0]];
  }

  /** The side-table insert has exactly the column `Description` and the
      placeholder `:Description`. */
  lemma LookupInsertShape(name: string)
    requires Word(name)
    ensures ParseInsert(LookupInsertSql(name))
         == Some(InsertStatement(name + "s", ["Description"], [":Description"]))
  {
    LookupInsertIsInsert(name);
    DescriptionPlaceholders();
    assert Word("Description");
    var t := LookupTable(name);
    assert t[|name|] == 's';
    assert forall k :: 0 <= k < |name| ==> t[k] == name[k];
    InsertRoundTrip(t, ["Description"]);
  }

  lemma SequenceNameOfBadgeType()
    ensures SequenceName("BadgeType") == "badgetypes_badgetypeid_seq"
  {
  }
}
