/** Choosing the importer from the file name (lines 305-313): the base
    name of the path without ".xml", its first letter upper-cased, taken
    as a class name. PHP resolves class names without regard to case. */
module Selector {
  import opened Values
  import opened Schema
  import opened Sql

  /** The path without its trailing slashes. */
  function TrimSlashes(p: string): (r: string)
    ensures |r| <= |p| && r == p[..|r|]
    ensures r == [] || r[|r| - 1] != '/'
    ensures forall k :: |r| <= k < |p| ==> p[k] == '/'
    decreases |p|
  {
    if p != [] && p[|p| - 1] == '/' then TrimSlashes(p[..|p| - 1]) else p
  }

  /** The part of a path after its last slash. */
  function AfterSlash(p: string): (r: string)
    ensures |r| <= |p| && r == p[|p| - |r|..]
    ensures '/' !in r
    ensures |r| < |p| ==> p[|p| - |r| - 1] == '/'
    decreases |p|
  {
    if p == [] || p[|p| - 1] == '/' then []
    else AfterSlash(p[..|p| - 1]) + [p[|p| - 1]]
  }

  /** `basename($path, $suffix)`: the last component, trailing slashes
      ignored, without the suffix when it ends with it and is longer. */
  function Basename(p: string, suffix: string): (r: string)
    ensures '/' !in r
  {
    var b := AfterSlash(TrimSlashes(p));
    if |suffix| < |b| && b[|b| - |suffix|..] == suffix then b[..|b| - |suffix|] else b
  }

  function UpperChar(c: char): char {
    if 'a' <= c <= 'z' then (c as int - 32) as char else c
  }

  /** `ucfirst`. */
  function Ucfirst(s: string): (r: string)
  {
    if s == [] then [] else [UpperChar(s[0])] + s[1..]
  }

  /** The importer class name, lower-cased. */
  function LowerName(e: EntityType): string {
    Lower(MappingOf(e).className)
  }

  /** No two importers share a name, whatever the letter case. */
  lemma NamesDistinct(e1: EntityType, e2: EntityType)
    requires e1 != e2
    ensures LowerName(e1) != LowerName(e2)
  {
    var a, b := MappingOf(e1).className, MappingOf(e2).className;
    if |a| == |b| {
      assert LowerName(e1)[0] == LowerChar(a[0]) && LowerName(e2)[0] == LowerChar(b[0]);
    }
  }

  lemma AllNamesDistinct()
    ensures forall e1, e2 :: e1 != e2 ==> LowerName(e1) != LowerName(e2)
  {
    forall e1, e2 | e1 != e2 ensures LowerName(e1) != LowerName(e2) {
      NamesDistinct(e1, e2);
    }
  }

  /** `class_exists($classname)` restricted to the six importers: the one
      whose name matches without regard to case, if any. */
  function ClassFor(name: string): (r: Option<EntityType>)
    ensures forall e :: r == Some(e) <==> Lower(name) == LowerName(e)
  {
    var l := Lower(name);
    var r :=
      if l == LowerName(Users) then Some(Users)
      else if l == LowerName(Badges) then Some(Badges)
      else if l == LowerName(Posts) then Some(Posts)
      else if l == LowerName(Posthistory) then Some(Posthistory)
      else if l == LowerName(Comments) then Some(Comments)
      else if l == LowerName(Votes) then Some(Votes)
      else None;
    AllNamesDistinct();
    r
  }

  /** The importer chosen for a file. */
  function FileClass(path: string): Option<EntityType> {
    ClassFor(Ucfirst(Basename(path, ".xml")))
  }

  /** Upper-casing the first letter changes nothing once case is ignored. */
  lemma UcfirstCaseless(s: string)
    ensures Lower(Ucfirst(s)) == Lower(s)
  {
    var u := Ucfirst(s);
    forall k | 0 <= k < |s| ensures Lower(u)[k] == Lower(s)[k] {
      if k == 0 {
        assert LowerChar(UpperChar(s[0])) == LowerChar(s[0]);
      } else {
        assert u[k] == u[1..][k - 1] == s[1..][k - 1] == s[k];
      }
    }
  }

  lemma {:induction false} AfterSlashJoin(dir: string, name: string)
    requires '/' !in name
    ensures AfterSlash(dir + "/" + name) == name
    decreases |name|
  {
    var p := dir + "/" + name;
    if name == [] {
      assert p[|p| - 1] == '/';
    } else {
      var init := name[..|name| - 1];
      assert p[..|p| - 1] == dir + "/" + init;
      AfterSlashJoin(dir, init);
      assert init + [name[|name| - 1]] == name;
    }
  }

  lemma {:induction false} AfterSlashWhole(name: string)
    requires '/' !in name
    ensures AfterSlash(name) == name
    decreases |name|
  {
    if name != [] {
      var init := name[..|name| - 1];
      AfterSlashWhole(init);
      assert init + [name[|name| - 1]] == name;
    }
  }

  /** A file `<stem>.xml` in the working directory yields the stem. */
  lemma BasenameOfBareFile(stem: string)
    requires '/' !in stem && stem != []
    ensures Basename(stem + ".xml", ".xml") == stem
  {
    var b := stem + ".xml";
    assert b[|b| - 1] == 'l';
    assert TrimSlashes(b) == b;
    assert '/' !in b;
    AfterSlashWhole(b);
    assert b[|b| - 4..] == ".xml" && b[..|b| - 4] == stem;
  }

  /** A file `<dir>/<stem>.xml` yields the stem. */
  lemma BasenameOfFile(dir: string, stem: string)
    requires '/' !in stem && stem != []
    ensures Basename(dir + "/" + stem + ".xml", ".xml") == stem
  {
    var p := dir + "/" + stem + ".xml";
    assert p[|p| - 1] == 'l';
    assert TrimSlashes(p) == p;
    assert dir + "/" + (stem + ".xml") == p;
    assert '/' !in stem + ".xml";
    AfterSlashJoin(dir, stem + ".xml");
    var b := stem + ".xml";
    assert b[|b| - 4..] == ".xml" && b[..|b| - 4] == stem;
  }

  /** `<dir>/<stem>.xml` selects the importer whose name is the stem in any
      letter case, and only that one. */
  lemma FileSelects(dir: string, stem: string, e: EntityType)
    requires '/' !in stem && stem != []
    ensures FileClass(dir + "/" + stem + ".xml") == Some(e) <==> Lower(stem) == LowerName(e)
    ensures FileClass(stem + ".xml") == Some(e) <==> Lower(stem) == LowerName(e)
  {
    BasenameOfFile(dir, stem);
    BasenameOfBareFile(stem);
    UcfirstCaseless(stem);
  }
}
