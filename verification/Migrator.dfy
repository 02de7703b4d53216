/**
 Schema migration: scripts are applied in the order of their file names, each in one transaction together with the
 record of its version. A run may stop after any transaction.
 */
module Migrator {
  /** `executed` lists every script that took effect, in order; `versions` is the table of recorded versions. */
  datatype Database = Database(executed: seq<string>, versions: set<string>)

  /** One transaction: script and record, both or neither. */
  function Applied(db: Database, name: string): Database {
    Database(db.executed + [name], db.versions + {name})
  }

  /** The files not yet recorded, in order. */
  function Missing(files: seq<string>, versions: set<string>): seq<string> {
    if files == [] then []
    else (if files[0] in versions then [] else [files[0]]) + Missing(files[1..], versions)
  }

  function AppliedAll(db: Database, names: seq<string>): Database
    decreases |names|
  {
    if names == [] then db else AppliedAll(Applied(db, names[0]), names[1..])
  }

  predicate Distinct(s: seq<string>) {
    forall i, j :: 0 <= i < j < |s| ==> s[i] != s[j]
  }

  // ----- The list of scripts -----

  datatype DirEntry = DirEntry(name: string, isDir: bool)

  /** Lexicographic order of file names. */
  predicate Before(a: string, b: string)
    decreases |a|
  {
    b != [] && (a == [] || a[0] < b[0] || (a[0] == b[0] && Before(a[1..], b[1..])))
  }

  /** The first character in which the names differ decides, and a shorter name comes first. */
  ghost predicate IsLess(a: string, b: string) {
    exists k: nat :: k <= |a| && k < |b| && a[..k] == b[..k] && (k == |a| || a[k] < b[k])
  }

  lemma {:induction false} BeforeIsLess(a: string, b: string)
    ensures Before(a, b) <==> IsLess(a, b)
    decreases |a|
  {
    if a != [] && b != [] && a[0] == b[0] {
      BeforeIsLess(a[1..], b[1..]);
      if k: nat :|
        k <= |a[1..]| && k < |b[1..]| && a[1..][..k] == b[1..][..k] && (k == |a[1..]| || a[1..][k] < b[1..][k])
      {
        assert a[..k + 1] == [a[0]] + a[1..][..k] && b[..k + 1] == [b[0]] + b[1..][..k];
      }
      if k: nat :| k <= |a| && k < |b| && a[..k] == b[..k] && (k == |a| || a[k] < b[k]) {
        assert k > 0 && a[1..][..k - 1] == a[..k][1..] && b[1..][..k - 1] == b[..k][1..];
        assert k - 1 == |a[1..]| || a[1..][k - 1] < b[1..][k - 1];
      }
    } else if b != [] {
      assert a[..0] == b[..0];
      if k: nat :| k <= |a| && k < |b| && a[..k] == b[..k] && (k == |a| || a[k] < b[k]) {
        assert k > 0 ==> a[..k][0] == b[..k][0];
      }
    }
  }

  lemma {:induction false} BeforeIsTotal(a: string, b: string)
    ensures Before(a, b) || Before(b, a) || a == b
    ensures !(Before(a, b) && (Before(b, a) || a == b))
    decreases |a|
  {
    if a != [] && b != [] {
      BeforeIsTotal(a[1..], b[1..]);
      assert a == [a[0]] + a[1..] && b == [b[0]] + b[1..];
    }
  }

  lemma {:induction false} BeforeIsTransitive(a: string, b: string, c: string)
    requires Before(a, b) && Before(b, c)
    ensures Before(a, c)
    decreases |a|
  {
    if a != [] && a[0] == b[0] == c[0] {
      BeforeIsTransitive(a[1..], b[1..], c[1..]);
    }
  }

  predicate Ascending(s: seq<string>) {
    forall i, j :: 0 <= i < j < |s| ==> Before(s[i], s[j])
  }

  lemma AscendingIsDistinct(s: seq<string>)
    requires Ascending(s)
    ensures Distinct(s)
  {
    forall i, j | 0 <= i < j < |s| ensures s[i] != s[j] {
      BeforeIsTotal(s[i], s[j]);
    }
  }

  /** The files of a directory, as a set. */
  function FileNames(entries: seq<DirEntry>): set<string> {
    set e | e in entries && !e.isDir :: e.name
  }

  predicate DistinctNames(entries: seq<DirEntry>) {
    forall i, j :: 0 <= i < j < |entries| ==> entries[i].name != entries[j].name
  }

  function Elements(s: seq<string>): set<string> {
    set n | n in s
  }

  /** `name` put in its place. */
  function Inserted(name: string, s: seq<string>): seq<string> {
    if s == [] || Before(name, s[0]) then [name] + s else [s[0]] + Inserted(name, s[1..])
  }

  lemma {:induction false} InsertedInPlace(name: string, s: seq<string>)
    requires Ascending(s) && name !in s
    ensures Ascending(Inserted(name, s)) && Elements(Inserted(name, s)) == Elements(s) + {name}
  {
    var r := Inserted(name, s);
    if s == [] {
    } else if Before(name, s[0]) {
      forall j | 0 < j < |s| ensures Before(name, s[j]) {
        BeforeIsTransitive(name, s[0], s[j]);
      }
    } else {
      InsertedInPlace(name, s[1..]);
      BeforeIsTotal(name, s[0]);
      forall j | 0 < j < |r| ensures Before(r[0], r[j]) {
        assert r[j] in Elements(Inserted(name, s[1..]));
      }
      assert Elements(s) == {s[0]} + Elements(s[1..]);
      assert Elements(r) == {s[0]} + Elements(Inserted(name, s[1..]));
    }
  }

  /** The scripts of the embedded directory in ascending order, whatever order the directory lists them in. */
  method MigrationFiles(entries: seq<DirEntry>) returns (names: seq<string>)
    requires DistinctNames(entries)
    ensures Ascending(names) && forall i, j :: 0 <= i < j < |names| ==> IsLess(names[i], names[j])
    ensures forall n :: n in names <==> exists e :: e in entries && !e.isDir && e.name == n
  {
    names := [];
    for i := 0 to |entries|
      invariant Ascending(names) && Elements(names) == FileNames(entries[..i])
    {
      var e := entries[i];
      assert entries[..i + 1] == entries[..i] + [e];
      if !e.isDir {
        assert e.name !in FileNames(entries[..i]) && forall n :: n in names <==> n in Elements(names);
        InsertedInPlace(e.name, names);
        names := Inserted(e.name, names);
      }
    }
    assert entries[..|entries|] == entries;
    assert forall n :: n in names <==> n in Elements(names);
    forall i, j | 0 <= i < j < |names| ensures IsLess(names[i], names[j]) {
      BeforeIsLess(names[i], names[j]);
    }
  }

  /** Only one list is ascending and has these names. */
  lemma {:induction false} AscendingIsUnique(s: seq<string>, t: seq<string>)
    requires Ascending(s) && Ascending(t) && Elements(s) == Elements(t)
    ensures s == t
  {
    assert s != [] ==> s[0] in Elements(s);
    assert t != [] ==> t[0] in Elements(t);
    if s != [] && t != [] {
      AscendingIsDistinct(s);
      AscendingIsDistinct(t);
      SameLeast(s, t);
      assert Elements(s[1..]) == Elements(s) - {s[0]};
      assert Elements(t[1..]) == Elements(t) - {t[0]};
      AscendingIsUnique(s[1..], t[1..]);
    }
  }

  lemma SameLeast(s: seq<string>, t: seq<string>)
    requires s != [] && t != [] && Ascending(s) && Ascending(t) && Elements(s) == Elements(t)
    ensures s[0] == t[0]
  {
    BeforeIsTotal(s[0], t[0]);
    assert s[0] in Elements(t) && t[0] in Elements(s);
  }

  // ----- Running them -----

  /** What one run does. */
  function Migrated(db: Database, files: seq<string>, budget: nat): Database {
    var todo := Missing(files, db.versions);
    AppliedAll(db, if |todo| <= budget then todo else todo[..budget])
  }

  predicate Completes(db: Database, files: seq<string>, budget: nat) {
    |Missing(files, db.versions)| <= budget
  }

  class Migration {
    var db: Database

    constructor ()
      ensures db == Database([], {})
    {
      db := Database([], {});
    }

    /** A failing script or commit leaves no trace. */
    method ApplyMigration(name: string, works: bool) returns (ok: bool)
      modifies this`db
      ensures ok == works
      ensures db == if works then Applied(old(db), name) else old(db)
    {
      if !works {
        return false;
      }
      db := Database(db.executed + [name], db.versions + {name});
      return true;
    }

    /**
     Applies what is missing until everything is applied or `budget` transactions have gone through and the next
     one fails or the process dies.
     */
    method Migrate(entries: seq<DirEntry>, budget: nat) returns (ok: bool, files: seq<string>)
      requires DistinctNames(entries)
      modifies this`db
      ensures Ascending(files) && forall n :: n in files <==> exists e :: e in entries && !e.isDir && e.name == n
      ensures ok <==> Completes(old(db), files, budget)
      ensures db == Migrated(old(db), files, budget)
    {
      files := MigrationFiles(entries);
      var applied := db.versions;
      var done := 0;
      var i := 0;
      ghost var todo := Missing(files, applied);
      while i < |files|
        invariant 0 <= i <= |files| && done <= budget
        invariant done <= |todo| && todo[done..] == Missing(files[i..], applied)
        invariant db == AppliedAll(old(db), todo[..done])
      {
        var name := files[i];
        assert files[i..][0] == name && files[i..][1..] == files[i + 1..];
        if name !in applied {
          assert todo[done..] == [name] + Missing(files[i + 1..], applied);
          assert todo[done] == name && todo[done..][1..] == todo[done + 1..];
          var step := ApplyMigration(name, done < budget);
          if !step {
            return false, files;
          }
          AppliedOneMore(old(db), todo[..done], name);
          assert todo[..done + 1] == todo[..done] + [name];
          done := done + 1;
        }
        i := i + 1;
      }
      assert todo[..done] == todo;
      return true, files;
    }
  }

  lemma {:induction false} AppliedOneMore(db: Database, names: seq<string>, name: string)
    ensures AppliedAll(db, names + [name]) == Applied(AppliedAll(db, names), name)
    decreases |names|
  {
    if names == [] {
      assert names + [name] == [name] && [name][1..] == [];
    } else {
      assert (names + [name])[1..] == names[1..] + [name];
      AppliedOneMore(Applied(db, names[0]), names[1..], name);
    }
  }

  lemma {:induction false} AppliedAllIs(db: Database, names: seq<string>)
    ensures AppliedAll(db, names).executed == db.executed + names
    ensures AppliedAll(db, names).versions == db.versions + (set n | n in names)
    decreases |names|
  {
    if names != [] {
      AppliedAllIs(Applied(db, names[0]), names[1..]);
      assert forall n :: n in names <==> n == names[0] || n in names[1..];
    }
  }

  /** The versions recorded are those of the scripts executed. */
  ghost predicate Recorded(db: Database) {
    db.versions == set n | n in db.executed
  }

  /** The first scripts of the list have been executed, once each and in order. */
  ghost predicate AtPrefix(db: Database, files: seq<string>) {
    Recorded(db) && db.executed <= files
  }

  lemma {:induction false} MissingAfterPrefix(files: seq<string>, k: nat, versions: set<string>)
    requires Distinct(files) && k <= |files|
    requires forall i :: 0 <= i < |files| ==> (files[i] in versions <==> i < k)
    ensures Missing(files, versions) == files[k..]
  {
    if files != [] {
      var rest := files[1..];
      if k > 0 {
        MissingAfterPrefix(rest, k - 1, versions);
        assert files[k..] == rest[k - 1..];
      } else {
        MissingAfterPrefix(rest, 0, versions);
        assert files[0..] == [files[0]] + rest[0..];
      }
    }
  }

  lemma PrefixMissing(db: Database, files: seq<string>)
    requires Distinct(files) && AtPrefix(db, files)
    ensures Missing(files, db.versions) == files[|db.executed|..]
  {
    var k := |db.executed|;
    forall i | 0 <= i < |files| ensures files[i] in db.versions <==> i < k {
      assert forall j :: 0 <= j < k ==> db.executed[j] == files[j];
    }
    MissingAfterPrefix(files, k, db.versions);
  }

  /** An interrupted run moves the prefix forward; a completed one reaches the whole list. */
  lemma RunExtendsPrefix(db: Database, files: seq<string>, budget: nat)
    requires Distinct(files) && AtPrefix(db, files)
    ensures var db' := Migrated(db, files, budget);
            && AtPrefix(db', files) && db.executed <= db'.executed
            && (Completes(db, files, budget) <==> |files| - |db.executed| <= budget)
            && (Completes(db, files, budget) ==> db'.executed == files)
  {
    PrefixMissing(db, files);
    var todo := files[|db.executed|..];
    var names := if |todo| <= budget then todo else todo[..budget];
    AppliedAllIs(db, names);
    var db' := Migrated(db, files, budget);
    assert db'.executed == db.executed + names;
    assert db'.executed == files[..|db'.executed|];
    assert forall n :: n in db'.executed <==> n in db.executed || n in names;
  }

  function MigratedAll(db: Database, files: seq<string>, budgets: seq<nat>): Database
    decreases |budgets|
  {
    if budgets == [] then db else MigratedAll(Migrated(db, files, budgets[0]), files, budgets[1..])
  }

  /**
   Any number of runs, each stopped anywhere, then one that completes: every script has been executed exactly once,
   in order, and nothing happens afterwards.
   */
  lemma {:induction false} RecoversFromInterruptions(db: Database, files: seq<string>, budgets: seq<nat>,
                                                     last: nat, later: seq<nat>)
    requires Distinct(files) && AtPrefix(db, files)
    requires Completes(MigratedAll(db, files, budgets), files, last)
    ensures var done := Migrated(MigratedAll(db, files, budgets), files, last);
            && done == Database(files, set n | n in files)
            && MigratedAll(done, files, later) == done
    decreases |budgets|
  {
    if budgets == [] {
      RunExtendsPrefix(db, files, last);
      NothingLeft(Database(files, set n | n in files), files, later);
    } else {
      RunExtendsPrefix(db, files, budgets[0]);
      RecoversFromInterruptions(Migrated(db, files, budgets[0]), files, budgets[1..], last, later);
    }
  }

  lemma {:induction false} NothingLeft(db: Database, files: seq<string>, later: seq<nat>)
    requires Distinct(files) && AtPrefix(db, files) && db.executed == files
    ensures MigratedAll(db, files, later) == db
    decreases |later|
  {
    if later != [] {
      PrefixMissing(db, files);
      assert files[|files|..] == [];
      NothingLeft(db, files, later[1..]);
    }
  }

  /** A start that is not a prefix, a gap or a foreign script, is never repaired: the order stays wrong. */
  lemma OnlyPrefixesRecover(db: Database, files: seq<string>, budget: nat)
    requires Distinct(files) && Recorded(db) && Completes(db, files, budget)
    ensures Migrated(db, files, budget).executed == files <==> AtPrefix(db, files)
  {
    AppliedAllIs(db, Missing(files, db.versions));
    if AtPrefix(db, files) {
      RunExtendsPrefix(db, files, budget);
    } else {
      assert db.executed <= Migrated(db, files, budget).executed;
    }
  }
}
