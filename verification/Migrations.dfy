/** The forward-only migration runner, with a failure possible at any statement. */
module Migrations {
  import opened Sets

  datatype Migration = Migration(version: int, statements: seq<string>)

  /** Where a run fails, if it does: opening the transaction of a migration, or at one of its points:
      each statement in turn, then the version bump, then the commit. */
  datatype Fault = NoFault | BeginFails(version: int) | FailsAt(version: int, point: nat)

  datatype Outcome = Reached(version: int) | Raised

  /** The schema is the sequence of statements that took effect; `commits` records committed versions. */
  datatype Db = Db(schema: seq<string>, userVersion: int, commits: seq<int>)

  const FRESH := Db([], 0, [])

  predicate Hits(fault: Fault, m: Migration) {
    match fault
    case NoFault => false
    case BeginFails(v) => v == m.version
    case FailsAt(v, point) => v == m.version && point <= |m.statements| + 1
  }

  function Commit(db: Db, m: Migration): Db {
    Db(db.schema + m.statements, m.version, db.commits + [m.version])
  }

  /** The rest of a run; a failing migration leaves the database as the previous one left it. */
  function RunFrom(db: Db, migrations: seq<Migration>, fault: Fault): (Db, Outcome)
    decreases |migrations|
  {
    if migrations == [] then (db, Reached(db.userVersion))
    else if migrations[0].version <= db.userVersion then RunFrom(db, migrations[1..], fault)
    else if Hits(fault, migrations[0]) then (db, Raised)
    else RunFrom(Commit(db, migrations[0]), migrations[1..], fault)
  }

  class Database {
    var schema: seq<string>
    var userVersion: int
    ghost var commits: seq<int>

    ghost function View(): Db
      reads this
    {
      Db(schema, userVersion, commits)
    }

    constructor ()
      ensures View() == FRESH
    {
      schema, userVersion, commits := [], 0, [];
    }

    /** One migration between BEGIN and COMMIT; any failure on the way rolls everything back. */
    method RunTransaction(m: Migration, fault: Fault) returns (committed: bool)
      requires fault != BeginFails(m.version)
      modifies this
      ensures committed == !Hits(fault, m)
      ensures View() == if committed then Commit(old(View()), m) else old(View())
    {
      var savedSchema, savedVersion := schema, userVersion;
      for j := 0 to |m.statements|
        invariant schema == savedSchema + m.statements[..j]
        invariant userVersion == savedVersion && commits == old(commits)
        invariant fault.FailsAt? && fault.version == m.version ==> fault.point >= j
      {
        if fault == FailsAt(m.version, j) {
          schema := savedSchema;
          return false;
        }
        schema := schema + [m.statements[j]];
        assert m.statements[..j + 1] == m.statements[..j] + [m.statements[j]];
      }
      assert m.statements[..|m.statements|] == m.statements;
      if fault != FailsAt(m.version, |m.statements|) {
        userVersion := m.version;
        if fault != FailsAt(m.version, |m.statements| + 1) {
          commits := commits + [m.version];
          return true;
        }
      }
      schema, userVersion := savedSchema, savedVersion;
      committed := false;
    }

    method MigrateToLatest(migrations: seq<Migration>, fault: Fault) returns (outcome: Outcome)
      modifies this
      ensures (View(), outcome) == RunFrom(old(View()), migrations, fault)
    {
      var current := userVersion;
      for i := 0 to |migrations|
        invariant current == userVersion
        invariant RunFrom(old(View()), migrations, fault) == RunFrom(View(), migrations[i..], fault)
      {
        var m := migrations[i];
        if m.version <= current {
          continue;
        }
        if fault == BeginFails(m.version) {
          return Raised;
        }
        var committed := RunTransaction(m, fault);
        if !committed {
          return Raised;
        }
        current := m.version;
      }
      outcome := Reached(current);
    }
  }

  // ---------------------------------------------------------------------------
  // Crash atomicity over any sequence of runs
  // ---------------------------------------------------------------------------

  ghost predicate Increasing(migrations: seq<Migration>) {
    forall i, j :: 0 <= i < j < |migrations| ==> migrations[i].version < migrations[j].version
  }

  /** The schema a database at `version` must have: all statements of exactly the migrations up to it. */
  function SchemaAt(migrations: seq<Migration>, version: int): seq<string> {
    if migrations == [] then []
    else (if 0 < migrations[0].version <= version then migrations[0].statements else [])
         + SchemaAt(migrations[1..], version)
  }

  function VersionsUpTo(migrations: seq<Migration>, version: int): seq<int> {
    if migrations == [] then []
    else (if 0 < migrations[0].version <= version then [migrations[0].version] else [])
         + VersionsUpTo(migrations[1..], version)
  }

  /** Every migration at or below `user_version` committed exactly once, in order, and nothing else did. */
  ghost predicate Consistent(db: Db, migrations: seq<Migration>) {
    && db.userVersion >= 0
    && db.schema == SchemaAt(migrations, db.userVersion)
    && db.commits == VersionsUpTo(migrations, db.userVersion)
  }

  lemma UpToCons(m: Migration, rest: seq<Migration>, version: int)
    ensures SchemaAt([m] + rest, version)
         == (if 0 < m.version <= version then m.statements else []) + SchemaAt(rest, version)
    ensures VersionsUpTo([m] + rest, version)
         == (if 0 < m.version <= version then [m.version] else []) + VersionsUpTo(rest, version)
  {
    assert ([m] + rest)[1..] == rest;
  }

  lemma {:induction false} SchemaConcat(a: seq<Migration>, b: seq<Migration>, version: int)
    ensures SchemaAt(a + b, version) == SchemaAt(a, version) + SchemaAt(b, version)
  {
    if a == [] {
      assert a + b == b;
    } else {
      var m, rest := a[0], a[1..];
      SchemaConcat(rest, b, version);
      UpToCons(m, rest + b, version);
      assert a + b == [m] + (rest + b);
      Associative(if 0 < m.version <= version then m.statements else [], SchemaAt(rest, version), SchemaAt(b, version));
    }
  }

  lemma {:induction false} VersionsConcat(a: seq<Migration>, b: seq<Migration>, version: int)
    ensures VersionsUpTo(a + b, version) == VersionsUpTo(a, version) + VersionsUpTo(b, version)
  {
    if a == [] {
      assert a + b == b;
    } else {
      var m, rest := a[0], a[1..];
      VersionsConcat(rest, b, version);
      UpToCons(m, rest + b, version);
      assert a + b == [m] + (rest + b);
      Associative(if 0 < m.version <= version then [m.version] else [],
                  VersionsUpTo(rest, version), VersionsUpTo(b, version));
    }
  }

  lemma UpToConcat(a: seq<Migration>, b: seq<Migration>, version: int)
    ensures SchemaAt(a + b, version) == SchemaAt(a, version) + SchemaAt(b, version)
    ensures VersionsUpTo(a + b, version) == VersionsUpTo(a, version) + VersionsUpTo(b, version)
  {
    SchemaConcat(a, b, version);
    VersionsConcat(a, b, version);
  }

  lemma OneUpTo(m: Migration, version: int)
    ensures SchemaAt([m], version) == if 0 < m.version <= version then m.statements else []
    ensures VersionsUpTo([m], version) == if 0 < m.version <= version then [m.version] else []
  {
    assert [m][1..] == [];
  }

  /** What an up-to list is worth at `version`, split around one migration. */
  lemma SplitUpTo(done: seq<Migration>, m: Migration, later: seq<Migration>, version: int)
    requires forall i :: 0 <= i < |later| ==> later[i].version > version
    ensures SchemaAt(done + [m] + later, version)
         == SchemaAt(done, version) + (if 0 < m.version <= version then m.statements else [])
    ensures VersionsUpTo(done + [m] + later, version)
         == VersionsUpTo(done, version) + (if 0 < m.version <= version then [m.version] else [])
  {
    UpToConcat(done + [m], later, version);
    UpToConcat(done, [m], version);
    OneUpTo(m, version);
    NothingUpTo(later, version);
  }

  lemma {:induction false} NothingUpTo(migrations: seq<Migration>, version: int)
    requires forall i :: 0 <= i < |migrations| ==> migrations[i].version > version
    ensures SchemaAt(migrations, version) == [] && VersionsUpTo(migrations, version) == []
  {
    if migrations != [] {
      NothingUpTo(migrations[1..], version);
    }
  }

  lemma {:induction false} UpToStable(migrations: seq<Migration>, v: int, w: int)
    requires v <= w
    requires forall i :: 0 <= i < |migrations| ==> !(v < migrations[i].version <= w)
    ensures SchemaAt(migrations, v) == SchemaAt(migrations, w)
    ensures VersionsUpTo(migrations, v) == VersionsUpTo(migrations, w)
  {
    if migrations != [] {
      UpToStable(migrations[1..], v, w);
    }
  }

  /** Committing the next migration of an increasing list keeps the database consistent. */
  lemma CommitKeepsConsistent(db: Db, done: seq<Migration>, m: Migration, later: seq<Migration>)
    requires Increasing(done + [m] + later) && Consistent(db, done + [m] + later)
    requires db.userVersion < m.version
    requires forall i :: 0 <= i < |done| ==> done[i].version <= db.userVersion
    ensures Consistent(Commit(db, m), done + [m] + later)
  {
    var all := done + [m] + later;
    var v, w := db.userVersion, m.version;
    forall i | 0 <= i < |later|
      ensures later[i].version > w
    {
      assert all[|done|] == m && all[|done| + 1 + i] == later[i];
    }
    SplitUpTo(done, m, later, v);
    SplitUpTo(done, m, later, w);
    UpToStable(done, v, w);
  }

  lemma {:induction false} RunFromKeepsConsistent(db: Db, done: seq<Migration>, rest: seq<Migration>, fault: Fault)
    requires Increasing(done + rest) && Consistent(db, done + rest)
    requires forall i :: 0 <= i < |done| ==> done[i].version <= db.userVersion
    ensures var (after, outcome) := RunFrom(db, rest, fault);
            && Consistent(after, done + rest)
            && after.userVersion >= db.userVersion
            && (outcome.Reached? ==> outcome.version == after.userVersion
                                     && forall i :: 0 <= i < |rest| ==> rest[i].version <= after.userVersion)
            && (fault.NoFault? ==> outcome.Reached?)
    decreases |rest|
  {
    if rest != [] {
      var m, later := rest[0], rest[1..];
      assert done + rest == done + [m] + later && done + [m] + later == (done + [m]) + later;
      if m.version <= db.userVersion {
        RunFromKeepsConsistent(db, done + [m], later, fault);
      } else if !Hits(fault, m) {
        CommitKeepsConsistent(db, done, m, later);
        RunFromKeepsConsistent(Commit(db, m), done + [m], later, fault);
      }
    }
  }

  /** What a run over one migration does: nothing if the database is not older, nothing if it fails, and otherwise its
      statements, its version and one commit. */
  lemma OneMigration(db: Db, m: Migration, fault: Fault)
    ensures RunFrom(db, [m], fault)
         == if m.version <= db.userVersion then (db, Reached(db.userVersion))
            else if fault == BeginFails(m.version)
                 || (fault.FailsAt? && fault.version == m.version && fault.point <= |m.statements| + 1)
            then (db, Raised)
            else (Db(db.schema + m.statements, m.version, db.commits + [m.version]), Reached(m.version))
  {
    assert [m][1..] == [];
    var after := Commit(db, m);
    assert RunFrom(after, [], fault) == (after, Reached(after.userVersion));
  }

  /** A run goes through its list from left to right, and stops where it fails. */
  lemma {:induction false} RunsInTurn(db: Db, first: seq<Migration>, second: seq<Migration>, fault: Fault)
    ensures RunFrom(db, first + second, fault)
         == if RunFrom(db, first, fault).1.Raised? then RunFrom(db, first, fault)
            else RunFrom(RunFrom(db, first, fault).0, second, fault)
    decreases |first|
  {
    if first == [] {
      assert first + second == second;
    } else {
      var m := first[0];
      assert (first + second)[1..] == first[1..] + second;
      RunsInTurn(if m.version <= db.userVersion then db else Commit(db, m), first[1..], second, fault);
    }
  }

  /** The run comes to this migration and fails at it: its version is newer than the database, and the fault is the
      opening of its transaction or one of its points. */
  predicate FailsFirstAt(db: Db, migrations: seq<Migration>, fault: Fault, i: nat)
    requires i < |migrations|
  {
    var m := migrations[i];
    && m.version > db.userVersion
    && (fault == BeginFails(m.version)
        || (fault.FailsAt? && fault.version == m.version && fault.point <= |m.statements| + 1))
  }

  /** Over an increasing list a run that fails has done exactly what a clean run over the migrations before the failing
      one does. */
  lemma {:induction false} FailedRunExactly(db: Db, migrations: seq<Migration>, fault: Fault, i: nat)
    requires Increasing(migrations) && i < |migrations| && FailsFirstAt(db, migrations, fault, i)
    ensures RunFrom(db, migrations, fault) == (RunFrom(db, migrations[..i], NoFault).0, Raised)
    decreases |migrations|
  {
    var m, rest := migrations[0], migrations[1..];
    if i > 0 {
      assert m.version < migrations[i].version;
      assert rest[i - 1] == migrations[i] && migrations[..i] == [m] + rest[..i - 1];
      FailedRunExactly(if m.version <= db.userVersion then db else Commit(db, m), rest, fault, i - 1);
    }
  }

  /** A run with no migration to fail at is a clean run. */
  lemma {:induction false} UndisturbedRunIsClean(db: Db, migrations: seq<Migration>, fault: Fault)
    requires forall i :: 0 <= i < |migrations| ==> !FailsFirstAt(db, migrations, fault, i)
    ensures RunFrom(db, migrations, fault) == RunFrom(db, migrations, NoFault)
    decreases |migrations|
  {
    if migrations != [] {
      var m, rest := migrations[0], migrations[1..];
      var next := if m.version <= db.userVersion then db else Commit(db, m);
      assert !FailsFirstAt(db, migrations, fault, 0);
      forall i | 0 <= i < |rest|
        ensures !FailsFirstAt(next, rest, fault, i)
      {
        assert rest[i] == migrations[i + 1] && !FailsFirstAt(db, migrations, fault, i + 1);
      }
      UndisturbedRunIsClean(next, rest, fault);
    }
  }

  function RunAll(db: Db, migrations: seq<Migration>, faults: seq<Fault>): Db
    decreases |faults|
  {
    if faults == [] then db else RunAll(RunFrom(db, migrations, faults[0]).0, migrations, faults[1..])
  }

  /** After any sequence of runs from a fresh database, each failing anywhere or not at all, the schema is
      exactly that of its version and every migration up to it committed exactly once. */
  lemma AnyRunsStayConsistent(migrations: seq<Migration>, faults: seq<Fault>)
    requires Increasing(migrations)
    ensures Consistent(RunAll(FRESH, migrations, faults), migrations)
  {
    FreshConsistent(migrations);
    RunsStayConsistent(FRESH, migrations, faults);
  }

  lemma {:induction false} FreshConsistent(migrations: seq<Migration>)
    ensures Consistent(FRESH, migrations)
  {
    if migrations != [] {
      FreshConsistent(migrations[1..]);
    }
  }

  lemma {:induction false} RunsStayConsistent(db: Db, migrations: seq<Migration>, faults: seq<Fault>)
    requires Increasing(migrations) && Consistent(db, migrations)
    ensures Consistent(RunAll(db, migrations, faults), migrations)
    decreases |faults|
  {
    if faults != [] {
      assert [] + migrations == migrations;
      RunFromKeepsConsistent(db, [], migrations, faults[0]);
      RunsStayConsistent(RunFrom(db, migrations, faults[0]).0, migrations, faults[1..]);
    }
  }

  function LatestVersion(migrations: seq<Migration>): int {
    if migrations == [] then 0 else migrations[|migrations| - 1].version
  }

  lemma {:induction false} VersionStaysInList(db: Db, migrations: seq<Migration>, fault: Fault, bound: int)
    requires db.userVersion <= bound && forall i :: 0 <= i < |migrations| ==> migrations[i].version <= bound
    ensures RunFrom(db, migrations, fault).0.userVersion <= bound
    decreases |migrations|
  {
    if migrations != [] {
      var m := migrations[0];
      VersionStaysInList(if m.version <= db.userVersion then db else Commit(db, m), migrations[1..], fault, bound);
    }
  }

  /** Where a failure-free run ends: the latest version, or the database's own if that is newer. */
  function Head(db: Db, migrations: seq<Migration>): int {
    if migrations == [] || LatestVersion(migrations) < db.userVersion then db.userVersion
    else LatestVersion(migrations)
  }

  lemma EndsAtHead(db: Db, migrations: seq<Migration>, version: int)
    requires Increasing(migrations)
    requires db.userVersion <= version <= Head(db, migrations)
    requires forall i :: 0 <= i < |migrations| ==> migrations[i].version <= version
    ensures version == Head(db, migrations)
  {
  }

  lemma HeadBounds(db: Db, migrations: seq<Migration>)
    requires Increasing(migrations)
    ensures db.userVersion <= Head(db, migrations)
    ensures forall i :: 0 <= i < |migrations| ==> migrations[i].version <= Head(db, migrations)
  {
  }

  lemma CleanRunFrom(db: Db, migrations: seq<Migration>)
    requires Increasing(migrations) && Consistent(db, migrations)
    ensures var after := RunFrom(db, migrations, NoFault).0;
            && RunFrom(db, migrations, NoFault).1 == Reached(Head(db, migrations))
            && after.userVersion == Head(db, migrations)
            && Consistent(after, migrations)
            && forall i :: 0 <= i < |migrations| ==> migrations[i].version <= after.userVersion
  {
    assert [] + migrations == migrations;
    RunFromKeepsConsistent(db, [], migrations, NoFault);
    HeadBounds(db, migrations);
    VersionStaysInList(db, migrations, NoFault, Head(db, migrations));
    EndsAtHead(db, migrations, RunFrom(db, migrations, NoFault).0.userVersion);
  }

  /** One failure-free run from any reachable state ends at the latest version with the full schema, or
      leaves a database that is already newer alone; a further run changes nothing. */
  lemma CleanRunReachesHead(migrations: seq<Migration>, faults: seq<Fault>)
    requires Increasing(migrations)
    ensures var db := RunAll(FRESH, migrations, faults);
            var after := RunFrom(db, migrations, NoFault).0;
            && RunFrom(db, migrations, NoFault).1 == Reached(Head(db, migrations))
            && after.userVersion == Head(db, migrations)
            && Consistent(after, migrations)
            && RunFrom(after, migrations, NoFault) == (after, Reached(Head(db, migrations)))
  {
    var db := RunAll(FRESH, migrations, faults);
    AnyRunsStayConsistent(migrations, faults);
    CleanRunFrom(db, migrations);
    AtHeadNothingRuns(RunFrom(db, migrations, NoFault).0, migrations);
  }

  lemma {:induction false} AtHeadNothingRuns(db: Db, migrations: seq<Migration>)
    requires forall i :: 0 <= i < |migrations| ==> migrations[i].version <= db.userVersion
    ensures RunFrom(db, migrations, NoFault) == (db, Reached(db.userVersion))
    decreases |migrations|
  {
    if migrations != [] {
      AtHeadNothingRuns(db, migrations[1..]);
    }
  }

  /** Appending migrations is safe: a database consistent with the old list is consistent with the new. */
  lemma AppendingIsSafe(db: Db, shipped: seq<Migration>, added: seq<Migration>)
    requires Consistent(db, shipped)
    requires forall i :: 0 <= i < |added| ==> added[i].version > db.userVersion
    ensures Consistent(db, shipped + added)
  {
    UpToConcat(shipped, added, db.userVersion);
    NothingUpTo(added, db.userVersion);
  }

  // ---------------------------------------------------------------------------
  // Lists that are not in order
  // ---------------------------------------------------------------------------

  /** The migrations a clean run applies: those newer than everything before them. */
  function Applied(migrations: seq<Migration>, version: int): nat {
    if migrations == [] then 0
    else if migrations[0].version <= version then Applied(migrations[1..], version)
    else 1 + Applied(migrations[1..], migrations[0].version)
  }

  lemma {:induction false} CleanRunCommits(db: Db, migrations: seq<Migration>)
    ensures |RunFrom(db, migrations, NoFault).0.commits| == |db.commits| + Applied(migrations, db.userVersion)
    decreases |migrations|
  {
    if migrations != [] {
      var m := migrations[0];
      CleanRunCommits(if m.version <= db.userVersion then db else Commit(db, m), migrations[1..]);
    }
  }

  /** Every migration is applied if and only if the versions increase strictly from the start. */
  lemma {:induction false} AllAppliedExactly(migrations: seq<Migration>, version: int)
    ensures Applied(migrations, version) <= |migrations|
    ensures Applied(migrations, version) == |migrations| <==>
              Increasing(migrations) && (migrations != [] ==> version < migrations[0].version)
  {
    if migrations != [] {
      var first, rest := migrations[0], migrations[1..];
      AllAppliedExactly(rest, if first.version <= version then version else first.version);
      IncreasingExactly(first, rest);
      assert migrations == [first] + rest;
    }
  }

  lemma IncreasingExactly(first: Migration, rest: seq<Migration>)
    ensures Increasing([first] + rest) <==> Increasing(rest) && (rest != [] ==> first.version < rest[0].version)
  {
    if Increasing([first] + rest) {
      IncreasingTail(first, rest);
    } else if Increasing(rest) && (rest != [] ==> first.version < rest[0].version) {
      IncreasingCons(first, rest);
    }
  }

  lemma IncreasingTail(first: Migration, rest: seq<Migration>)
    requires Increasing([first] + rest)
    ensures Increasing(rest) && (rest != [] ==> first.version < rest[0].version)
  {
    var all := [first] + rest;
    forall i, j | 0 <= i < j < |rest|
      ensures rest[i].version < rest[j].version
    {
      assert all[i + 1].version < all[j + 1].version;
    }
    if rest != [] {
      assert all[0].version < all[1].version;
    }
  }

  lemma IncreasingCons(first: Migration, rest: seq<Migration>)
    requires Increasing(rest) && (rest != [] ==> first.version < rest[0].version)
    ensures Increasing([first] + rest)
  {
    var all := [first] + rest;
    forall i, j | 0 <= i < j < |all|
      ensures all[i].version < all[j].version
    {
      if i == 0 {
        if j > 1 {
          assert rest[0].version < rest[j - 1].version;
        }
      } else {
        assert rest[i - 1].version < rest[j - 1].version;
      }
    }
  }

  lemma {:induction false} CleanRunPassesAll(db: Db, migrations: seq<Migration>)
    ensures var v := RunFrom(db, migrations, NoFault).0.userVersion;
            v >= db.userVersion && forall i :: 0 <= i < |migrations| ==> migrations[i].version <= v
    decreases |migrations|
  {
    if migrations != [] {
      var m := migrations[0];
      CleanRunPassesAll(if m.version <= db.userVersion then db else Commit(db, m), migrations[1..]);
      forall i | 0 <= i < |migrations|
        ensures migrations[i].version <= RunFrom(db, migrations, NoFault).0.userVersion
      {
        assert i > 0 ==> migrations[i] == migrations[1..][i - 1];
      }
    }
  }

  lemma {:induction false} AllVersionsUpTo(migrations: seq<Migration>, version: int)
    requires forall i :: 0 <= i < |migrations| ==> 0 < migrations[i].version <= version
    ensures |VersionsUpTo(migrations, version)| == |migrations|
  {
    if migrations != [] {
      AllVersionsUpTo(migrations[1..], version);
    }
  }

  /** The order of the list matters, exactly: for positive versions a clean run from a fresh database applies
      every migration up to the version it ends at if and only if the versions increase strictly. */
  lemma OrderMattersExactly(migrations: seq<Migration>)
    requires forall i :: 0 <= i < |migrations| ==> migrations[i].version > 0
    ensures Consistent(RunFrom(FRESH, migrations, NoFault).0, migrations) <==> Increasing(migrations)
  {
    var after := RunFrom(FRESH, migrations, NoFault).0;
    if Increasing(migrations) {
      FreshConsistent(migrations);
      CleanRunFrom(FRESH, migrations);
    }
    if Consistent(after, migrations) {
      CleanRunPassesAll(FRESH, migrations);
      AllVersionsUpTo(migrations, after.userVersion);
      CleanRunCommits(FRESH, migrations);
      AllAppliedExactly(migrations, 0);
    }
  }
}
