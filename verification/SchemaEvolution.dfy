/** The schema evolver of a SQLite database: mutation files sorted by name, versioned by position, applied
    in one transaction. */
module SchemaEvolution {
  import opened Prelude
  import Lex

  /** A directory entry and its contents. */
  datatype Entry = Entry(name: string, changes: string)

  datatype Mutation = Mutation(version: nat, changes: string)

  /** Everything a mutation can touch, and the row of schema_version once the table exists. */
  datatype Database<S> = Database(schema: S, version: Option<int>)

  /** What running a mutation's SQL does to the schema; None is an SQL error. */
  type Executor<!S> = (S, string) -> Option<S>

  /** Which steps outside the evolver's control fail during one run. */
  datatype Faults = Faults(
    check: bool, create: bool, scan: bool, readDir: bool, backup: bool, begin: bool, commit: bool,
    badInfo: set<string>, badRead: set<string>, badExec: set<nat>, badUpdate: set<nat>)

  const NO_FAULTS := Faults(false, false, false, false, false, false, false, {}, {}, {}, {})

  datatype Stage = Ensuring | Scanning | Loading | BackingUp | Beginning | Applying | Updating | Committing

  // ---------------------------------------------------------------- directories

  /** Entries are sorted by their names. */
  const NAME: Entry -> string := (e: Entry) => e.name

  ghost predicate Directory(dir: seq<Entry>) {
    Lex.DistinctKeys(dir, NAME)
  }

  function Ordered(dir: seq<Entry>): seq<Entry> {
    Lex.Sort(dir, NAME)
  }

  predicate IsSql(name: string) {
    |name| >= 4 && name[|name| - 4..] == ".sql"
  }

  /** The mutations of the first n entries: each .sql file, versioned by its 1-based rank among all entries. */
  function Mutations(es: seq<Entry>, n: nat): seq<Mutation>
    requires n <= |es|
  {
    if n == 0 then []
    else Mutations(es, n - 1) + if IsSql(es[n - 1].name) then [Mutation(n, es[n - 1].changes)] else []
  }

  /** The rank of the last .sql file among the first n entries, 0 when there is none. */
  function LastRank(es: seq<Entry>, n: nat): nat
    requires n <= |es|
  {
    if n == 0 then 0 else if IsSql(es[n - 1].name) then n else LastRank(es, n - 1)
  }

  /** The mutations a database at version v still lacks. */
  function Pending(ms: seq<Mutation>, v: int): seq<Mutation>
    decreases ms
  {
    if ms == [] then []
    else (if v >= 0 && ms[0].version > v then [ms[0]] else []) + Pending(ms[1..], v)
  }

  // ---------------------------------------------------------------- one run

  predicate Readable(e: Entry, f: Faults) {
    e.name !in f.badInfo && (IsSql(e.name) ==> e.name !in f.badRead)
  }

  predicate Loads(es: seq<Entry>, f: Faults) {
    !f.readDir && forall i :: 0 <= i < |es| ==> Readable(es[i], f)
  }

  /** The transaction: the pending mutations in order, each followed by the update of the version row. */
  function Transact<S>(exec: Executor<S>, f: Faults, db: Database<S>, todo: seq<Mutation>): Result<Database<S>, Stage>
    decreases todo
  {
    if todo == [] then Success(db)
    else
      var m := todo[0];
      var next := exec(db.schema, m.changes);
      if next.None? || m.version in f.badExec then Failure(Applying)
      else if m.version in f.badUpdate then Failure(Updating)
      else Transact(exec, f, Database(next.value, Some(m.version)), todo[1..])
  }

  /** The database once the version table is known to exist. */
  function Ensured<S>(db: Database<S>): Database<S> {
    if db.version.None? then db.(version := Some(0)) else db
  }

  /** One call of MutateSchema: the database it leaves, and where it failed if it did. */
  function Evolve<S>(exec: Executor<S>, f: Faults, backup: bool, db: Database<S>, dir: seq<Entry>)
    : (Database<S>, Option<Stage>)
  {
    if f.check || (db.version.None? && f.create) then (db, Some(Ensuring))
    else
      var ready := Ensured(db);
      if f.scan then (ready, Some(Scanning))
      else if !Loads(Ordered(dir), f) then (ready, Some(Loading))
      else if backup && f.backup then (ready, Some(BackingUp))
      else if f.begin then (ready, Some(Beginning))
      else
        var all := Mutations(Ordered(dir), |Ordered(dir)|);
        match Transact(exec, f, ready, Pending(all, ready.version.value))
        case Failure(stage) => (ready, Some(stage))
        case Success(done) => if f.commit then (ready, Some(Committing)) else (done, None)
  }

  // ---------------------------------------------------------------- what a run does

  /** The schema after running a list of SQL texts in order, None if one of them fails. */
  function ExecAll<S>(exec: Executor<S>, schema: S, changes: seq<string>): Option<S>
    decreases changes
  {
    if changes == [] then Some(schema)
    else
      var next := exec(schema, changes[0]);
      if next.None? then None else ExecAll(exec, next.value, changes[1..])
  }

  function Changes(ms: seq<Mutation>): (cs: seq<string>)
    ensures |cs| == |ms| && forall i :: 0 <= i < |ms| ==> cs[i] == ms[i].changes
  {
    seq(|ms|, i requires 0 <= i < |ms| => ms[i].changes)
  }

  /** The mutations a run from version v applies to this directory. */
  function Todo(dir: seq<Entry>, v: int): seq<Mutation> {
    Pending(Mutations(Ordered(dir), |Ordered(dir)|), v)
  }

  function Latest(dir: seq<Entry>): nat {
    LastRank(Ordered(dir), |Ordered(dir)|)
  }

  lemma {:induction false} TransactRunsAll<S>(exec: Executor<S>, f: Faults, db: Database<S>, todo: seq<Mutation>)
    requires Transact(exec, f, db, todo).Success?
    ensures var done := Transact(exec, f, db, todo).value;
            && ExecAll(exec, db.schema, Changes(todo)) == Some(done.schema)
            && done.version == (if todo == [] then db.version else Some(todo[|todo| - 1].version))
    decreases todo
  {
    if todo != [] {
      var next := exec(db.schema, todo[0].changes);
      TransactRunsAll(exec, f, Database(next.value, Some(todo[0].version)), todo[1..]);
      assert Changes(todo)[1..] == Changes(todo[1..]);
    }
  }

  lemma {:induction false} TransactSucceeds<S>(exec: Executor<S>, db: Database<S>, todo: seq<Mutation>)
    ensures Transact(exec, NO_FAULTS, db, todo).Success? <==> ExecAll(exec, db.schema, Changes(todo)).Some?
    decreases todo
  {
    if todo != [] {
      var next := exec(db.schema, todo[0].changes);
      assert Changes(todo)[1..] == Changes(todo[1..]);
      if next.Some? {
        TransactSucceeds(exec, Database(next.value, Some(todo[0].version)), todo[1..]);
      }
    }
  }

  lemma {:induction false} PendingAppend(a: seq<Mutation>, b: seq<Mutation>, v: int)
    ensures Pending(a + b, v) == Pending(a, v) + Pending(b, v)
    decreases a
  {
    if a == [] {
      assert a + b == b;
    } else {
      assert (a + b)[0] == a[0] && (a + b)[1..] == a[1..] + b;
      PendingAppend(a[1..], b, v);
      var first := if v >= 0 && a[0].version > v then [a[0]] else [];
      assert Pending(a + b, v) == first + Pending(a[1..] + b, v);
      assert first + (Pending(a[1..], v) + Pending(b, v)) == first + Pending(a[1..], v) + Pending(b, v);
    }
  }

  predicate Lacks(es: seq<Entry>, n: nat, v: int)
    requires 0 < n <= |es|
  {
    0 <= v < n && IsSql(es[n - 1].name)
  }

  lemma PendingStep(es: seq<Entry>, n: nat, v: int)
    requires 0 < n <= |es|
    ensures Pending(Mutations(es, n), v) ==
            Pending(Mutations(es, n - 1), v) + if Lacks(es, n, v) then [Mutation(n, es[n - 1].changes)] else []
  {
    var last := if IsSql(es[n - 1].name) then [Mutation(n, es[n - 1].changes)] else [];
    PendingAppend(Mutations(es, n - 1), last, v);
    if last != [] {
      assert last[1..] == [];
    }
  }

  /** The pending mutations counted off by rank. */
  function ByRank(es: seq<Entry>, n: nat, v: int): seq<Mutation>
    requires n <= |es|
  {
    if n == 0 then []
    else ByRank(es, n - 1, v) + if Lacks(es, n, v) then [Mutation(n, es[n - 1].changes)] else []
  }

  lemma {:induction false} PendingByRank(es: seq<Entry>, n: nat, v: int)
    requires n <= |es|
    ensures Pending(Mutations(es, n), v) == ByRank(es, n, v)
  {
    if n > 0 {
      PendingStep(es, n, v);
      PendingByRank(es, n - 1, v);
    }
  }

  lemma {:induction false} ByRankMember(es: seq<Entry>, n: nat, v: int, m: Mutation)
    requires n <= |es|
    ensures m in ByRank(es, n, v) <==>
            0 < m.version <= n && Lacks(es, m.version, v) && m.changes == es[m.version - 1].changes
  {
    if n > 0 {
      ByRankMember(es, n - 1, v, m);
    }
  }

  ghost predicate AscendingVersions(ms: seq<Mutation>) {
    forall i, j :: 0 <= i < j < |ms| ==> ms[i].version < ms[j].version
  }

  lemma {:induction false} ByRankAscends(es: seq<Entry>, n: nat, v: int)
    requires n <= |es|
    ensures AscendingVersions(ByRank(es, n, v))
  {
    if n > 0 {
      ByRankAscends(es, n - 1, v);
      var q := ByRank(es, n - 1, v);
      forall i | 0 <= i < |q| ensures q[i].version < n {
        ByRankMember(es, n - 1, v, q[i]);
      }
    }
  }

  /** Exactly the .sql files ranked above v are pending, each once, in order of rank. */
  lemma PendingExact(dir: seq<Entry>, v: int)
    ensures var es := Ordered(dir);
            && (forall m :: m in Todo(dir, v) <==>
                  0 < m.version <= |es| && Lacks(es, m.version, v) && m.changes == es[m.version - 1].changes)
            && AscendingVersions(Todo(dir, v))
  {
    var es := Ordered(dir);
    PendingByRank(es, |es|, v);
    forall m {
      ByRankMember(es, |es|, v, m);
    }
    ByRankAscends(es, |es|, v);
  }

  lemma {:induction false} EndsAtLast(es: seq<Entry>, n: nat, v: int)
    requires n <= |es|
    ensures var p := ByRank(es, n, v);
            && (p != [] ==> v >= 0 && p[|p| - 1].version == LastRank(es, n) > v)
            && (p == [] && v >= 0 ==> LastRank(es, n) <= v)
  {
    if n > 0 {
      EndsAtLast(es, n - 1, v);
      LastRankBound(es, n - 1);
    }
  }

  lemma PendingNone(es: seq<Entry>, n: nat, v: int)
    requires n <= |es| && (v < 0 || LastRank(es, n) <= v)
    ensures Pending(Mutations(es, n), v) == []
  {
    PendingByRank(es, n, v);
    EndsAtLast(es, n, v);
  }

  /** A successful run from version v >= 0 ran the SQL of exactly the pending files, in name order, and
      ended at the larger of v and the last .sql rank. */
  lemma SuccessfulRun<S>(exec: Executor<S>, f: Faults, backup: bool, db: Database<S>, dir: seq<Entry>)
    requires Evolve(exec, f, backup, db, dir).1.None?
    ensures var v := Ensured(db).version.value;
            var done := Evolve(exec, f, backup, db, dir).0;
            && ExecAll(exec, db.schema, Changes(Todo(dir, v))) == Some(done.schema)
            && done.version == Some(if v >= 0 then Max(v, Latest(dir)) else v)
  {
    var v := Ensured(db).version.value;
    assert Transact(exec, f, Ensured(db), Todo(dir, v)) == Success(Evolve(exec, f, backup, db, dir).0);
    TransactRunsAll(exec, f, Ensured(db), Todo(dir, v));
    PendingByRank(Ordered(dir), |Ordered(dir)|, v);
    EndsAtLast(Ordered(dir), |Ordered(dir)|, v);
  }

  /** With nothing going wrong outside, a run succeeds exactly when its pending SQL does. */
  lemma RunSucceedsIff<S>(exec: Executor<S>, backup: bool, db: Database<S>, dir: seq<Entry>)
    ensures Evolve(exec, NO_FAULTS, backup, db, dir).1.None? <==>
            ExecAll(exec, db.schema, Changes(Todo(dir, Ensured(db).version.value))).Some?
  {
    TransactSucceeds(exec, Ensured(db), Todo(dir, Ensured(db).version.value));
  }

  /** A run that fails, at any stage and for any reason, leaves the schema untouched and at most the
      version table behind; no run lowers the version. */
  lemma FailedRunChangesNothing<S>(exec: Executor<S>, f: Faults, backup: bool, db: Database<S>, dir: seq<Entry>)
    ensures var (after, err) := Evolve(exec, f, backup, db, dir);
            && (err.Some? ==>
                  after == (if db.version.None? && !f.check && !f.create then Database(db.schema, Some(0)) else db))
            && (db.version.Some? ==> after.version.Some? && after.version.value >= db.version.value)
  {
    if Evolve(exec, f, backup, db, dir).1.None? {
      SuccessfulRun(exec, f, backup, db, dir);
    }
  }

  /** After a successful run there is nothing left to apply: any further run, whatever fails in it, leaves
      the database as it is. */
  lemma SecondRunAppliesNothing<S>(exec: Executor<S>, f: Faults, g: Faults, backup: bool, db: Database<S>, dir: seq<Entry>)
    requires Evolve(exec, f, backup, db, dir).1.None?
    ensures var done := Evolve(exec, f, backup, db, dir).0;
            && done.version.Some? && Todo(dir, done.version.value) == []
            && Evolve(exec, g, backup, done, dir).0 == done
  {
    var es := Ordered(dir);
    SuccessfulRun(exec, f, backup, db, dir);
    var done := Evolve(exec, f, backup, db, dir).0;
    PendingNone(es, |es|, done.version.value);
  }

  // ---------------------------------------------------------------- ranks without sorting

  /** The files of a directory up to and including e, in the order of their names. */
  ghost function UpTo(dir: seq<Entry>, e: Entry): set<Entry> {
    set x | x in dir && (x == e || Lex.Before(x.name, e.name))
  }

  /** The 1-based rank of an entry: how many entries, of any kind, have a name up to its own. */
  ghost function RankIn(dir: seq<Entry>, e: Entry): nat {
    |UpTo(dir, e)|
  }

  ghost function Elements(es: seq<Entry>): set<Entry> {
    set x | x in es
  }

  ghost predicate NoRepeats(es: seq<Entry>) {
    forall i, j :: 0 <= i < j < |es| ==> es[i] != es[j]
  }

  lemma {:induction false} DistinctSize(es: seq<Entry>)
    requires NoRepeats(es)
    ensures |Elements(es)| == |es|
  {
    if es != [] {
      var front, last := es[..|es| - 1], es[|es| - 1];
      assert NoRepeats(front) && last !in front;
      DistinctSize(front);
      assert es == front + [last];
      assert Elements(es) == Elements(front) + {last};
    }
  }

  lemma PrefixSize(es: seq<Entry>, n: nat)
    requires n <= |es| && Lex.Ascending(es, NAME)
    ensures |Elements(es[..n])| == n
  {
    var key := NAME;
    forall i, j | 0 <= i < j < n ensures es[i] != es[j] {
      assert Lex.Less(key(es[i]), key(es[j]));
      Lex.LessIrreflexive(key(es[i]));
    }
    DistinctSize(es[..n]);
  }

  /** The entries up to position i are those whose names come no later. */
  lemma UpToIsPrefix(dir: seq<Entry>, i: nat, x: Entry)
    requires Directory(dir) && i < |Ordered(dir)| && Lex.Ascending(Ordered(dir), NAME)
    ensures x in UpTo(dir, Ordered(dir)[i]) <==> x in Ordered(dir)[..i + 1]
  {
    var es := Ordered(dir);
    var key := NAME;
    Lex.SortMembers(dir, NAME, x);
    Lex.LessIsBefore(x.name, es[i].name);
    if x in UpTo(dir, es[i]) {
      var j :| 0 <= j < |es| && es[j] == x;
      NotAfter(es, i, j);
      assert es[..i + 1][j] == x;
    }
    if x in es[..i + 1] {
      var j :| 0 <= j < i + 1 && es[j] == x;
      assert j < i ==> Lex.Less(key(es[j]), key(es[i]));
    }
  }

  /** Sorting puts every entry at its rank. */
  lemma RankIsPosition(dir: seq<Entry>, i: nat)
    requires Directory(dir) && i < |Ordered(dir)|
    ensures Ordered(dir)[i] in dir && RankIn(dir, Ordered(dir)[i]) == i + 1
  {
    var es := Ordered(dir);
    Lex.SortSorts(dir, NAME);
    PrefixSize(es, i + 1);
    forall x ensures x in UpTo(dir, es[i]) <==> x in Elements(es[..i + 1]) {
      UpToIsPrefix(dir, i, x);
    }
    assert UpTo(dir, es[i]) == Elements(es[..i + 1]);
    Lex.SortMembers(dir, NAME, es[i]);
  }

  lemma NotAfter(es: seq<Entry>, i: nat, j: nat)
    requires i < |es| && j < |es| && Lex.Ascending(es, NAME)
    requires es[j] == es[i] || Lex.Less(es[j].name, es[i].name)
    ensures j <= i
  {
    var key := NAME;
    if j > i {
      assert Lex.Less(key(es[i]), key(es[j]));
      Lex.LessIsTotal(es[i].name, es[j].name);
      assert false;
    }
  }

  lemma PositionOf(dir: seq<Entry>, e: Entry) returns (i: nat)
    requires Directory(dir) && e in dir
    ensures i < |Ordered(dir)| && Ordered(dir)[i] == e && RankIn(dir, e) == i + 1
  {
    var key := NAME;
    Lex.SortMembers(dir, key, e);
    i :| 0 <= i < |Ordered(dir)| && Ordered(dir)[i] == e;
    RankIsPosition(dir, i);
  }

  /** m is the mutation of the file e, and e is a .sql file whose rank exceeds the version. */
  ghost predicate Lacking(dir: seq<Entry>, v: int, e: Entry, m: Mutation) {
    && e in dir && HasSqlSuffix(e.name)
    && m.version == RankIn(dir, e) && m.changes == e.changes && 0 <= v < m.version
  }

  lemma PendingIsLacking(dir: seq<Entry>, v: int, m: Mutation) returns (e: Entry)
    requires Directory(dir) && m in Todo(dir, v)
    ensures Lacking(dir, v, e, m)
  {
    PendingExact(dir, v);
    e := Ordered(dir)[m.version - 1];
    RankIsPosition(dir, m.version - 1);
    SqlSuffix(e.name);
  }

  lemma LackingIsPending(dir: seq<Entry>, v: int, e: Entry, m: Mutation)
    requires Directory(dir) && Lacking(dir, v, e, m)
    ensures m in Todo(dir, v)
  {
    PendingExact(dir, v);
    var i := PositionOf(dir, e);
    SqlSuffix(e.name);
  }

  /** The pending mutations of a directory, told without sorting: those of the files whose name ends in .sql
      and whose rank exceeds the version, each with its own SQL, in the order of the ranks. */
  lemma PendingByName(dir: seq<Entry>, v: int)
    requires Directory(dir)
    ensures forall m :: m in Todo(dir, v) <==> exists e :: Lacking(dir, v, e, m)
    ensures AscendingVersions(Todo(dir, v))
  {
    PendingExact(dir, v);
    forall m ensures m in Todo(dir, v) <==> exists e :: Lacking(dir, v, e, m) {
      if m in Todo(dir, v) {
        var e := PendingIsLacking(dir, v, m);
      }
      if e :| Lacking(dir, v, e, m) {
        LackingIsPending(dir, v, e, m);
      }
    }
  }

  ghost predicate HasSqlSuffix(name: string) {
    exists stem :: name == stem + ".sql"
  }

  lemma SqlSuffix(name: string)
    ensures IsSql(name) <==> HasSqlSuffix(name)
  {
    if IsSql(name) {
      assert name == name[..|name| - 4] + ".sql";
    }
  }

  /** Ranks follow names: of two files, the one whose name comes first at their first difference has the
      smaller rank, so its SQL runs first. */
  lemma RanksFollowNames(dir: seq<Entry>, e: Entry, f: Entry)
    requires Directory(dir) && e in dir && f in dir
    ensures RankIn(dir, e) < RankIn(dir, f) <==> Lex.Before(e.name, f.name)
  {
    var key := NAME;
    var es := Ordered(dir);
    var i := PositionOf(dir, e);
    var j := PositionOf(dir, f);
    Lex.SortSorts(dir, key);
    Lex.LessIsBefore(e.name, f.name);
    if i < j {
      assert Lex.Less(key(es[i]), key(es[j]));
    } else if Lex.Less(e.name, f.name) {
      NotAfter(es, j, i);
      Lex.LessIrreflexive(e.name);
    }
  }

  /** The files behind the pending mutations. */
  function PendingFiles(es: seq<Entry>, n: nat, v: int): seq<Entry>
    requires n <= |es|
  {
    if n == 0 then [] else PendingFiles(es, n - 1, v) + if Lacks(es, n, v) then [es[n - 1]] else []
  }

  function Texts(files: seq<Entry>): seq<string> {
    seq(|files|, i requires 0 <= i < |files| => files[i].changes)
  }

  lemma {:induction false} PendingTexts(es: seq<Entry>, n: nat, v: int)
    requires n <= |es|
    ensures Texts(PendingFiles(es, n, v)) == Changes(ByRank(es, n, v))
  {
    if n > 0 {
      PendingTexts(es, n - 1, v);
      var more := if Lacks(es, n, v) then [es[n - 1]] else [];
      assert Texts(PendingFiles(es, n - 1, v) + more) == Texts(PendingFiles(es, n - 1, v)) + Texts(more);
      ChangesAppend(ByRank(es, n - 1, v), if Lacks(es, n, v) then [Mutation(n, es[n - 1].changes)] else []);
    }
  }

  lemma {:induction false} PendingFilesMember(es: seq<Entry>, n: nat, v: int, e: Entry)
    requires n <= |es|
    ensures e in PendingFiles(es, n, v) <==> exists i :: 0 <= i < n && es[i] == e && Lacks(es, i + 1, v)
  {
    if n > 0 {
      PendingFilesMember(es, n - 1, v, e);
    }
  }

  lemma {:induction false} PendingFilesAscend(es: seq<Entry>, n: nat, v: int)
    requires n <= |es| && Lex.Ascending(es, NAME)
    ensures Lex.Ascending(PendingFiles(es, n, v), NAME)
  {
    if n > 0 {
      PendingFilesAscend(es, n - 1, v);
      var key := NAME;
      var before := PendingFiles(es, n - 1, v);
      forall k | 0 <= k < |before| ensures Lex.Less(key(before[k]), key(es[n - 1])) {
        PendingFilesMember(es, n - 1, v, before[k]);
      }
    }
  }

  lemma PendingFilesOf(dir: seq<Entry>, v: int, e: Entry)
    requires Directory(dir)
    ensures e in PendingFiles(Ordered(dir), |Ordered(dir)|, v) <==>
            e in dir && HasSqlSuffix(e.name) && 0 <= v < RankIn(dir, e)
  {
    var es := Ordered(dir);
    PendingFilesMember(es, |es|, v, e);
    SqlSuffix(e.name);
    if e in dir {
      var i := PositionOf(dir, e);
      if j :| 0 <= j < |es| && es[j] == e {
        RankIsPosition(dir, j);
      }
    }
    if j :| 0 <= j < |es| && es[j] == e && Lacks(es, j + 1, v) {
      RankIsPosition(dir, j);
    }
  }

  /** On a successful run the SQL of the files is applied in the order of their names: exactly the texts of
      the .sql files ranked above the version, each before that of any file whose name comes later. */
  lemma AppliedInNameOrder<S>(exec: Executor<S>, f: Faults, backup: bool, db: Database<S>, dir: seq<Entry>)
    returns (files: seq<Entry>)
    requires Directory(dir) && Evolve(exec, f, backup, db, dir).1.None?
    ensures forall e :: e in files <==>
              e in dir && HasSqlSuffix(e.name) && 0 <= Ensured(db).version.value < RankIn(dir, e)
    ensures forall i, j :: 0 <= i < j < |files| ==> Lex.Before(files[i].name, files[j].name)
    ensures ExecAll(exec, db.schema, Texts(files)) == Some(Evolve(exec, f, backup, db, dir).0.schema)
  {
    var v := Ensured(db).version.value;
    var es := Ordered(dir);
    var key := NAME;
    files := PendingFiles(es, |es|, v);
    SuccessfulRun(exec, f, backup, db, dir);
    PendingByRank(es, |es|, v);
    PendingTexts(es, |es|, v);
    Lex.SortSorts(dir, key);
    PendingFilesAscend(es, |es|, v);
    forall e ensures e in files <==> e in dir && HasSqlSuffix(e.name) && 0 <= v < RankIn(dir, e) {
      PendingFilesOf(dir, v, e);
    }
    forall i, j | 0 <= i < j < |files| ensures Lex.Before(files[i].name, files[j].name) {
      assert Lex.Less(key(files[i]), key(files[j]));
      Lex.LessIsBefore(files[i].name, files[j].name);
    }
  }

  /** The last .sql rank is the largest of the ranks of the .sql files. */
  lemma LatestIsLargest(dir: seq<Entry>)
    requires Directory(dir)
    ensures forall e :: e in dir && HasSqlSuffix(e.name) ==> RankIn(dir, e) <= Latest(dir)
    ensures Latest(dir) > 0 ==> exists e :: e in dir && HasSqlSuffix(e.name) && RankIn(dir, e) == Latest(dir)
  {
    var es := Ordered(dir);
    forall e | e in dir && HasSqlSuffix(e.name) ensures RankIn(dir, e) <= Latest(dir) {
      var i := PositionOf(dir, e);
      SqlSuffix(e.name);
      LastRankGrows(es, i + 1, |es|);
    }
    if Latest(dir) > 0 {
      LastRankIsSql(es, |es|);
      RankIsPosition(dir, Latest(dir) - 1);
      SqlSuffix(es[Latest(dir) - 1].name);
    }
  }

  lemma {:induction false} LastRankIsSql(es: seq<Entry>, n: nat)
    requires n <= |es| && LastRank(es, n) > 0
    ensures LastRank(es, n) <= n && IsSql(es[LastRank(es, n) - 1].name)
  {
    if !IsSql(es[n - 1].name) {
      LastRankIsSql(es, n - 1);
    }
  }

  // ---------------------------------------------------------------- when a run succeeds

  /** Nothing outside the evolver's control goes wrong in a run over these mutations. */
  ghost predicate NothingFails(f: Faults, backup: bool, missing: bool, dir: seq<Entry>, todo: seq<Mutation>) {
    && !f.check && (missing ==> !f.create) && !f.scan && !f.readDir && (backup ==> !f.backup) && !f.begin && !f.commit
    && (forall e :: e in dir ==> e.name !in f.badInfo && (HasSqlSuffix(e.name) ==> e.name !in f.badRead))
    && (forall m :: m in todo ==> m.version !in f.badExec && m.version !in f.badUpdate)
  }

  lemma {:induction false} TransactSucceedsIff<S>(exec: Executor<S>, f: Faults, db: Database<S>, todo: seq<Mutation>)
    ensures Transact(exec, f, db, todo).Success? <==>
            && ExecAll(exec, db.schema, Changes(todo)).Some?
            && forall m :: m in todo ==> m.version !in f.badExec && m.version !in f.badUpdate
    decreases todo
  {
    if todo != [] {
      var next := exec(db.schema, todo[0].changes);
      assert Changes(todo)[1..] == Changes(todo[1..]);
      assert todo == [todo[0]] + todo[1..];
      if next.Some? {
        TransactSucceedsIff(exec, f, Database(next.value, Some(todo[0].version)), todo[1..]);
      }
    }
  }

  /** A run succeeds exactly if nothing it depends on fails and its pending SQL runs. */
  lemma SucceedsIff<S>(exec: Executor<S>, f: Faults, backup: bool, db: Database<S>, dir: seq<Entry>)
    requires Directory(dir)
    ensures var todo := Todo(dir, Ensured(db).version.value);
            Evolve(exec, f, backup, db, dir).1.None? <==>
            NothingFails(f, backup, db.version.None?, dir, todo) && ExecAll(exec, db.schema, Changes(todo)).Some?
  {
    var es := Ordered(dir);
    var key := NAME;
    TransactSucceedsIff(exec, f, Ensured(db), Todo(dir, Ensured(db).version.value));
    forall e ensures (e in es <==> e in dir) && (IsSql(e.name) <==> HasSqlSuffix(e.name)) {
      Lex.SortMembers(dir, key, e);
      SqlSuffix(e.name);
    }
    assert (forall i :: 0 <= i < |es| ==> Readable(es[i], f)) <==> (forall e :: e in dir ==> Readable(e, f)) by {
      if forall i :: 0 <= i < |es| ==> Readable(es[i], f) {
        forall e | e in dir ensures Readable(e, f) {
          var i :| 0 <= i < |es| && es[i] == e;
        }
      }
    }
  }

  /** The stages of a run, each with what makes it fail when the ones before it did not. */
  lemma FailsAt<S>(exec: Executor<S>, f: Faults, backup: bool, db: Database<S>, dir: seq<Entry>)
    ensures var err := Evolve(exec, f, backup, db, dir).1;
            var ensured := !f.check && (db.version.None? ==> !f.create);
            var loaded := ensured && !f.scan && Loads(Ordered(dir), f);
            && (err == Some(Ensuring) <==> !ensured)
            && (err == Some(Scanning) <==> ensured && f.scan)
            && (err == Some(Loading) <==> ensured && !f.scan && !Loads(Ordered(dir), f))
            && (err == Some(BackingUp) <==> loaded && backup && f.backup)
            && (err == Some(Beginning) <==> loaded && !(backup && f.backup) && f.begin)
            && (err == Some(Applying) || err == Some(Updating) ==> loaded && !(backup && f.backup) && !f.begin)
            && (err == Some(Committing) ==> f.commit && ExecAll(exec, db.schema, Changes(Todo(dir, Ensured(db).version.value))).Some?)
  {
    var todo := Todo(dir, Ensured(db).version.value);
    TransactSucceedsIff(exec, f, Ensured(db), todo);
    TransactFailsInside(exec, f, Ensured(db), todo);
  }

  lemma TransactFailsInside<S>(exec: Executor<S>, f: Faults, db: Database<S>, todo: seq<Mutation>)
    ensures Transact(exec, f, db, todo).Failure? ==> Transact(exec, f, db, todo).error in {Applying, Updating}
  {
    if Transact(exec, f, db, todo).Failure? {
      var k := TransactFailsAt(exec, f, db, todo);
    }
  }

  /** The transaction fails at the first mutation that cannot be carried through: while applying it if its SQL
      fails, and while updating the version row if only that does. */
  lemma {:induction false} TransactFailsAt<S>(exec: Executor<S>, f: Faults, db: Database<S>, todo: seq<Mutation>)
    returns (k: nat)
    requires Transact(exec, f, db, todo).Failure?
    ensures k < |todo| && forall j :: 0 <= j < k ==> todo[j].version !in f.badExec && todo[j].version !in f.badUpdate
    ensures var mid := ExecAll(exec, db.schema, Changes(todo[..k]));
            var stage := Transact(exec, f, db, todo).error;
            && mid.Some?
            && (if exec(mid.value, todo[k].changes).None? || todo[k].version in f.badExec then stage == Applying
                else todo[k].version in f.badUpdate && stage == Updating)
    decreases todo
  {
    var m := todo[0];
    var next := exec(db.schema, m.changes);
    k := 0;
    assert Changes(todo[..0]) == [];
    if next.Some? && m.version !in f.badExec && m.version !in f.badUpdate {
      var rest := TransactFailsAt(exec, f, Database(next.value, Some(m.version)), todo[1..]);
      k := rest + 1;
      assert Changes(todo[..k])[1..] == Changes(todo[1..][..rest]);
      assert Changes(todo[..k])[0] == m.changes;
    }
  }

  // ---------------------------------------------------------------- growing directories

  /** d2 holds everything d1 held, and every new entry sorts after all old ones. */
  ghost predicate AppendOnly(d1: seq<Entry>, d2: seq<Entry>) {
    && Directory(d1) && Directory(d2)
    && (forall e :: e in d1 ==> e in d2)
    && (forall e, o :: e in d2 && e !in d1 && o in d1 ==> Lex.Less(o.name, e.name))
  }

  function Without(xs: seq<Entry>, ys: seq<Entry>): (r: seq<Entry>)
    ensures forall e :: e in r <==> e in xs && e !in ys
  {
    if xs == [] then []
    else
      assert xs == [xs[0]] + xs[1..];
      (if xs[0] in ys then [] else [xs[0]]) + Without(xs[1..], ys)
  }

  lemma {:induction false} WithoutKeepsDirectory(xs: seq<Entry>, ys: seq<Entry>)
    requires Directory(xs)
    ensures Directory(Without(xs, ys))
  {
    if xs != [] {
      var r := Without(xs[1..], ys);
      WithoutKeepsDirectory(xs[1..], ys);
      forall i | 0 <= i < |r| ensures r[i].name != xs[0].name {
        assert r[i] in xs[1..];
        var j :| 0 <= j < |xs[1..]| && xs[1..][j] == r[i];
        assert xs[j + 1] == r[i];
      }
    }
  }

  /** Appending files keeps the old ones, in their old order and at their old ranks, in front. */
  lemma AppendOnlyIsPrefix(d1: seq<Entry>, d2: seq<Entry>)
    requires AppendOnly(d1, d2)
    ensures Ordered(d1) <= Ordered(d2)
  {
    var key := NAME;
    var extra := Without(d2, d1);
    WithoutKeepsDirectory(d2, d1);
    Lex.SortSorts(d1, key);
    Lex.SortSorts(d2, key);
    Lex.SortSorts(extra, key);
    var both := Ordered(d1) + Ordered(extra);
    forall e ensures (e in Ordered(d1) <==> e in d1) && (e in Ordered(extra) <==> e in extra) && (e in Ordered(d2) <==> e in d2) {
      Lex.SortMembers(d1, key, e);
      Lex.SortMembers(d2, key, e);
      Lex.SortMembers(extra, key, e);
    }
    forall i, j | 0 <= i < j < |both| ensures Lex.Less(key(both[i]), key(both[j])) {
      if i < |d1| <= j {
        assert both[i] in Ordered(d1) && both[j] in Ordered(extra);
      }
    }
    Lex.AscendingIsUnique(both, Ordered(d2), key);
  }

  lemma {:induction false} MutationsPrefix(es: seq<Entry>, fs: seq<Entry>, n: nat)
    requires n <= |es| && es <= fs
    ensures Mutations(es, n) == Mutations(fs, n) && LastRank(es, n) == LastRank(fs, n)
  {
    if n > 0 {
      MutationsPrefix(es, fs, n - 1);
    }
  }

  /** Ranks up to k, then ranks above k: the pending mutations of the first n entries split at any entry k
      past which, up to some version w, nothing is missing. */
  lemma {:induction false} PendingSplits(es: seq<Entry>, k: nat, n: nat, v: int)
    requires k <= n <= |es| && v >= 0
    ensures var w := Max(v, LastRank(es, k));
            Pending(Mutations(es, n), v) == Pending(Mutations(es, k), v) + Pending(Mutations(es, n), w)
    decreases n
  {
    var w := Max(v, LastRank(es, k));
    if n == k {
      PendingNone(es, k, w);
    } else {
      PendingSplits(es, k, n - 1, v);
      LastRankBound(es, k);
      PendingStep(es, n, v);
      PendingStep(es, n, w);
    }
  }

  lemma {:induction false} LastRankBound(es: seq<Entry>, n: nat)
    requires n <= |es|
    ensures LastRank(es, n) <= n
  {
    if n > 0 {
      LastRankBound(es, n - 1);
    }
  }

  lemma {:induction false} LastRankGrows(es: seq<Entry>, k: nat, n: nat)
    requires k <= n <= |es|
    ensures LastRank(es, k) <= LastRank(es, n)
    decreases n
  {
    LastRankBound(es, k);
    if n > k {
      LastRankGrows(es, k, n - 1);
    }
  }

  /** Two incremental runs apply, between them, what one run over the final directory applies. */
  lemma TodoSplits(d1: seq<Entry>, d2: seq<Entry>, v: int)
    requires AppendOnly(d1, d2) && v >= 0
    ensures Todo(d2, v) == Todo(d1, v) + Todo(d2, Max(v, Latest(d1)))
    ensures Latest(d1) <= Latest(d2)
  {
    AppendOnlyIsPrefix(d1, d2);
    var es, fs := Ordered(d1), Ordered(d2);
    MutationsPrefix(es, fs, |es|);
    PendingSplits(fs, |es|, |fs|, v);
    LastRankGrows(fs, |es|, |fs|);
  }

  lemma {:induction false} ExecAppend<S>(exec: Executor<S>, schema: S, a: seq<string>, b: seq<string>)
    ensures var mid := ExecAll(exec, schema, a);
            ExecAll(exec, schema, a + b) == if mid.None? then None else ExecAll(exec, mid.value, b)
    decreases a
  {
    if a == [] {
      assert a + b == b;
    } else {
      assert (a + b)[1..] == a[1..] + b;
      var next := exec(schema, a[0]);
      if next.Some? {
        ExecAppend(exec, next.value, a[1..], b);
      }
    }
  }

  lemma NegativeIsFrozen(dir: seq<Entry>, v: int)
    requires v < 0
    ensures Todo(dir, v) == []
  {
    PendingNone(Ordered(dir), |Ordered(dir)|, v);
  }

  // ---------------------------------------------------------------- two runs and one

  /** What the outcome of two runs, first on d1 and then on d2, has in common with a single run on d2 from
      version v: the files of d2 up to the last rank of d1 hold the SQL that d1 holds above v, and that last
      rank is not past both v and the last rank of d2. A database at a negative version never moves. */
  predicate Agreeing(d1: seq<Entry>, d2: seq<Entry>, v: int) {
    var fs := Ordered(d2);
    || v < 0
    || (&& Changes(Pending(Mutations(fs, Min(Latest(d1), |fs|)), v)) == Changes(Todo(d1, v))
        && Latest(d1) <= Max(v, Latest(d2)))
  }

  /** Between the last .sql rank up to k and k itself there is nothing to apply. */
  lemma {:induction false} PendingSkips(es: seq<Entry>, n: nat, v: nat, k: nat)
    requires n <= |es| && k <= |es| && LastRank(es, k) <= v <= k
    ensures Pending(Mutations(es, n), v) == Pending(Mutations(es, n), k)
  {
    if n > 0 {
      PendingSkips(es, n - 1, v, k);
      PendingStep(es, n, v);
      PendingStep(es, n, k);
      if IsSql(es[n - 1].name) && n <= k {
        LastRankGrows(es, n, k);
      }
    }
  }

  /** What is left of the files after those up to rank `latest`. */
  lemma SameTail(fs: seq<Entry>, latest: nat, v: nat)
    ensures var k := Min(latest, |fs|);
            Pending(Mutations(fs, |fs|), Max(v, LastRank(fs, k))) == Pending(Mutations(fs, |fs|), Max(v, latest))
  {
    var k := Min(latest, |fs|);
    LastRankBound(fs, k);
    if v < latest {
      if latest <= |fs| {
        PendingSkips(fs, |fs|, Max(v, LastRank(fs, k)), k);
      } else {
        PendingNone(fs, |fs|, Max(v, LastRank(fs, k)));
        PendingNone(fs, |fs|, latest);
      }
    }
  }

  lemma ChangesAppend(a: seq<Mutation>, b: seq<Mutation>)
    ensures Changes(a + b) == Changes(a) + Changes(b)
  {
  }

  lemma SuffixCancels(a: seq<string>, b: seq<string>, c: seq<string>)
    ensures a + c == b + c <==> a == b
  {
    if a + c == b + c {
      assert |a| == |b|;
      assert a == (a + c)[..|a|];
      assert b == (b + c)[..|b|];
    }
  }

  /** Two runs apply the SQL of one exactly if the files of d2 up to the last rank of d1 hold the SQL of d1. */
  lemma SameSqlIff(d1: seq<Entry>, d2: seq<Entry>, v: nat)
    ensures var fs := Ordered(d2);
            Changes(Todo(d1, v)) + Changes(Todo(d2, Max(v, Latest(d1)))) == Changes(Todo(d2, v)) <==>
            Changes(Pending(Mutations(fs, Min(Latest(d1), |fs|)), v)) == Changes(Todo(d1, v))
  {
    var fs := Ordered(d2);
    var k := Min(Latest(d1), |fs|);
    var head, tail := Pending(Mutations(fs, k), v), Todo(d2, Max(v, Latest(d1)));
    SameTail(fs, Latest(d1), v);
    PendingSplits(fs, k, |fs|, v);
    assert Todo(d2, v) == head + tail;
    ChangesAppend(head, tail);
    SuffixCancels(Changes(Todo(d1, v)), Changes(head), Changes(tail));
  }

  /** What faults a run escaped does not matter: it ends where a run without any ends. */
  lemma SuccessIgnoresFaults<S>(exec: Executor<S>, f: Faults, backup: bool, db: Database<S>, dir: seq<Entry>)
    requires Evolve(exec, f, backup, db, dir).1.None?
    ensures Evolve(exec, NO_FAULTS, backup, db, dir) == Evolve(exec, f, backup, db, dir)
    ensures Evolve(exec, NO_FAULTS, backup, Ensured(db), dir) == Evolve(exec, f, backup, db, dir)
  {
    SuccessfulRun(exec, f, backup, db, dir);
    RunSucceedsIff(exec, backup, db, dir);
    RunSucceedsIff(exec, backup, Ensured(db), dir);
    SuccessfulRun(exec, NO_FAULTS, backup, db, dir);
    SuccessfulRun(exec, NO_FAULTS, backup, Ensured(db), dir);
  }

  /** Where the directories agree, a run on d1 followed by one on d2 and a single run on d2 leave the same
      database, whatever the SQL means and whatever faults they survived; without faults, one succeeds
      exactly if the other does. */
  lemma TwoRunsAgree<S>(
    exec: Executor<S>, f: Faults, g: Faults, h: Faults, backup: bool, db: Database<S>, d1: seq<Entry>, d2: seq<Entry>)
    requires Agreeing(d1, d2, Ensured(db).version.value)
    requires Evolve(exec, f, backup, db, d1).1.None?
    ensures var mid := Evolve(exec, f, backup, db, d1).0;
            var two := Evolve(exec, g, backup, mid, d2);
            var one := Evolve(exec, h, backup, db, d2);
            && (two.1.None? && one.1.None? ==> two.0 == one.0)
            && (g == h == NO_FAULTS ==> (two.1.None? <==> one.1.None?))
  {
    var v := Ensured(db).version.value;
    var mid := Evolve(exec, f, backup, db, d1).0;
    SuccessfulRun(exec, f, backup, db, d1);
    RunSucceedsIff(exec, backup, mid, d2);
    RunSucceedsIff(exec, backup, db, d2);
    if v >= 0 {
      SameSqlIff(d1, d2, v);
      ExecAppend(exec, db.schema, Changes(Todo(d1, v)), Changes(Todo(d2, Max(v, Latest(d1)))));
    } else {
      NegativeIsFrozen(d1, v);
      NegativeIsFrozen(d2, v);
    }
    if Evolve(exec, g, backup, mid, d2).1.None? && Evolve(exec, h, backup, db, d2).1.None? {
      SuccessfulRun(exec, g, backup, mid, d2);
      SuccessfulRun(exec, h, backup, db, d2);
    }
  }

  /** A database that only remembers which SQL it was given. */
  const RECORDER: Executor<seq<string>> := (log: seq<string>, sql: string) => Some(log + [sql])

  lemma {:induction false} RecorderRemembers(log: seq<string>, changes: seq<string>)
    ensures ExecAll(RECORDER, log, changes) == Some(log + changes)
    decreases changes
  {
    if changes == [] {
      assert log + changes == log;
    } else {
      RecorderRemembers(log + [changes[0]], changes[1..]);
      assert log + [changes[0]] + changes[1..] == log + changes;
    }
  }

  /** The condition is exact: for a database that remembers its SQL, two successful runs end where one does,
      in SQL and in version, if and only if the directories agree. */
  lemma TwoRunsAgreeIff(
    f: Faults, g: Faults, h: Faults, backup: bool, db: Database<seq<string>>, d1: seq<Entry>, d2: seq<Entry>)
    requires Evolve(RECORDER, f, backup, db, d1).1.None? && Evolve(RECORDER, h, backup, db, d2).1.None?
    requires Evolve(RECORDER, g, backup, Evolve(RECORDER, f, backup, db, d1).0, d2).1.None?
    ensures var mid := Evolve(RECORDER, f, backup, db, d1).0;
            Evolve(RECORDER, g, backup, mid, d2).0 == Evolve(RECORDER, h, backup, db, d2).0 <==>
            Agreeing(d1, d2, Ensured(db).version.value)
  {
    var v := Ensured(db).version.value;
    var mid := Evolve(RECORDER, f, backup, db, d1).0;
    SuccessfulRun(RECORDER, f, backup, db, d1);
    SuccessfulRun(RECORDER, g, backup, mid, d2);
    SuccessfulRun(RECORDER, h, backup, db, d2);
    if v >= 0 {
      var a, b, c := Changes(Todo(d1, v)), Changes(Todo(d2, Max(v, Latest(d1)))), Changes(Todo(d2, v));
      RecorderRemembers(db.schema, a);
      RecorderRemembers(mid.schema, b);
      RecorderRemembers(db.schema, c);
      SameSqlIff(d1, d2, v);
      assert db.schema + a + b == db.schema + (a + b);
      PrefixCancels(db.schema, a + b, c);
    } else {
      TwoRunsAgree(RECORDER, f, g, h, backup, db, d1, d2);
    }
  }

  lemma PrefixCancels(a: seq<string>, b: seq<string>, c: seq<string>)
    ensures a + b == a + c <==> b == c
  {
    if a + b == a + c {
      assert b == (a + b)[|a|..];
      assert c == (a + c)[|a|..];
    }
  }

  lemma AppendOnlyAgrees(d1: seq<Entry>, d2: seq<Entry>, v: int)
    requires AppendOnly(d1, d2)
    ensures Agreeing(d1, d2, v)
  {
    if v >= 0 {
      TodoSplits(d1, d2, v);
      SameSqlIff(d1, d2, v);
      ChangesAppend(Todo(d1, v), Todo(d2, Max(v, Latest(d1))));
    }
  }

  /** Incremental equals one-shot: after a successful run on d1, a run on d2 ends where a run on d2 from the
      start ends, whatever faults the runs survived; without faults one succeeds exactly if the other does. */
  lemma IncrementalIsOneShot<S>(
    exec: Executor<S>, f: Faults, g: Faults, h: Faults, backup: bool, db: Database<S>, d1: seq<Entry>, d2: seq<Entry>)
    requires AppendOnly(d1, d2)
    requires Evolve(exec, f, backup, db, d1).1.None?
    ensures var mid := Evolve(exec, f, backup, db, d1).0;
            var two := Evolve(exec, g, backup, mid, d2);
            var one := Evolve(exec, h, backup, db, d2);
            && (two.1.None? && one.1.None? ==> two.0 == one.0)
            && (g == h == NO_FAULTS ==> (two.1.None? <==> one.1.None?))
  {
    AppendOnlyAgrees(d1, d2, Ensured(db).version.value);
    TwoRunsAgree(exec, f, g, h, backup, db, d1, d2);
  }

  // ---------------------------------------------------------------- chains of releases

  ghost predicate Growing(dirs: seq<seq<Entry>>) {
    forall i :: 0 <= i < |dirs| - 1 ==> AppendOnly(dirs[i], dirs[i + 1])
  }

  lemma GrowingFront(dirs: seq<seq<Entry>>)
    requires |dirs| > 0 && Growing(dirs)
    ensures Growing(dirs[..|dirs| - 1]) && (|dirs| > 1 ==> AppendOnly(dirs[|dirs| - 2], dirs[|dirs| - 1]))
  {
    var front := dirs[..|dirs| - 1];
    forall i | 0 <= i < |front| - 1 ensures AppendOnly(front[i], front[i + 1]) {
      assert front[i] == dirs[i] && front[i + 1] == dirs[i + 1];
    }
    if |dirs| > 1 {
      var i := |dirs| - 2;
      assert AppendOnly(dirs[i], dirs[i + 1]);
    }
  }

  lemma AppendOnlyTransitive(d1: seq<Entry>, d2: seq<Entry>, d3: seq<Entry>)
    requires AppendOnly(d1, d2) && AppendOnly(d2, d3)
    ensures AppendOnly(d1, d3)
  {
    forall e, o | e in d3 && e !in d1 && o in d1 ensures Lex.Less(o.name, e.name) {
      assert o in d2;
    }
  }

  lemma {:induction false} GrowsAlong(dirs: seq<seq<Entry>>, i: nat, j: nat)
    requires Growing(dirs) && i < j < |dirs|
    ensures AppendOnly(dirs[i], dirs[j])
    decreases j
  {
    assert AppendOnly(dirs[j - 1], dirs[j - 1 + 1]);
    if i < j - 1 {
      GrowsAlong(dirs, i, j - 1);
      AppendOnlyTransitive(dirs[i], dirs[j - 1], dirs[j]);
    }
  }

  /** A release: the files it brings and what goes wrong while it is installed. */
  datatype Release = Release(files: seq<Entry>, faults: Faults)

  function FilesOf(rs: seq<Release>): seq<seq<Entry>> {
    seq(|rs|, i requires 0 <= i < |rs| => rs[i].files)
  }

  /** The database after one run per release, failed or not, and the last release whose run succeeded. */
  function Deploy<S>(exec: Executor<S>, backup: bool, db: Database<S>, rs: seq<Release>): (Database<S>, Option<nat>)
    decreases |rs|
  {
    if rs == [] then (db, None)
    else
      var n := |rs| - 1;
      var (before, last) := Deploy(exec, backup, db, rs[..n]);
      var (after, err) := Evolve(exec, rs[n].faults, backup, before, rs[n].files);
      (after, if err.None? then Some(n) else last)
  }

  /** Where a chain of runs stands: nothing but the version table is there yet, or the database is that of
      one fault-free run of the release that succeeded last. */
  ghost predicate Stands<S>(exec: Executor<S>, backup: bool, db: Database<S>, rs: seq<Release>, at: (Database<S>, Option<nat>)) {
    match at.1
    case None => at.0 in {db, Ensured(db)}
    case Some(j) => j < |rs| && Evolve(exec, NO_FAULTS, backup, db, rs[j].files) == (at.0, None)
  }

  /** Any chain of releases that only append files, with any faults and any failed runs on the way, stands
      where a fresh install of the last successful one ends. */
  lemma {:induction false} ChainIsOneShot<S>(exec: Executor<S>, backup: bool, db: Database<S>, rs: seq<Release>)
    requires Growing(FilesOf(rs))
    ensures Stands(exec, backup, db, rs, Deploy(exec, backup, db, rs))
    decreases |rs|
  {
    if rs != [] {
      var n := |rs| - 1;
      var front := rs[..n];
      GrowingFront(FilesOf(rs));
      assert FilesOf(rs)[..n] == FilesOf(front);
      ChainIsOneShot(exec, backup, db, front);
      ReleaseStands(exec, backup, db, rs, Deploy(exec, backup, db, front));
    }
  }

  lemma ReleaseStands<S>(exec: Executor<S>, backup: bool, db: Database<S>, rs: seq<Release>, at: (Database<S>, Option<nat>))
    requires rs != [] && Growing(FilesOf(rs)) && Stands(exec, backup, db, rs[..|rs| - 1], at)
    ensures var n := |rs| - 1;
            var (after, err) := Evolve(exec, rs[n].faults, backup, at.0, rs[n].files);
            Stands(exec, backup, db, rs, (after, if err.None? then Some(n) else at.1))
  {
    var n := |rs| - 1;
    var f, files := rs[n].faults, rs[n].files;
    if at.1.Some? {
      var j := at.1.value;
      SuccessfulRun(exec, NO_FAULTS, backup, db, rs[j].files);
      GrowsAlong(FilesOf(rs), j, n);
      IncrementalIsOneShot(exec, NO_FAULTS, NO_FAULTS, NO_FAULTS, backup, db, rs[j].files, files);
    }
    if Evolve(exec, f, backup, at.0, files).1.None? {
      SuccessIgnoresFaults(exec, f, backup, at.0, files);
      EnsuringFirst(exec, backup, db, files);
    } else {
      FailedRunChangesNothing(exec, f, backup, at.0, files);
    }
  }

  /** A database whose version table exists already is migrated like one without. */
  lemma EnsuringFirst<S>(exec: Executor<S>, backup: bool, db: Database<S>, dir: seq<Entry>)
    ensures Evolve(exec, NO_FAULTS, backup, Ensured(db), dir) == Evolve(exec, NO_FAULTS, backup, db, dir)
  {
  }

  /** What successful runs over the directories apply in all, and the version they end at. */
  function AppliedBy(dirs: seq<seq<Entry>>, v: int): (seq<Mutation>, int)
    decreases |dirs|
  {
    if dirs == [] then ([], v)
    else
      var n := |dirs| - 1;
      var (log, w) := AppliedBy(dirs[..n], v);
      (log + Todo(dirs[n], w), if w >= 0 then Max(w, Latest(dirs[n])) else w)
  }

  /** Along such a chain every mutation of the last directory above v is applied exactly once, in name order. */
  lemma {:induction false} ChainAppliesOnce(dirs: seq<seq<Entry>>, v: nat)
    requires |dirs| > 0 && Growing(dirs)
    ensures var last := dirs[|dirs| - 1];
            AppliedBy(dirs, v) == (Todo(last, v), Max(v, Latest(last)))
    decreases |dirs|
  {
    var n := |dirs| - 1;
    if n > 0 {
      var front := dirs[..n];
      GrowingFront(dirs);
      ChainAppliesOnce(front, v);
      assert front[|front| - 1] == dirs[n - 1];
      TodoSplits(dirs[n - 1], dirs[n], v);
    } else {
      assert dirs[..0] == [];
      assert AppliedBy(dirs[..0], v) == ([], v);
      assert [] + Todo(dirs[0], v) == Todo(dirs[0], v);
    }
  }

  lemma TwoFiles(a: Entry, b: Entry)
    requires Lex.Less(a.name, b.name)
    ensures Ordered([b]) == [b] && Ordered([a, b]) == [a, b]
  {
    var key := NAME;
    assert [b][1..] == [] && [a, b][1..] == [b];
    assert Lex.Sort([b], key) == [b];
  }

  /** The order of names is needed: a file added in front of an applied one is never run, and the applied
      one is run again. */
  lemma InsertedFileIsMissed(a: Entry, b: Entry)
    requires IsSql(a.name) && IsSql(b.name) && Lex.Less(a.name, b.name)
    ensures var d1, d2 := [b], [a, b];
            && Changes(Todo(d1, 0)) + Changes(Todo(d2, Latest(d1))) == [b.changes, b.changes]
            && Changes(Todo(d2, 0)) == [a.changes, b.changes]
  {
    TwoFiles(a, b);
    var fs := [a, b];
    PendingStep(fs, 2, 0);
    PendingStep(fs, 1, 0);
    PendingStep(fs, 2, 1);
    PendingStep(fs, 1, 1);
    PendingStep([b], 1, 0);
    assert Todo([b], 0) == [Mutation(1, b.changes)];
    assert Todo(fs, 0) == [Mutation(1, a.changes), Mutation(2, b.changes)];
    assert Todo(fs, 1) == [Mutation(2, b.changes)];
  }

  /** Any entry counts for the ranks: dropping a file without SQL in front of an applied one leaves the same
      SQL behind but another version, so the next mutation can be skipped. */
  lemma RemovedFileSkewsVersion(a: Entry, b: Entry)
    requires !IsSql(a.name) && IsSql(b.name) && Lex.Less(a.name, b.name)
    ensures var d1, d2 := [a, b], [b];
            && Changes(Todo(d1, 0)) + Changes(Todo(d2, Latest(d1))) == Changes(Todo(d2, 0))
            && Latest(d1) == 2 && Latest(d2) == 1 && !Agreeing(d1, d2, 0)
  {
    TwoFiles(a, b);
    PendingStep([a, b], 2, 0);
    PendingStep([a, b], 1, 0);
    PendingStep([b], 1, 0);
    PendingNone([b], 1, 2);
    assert Todo([a, b], 0) == [Mutation(2, b.changes)];
    assert Todo([b], 0) == [Mutation(1, b.changes)];
  }

  // ---------------------------------------------------------------- the evolver object

  class Evolver<!S> {
    const exec: Executor<S>
    const mutations: seq<Entry>
    const backupBeforeMutations: bool
    var db: Database<S>

    constructor (exec: Executor<S>, db: Database<S>, mutations: seq<Entry>, backup: bool)
      ensures this.exec == exec && this.db == db && this.mutations == mutations && backupBeforeMutations == backup
    {
      this.exec, this.db, this.mutations, backupBeforeMutations := exec, db, mutations, backup;
    }

    /** Creates the version table when it is missing. */
    method EnsureSchemaVersionTable(f: Faults) returns (err: Option<Stage>)
      modifies this
      ensures err == (if f.check || (old(db).version.None? && f.create) then Some(Ensuring) else None)
      ensures db == if err.None? && old(db).version.None? then Database(old(db).schema, Some(0)) else old(db)
    {
      if f.check {
        return Some(Ensuring);
      }
      if db.version.None? {
        if f.create {
          return Some(Ensuring);
        }
        db := db.(version := Some(0));
      }
      err := None;
    }

    /** Sorts the directory and numbers its .sql files by position. */
    method LoadMutations(f: Faults) returns (r: Result<seq<Mutation>, Stage>)
      ensures r == if Loads(Ordered(mutations), f) then Success(Mutations(Ordered(mutations), |Ordered(mutations)|))
                   else Failure(Loading)
    {
      if f.readDir {
        return Failure(Loading);
      }
      var entries := Ordered(mutations);
      var evolutions: seq<Mutation> := [];
      for i := 0 to |entries|
        invariant evolutions == Mutations(entries, i)
        invariant forall j :: 0 <= j < i ==> Readable(entries[j], f)
      {
        if entries[i].name in f.badInfo {
          return Failure(Loading);
        }
        if IsSql(entries[i].name) {
          if entries[i].name in f.badRead {
            return Failure(Loading);
          }
          evolutions := evolutions + [Mutation(i + 1, entries[i].changes)];
        }
      }
      r := Success(evolutions);
    }

    /** One run; tx is the transaction's view of the database, kept only if the commit succeeds. */
    method MutateSchema(f: Faults) returns (err: Option<Stage>)
      modifies this
      ensures (db, err) == Evolve(exec, f, backupBeforeMutations, old(db), mutations)
    {
      err := EnsureSchemaVersionTable(f);
      if err.Some? {
        return;
      }
      if f.scan {
        return Some(Scanning);
      }
      var version := db.version.value;
      var loaded := LoadMutations(f);
      if loaded.Failure? {
        return Some(loaded.error);
      }
      if backupBeforeMutations && f.backup {
        return Some(BackingUp);
      }
      if f.begin {
        return Some(Beginning);
      }
      var ms := loaded.value;
      var tx := db;
      assert ms[0..] == ms;
      for i := 0 to |ms|
        invariant db == Ensured(old(db))
        invariant Transact(exec, f, tx, Pending(ms[i..], version)) == Transact(exec, f, db, Pending(ms, version))
      {
        assert ms[i..][1..] == ms[i + 1..];
        if version < 0 || ms[i].version <= version {
          assert Pending(ms[i..], version) == Pending(ms[i + 1..], version);
          continue;
        }
        var next := exec(tx.schema, ms[i].changes);
        if next.None? || ms[i].version in f.badExec {
          return Some(Applying);
        }
        if ms[i].version in f.badUpdate {
          return Some(Updating);
        }
        assert Pending(ms[i..], version)[1..] == Pending(ms[i + 1..], version);
        tx := Database(next.value, Some(ms[i].version));
      }
      if f.commit {
        return Some(Committing);
      }
      db := tx;
      err := None;
    }
  }
}
