/**
 The schema migration runner (internal/analytics/migrations.go). The database is a schema and
 the set of versions recorded in schema_migrations; each migration runs in a transaction that
 changes both or neither. S is the type of schemas and exec the effect of a script on one.
 */
module Migrations {
  import opened Wrappers

  datatype Migration = Migration(version: int, name: string, up: string, down: string)

  /** How a transaction ends. A failed commit may or may not have taken effect. */
  datatype Outcome = Committed | BeginFailed | ScriptFailed | RecordFailed | CommitFailed | CommitLostButLanded

  datatype Db<S> = Db(schema: S, applied: set<int>)

  predicate Lands(o: Outcome) {
    o.Committed? || o.CommitLostButLanded?
  }

  // ---- loadMigrations -------------------------------------------------------

  datatype Direction = Up | Down

  /** A migration file whose name parsed as version_name.up.sql or version_name.down.sql; name is version_name. */
  datatype File = File(version: int, name: string, direction: Direction, sql: string)

  ghost predicate Ascending(ms: seq<Migration>) {
    forall i, k :: 0 <= i < k < |ms| ==> ms[i].version < ms[k].version
  }

  function Versions(ms: seq<Migration>): set<int> {
    set m | m in ms :: m.version
  }

  /** The script of the last file of a version and direction; empty if there is none. */
  function ScriptOf(files: seq<File>, version: int, direction: Direction): string {
    if files == [] then ""
    else
      var last := files[|files| - 1];
      if last.version == version && last.direction == direction then last.sql
      else ScriptOf(files[..|files| - 1], version, direction)
  }

  /** The name on the first file of a version. */
  function NameOf(files: seq<File>, version: int): string {
    if files == [] then ""
    else if files[0].version == version then files[0].name
    else NameOf(files[1..], version)
  }

  function Described(files: seq<File>, version: int): Migration {
    Migration(version, NameOf(files, version), ScriptOf(files, version, Up), ScriptOf(files, version, Down))
  }

  function FileVersions(files: seq<File>): set<int> {
    set f | f in files :: f.version
  }

  lemma {:induction false} NameOfAppend(files: seq<File>, f: File, version: int)
    ensures NameOf(files + [f], version) ==
              if version in FileVersions(files) then NameOf(files, version)
              else if f.version == version then f.name
              else ""
    decreases |files|
  {
    if files == [] {
      assert files + [f] == [f];
    } else {
      assert (files + [f])[1..] == files[1..] + [f];
      NameOfAppend(files[1..], f, version);
      assert files[0] in files && forall g :: g in files <==> g == files[0] || g in files[1..];
    }
  }

  lemma {:induction false} ScriptOfUnknown(files: seq<File>, version: int, direction: Direction)
    requires version !in FileVersions(files)
    ensures ScriptOf(files, version, direction) == ""
    decreases |files|
  {
    if files == [] {
    } else {
      assert files[|files| - 1] in files;
      ScriptOfUnknown(files[..|files| - 1], version, direction);
    }
  }

  /** The last file of a version and direction has the script. */
  lemma {:induction false} ScriptIsTheLast(files: seq<File>, i: nat)
    requires i < |files|
    requires forall k :: i < k < |files| ==>
      files[k].version != files[i].version || files[k].direction != files[i].direction
    ensures ScriptOf(files, files[i].version, files[i].direction) == files[i].sql
    decreases |files|
  {
    if i < |files| - 1 {
      ScriptIsTheLast(files[..|files| - 1], i);
    }
  }

  /** The first file of a version names it. */
  lemma {:induction false} NameIsTheFirst(files: seq<File>, i: nat)
    requires i < |files| && forall k :: 0 <= k < i ==> files[k].version != files[i].version
    ensures NameOf(files, files[i].version) == files[i].name
    decreases |files|
  {
    if i > 0 {
      NameIsTheFirst(files[1..], i - 1);
    }
  }

  lemma DescribedAppend(files: seq<File>, f: File, version: int)
    ensures Described(files + [f], version) ==
              var m := Described(files, version);
              if f.version != version then m
              else
                var n := if version in FileVersions(files) then m.name else f.name;
                if f.direction.Up? then m.(name := n, up := f.sql) else m.(name := n, down := f.sql)
  {
    assert (files + [f])[..|files|] == files;
    NameOfAppend(files, f, version);
    if version !in FileVersions(files) {
      NameOfUnknown(files, version);
    }
  }

  lemma {:induction false} NameOfUnknown(files: seq<File>, version: int)
    requires version !in FileVersions(files)
    ensures NameOf(files, version) == ""
    decreases |files|
  {
    if files == [] {
    } else {
      assert files[0] in files;
      assert forall g :: g in files[1..] ==> g in files;
      NameOfUnknown(files[1..], version);
    }
  }

  ghost predicate Grouped(files: seq<File>, grouped: map<int, Migration>) {
    && grouped.Keys == FileVersions(files)
    && forall v :: v in grouped ==> grouped[v] == Described(files, v)
  }

  /** The group of f's version with f put in. */
  function Placed(grouped: map<int, Migration>, f: File): Migration {
    var m := if f.version in grouped then grouped[f.version] else Migration(f.version, f.name, "", "");
    if f.direction.Up? then m.(up := f.sql) else m.(down := f.sql)
  }

  lemma GroupStep(files: seq<File>, grouped: map<int, Migration>, f: File)
    requires Grouped(files, grouped)
    ensures Grouped(files + [f], grouped[f.version := Placed(grouped, f)])
  {
    var after := grouped[f.version := Placed(grouped, f)];
    assert after.Keys == FileVersions(files + [f]);
    forall v | v in after ensures after[v] == Described(files + [f], v) {
      DescribedAppend(files, f, v);
      if v !in grouped {
        NameOfUnknown(files, v);
        ScriptOfUnknown(files, v, Up);
        ScriptOfUnknown(files, v, Down);
      }
    }
  }

  /** Group the files by version. */
  method GroupFiles(files: seq<File>) returns (grouped: map<int, Migration>)
    ensures grouped.Keys == FileVersions(files)
    ensures forall v :: v in grouped ==> grouped[v] == Described(files, v)
  {
    grouped := map[];
    for i := 0 to |files|
      invariant Grouped(files[..i], grouped)
    {
      var f := files[i];
      assert files[..i + 1] == files[..i] + [f];
      GroupStep(files[..i], grouped, f);
      if f.version !in grouped {
        grouped := grouped[f.version := Migration(f.version, f.name, "", "")];
      }
      var m := grouped[f.version];
      if f.direction.Up? {
        grouped := grouped[f.version := m.(up := f.sql)];
      } else {
        grouped := grouped[f.version := m.(down := f.sql)];
      }
    }
    assert files[..|files|] == files;
  }

  function Insert(ms: seq<Migration>, m: Migration): seq<Migration> {
    if ms == [] || m.version < ms[0].version then [m] + ms else [ms[0]] + Insert(ms[1..], m)
  }

  lemma {:induction false} InsertSorts(ms: seq<Migration>, m: Migration)
    requires Ascending(ms) && forall x :: x in ms ==> x.version != m.version
    ensures Ascending(Insert(ms, m))
    ensures forall x :: x in Insert(ms, m) <==> x == m || x in ms
    decreases |ms|
  {
    if ms != [] && m.version >= ms[0].version {
      var rest := ms[1..];
      InsertSorts(rest, m);
      assert ms == [ms[0]] + rest;
      var r := Insert(rest, m);
      forall k | 0 <= k < |r| ensures ms[0].version < r[k].version {
        assert r[k] in r;
      }
    }
  }

  /** loadMigrations: one migration per version, in ascending order. */
  method LoadMigrations(files: seq<File>) returns (ms: seq<Migration>)
    ensures Ascending(ms) && Versions(ms) == FileVersions(files)
    ensures forall m :: m in ms ==> m == Described(files, m.version)
  {
    var grouped := GroupFiles(files);
    ms := [];
    var todo := grouped.Keys;
    while todo != {}
      invariant todo <= grouped.Keys && Ascending(ms)
      invariant forall m :: m in ms <==> m.version in grouped.Keys - todo && m == grouped[m.version]
      decreases todo
    {
      var v :| v in todo;
      InsertSorts(ms, grouped[v]);
      ms := Insert(ms, grouped[v]);
      todo := todo - {v};
    }
    forall v | v in FileVersions(files) ensures v in Versions(ms) {
      assert grouped[v] in ms;
    }
  }

  // ---- Migrate and Rollback on a database --------------------------------------

  function Raise<S>(exec: (string, S) -> S, db: Db<S>, m: Migration): Db<S> {
    Db(exec(m.up, db.schema), db.applied + {m.version})
  }

  function Lower<S>(exec: (string, S) -> S, db: Db<S>, m: Migration): Db<S> {
    Db(exec(m.down, db.schema), db.applied - {m.version})
  }

  /** The version is the key of the tracking table: recording one that is there already fails and rolls back. */
  function Recorded(applied: set<int>, v: int, o: Outcome): Outcome {
    if v in applied && Lands(o) then RecordFailed else o
  }

  /** The loop of Migrate: the applied set is read once, before it starts. */
  function MigrateAll<S>(ms: seq<Migration>, exec: (string, S) -> S, known: set<int>, db: Db<S>, count: nat,
                         outcome: int -> Outcome)
    : (Db<S>, nat, bool)
    decreases |ms|
  {
    if ms == [] then (db, count, true)
    else
      var m := ms[0];
      if m.version in known then MigrateAll(ms[1..], exec, known, db, count, outcome)
      else if m.up == "" then (db, count, false)
      else match Recorded(db.applied, m.version, outcome(m.version))
        case Committed => MigrateAll(ms[1..], exec, known, Raise(exec, db, m), count + 1, outcome)
        case CommitLostButLanded => (Raise(exec, db, m), count, false)
        case _ => (db, count, false)
  }

  /** The version Rollback aims at: the highest applied one, if it is above zero. */
  ghost predicate IsHighest(applied: set<int>, v: int) {
    v in applied && v > 0 && forall w :: w in applied ==> w <= v
  }

  function FindVersion(ms: seq<Migration>, v: int): Option<Migration> {
    if ms == [] then None
    else if ms[0].version == v then Some(ms[0])
    else FindVersion(ms[1..], v)
  }

  /** Rollback of version v: the database, the version reported, and success. */
  function RollbackOne<S>(ms: seq<Migration>, exec: (string, S) -> S, v: int, db: Db<S>,
                          outcome: int -> Outcome): (Db<S>, int, bool) {
    match FindVersion(ms, v)
    case None => (db, 0, false)
    case Some(m) =>
      if m.down == "" then (db, 0, false)
      else match outcome(v)
        case Committed => (Lower(exec, db, m), v, true)
        case CommitLostButLanded => (Lower(exec, db, m), 0, false)
        case _ => (db, 0, false)
  }

  method MaxVersion(applied: set<int>) returns (max: int)
    ensures max > 0 ==> IsHighest(applied, max)
    ensures max <= 0 ==> max == 0 && forall v :: v in applied ==> v <= 0
  {
    max := 0;
    var rest := applied;
    while exists v :: v in rest
      invariant rest <= applied && 0 <= max && (max == 0 || max in applied)
      invariant forall v :: v in applied ==> v in rest || v <= max
      decreases rest
    {
      var v :| v in rest;
      if v > max {
        max := v;
      }
      rest := rest - {v};
    }
  }

  lemma {:induction false} FindsOnly(ms: seq<Migration>, v: int)
    requires Ascending(ms)
    ensures forall m :: m in ms && m.version == v <==> FindVersion(ms, v) == Some(m)
    decreases |ms|
  {
    if ms != [] {
      FindsOnly(ms[1..], v);
      assert ms == [ms[0]] + ms[1..];
    }
  }

  /** The migration of a version can be undone, and its transaction takes effect. */
  ghost predicate Undoes(ms: seq<Migration>, v: int, m: Migration, o: Outcome) {
    m in ms && m.version == v && m.down != "" && o in {Committed, CommitLostButLanded}
  }

  /** What a rollback of version v comes to: the version is reported exactly when it is undone and known to be. */
  lemma RollbackOutcome<S>(ms: seq<Migration>, exec: (string, S) -> S, v: int, db: Db<S>, outcome: int -> Outcome)
    requires Ascending(ms)
    ensures var (after, version, ok) := RollbackOne(ms, exec, v, db, outcome);
            && (forall m :: Undoes(ms, v, m, outcome(v)) ==>
                  && after == Db(exec(m.down, db.schema), db.applied - {v})
                  && ok == outcome(v).Committed? && version == (if ok then v else 0))
            && ((forall m :: !Undoes(ms, v, m, outcome(v))) ==> after == db && version == 0 && !ok)
  {
    FindsOnly(ms, v);
    var found := FindVersion(ms, v);
    if found.Some? && found.value.down != "" && Lands(outcome(v)) {
      assert Undoes(ms, v, found.value, outcome(v));
    }
  }

  class Database<S> {
    var schema: S
    var applied: set<int>

    function Contents(): Db<S>
      reads this
    {
      Db(schema, applied)
    }

    constructor (s: S)
      ensures Contents() == Db(s, {})
    {
      schema, applied := s, {};
    }

    /** readable: whether the tracking table could be created and read. */
    method Migrate(ms: seq<Migration>, exec: (string, S) -> S, readable: bool, outcome: int -> Outcome)
      returns (count: nat, ok: bool)
      modifies this
      ensures !readable ==> Contents() == old(Contents()) && count == 0 && !ok
      ensures readable ==> (Contents(), count, ok) == MigrateAll(ms, exec, old(applied), old(Contents()), 0, outcome)
    {
      count := 0;
      if !readable {
        return 0, false;
      }
      var known := applied;
      for i := 0 to |ms|
        invariant MigrateAll(ms, exec, known, old(Contents()), 0, outcome) ==
          MigrateAll(ms[i..], exec, known, Contents(), count, outcome)
      {
        var m := ms[i];
        assert ms[i..][1..] == ms[i + 1..];
        if m.version !in known {
          if m.up == "" {
            return count, false;
          }
          var o := Recorded(applied, m.version, outcome(m.version));
          if Lands(o) {
            schema := exec(m.up, schema);
            applied := applied + {m.version};
          }
          if !o.Committed? {
            return count, false;
          }
          count := count + 1;
        }
      }
      ok := true;
    }

    /** Returns the version rolled back, or 0 when there was nothing to roll back or an error. */
    method Rollback(ms: seq<Migration>, exec: (string, S) -> S, readable: bool, outcome: int -> Outcome)
      returns (version: int, ok: bool)
      modifies this
      ensures !readable ==> Contents() == old(Contents()) && version == 0 && !ok
      ensures readable && (forall v :: v in old(applied) ==> v <= 0) ==>
        Contents() == old(Contents()) && version == 0 && ok
      ensures readable ==> forall v :: IsHighest(old(applied), v) ==>
                (Contents(), version, ok) == RollbackOne(ms, exec, v, old(Contents()), outcome)
      ensures readable && Ascending(ms) ==>
        forall v, m :: IsHighest(old(applied), v) && Undoes(ms, v, m, outcome(v)) ==>
                && Contents() == Db(exec(m.down, old(schema)), old(applied) - {v})
                && ok == outcome(v).Committed? && version == if ok then v else 0
      ensures !ok ==> version == 0
    {
      if Ascending(ms) {
        forall v {
          RollbackOutcome(ms, exec, v, Contents(), outcome);
        }
      }
      if !readable {
        return 0, false;
      }
      var maxVersion := MaxVersion(applied);
      if maxVersion == 0 {
        return 0, true;
      }
      for i := 0 to |ms|
        invariant FindVersion(ms, maxVersion) == FindVersion(ms[i..], maxVersion)
      {
        if ms[i].version == maxVersion {
          var m := ms[i];
          if m.down == "" {
            return 0, false;
          }
          var o := outcome(m.version);
          if Lands(o) {
            schema := exec(m.down, schema);
            applied := applied - {m.version};
          }
          if !o.Committed? {
            return 0, false;
          }
          return m.version, true;
        }
      }
      return 0, false;
    }
  }

  // ---- What every history of calls keeps ----------------------------------------

  function Ups<S>(ms: seq<Migration>, exec: (string, S) -> S, s: S): S {
    if ms == [] then s else exec(ms[|ms| - 1].up, Ups(ms[..|ms| - 1], exec, s))
  }

  /** Exactly the first k migrations are recorded, and the schema is what their up scripts make of the original. */
  ghost predicate AtPrefix<S>(ms: seq<Migration>, exec: (string, S) -> S, origin: S, db: Db<S>, k: nat) {
    k <= |ms| && db == Db(Ups(ms[..k], exec, origin), Versions(ms[..k]))
  }

  /** Every down script there is undoes its up script. */
  ghost predicate Reversible<S(!new)>(ms: seq<Migration>, exec: (string, S) -> S) {
    forall m, s :: m in ms && m.down != "" ==> exec(m.down, exec(m.up, s)) == s
  }

  ghost predicate Positive(ms: seq<Migration>) {
    forall m :: m in ms ==> m.version > 0
  }

  lemma PrefixVersion(ms: seq<Migration>, k: nat, i: nat)
    requires Ascending(ms) && k <= |ms| && i < |ms|
    ensures ms[i].version in Versions(ms[..k]) <==> i < k
  {
    if i < k {
      assert ms[i] == ms[..k][i];
      assert ms[i] in ms[..k];
    }
  }

  lemma VersionsGrow(ms: seq<Migration>, k: nat)
    requires k < |ms|
    ensures Versions(ms[..k + 1]) == Versions(ms[..k]) + {ms[k].version}
  {
    assert ms[..k + 1] == ms[..k] + [ms[k]];
    assert forall m :: m in ms[..k + 1] <==> m in ms[..k] || m == ms[k];
  }

  lemma RaiseAdvances<S>(ms: seq<Migration>, exec: (string, S) -> S, origin: S, db: Db<S>, k: nat)
    requires k < |ms| && AtPrefix(ms, exec, origin, db, k)
    ensures AtPrefix(ms, exec, origin, Raise(exec, db, ms[k]), k + 1)
  {
    VersionsGrow(ms, k);
    assert ms[..k + 1][..k] == ms[..k];
  }

  lemma LowerRetreats<S(!new)>(ms: seq<Migration>, exec: (string, S) -> S, origin: S, db: Db<S>, k: nat)
    requires Ascending(ms) && Reversible(ms, exec) && 0 < k && AtPrefix(ms, exec, origin, db, k) && ms[k - 1].down != ""
    ensures AtPrefix(ms, exec, origin, Lower(exec, db, ms[k - 1]), k - 1)
  {
    VersionsGrow(ms, k - 1);
    PrefixVersion(ms, k - 1, k - 1);
    assert ms[..k][..k - 1] == ms[..k - 1];
    assert ms[k - 1] in ms;
  }

  /** Where the loop of Migrate stands when it looks at migration i: skipped ones are behind the old prefix k0. */
  function Reached(k0: nat, i: nat): nat {
    if i < k0 then k0 else i
  }

  lemma AdvancedByOne<S>(ms: seq<Migration>, exec: (string, S) -> S, origin: S, i: nat, k: nat, count: nat,
                         result: (Db<S>, nat, bool))
    requires Advanced(ms, exec, origin, i + 1, k, count + 1, result)
    ensures Advanced(ms, exec, origin, i, k, count, result)
  {
  }

  /** A migration next in line that does not land ends the loop. */
  lemma StopsAt<S>(ms: seq<Migration>, exec: (string, S) -> S, k0: nat, i: nat, db: Db<S>, count: nat,
                   outcome: int -> Outcome)
    requires Ascending(ms) && k0 <= i < |ms| && (ms[i].up == "" || !Lands(outcome(ms[i].version)))
    ensures MigrateAll(ms[i..], exec, Versions(ms[..k0]), db, count, outcome) == (db, count, false)
  {
    MigrateUnfolds(ms, i, exec, Versions(ms[..k0]), db, count, outcome);
    PrefixVersion(ms, k0, i);
  }

  /** One that lands is not recorded yet, moves the prefix, and lets the loop go on if the commit is reported. */
  lemma LandsAt<S>(ms: seq<Migration>, exec: (string, S) -> S, origin: S, k0: nat, i: nat, db: Db<S>, count: nat,
                   outcome: int -> Outcome)
    requires Ascending(ms) && k0 <= i < |ms| && AtPrefix(ms, exec, origin, db, i) && ms[i].up != ""
    requires Lands(outcome(ms[i].version))
    ensures AtPrefix(ms, exec, origin, Raise(exec, db, ms[i]), i + 1)
    ensures MigrateAll(ms[i..], exec, Versions(ms[..k0]), db, count, outcome) ==
              if outcome(ms[i].version).Committed?
              then MigrateAll(ms[i + 1..], exec, Versions(ms[..k0]), Raise(exec, db, ms[i]), count + 1, outcome)
              else (Raise(exec, db, ms[i]), count, false)
  {
    MigrateUnfolds(ms, i, exec, Versions(ms[..k0]), db, count, outcome);
    PrefixVersion(ms, k0, i);
    PrefixVersion(ms, i, i);
    RaiseAdvances(ms, exec, origin, db, i);
  }

  /** From the first migration past the prefix on. */
  lemma {:induction false} PendingAdvance<S>(ms: seq<Migration>, exec: (string, S) -> S, origin: S, k0: nat, i: nat,
                                             db: Db<S>, count: nat, outcome: int -> Outcome) returns (k: nat)
    requires Ascending(ms) && k0 <= i <= |ms| && AtPrefix(ms, exec, origin, db, i)
    ensures Advanced(ms, exec, origin, i, k, count, MigrateAll(ms[i..], exec, Versions(ms[..k0]), db, count, outcome))
    decreases |ms| - i
  {
    if i == |ms| {
      assert ms[i..] == [];
      AdvancedHere(ms, exec, origin, i, db, count);
      k := |ms|;
    } else if ms[i].up == "" || !Lands(outcome(ms[i].version)) {
      StopsAt(ms, exec, k0, i, db, count, outcome);
      AdvancedHere(ms, exec, origin, i, db, count);
      k := i;
    } else {
      LandsAt(ms, exec, origin, k0, i, db, count, outcome);
      var next := Raise(exec, db, ms[i]);
      if outcome(ms[i].version).Committed? {
        k := PendingAdvance(ms, exec, origin, k0, i + 1, next, count + 1, outcome);
        AdvancedByOne(ms, exec, origin, i, k, count,
          MigrateAll(ms[i + 1..], exec, Versions(ms[..k0]), next, count + 1, outcome));
      } else {
        AdvancedUnreported(ms, exec, origin, i, next, count);
        k := i + 1;
      }
    }
  }

  lemma AdvancedHere<S>(ms: seq<Migration>, exec: (string, S) -> S, origin: S, i: nat, db: Db<S>, count: nat)
    requires AtPrefix(ms, exec, origin, db, i)
    ensures Advanced(ms, exec, origin, i, i, count, (db, count, false))
    ensures i == |ms| ==> Advanced(ms, exec, origin, i, i, count, (db, count, true))
  {
  }

  lemma AdvancedUnreported<S>(ms: seq<Migration>, exec: (string, S) -> S, origin: S, i: nat, db: Db<S>, count: nat)
    requires AtPrefix(ms, exec, origin, db, i + 1)
    ensures Advanced(ms, exec, origin, i, i + 1, count, (db, count, false))
  {
  }

  /** The loop of Migrate moves the prefix forward, counting each reported commit; success means the whole list. */
  lemma MigrateAdvances<S>(ms: seq<Migration>, exec: (string, S) -> S, origin: S, k0: nat, i: nat,
                           db: Db<S>, count: nat, outcome: int -> Outcome) returns (k: nat)
    requires Ascending(ms) && k0 <= |ms| && i <= |ms| && AtPrefix(ms, exec, origin, db, Reached(k0, i))
    ensures Advanced(ms, exec, origin, Reached(k0, i), k, count,
      MigrateAll(ms[i..], exec, Versions(ms[..k0]), db, count, outcome))
  {
    SkipsKnown(ms, exec, k0, i, db, count, outcome);
    k := PendingAdvance(ms, exec, origin, k0, Reached(k0, i), db, count, outcome);
  }

  lemma MigrateUnfolds<S>(ms: seq<Migration>, i: nat, exec: (string, S) -> S, known: set<int>, db: Db<S>, count: nat,
                          outcome: int -> Outcome)
    requires i < |ms|
    ensures MigrateAll(ms[i..], exec, known, db, count, outcome) ==
              var m := ms[i];
              if m.version in known then MigrateAll(ms[i + 1..], exec, known, db, count, outcome)
              else if m.up == "" || m.version in db.applied || !Lands(outcome(m.version)) then (db, count, false)
              else if outcome(m.version).Committed?
                then MigrateAll(ms[i + 1..], exec, known, Raise(exec, db, m), count + 1, outcome)
              else (Raise(exec, db, m), count, false)
  {
    assert ms[i..][0] == ms[i] && ms[i..][1..] == ms[i + 1..];
  }

  /**
   * The prefix went from `from` to k; the count is exact on success and misses at most one unreported commit otherwise.
   */
  ghost predicate Advanced<S>(ms: seq<Migration>, exec: (string, S) -> S, origin: S, from: nat, k: nat, count: nat,
                              result: (Db<S>, nat, bool)) {
    && AtPrefix(ms, exec, origin, result.0, k) && k >= from
    && count + k - from - 1 <= result.1 <= count + k - from
    && (result.2 ==> k == |ms| && result.1 == count + k - from)
  }

  lemma HighestIsLast(ms: seq<Migration>, k: nat, v: int)
    requires Ascending(ms) && k <= |ms|
    ensures IsHighest(Versions(ms[..k]), v) <==> k > 0 && v == ms[k - 1].version && v > 0
  {
    var prefix := ms[..k];
    if k > 0 {
      var last := ms[k - 1];
      assert last in ms && prefix[k - 1] == last && last in prefix;
      assert last.version in Versions(prefix);
      forall w | w in Versions(prefix) ensures w <= last.version {
        var m :| m in prefix && m.version == w;
      }
    }
  }

  lemma {:induction false} FindsVersion(ms: seq<Migration>, i: nat)
    requires Ascending(ms) && i < |ms|
    ensures FindVersion(ms, ms[i].version) == Some(ms[i])
    decreases |ms|
  {
    if i == 0 {
    } else {
      FindsVersion(ms[1..], i - 1);
    }
  }

  /** One call of either kind, with its failures. */
  datatype Call =
    | MigrateCall(readable: bool, outcome: int -> Outcome)
    | RollbackCall(readable: bool, outcome: int -> Outcome)

  /** What a call leaves behind, as the two methods specify it. */
  ghost function After<S>(ms: seq<Migration>, exec: (string, S) -> S, db: Db<S>, call: Call): Db<S> {
    match call
    case MigrateCall(readable, outcome) =>
      if !readable then db else MigrateAll(ms, exec, db.applied, db, 0, outcome).0
    case RollbackCall(readable, outcome) =>
      if !readable || !(exists v :: IsHighest(db.applied, v)) then db
      else
        var v :| IsHighest(db.applied, v);
        RollbackOne(ms, exec, v, db, outcome).0
  }

  ghost function AfterAll<S>(ms: seq<Migration>, exec: (string, S) -> S, db: Db<S>, calls: seq<Call>): Db<S> {
    if calls == [] then db else After(ms, exec, AfterAll(ms, exec, db, calls[..|calls| - 1]), calls[|calls| - 1])
  }

  lemma RollbackKeepsPrefix<S(!new)>(ms: seq<Migration>, exec: (string, S) -> S, origin: S, db: Db<S>, v: int,
                                     outcome: int -> Outcome, k: nat)
    returns (k': nat)
    requires Ascending(ms) && Reversible(ms, exec) && AtPrefix(ms, exec, origin, db, k) && IsHighest(db.applied, v)
    ensures AtPrefix(ms, exec, origin, RollbackOne(ms, exec, v, db, outcome).0, k')
    ensures RollbackOne(ms, exec, v, db, outcome).2 ==> k' + 1 == k
  {
    HighestIsLast(ms, k, v);
    FindsVersion(ms, k - 1);
    k' := k;
    if ms[k - 1].down != "" && Lands(outcome(v)) {
      LowerRetreats(ms, exec, origin, db, k);
      k' := k - 1;
    }
  }

  lemma CallKeepsPrefix<S(!new)>(ms: seq<Migration>, exec: (string, S) -> S, origin: S, db: Db<S>, call: Call, k: nat)
    returns (k': nat)
    requires Ascending(ms) && Reversible(ms, exec) && AtPrefix(ms, exec, origin, db, k)
    ensures AtPrefix(ms, exec, origin, After(ms, exec, db, call), k')
  {
    k' := k;
    match call
    case MigrateCall(readable, outcome) =>
      if readable {
        assert ms[0..] == ms;
        k' := MigrateAdvances(ms, exec, origin, k, 0, db, 0, outcome);
      }
    case RollbackCall(readable, outcome) =>
      if readable && exists v :: IsHighest(db.applied, v) {
        var v :| IsHighest(db.applied, v);
        k' := RollbackKeepsPrefix(ms, exec, origin, db, v, outcome, k);
      }
  }

  /**
   From an empty tracking table, after any sequence of Migrate and Rollback calls with any
   failures, the recorded versions are a prefix of the list and the schema matches them.
   */
  lemma {:induction false} HistoryKeepsPrefix<S(!new)>(ms: seq<Migration>, exec: (string, S) -> S, origin: S,
                                                       calls: seq<Call>)
    returns (k: nat)
    requires Ascending(ms) && Reversible(ms, exec)
    ensures AtPrefix(ms, exec, origin, AfterAll(ms, exec, Db(origin, {}), calls), k)
    decreases |calls|
  {
    if calls == [] {
      assert ms[..0] == [];
      k := 0;
    } else {
      var k0 := HistoryKeepsPrefix(ms, exec, origin, calls[..|calls| - 1]);
      k := CallKeepsPrefix(ms, exec, origin, AfterAll(ms, exec, Db(origin, {}), calls[..|calls| - 1]),
        calls[|calls| - 1], k0);
    }
  }

  /** After any history, a successful Migrate reaches the whole list, and another one right after applies nothing. */
  lemma SuccessfulMigrateCompletes<S(!new)>(ms: seq<Migration>, exec: (string, S) -> S, origin: S, calls: seq<Call>,
                                            outcome: int -> Outcome, again: int -> Outcome)
    requires Ascending(ms) && Reversible(ms, exec)
    requires var db := AfterAll(ms, exec, Db(origin, {}), calls); MigrateAll(ms, exec, db.applied, db, 0, outcome).2
    ensures var db := AfterAll(ms, exec, Db(origin, {}), calls);
            var db' := MigrateAll(ms, exec, db.applied, db, 0, outcome).0;
            && db' == Db(Ups(ms, exec, origin), Versions(ms))
            && MigrateAll(ms, exec, db.applied, db, 0, outcome).1 == |ms| - |db.applied|
            && MigrateAll(ms, exec, db'.applied, db', 0, again) == (db', 0, true)
  {
    var k0 := HistoryKeepsPrefix(ms, exec, origin, calls);
    var db := AfterAll(ms, exec, Db(origin, {}), calls);
    assert ms[0..] == ms && ms[..|ms|] == ms;
    var k := MigrateAdvances(ms, exec, origin, k0, 0, db, 0, outcome);
    var db' := MigrateAll(ms, exec, db.applied, db, 0, outcome).0;
    PrefixSize(ms, k0);
    NothingToDo(ms, exec, db'.applied, db', 0, again);
  }

  lemma OneMore(s: set<int>, v: int)
    requires v !in s
    ensures |s + {v}| == |s| + 1
  {
  }

  lemma VersionCount(ms: seq<Migration>, k: nat)
    requires Ascending(ms) && k < |ms|
    ensures |Versions(ms[..k + 1])| == |Versions(ms[..k])| + 1
  {
    var before, v := Versions(ms[..k]), ms[k].version;
    assert Versions(ms[..k + 1]) == before + {v} by {
      VersionsGrow(ms, k);
    }
    assert v !in before by {
      PrefixVersion(ms, k, k);
    }
    OneMore(before, v);
  }

  lemma {:induction false} PrefixSize(ms: seq<Migration>, k: nat)
    requires Ascending(ms) && k <= |ms|
    ensures |Versions(ms[..k])| == k
  {
    if k == 0 {
      assert Versions(ms[..0]) == {};
    } else {
      PrefixSize(ms, k - 1);
      VersionCount(ms, k - 1);
    }
  }

  lemma {:induction false} NothingToDo<S>(ms: seq<Migration>, exec: (string, S) -> S, known: set<int>, db: Db<S>,
                                          count: nat, outcome: int -> Outcome)
    requires forall m :: m in ms ==> m.version in known
    ensures MigrateAll(ms, exec, known, db, count, outcome) == (db, count, true)
    decreases |ms|
  {
    if ms == [] {
    } else {
      assert ms[0] in ms;
      NothingToDo(ms[1..], exec, known, db, count, outcome);
    }
  }

  // ---- Overlapping calls ----------------------------------------------------------

  ghost predicate AtSomePrefix<S>(ms: seq<Migration>, exec: (string, S) -> S, origin: S, db: Db<S>) {
    exists k :: AtPrefix(ms, exec, origin, db, k)
  }

  /** The migrations that were recorded when the table was read are passed over. */
  lemma {:induction false} SkipsKnown<S>(ms: seq<Migration>, exec: (string, S) -> S, k0: nat, i: nat, db: Db<S>,
                                         count: nat, outcome: int -> Outcome)
    requires Ascending(ms) && k0 <= |ms| && i <= |ms|
    ensures MigrateAll(ms[i..], exec, Versions(ms[..k0]), db, count, outcome)
         == MigrateAll(ms[Reached(k0, i)..], exec, Versions(ms[..k0]), db, count, outcome)
    decreases k0 - i
  {
    if i < k0 {
      MigrateUnfolds(ms, i, exec, Versions(ms[..k0]), db, count, outcome);
      PrefixVersion(ms, k0, i);
      SkipsKnown(ms, exec, k0, i + 1, db, count, outcome);
    }
  }

  /** Recording a migration past the next one leaves a gap. */
  lemma GapIsNoPrefix<S>(ms: seq<Migration>, exec: (string, S) -> S, origin: S, db: Db<S>, k: nat, p: nat)
    requires Ascending(ms) && AtPrefix(ms, exec, origin, db, k) && k < p < |ms|
    ensures !AtSomePrefix(ms, exec, origin, Raise(exec, db, ms[p]))
  {
    var after := Raise(exec, db, ms[p]);
    forall k' | AtPrefix(ms, exec, origin, after, k') ensures false {
      PrefixVersion(ms, k', p);
      PrefixVersion(ms, k', k);
      PrefixVersion(ms, k, k);
    }
  }

  /** A Migrate that goes on from migration p with the table at prefix k. */
  lemma ResumeKeepsPrefix<S>(ms: seq<Migration>, exec: (string, S) -> S, origin: S, k0: nat, p: nat, db: Db<S>, k: nat,
                             count: nat, outcome: int -> Outcome)
    requires Ascending(ms) && k0 <= p <= |ms| && AtPrefix(ms, exec, origin, db, k)
    requires p <= k || p == |ms| || ms[p].up == ""
    ensures AtSomePrefix(ms, exec, origin, MigrateAll(ms[p..], exec, Versions(ms[..k0]), db, count, outcome).0)
  {
    if p == |ms| {
      assert ms[p..] == [];
    } else if p == k {
      var k' := MigrateAdvances(ms, exec, origin, k0, p, db, count, outcome);
    } else {
      MigrateUnfolds(ms, p, exec, Versions(ms[..k0]), db, count, outcome);
      PrefixVersion(ms, k0, p);
      PrefixVersion(ms, k, p);
    }
  }

  /** A Migrate past the table's prefix, with a script to run, can leave a gap. */
  lemma ResumeBreaksPrefix<S>(ms: seq<Migration>, exec: (string, S) -> S, origin: S, k0: nat, p: nat, db: Db<S>, k: nat,
                              count: nat)
    returns (outcome: int -> Outcome)
    requires Ascending(ms) && k0 <= p < |ms| && AtPrefix(ms, exec, origin, db, k) && k < p && ms[p].up != ""
    ensures !AtSomePrefix(ms, exec, origin, MigrateAll(ms[p..], exec, Versions(ms[..k0]), db, count, outcome).0)
  {
    outcome := (v: int) => CommitLostButLanded;
    MigrateUnfolds(ms, p, exec, Versions(ms[..k0]), db, count, outcome);
    PrefixVersion(ms, k0, p);
    PrefixVersion(ms, k, p);
    GapIsNoPrefix(ms, exec, origin, db, k, p);
    assert MigrateAll(ms[p..], exec, Versions(ms[..k0]), db, count, outcome).0 == Raise(exec, db, ms[p]);
  }

  /** Whatever the transactions of a Migrate that read prefix k0 do from migration i on, a prefix remains. */
  ghost predicate AlwaysPrefix<S>(ms: seq<Migration>, exec: (string, S) -> S, origin: S, k0: nat, i: nat, db: Db<S>,
                                  count: nat)
    requires k0 <= |ms| && i <= |ms|
  {
    forall outcome ::
      AtSomePrefix(ms, exec, origin, MigrateAll(ms[i..], exec, Versions(ms[..k0]), db, count, outcome).0)
  }

  /**
   A Migrate that read the table at prefix k0 and goes on from migration i when other calls
   have left it at prefix k: whatever its transactions do, a prefix remains, exactly when its
   next migration is recorded already or is the next one missing, or it has nothing to apply.
   */
  lemma StaleReadIff<S>(ms: seq<Migration>, exec: (string, S) -> S, origin: S, k0: nat, i: nat, db: Db<S>, k: nat,
                        count: nat)
    requires Ascending(ms) && k0 <= |ms| && i <= |ms| && AtPrefix(ms, exec, origin, db, k)
    ensures var p := Reached(k0, i);
            AlwaysPrefix(ms, exec, origin, k0, i, db, count) <==> p <= k || p == |ms| || ms[p].up == ""
  {
    var p := Reached(k0, i);
    if p <= k || p == |ms| || ms[p].up == "" {
      forall outcome
        ensures AtSomePrefix(ms, exec, origin, MigrateAll(ms[i..], exec, Versions(ms[..k0]), db, count, outcome).0)
      {
        SkipsKnown(ms, exec, k0, i, db, count, outcome);
        ResumeKeepsPrefix(ms, exec, origin, k0, p, db, k, count, outcome);
      }
    } else {
      var outcome := ResumeBreaksPrefix(ms, exec, origin, k0, p, db, k, count);
      SkipsKnown(ms, exec, k0, i, db, count, outcome);
    }
  }

  /** One Migrate reads the table after the first calls and applies its migrations after the others. */
  ghost function Overlapped<S>(ms: seq<Migration>, exec: (string, S) -> S, origin: S, before: seq<Call>,
                               during: seq<Call>, outcome: int -> Outcome): Db<S> {
    var read := AfterAll(ms, exec, Db(origin, {}), before);
    MigrateAll(ms, exec, read.applied, AfterAll(ms, exec, Db(origin, {}), before + during), 0, outcome).0
  }

  ghost predicate OverlapIsHarmless<S>(ms: seq<Migration>, exec: (string, S) -> S, origin: S, before: seq<Call>,
                                       during: seq<Call>) {
    forall outcome :: AtSomePrefix(ms, exec, origin, Overlapped(ms, exec, origin, before, during, outcome))
  }

  /**
   * With k0 and k the prefixes at the read and at the resumption, the law survives exactly under the condition of
   * StaleReadIff.
   */
  lemma OverlapKeepsPrefixIff<S(!new)>(ms: seq<Migration>, exec: (string, S) -> S, origin: S, before: seq<Call>,
                                       during: seq<Call>)
    returns (k0: nat, k: nat)
    requires Ascending(ms) && Reversible(ms, exec)
    ensures AtPrefix(ms, exec, origin, AfterAll(ms, exec, Db(origin, {}), before), k0)
    ensures AtPrefix(ms, exec, origin, AfterAll(ms, exec, Db(origin, {}), before + during), k)
    ensures OverlapIsHarmless(ms, exec, origin, before, during) <==> k0 <= k || k0 == |ms| || ms[k0].up == ""
  {
    k0 := HistoryKeepsPrefix(ms, exec, origin, before);
    k := HistoryKeepsPrefix(ms, exec, origin, before + during);
    var db := AfterAll(ms, exec, Db(origin, {}), before + during);
    StaleReadIff(ms, exec, origin, k0, 0, db, k, 0);
    assert ms[0..] == ms;
    if AlwaysPrefix(ms, exec, origin, k0, 0, db, 0) {
      forall outcome ensures AtSomePrefix(ms, exec, origin, Overlapped(ms, exec, origin, before, during, outcome)) {
        assert AtSomePrefix(ms, exec, origin, MigrateAll(ms[0..], exec, Versions(ms[..k0]), db, 0, outcome).0);
      }
    } else {
      var outcome :| !AtSomePrefix(ms, exec, origin, MigrateAll(ms[0..], exec, Versions(ms[..k0]), db, 0, outcome).0);
      assert !AtSomePrefix(ms, exec, origin, Overlapped(ms, exec, origin, before, during, outcome));
    }
  }

  /** Only the first k0 migrations commit. */
  function UpTo(ms: seq<Migration>, k0: nat): int -> Outcome
    requires k0 <= |ms|
  {
    v => if v in Versions(ms[..k0]) then Committed else BeginFailed
  }

  lemma {:induction false} MigrateUpTo<S>(ms: seq<Migration>, exec: (string, S) -> S, origin: S, k0: nat, i: nat,
                                          db: Db<S>, count: nat)
    requires Ascending(ms) && i <= k0 <= |ms| && AtPrefix(ms, exec, origin, db, i)
    requires forall n :: 0 <= n < k0 ==> ms[n].up != ""
    ensures AtPrefix(ms, exec, origin, MigrateAll(ms[i..], exec, {}, db, count, UpTo(ms, k0)).0, k0)
    decreases k0 - i
  {
    if i < |ms| {
      MigrateUnfolds(ms, i, exec, {}, db, count, UpTo(ms, k0));
      PrefixVersion(ms, k0, i);
      PrefixVersion(ms, i, i);
    }
    if i < k0 {
      RaiseAdvances(ms, exec, origin, db, i);
      MigrateUpTo(ms, exec, origin, k0, i + 1, Raise(exec, db, ms[i]), count + 1);
    }
  }

  lemma AfterOneMore<S>(ms: seq<Migration>, exec: (string, S) -> S, db: Db<S>, calls: seq<Call>, call: Call)
    ensures AfterAll(ms, exec, db, calls + [call]) == After(ms, exec, AfterAll(ms, exec, db, calls), call)
  {
    assert (calls + [call])[..|calls|] == calls;
  }

  /** A committed rollback at prefix k leaves prefix k - 1. */
  lemma RollbackStepsBack<S(!new)>(ms: seq<Migration>, exec: (string, S) -> S, origin: S, db: Db<S>, k: nat)
    requires Ascending(ms) && Positive(ms) && Reversible(ms, exec) && 0 < k <= |ms| && ms[k - 1].down != ""
    requires AtPrefix(ms, exec, origin, db, k)
    ensures AtPrefix(ms, exec, origin, After(ms, exec, db, RollbackCall(true, v => Committed)), k - 1)
  {
    HighestIsLast(ms, k, ms[k - 1].version);
    assert IsHighest(db.applied, ms[k - 1].version);
    var v :| IsHighest(db.applied, v);
    HighestIsLast(ms, k, v);
    FindsVersion(ms, k - 1);
    LowerRetreats(ms, exec, origin, db, k);
    assert RollbackOne(ms, exec, v, db, v => Committed).0 == Lower(exec, db, ms[k - 1]);
  }

  /** A history that ends at prefix k0, and one more rollback. */
  lemma StepBack<S(!new)>(ms: seq<Migration>, exec: (string, S) -> S, origin: S, k0: nat)
    returns (before: seq<Call>, during: seq<Call>)
    requires Ascending(ms) && Positive(ms) && Reversible(ms, exec) && 0 < k0 <= |ms|
    requires (forall n :: 0 <= n < k0 ==> ms[n].up != "") && ms[k0 - 1].down != ""
    ensures AtPrefix(ms, exec, origin, AfterAll(ms, exec, Db(origin, {}), before), k0)
    ensures AtPrefix(ms, exec, origin, AfterAll(ms, exec, Db(origin, {}), before + during), k0 - 1)
  {
    var migrate, rollback := MigrateCall(true, UpTo(ms, k0)), RollbackCall(true, v => Committed);
    before, during := [] + [migrate], [rollback];
    var start := Db(origin, {});
    assert ms[..0] == [] && ms[0..] == ms;
    MigrateUpTo(ms, exec, origin, k0, 0, start, 0);
    AfterOneMore(ms, exec, start, [], migrate);
    AfterOneMore(ms, exec, start, before, rollback);
    RollbackStepsBack(ms, exec, origin, AfterAll(ms, exec, start, before), k0);
  }

  /** A database is at one prefix at most. */
  lemma OnePrefix<S>(ms: seq<Migration>, exec: (string, S) -> S, origin: S, db: Db<S>, k: nat, k': nat)
    requires Ascending(ms) && AtPrefix(ms, exec, origin, db, k) && AtPrefix(ms, exec, origin, db, k')
    ensures k == k'
  {
    PrefixSize(ms, k);
    PrefixSize(ms, k');
  }

  /** Such an overlap exists for every list with something left to apply: read, roll back, go on. */
  lemma StaleReadBreaksPrefix<S(!new)>(ms: seq<Migration>, exec: (string, S) -> S, origin: S, k0: nat)
    returns (before: seq<Call>, during: seq<Call>)
    requires Ascending(ms) && Positive(ms) && Reversible(ms, exec) && 0 < k0 < |ms|
    requires (forall n :: 0 <= n <= k0 ==> ms[n].up != "") && ms[k0 - 1].down != ""
    ensures !OverlapIsHarmless(ms, exec, origin, before, during)
  {
    before, during := StepBack(ms, exec, origin, k0);
    var r, k := OverlapKeepsPrefixIff(ms, exec, origin, before, during);
    OnePrefix(ms, exec, origin, AfterAll(ms, exec, Db(origin, {}), before), r, k0);
    OnePrefix(ms, exec, origin, AfterAll(ms, exec, Db(origin, {}), before + during), k, k0 - 1);
  }

  // ---- A Rollback on a stale read ---------------------------------------------------

  /** Taking a version out from below the last one leaves a gap. */
  lemma HoleIsNoPrefix<S>(ms: seq<Migration>, exec: (string, S) -> S, origin: S, db: Db<S>, k: nat, p: nat)
    requires Ascending(ms) && AtPrefix(ms, exec, origin, db, k) && p + 1 < k
    ensures !AtSomePrefix(ms, exec, origin, Lower(exec, db, ms[p]))
  {
    var after := Lower(exec, db, ms[p]);
    PrefixVersion(ms, k, k - 1);
    forall k' | AtPrefix(ms, exec, origin, after, k') ensures false {
      PrefixVersion(ms, k', k - 1);
      PrefixVersion(ms, k', p);
    }
  }

  /** Undoing a version that is not recorded changes the schema at most. */
  lemma UndoneTwice<S>(ms: seq<Migration>, exec: (string, S) -> S, origin: S, db: Db<S>, k: nat, p: nat)
    requires Ascending(ms) && AtPrefix(ms, exec, origin, db, k) && k <= p < |ms|
    ensures AtSomePrefix(ms, exec, origin, Lower(exec, db, ms[p])) <==> exec(ms[p].down, db.schema) == db.schema
  {
    PrefixVersion(ms, k, p);
    var after := Lower(exec, db, ms[p]);
    assert after.applied == db.applied;
    if AtSomePrefix(ms, exec, origin, after) {
      var k' :| AtPrefix(ms, exec, origin, after, k');
      PrefixSize(ms, k);
      PrefixSize(ms, k');
    } else {
      assert exec(ms[p].down, db.schema) == db.schema ==> AtPrefix(ms, exec, origin, after, k);
    }
  }

  lemma RollbackAt<S>(ms: seq<Migration>, exec: (string, S) -> S, p: nat, db: Db<S>, outcome: int -> Outcome)
    requires Ascending(ms) && p < |ms|
    ensures RollbackOne(ms, exec, ms[p].version, db, outcome).0 ==
              if ms[p].down != "" && Lands(outcome(ms[p].version)) then Lower(exec, db, ms[p]) else db
  {
    FindsVersion(ms, p);
  }

  /** Whatever the transaction of a Rollback that aims at migration p does, a prefix remains. */
  ghost predicate RollbackIsHarmless<S>(ms: seq<Migration>, exec: (string, S) -> S, origin: S, p: nat, db: Db<S>)
    requires p < |ms|
  {
    forall outcome :: AtSomePrefix(ms, exec, origin, RollbackOne(ms, exec, ms[p].version, db, outcome).0)
  }

  /**
   A Rollback that read the table at prefix p + 1 and runs its transaction when other calls have
   left it at prefix k: a prefix remains under every outcome exactly when the table is as it was
   read, or there is no down script, or migration p is undone already and its down script then
   changes nothing.
   */
  lemma StaleRollbackIff<S(!new)>(ms: seq<Migration>, exec: (string, S) -> S, origin: S, p: nat, db: Db<S>, k: nat)
    requires Ascending(ms) && Reversible(ms, exec) && p < |ms| && AtPrefix(ms, exec, origin, db, k)
    ensures RollbackIsHarmless(ms, exec, origin, p, db) <==>
              k == p + 1 || ms[p].down == "" || (k <= p && exec(ms[p].down, db.schema) == db.schema)
  {
    var lowered := Lower(exec, db, ms[p]);
    if k == p + 1 && ms[p].down != "" {
      LowerRetreats(ms, exec, origin, db, k);
    } else if k <= p {
      UndoneTwice(ms, exec, origin, db, k, p);
    } else if k > p + 1 {
      HoleIsNoPrefix(ms, exec, origin, db, k, p);
    }
    if ms[p].down == "" || AtSomePrefix(ms, exec, origin, lowered) {
      forall outcome ensures AtSomePrefix(ms, exec, origin, RollbackOne(ms, exec, ms[p].version, db, outcome).0) {
        RollbackAt(ms, exec, p, db, outcome);
      }
    } else {
      var outcome := (v: int) => Committed;
      RollbackAt(ms, exec, p, db, outcome);
    }
  }
}
