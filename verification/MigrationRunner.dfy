/** Versioned SQL migrations: applying what is pending, and undoing the last one. */
module MigrationRunner {
  import opened Printing
  import opened MigrationFiles

  // ---------------------------------------------------------------------------------------------
  // Names of rollback files.

  function Pad3(s: string): string
    decreases 3 - |s|
  {
    if |s| >= 3 then s else Pad3("0" + s)
  }

  /** Where a rollback looks for its file. */
  function RollbackName(version: nat, name: string): string {
    Pad3(ToDecimal(version)) + "_" + name + "_rollback.sql"
  }

  /** The rollback file that goes with a migration file. */
  function PairedName(m: Migration): string {
    m.digits + "_" + m.name + "_rollback.sql"
  }

  lemma {:induction false} LeadingZero(s: string)
    requires AllDigits(s)
    ensures ParseDigits("0" + s) == ParseDigits(s)
  {
    var z := "0" + s;
    if s != "" {
      assert z[..|z| - 1] == "0" + s[..|s| - 1];
      LeadingZero(s[..|s| - 1]);
    }
  }

  /** Digits without a leading zero are the printed form of their value. */
  lemma {:induction false} DigitsInvertParse(s: string)
    requires s != "" && AllDigits(s) && (|s| > 1 ==> s[0] != '0')
    ensures Digits(ParseDigits(s)) == s
    ensures |s| > 1 ==> ParseDigits(s) >= 10
    ensures s[0] != '0' ==> ParseDigits(s) >= 1
  {
    var n := |s| - 1;
    var d := s[n] as int - '0' as int;
    if n > 0 {
      DigitsInvertParse(s[..n]);
      assert ParseDigits(s) / 10 == ParseDigits(s[..n]) && ParseDigits(s) % 10 == d;
      assert s == s[..n] + [s[n]];
    } else {
      assert ParseDigits(s[..0]) == 0;
      assert s == [s[0]];
    }
  }

  lemma PrintedHasNoLeadingZero(n: nat)
    ensures n > 0 ==> Digits(n)[0] != '0'
    ensures n == 0 ==> Digits(n) == "0"
  {
    if n >= 10 { PrintedHasNoLeadingZero(n / 10); }
  }

  /** Stripping the zeros that padding put in front leads back to the printed form. */
  lemma PaddingOfThree(s: string)
    requires AllDigits(s) && |s| == 3
    ensures Pad3(Digits(ParseDigits(s))) == s
  {
    if s[0] != '0' {
      DigitsInvertParse(s);
    } else {
      var t := s[1..];
      assert s == "0" + t;
      LeadingZero(t);
      if t[0] != '0' {
        DigitsInvertParse(t);
        assert Pad3(t) == Pad3("0" + t);
      } else {
        var u := t[1..];
        assert t == "0" + u;
        LeadingZero(u);
        DigitsInvertParse(u);
        assert Pad3(u) == Pad3("0" + u) == Pad3("0" + ("0" + u));
      }
    }
  }

  lemma PadLength(s: string)
    ensures |s| >= 3 ==> Pad3(s) == s
    ensures |s| < 3 ==> |Pad3(s)| == 3
    decreases 3 - |s|
  {
    if |s| < 3 { PadLength("0" + s); }
  }

  /** A rollback finds the file that goes with its migration exactly when the version in the
      file name has three digits, or more and no leading zero. */
  lemma RollbackFindsItsFileIff(f: File)
    requires ReadFile(f).Some?
    ensures
      var m := ReadFile(f).value;
      RollbackName(m.version, m.name) == PairedName(m) <==> |m.digits| == 3 || (|m.digits| > 3 && m.digits[0] != '0')
  {
    var m := ReadFile(f).value;
    var d, p := m.digits, Pad3(ToDecimal(m.version));
    var tail := "_" + m.name + "_rollback.sql";
    assert RollbackName(m.version, m.name) == p + tail && PairedName(m) == d + tail;
    assert p + tail == d + tail <==> p == d by {
      if p + tail == d + tail { SamePrefix(p, d, tail); }
    }
    PadLength(ToDecimal(m.version));
    PrintedHasNoLeadingZero(m.version);
    if |d| == 3 {
      PaddingOfThree(d);
    } else if |d| > 3 && d[0] != '0' {
      DigitsInvertParse(d);
    }
  }

  lemma SamePrefix(a: string, b: string, tail: string)
    requires a + tail == b + tail
    ensures a == b
  {
    assert |a + tail| == |a| + |tail| && |b + tail| == |b| + |tail|;
    assert a == (a + tail)[..|a|] && b == (b + tail)[..|b|];
  }

  /** The shipped fourth migration cannot be rolled back: its file is looked up under three digits. */
  lemma FourthMigrationHasNoRollback()
    ensures RollbackName(4, "add_metric_snapshots") == "004" + "_" + "add_metric_snapshots" + "_rollback.sql"
    ensures RollbackName(4, "add_metric_snapshots") != "0004_add_metric_snapshots_rollback.sql"
  {
    assert ToDecimal(4) == "4";
    assert "0" + "4" == "04" && "0" + "04" == "004";
    assert Pad3("4") == Pad3("04") == Pad3("004") == "004";
    assert RollbackName(4, "add_metric_snapshots")[2] == '4';
  }

  // ---------------------------------------------------------------------------------------------
  // The database.

  datatype Record = Record(name: string, checksum: string)

  /** SQL that was committed. */
  datatype Effect = Applied(version: nat) | Reverted(version: nat)

  datatype Db = Db(recorded: map<nat, Record>, log: seq<Effect>)

  /** `Refused` before anything was done, `Failed` in the middle. */
  datatype Outcome = Refused | Failed | Done

  datatype Result = Result(db: Db, outcome: Outcome)

  /** A recorded migration whose file was modified since. */
  ghost predicate Modified(db: Db, ms: seq<Migration>, hash: string -> string) {
    exists i | 0 <= i < |ms| :: ms[i].version in db.recorded && db.recorded[ms[i].version].checksum != hash(ms[i].sql)
  }

  function Pending(ms: seq<Migration>, recorded: map<nat, Record>): seq<Migration> {
    if ms == [] then []
    else
      var before, m := Pending(ms[..|ms| - 1], recorded), ms[|ms| - 1];
      if m.version in recorded then before else before + [m]
  }

  function ApplyOne(db: Db, m: Migration, hash: string -> string): Db {
    Db(db.recorded[m.version := Record(m.name, hash(m.sql))], db.log + [Applied(m.version)])
  }

  function ApplyAll(db: Db, ms: seq<Migration>, hash: string -> string): Db {
    if ms == [] then db else ApplyOne(ApplyAll(db, ms[..|ms| - 1], hash), ms[|ms| - 1], hash)
  }

  /** A run in which the transaction numbered `fault`, if there is one, fails at any of its statements. */
  ghost function Migrated(db: Db, files: seq<File>, fault: nat, hash: string -> string): Result {
    match Load(files)
    case None => Result(db, Refused)
    case Some(ms) =>
      if Modified(db, ms, hash) then Result(db, Refused)
      else
        var pending := Pending(ms, db.recorded);
        if fault < |pending| then Result(ApplyAll(db, pending[..fault], hash), Failed)
        else Result(ApplyAll(db, pending, hash), Done)
  }

  ghost predicate IsLast(db: Db, v: nat) {
    v in db.recorded && forall w | w in db.recorded :: w <= v
  }

  ghost predicate HasFile(files: seq<File>, name: string) {
    exists i | 0 <= i < |files| :: files[i].name == name
  }

  /** Undoing the last recorded migration `v`; refused without its rollback file. */
  ghost function RolledBack(db: Db, files: seq<File>, v: nat, fails: bool): Result
    requires IsLast(db, v)
  {
    if !HasFile(files, RollbackName(v, db.recorded[v].name)) then Result(db, Refused)
    else if fails then Result(db, Failed)
    else Result(Db(db.recorded - {v}, db.log + [Reverted(v)]), Done)
  }

  lemma LastExists(recorded: map<nat, Record>) returns (v: nat)
    requires recorded != map[]
    ensures v in recorded && forall w | w in recorded :: w <= v
  {
    if forall x :: x !in recorded.Keys {}
    v :| v in recorded;
    var seen := {v};
    while exists x :: x in recorded && x !in seen
      invariant seen <= recorded.Keys && v in seen && forall w | w in seen :: w <= v
      decreases |recorded.Keys - seen|
    {
      var x :| x in recorded && x !in seen;
      assert recorded.Keys - (seen + {x}) < recorded.Keys - seen;
      seen := seen + {x};
      if x > v { v := x; }
    }
  }

  // ---------------------------------------------------------------------------------------------

  lemma {:induction false} PendingIs(ms: seq<Migration>, recorded: map<nat, Record>)
    requires Ascending(ms)
    ensures Ascending(Pending(ms, recorded))
    ensures forall m :: m in Pending(ms, recorded) <==> m in ms && m.version !in recorded
  {
    if ms != [] {
      var n := |ms| - 1;
      PendingIs(ms[..n], recorded);
      var before := Pending(ms[..n], recorded);
      assert ms == ms[..n] + [ms[n]];
      forall i | 0 <= i < |before| ensures before[i].version < ms[n].version {
        assert before[i] in before;
        assert before[i] in ms[..n];
      }
    }
  }

  lemma HasVersionGrows(ms: seq<Migration>, v: nat)
    requires ms != []
    ensures HasVersion(ms, v) <==> HasVersion(ms[..|ms| - 1], v) || ms[|ms| - 1].version == v
  {
    var f := ms[..|ms| - 1];
    if HasVersion(f, v) {
      var i :| 0 <= i < |f| && f[i].version == v;
      assert ms[i].version == v;
    }
    if HasVersion(ms, v) {
      var i :| 0 <= i < |ms| && ms[i].version == v;
      assert i < |f| ==> f[i].version == v;
    }
  }

  lemma {:induction false} ApplyAllRecords(db: Db, ms: seq<Migration>, hash: string -> string, v: nat)
    ensures v in ApplyAll(db, ms, hash).recorded <==> v in db.recorded || HasVersion(ms, v)
    ensures v in db.recorded && !HasVersion(ms, v) ==> ApplyAll(db, ms, hash).recorded[v] == db.recorded[v]
  {
    if ms != [] {
      ApplyAllRecords(db, ms[..|ms| - 1], hash, v);
      HasVersionGrows(ms, v);
    }
  }

  lemma {:induction false} ApplyAllChecksums(db: Db, ms: seq<Migration>, hash: string -> string, i: nat)
    requires Ascending(ms) && i < |ms|
    ensures
      var r := ApplyAll(db, ms, hash);
      ms[i].version in r.recorded && r.recorded[ms[i].version] == Record(ms[i].name, hash(ms[i].sql))
  {
    var n := |ms| - 1;
    if i < n {
      ApplyAllChecksums(db, ms[..n], hash, i);
      assert ms[..n][i] == ms[i] && ms[i].version != ms[n].version;
    }
  }

  function Effects(ms: seq<Migration>): seq<Effect> {
    seq(|ms|, i requires 0 <= i < |ms| => Applied(ms[i].version))
  }

  lemma {:induction false} ApplyAllLogs(db: Db, ms: seq<Migration>, hash: string -> string)
    ensures ApplyAll(db, ms, hash).log == db.log + Effects(ms)
  {
    if ms != [] {
      var n := |ms| - 1;
      ApplyAllLogs(db, ms[..n], hash);
      assert Effects(ms) == Effects(ms[..n]) + [Applied(ms[n].version)];
    }
  }

  /** How often a version's SQL is in effect. */
  function Net(log: seq<Effect>, v: nat): int {
    if log == [] then 0
    else
      Net(log[..|log| - 1], v) + match log[|log| - 1]
                                 case Applied(w) => if w == v then 1 else 0
                                 case Reverted(w) => if w == v then -1 else 0
  }

  /** The recorded versions are exactly those whose SQL is in effect, each once. */
  ghost predicate Exact(db: Db) {
    forall v: nat :: Net(db.log, v) == if v in db.recorded then 1 else 0
  }

  lemma NetGrows(log: seq<Effect>, e: Effect, v: nat)
    ensures Net(log + [e], v) == Net(log, v) + if e.version != v then 0 else if e.Applied? then 1 else -1
  {
    assert (log + [e])[..|log|] == log;
  }

  lemma {:induction false} ApplyAllKeepsExact(db: Db, ms: seq<Migration>, hash: string -> string)
    requires Exact(db) && Ascending(ms) && forall i | 0 <= i < |ms| :: ms[i].version !in db.recorded
    ensures Exact(ApplyAll(db, ms, hash))
  {
    if ms != [] {
      var n := |ms| - 1;
      ApplyAllKeepsExact(db, ms[..n], hash);
      var r := ApplyAll(db, ms[..n], hash);
      ApplyAllRecords(db, ms[..n], hash, ms[n].version);
      ApplyOneKeepsExact(r, ms[n], hash);
    }
  }

  lemma ApplyOneKeepsExact(db: Db, m: Migration, hash: string -> string)
    requires Exact(db) && m.version !in db.recorded
    ensures Exact(ApplyOne(db, m, hash))
  {
    forall v: nat ensures Net(ApplyOne(db, m, hash).log, v) == if v in ApplyOne(db, m, hash).recorded then 1 else 0 {
      NetGrows(db.log, Applied(m.version), v);
    }
  }

  lemma MigrateKeepsExact(db: Db, files: seq<File>, fault: nat, hash: string -> string)
    requires Exact(db)
    ensures Exact(Migrated(db, files, fault, hash).db)
  {
    hide Load, Pending, ApplyAll, Exact, Modified;
    LoadIff(files);
    if Load(files).Some? {
      var pending := Pending(Load(files).value, db.recorded);
      PendingIs(Load(files).value, db.recorded);
      forall i | 0 <= i < |pending| ensures pending[i].version !in db.recorded { assert pending[i] in pending; }
      ApplyAllKeepsExact(db, pending, hash);
      if fault < |pending| { ApplyAllKeepsExact(db, pending[..fault], hash); }
    }
  }

  lemma RollbackKeepsExact(db: Db, files: seq<File>, v: nat, fails: bool)
    requires Exact(db) && IsLast(db, v)
    ensures Exact(RolledBack(db, files, v, fails).db)
  {
    forall w: nat ensures Net(db.log + [Reverted(v)], w) == Net(db.log, w) + if w == v then -1 else 0 {
      NetGrows(db.log, Reverted(v), w);
    }
  }

  /** The directory may change between calls. */
  datatype Call = Migrate(files: seq<File>, fault: nat) | Rollback(files: seq<File>, fails: bool)

  ghost predicate IsHistory(calls: seq<Call>, dbs: seq<Db>, hash: string -> string) {
    && |dbs| == |calls| + 1 && dbs[0] == Db(map[], [])
    && forall i | 0 <= i < |calls| :: IsCall(dbs[i], calls[i], dbs[i + 1], hash)
  }

  ghost predicate IsCall(before: Db, c: Call, after: Db, hash: string -> string) {
    match c
    case Migrate(files, fault) => after == Migrated(before, files, fault, hash).db
    case Rollback(files, fails) =>
      if before.recorded == map[] then after == before
      else exists v: nat :: IsLast(before, v) && after == RolledBack(before, files, v, fails).db
  }

  /** In every history of runs and rollbacks, failing wherever they may, the record is exact. */
  lemma {:induction false} HistoryIsExact(calls: seq<Call>, dbs: seq<Db>, hash: string -> string)
    requires IsHistory(calls, dbs, hash)
    ensures forall i | 0 <= i < |dbs| :: Exact(dbs[i])
  {
    if calls != [] {
      var n := |calls| - 1;
      HistoryIsExact(calls[..n], dbs[..n + 1], hash);
      assert forall i | 0 <= i < n + 1 :: dbs[..n + 1][i] == dbs[i];
      assert IsCall(dbs[n], calls[n], dbs[n + 1], hash);
      match calls[n]
      case Migrate(files, fault) => MigrateKeepsExact(dbs[n], files, fault, hash);
      case Rollback(files, fails) =>
        if dbs[n].recorded != map[] {
          var v: nat :| IsLast(dbs[n], v) && dbs[n + 1] == RolledBack(dbs[n], files, v, fails).db;
          RollbackKeepsExact(dbs[n], files, v, fails);
        }
    }
  }

  // ---------------------------------------------------------------------------------------------
  // What a run does.

  /** A run that was not refused applies a prefix of the pending migrations, in strictly ascending order; the pending
      ones are exactly those loaded and not recorded; and it is done exactly when the prefix is everything. */
  lemma RunAppliesPrefix(db: Db, files: seq<File>, fault: nat, hash: string -> string)
    requires Migrated(db, files, fault, hash).outcome != Refused
    ensures Load(files).Some?
    ensures
      var r, pending := Migrated(db, files, fault, hash), Pending(Load(files).value, db.recorded);
      var n := if fault < |pending| then fault else |pending|;
      && Ascending(pending) && (forall m :: m in pending <==> m in Load(files).value && m.version !in db.recorded)
      && r.db.log == db.log + Effects(pending[..n])
      && (forall v: nat :: v in r.db.recorded <==> v in db.recorded || HasVersion(pending[..n], v))
      && (r.outcome == Done <==> n == |pending|)
  {
    LoadIff(files);
    var pending := Pending(Load(files).value, db.recorded);
    PendingIs(Load(files).value, db.recorded);
    var n := if fault < |pending| then fault else |pending|;
    assert pending[..|pending|] == pending;
    ApplyAllLogs(db, pending[..n], hash);
    forall v: nat ensures v in ApplyAll(db, pending[..n], hash).recorded <==> v in db.recorded || HasVersion(pending[..n], v) {
      ApplyAllRecords(db, pending[..n], hash, v);
    }
  }

  /** Two ascending lists of the same migrations are the same list. */
  lemma {:induction false} AscendingIsUnique(a: seq<Migration>, b: seq<Migration>)
    requires Ascending(a) && Ascending(b) && forall m :: m in a <==> m in b
    ensures a == b
  {
    SameEmptiness(a, b);
    if a != [] {
      assert a[0] in a && a[0] in b;
      assert b[0] in b && b[0] in a;
      assert a[0] == b[0];
      TailMembers(a);
      TailMembers(b);
      AscendingIsUnique(a[1..], b[1..]);
      assert a == [a[0]] + a[1..] && b == [b[0]] + b[1..];
    }
  }

  lemma SameEmptiness(a: seq<Migration>, b: seq<Migration>)
    requires forall m :: m in a <==> m in b
    ensures a == [] <==> b == []
  {
    if a != [] { assert a[0] in b; }
    if b != [] { assert b[0] in a; }
  }

  lemma TailMembers(a: seq<Migration>)
    requires Ascending(a) && a != []
    ensures forall m :: m in a[1..] <==> m in a && m != a[0]
  {
    forall m | m in a && m != a[0] ensures m in a[1..] {
      var i :| 0 <= i < |a| && a[i] == m;
      assert a[1..][i - 1] == m;
    }
  }

  /** What is pending after the first `n` pending migrations were applied is the rest. */
  lemma PendingSplits(ms: seq<Migration>, recorded: map<nat, Record>, r: map<nat, Record>, n: nat)
    requires Ascending(ms) && n <= |Pending(ms, recorded)|
    requires forall v: nat :: v in r <==> v in recorded || HasVersion(Pending(ms, recorded)[..n], v)
    ensures Pending(ms, r) == Pending(ms, recorded)[n..]
  {
    var p := Pending(ms, recorded);
    PendingIs(ms, recorded);
    PendingIs(ms, r);
    forall m ensures m in p[n..] <==> m in p && !HasVersion(p[..n], m.version) {
      DropMembers(p, n, m);
    }
    AscendingIsUnique(Pending(ms, r), p[n..]);
  }

  lemma DropMembers(p: seq<Migration>, n: nat, m: Migration)
    requires Ascending(p) && n <= |p|
    ensures m in p[n..] <==> m in p && !HasVersion(p[..n], m.version)
  {
    if m in p && !HasVersion(p[..n], m.version) {
      var i :| 0 <= i < |p| && p[i] == m;
      forall k | 0 <= k < n ensures HasVersion(p[..n], p[k].version) { assert p[..n][k] == p[k]; }
      assert p[n..][i - n] == m;
    }
    if m in p[n..] {
      var i :| 0 <= i < |p[n..]| && p[n..][i] == m;
      assert p[n + i] == m;
      forall k | 0 <= k < n ensures p[..n][k].version != m.version { assert p[k].version < p[n + i].version; }
    }
  }

  lemma {:induction false} ApplyAllInParts(db: Db, ms: seq<Migration>, n: nat, hash: string -> string)
    requires n <= |ms|
    ensures ApplyAll(ApplyAll(db, ms[..n], hash), ms[n..], hash) == ApplyAll(db, ms, hash)
  {
    if n == |ms| {
      assert ms[..n] == ms;
    } else {
      var k := |ms| - 1;
      ApplyAllInParts(db, ms[..k], n, hash);
      assert ms[..k][..n] == ms[..n] && ms[..k][n..] == ms[n..][..k - n];
    }
  }

  /** What a run records passes the check of the next. */
  lemma RunLeavesUnmodified(db: Db, ms: seq<Migration>, n: nat, hash: string -> string)
    requires Ascending(ms) && !Modified(db, ms, hash) && n <= |Pending(ms, db.recorded)|
    ensures !Modified(ApplyAll(db, Pending(ms, db.recorded)[..n], hash), ms, hash)
  {
    hide Pending, ApplyAll;
    var p := Pending(ms, db.recorded);
    var r := ApplyAll(db, p[..n], hash);
    PendingIs(ms, db.recorded);
    forall i | 0 <= i < |ms| && ms[i].version in r.recorded ensures r.recorded[ms[i].version].checksum == hash(ms[i].sql) {
      ApplyAllRecords(db, p[..n], hash, ms[i].version);
      if HasVersion(p[..n], ms[i].version) {
        var k :| 0 <= k < n && p[..n][k].version == ms[i].version;
        ApplyAllChecksums(db, p[..n], hash, k);
        assert p[k] in p && p[k] in ms;
        var j :| 0 <= j < |ms| && ms[j] == p[k];
        assert i == j;
      }
    }
  }

  /** Whatever a run failed at, the next one that does not fail ends where a single run without failure would have;
      and after that a run has nothing to do. */
  lemma RunsResume(db: Db, files: seq<File>, fault: nat, later: nat, hash: string -> string)
    requires Migrated(db, files, fault, hash).outcome != Refused
    ensures
      var first := Migrated(db, files, fault, hash);
      var whole := ApplyAll(db, Pending(Load(files).value, db.recorded), hash);
      var second := Migrated(first.db, files, later, hash);
      && second.outcome != Refused
      && (second.outcome == Done ==> second.db == whole)
      && (first.outcome == Done ==> second == Result(first.db, Done))
  {
    LoadIff(files);
    var ms := Load(files).value;
    var p := Pending(ms, db.recorded);
    var n := if fault < |p| then fault else |p|;
    assert p[..|p|] == p;
    var r := ApplyAll(db, p[..n], hash);
    RunLeavesUnmodified(db, ms, n, hash);
    forall v: nat ensures v in r.recorded <==> v in db.recorded || HasVersion(p[..n], v) { ApplyAllRecords(db, p[..n], hash, v); }
    PendingSplits(ms, db.recorded, r.recorded, n);
    ApplyAllInParts(db, p, n, hash);
  }

  /** Undoing takes back the migration that was applied last exactly when its version is above all recorded ones. */
  lemma RollbackUndoesLastAppliedIff(db: Db, m: Migration, hash: string -> string, last: nat)
    requires m.version !in db.recorded && IsLast(ApplyOne(db, m, hash), last)
    ensures last == m.version <==> forall v | v in db.recorded :: v < m.version
    ensures ApplyOne(db, m, hash).recorded - {last} == db.recorded <==> last == m.version
  {
    assert m.version in ApplyOne(db, m, hash).recorded;
    forall v | v in db.recorded ensures v in ApplyOne(db, m, hash).recorded && v != m.version {}
    if last == m.version {
      assert ApplyOne(db, m, hash).recorded - {last} == db.recorded;
    } else {
      assert m.version in ApplyOne(db, m, hash).recorded - {last};
    }
  }

  lemma PendingAfterRemoval(ms: seq<Migration>, recorded: map<nat, Record>, v: nat)
    requires Ascending(ms) && Pending(ms, recorded) == []
    ensures !HasVersion(ms, v) ==> Pending(ms, recorded - {v}) == []
    ensures forall i | 0 <= i < |ms| && ms[i].version == v :: Pending(ms, recorded - {v}) == [ms[i]]
  {
    hide Pending;
    var p := Pending(ms, recorded - {v});
    PendingIs(ms, recorded);
    PendingIs(ms, recorded - {v});
    forall m | m in ms ensures m.version in recorded {
      assert m.version !in recorded ==> m in Pending(ms, recorded);
    }
    forall m ensures m in p <==> m in ms && m.version == v {}
    SameVersionOnly(ms, p, v);
  }

  lemma OnePerVersion(p: seq<Migration>)
    requires Ascending(p)
    ensures (forall i | 0 <= i < |p| :: p[i].version == p[0].version) ==> |p| <= 1
  {
    if |p| > 1 { assert p[0].version < p[1].version; }
  }

  lemma SameVersionOnly(ms: seq<Migration>, p: seq<Migration>, v: nat)
    requires Ascending(ms) && Ascending(p) && forall m :: m in p <==> m in ms && m.version == v
    ensures !HasVersion(ms, v) ==> p == []
    ensures forall i | 0 <= i < |ms| && ms[i].version == v :: p == [ms[i]]
  {
    forall i | 0 <= i < |p| ensures p[i].version == v && HasVersion(ms, v) {
      assert p[i] in p;
      var k :| 0 <= k < |ms| && ms[k] == p[i];
    }
    OnePerVersion(p);
    assert |p| == 1 ==> p[0].version == v && HasVersion(ms, v);
    forall i | 0 <= i < |ms| && ms[i].version == v ensures p == [ms[i]] {
      assert ms[i] in p;
      var k :| 0 <= k < |p| && p[k] == ms[i];
    }
  }

  ghost predicate StillThere(ms: seq<Migration>, v: nat, name: string) {
    exists i | 0 <= i < |ms| :: ms[i].version == v && ms[i].name == name
  }

  /** After a finished run, undoing the last migration and running again restores the record exactly when
      the directory still holds a migration of that version with the recorded name. */
  lemma MigrateAfterRollbackRestoresIff(db: Db, files: seq<File>, v: nat, hash: string -> string)
    requires Migrated(db, files, 0, hash) == Result(db, Done) && IsLast(db, v)
    requires RolledBack(db, files, v, false).outcome == Done
    ensures
      var again := Migrated(RolledBack(db, files, v, false).db, files, 1, hash);
      && again.outcome == Done
      && (again.db.recorded == db.recorded <==> StillThere(Load(files).value, v, db.recorded[v].name))
  {
    hide Load, Pending;
    LoadIff(files);
    var ms := Load(files).value;
    var undone := RolledBack(db, files, v, false).db;
    assert Pending(ms, db.recorded) == [];
    PendingAfterRemoval(ms, db.recorded, v);
    assert !Modified(undone, ms, hash);
    if HasVersion(ms, v) {
      var i :| 0 <= i < |ms| && ms[i].version == v;
      OneApplied(undone, ms[i], hash);
      assert db.recorded == undone.recorded[v := db.recorded[v]];
    }
  }

  lemma OneApplied(db: Db, m: Migration, hash: string -> string)
    ensures ApplyAll(db, [m], hash) == ApplyOne(db, m, hash)
  {
    assert [m][..0] == [];
  }

  /** Directories that differ in rollback files only load the same migrations, and a run over them does the same. */
  lemma RollbackFilesDoNotMatter(files: seq<File>, others: seq<File>, db: Db, fault: nat, hash: string -> string)
    requires WithoutRollbacks(files) == WithoutRollbacks(others)
    ensures Load(files) == Load(others) && Migrated(db, files, fault, hash) == Migrated(db, others, fault, hash)
  {
    CollectIgnoresRollbacks(files);
    CollectIgnoresRollbacks(others);
  }

  lemma NothingApplied(db: Db, hash: string -> string)
    ensures ApplyAll(db, [], hash) == db
  {
  }

  lemma OneMoreApplied(db: Db, ms: seq<Migration>, i: nat, hash: string -> string)
    requires i < |ms|
    ensures ApplyAll(db, ms[..i + 1], hash) == ApplyOne(ApplyAll(db, ms[..i], hash), ms[i], hash)
  {
    assert ms[..i + 1][..i] == ms[..i];
  }

  /** What a run does to the record. It is refused, and changes nothing, exactly when the directory cannot be loaded or a recorded
      migration's file has another checksum. Otherwise what was recorded stays, every new record is of a loaded migration with
      the checksum of its SQL, and a finished run has recorded them all. */
  ghost predicate IsRun(before: Db, after: Db, files: seq<File>, outcome: Outcome, hash: string -> string) {
    && (outcome == Refused <==> Load(files).None? || exists m ::
         m in Load(files).value && m.version in before.recorded && before.recorded[m.version].checksum != hash(m.sql))
    && (outcome == Refused ==> after == before)
    && (outcome != Refused ==>
         && (forall v | v in before.recorded :: v in after.recorded && after.recorded[v] == before.recorded[v])
         && (forall v | v in after.recorded && v !in before.recorded :: exists m ::
              m in Load(files).value && m.version == v && after.recorded[v] == Record(m.name, hash(m.sql)))
         && (outcome == Done ==> forall m | m in Load(files).value :: m.version in after.recorded))
  }

  lemma RunIs(db: Db, files: seq<File>, fault: nat, hash: string -> string)
    ensures var r := Migrated(db, files, fault, hash); IsRun(db, r.db, files, r.outcome, hash)
  {
    hide Load, ApplyAll, Pending, Modified, Ascending;
    LoadIff(files);
    if Load(files).Some? {
      var ms := Load(files).value;
      ModifiedIs(db, ms, hash);
      var p := Pending(ms, db.recorded);
      var n := if fault < |p| then fault else |p|;
      assert p[..|p|] == p;
      RunKeeps(db, ms, n, hash);
      RunAdds(db, ms, n, hash);
      if n == |p| { RunFinishes(db, ms, hash); }
    }
  }

  lemma RunKeeps(db: Db, ms: seq<Migration>, n: nat, hash: string -> string)
    requires Ascending(ms) && n <= |Pending(ms, db.recorded)|
    ensures
      var r := ApplyAll(db, Pending(ms, db.recorded)[..n], hash);
      forall v | v in db.recorded :: v in r.recorded && r.recorded[v] == db.recorded[v]
  {
    hide ApplyAll, Pending;
    var p := Pending(ms, db.recorded);
    PendingIs(ms, db.recorded);
    forall v: nat | v in db.recorded
      ensures v in ApplyAll(db, p[..n], hash).recorded && ApplyAll(db, p[..n], hash).recorded[v] == db.recorded[v]
    {
      NotPending(p, n, db.recorded, v);
      ApplyAllRecords(db, p[..n], hash, v);
    }
  }

  lemma RunAdds(db: Db, ms: seq<Migration>, n: nat, hash: string -> string)
    requires Ascending(ms) && n <= |Pending(ms, db.recorded)|
    ensures
      var r := ApplyAll(db, Pending(ms, db.recorded)[..n], hash);
      forall v | v in r.recorded && v !in db.recorded :: exists m ::
        m in ms && m.version == v && r.recorded[v] == Record(m.name, hash(m.sql))
  {
    hide ApplyAll, Pending;
    var p := Pending(ms, db.recorded);
    PendingIs(ms, db.recorded);
    var r := ApplyAll(db, p[..n], hash);
    forall v: nat | v in r.recorded && v !in db.recorded
      ensures exists m :: m in ms && m.version == v && r.recorded[v] == Record(m.name, hash(m.sql))
    {
      ApplyAllRecords(db, p[..n], hash, v);
      var k :| 0 <= k < n && p[..n][k].version == v;
      ApplyAllChecksums(db, p[..n], hash, k);
      assert p[k] in p;
    }
  }

  lemma RunFinishes(db: Db, ms: seq<Migration>, hash: string -> string)
    requires Ascending(ms)
    ensures forall m | m in ms :: m.version in ApplyAll(db, Pending(ms, db.recorded), hash).recorded
  {
    hide ApplyAll, Pending;
    var p := Pending(ms, db.recorded);
    PendingIs(ms, db.recorded);
    forall m | m in ms ensures m.version in ApplyAll(db, p, hash).recorded {
      ApplyAllRecords(db, p, hash, m.version);
      if m.version !in db.recorded {
        assert m in p;
        var k :| 0 <= k < |p| && p[k] == m;
      }
    }
  }

  lemma ModifiedIs(db: Db, ms: seq<Migration>, hash: string -> string)
    ensures Modified(db, ms, hash) <==> exists m :: m in ms && m.version in db.recorded && db.recorded[m.version].checksum != hash(m.sql)
  {
    if Modified(db, ms, hash) {
      var i :| 0 <= i < |ms| && ms[i].version in db.recorded && db.recorded[ms[i].version].checksum != hash(ms[i].sql);
      assert ms[i] in ms;
    }
  }

  lemma NotPending(p: seq<Migration>, n: nat, recorded: map<nat, Record>, v: nat)
    requires n <= |p| && forall m | m in p :: m.version !in recorded
    ensures v in recorded ==> !HasVersion(p[..n], v)
  {
    forall k | 0 <= k < n ensures p[k].version !in recorded { assert p[k] in p; }
  }

  // ---------------------------------------------------------------------------------------------
  // The runner.

  class MigrationRunner {
    const hash: string -> string
    var recorded: map<nat, Record>
    var log: seq<Effect>

    constructor (hash: string -> string)
      ensures this.hash == hash && State() == Db(map[], [])
    {
      this.hash, recorded, log := hash, map[], [];
    }

    ghost function State(): Db
      reads this
    {
      Db(recorded, log)
    }

    /** Refused exactly when two files are migrations of one version; else the migrations that the files are, ascending. */
    method LoadMigrations(files: seq<File>) returns (r: Option<seq<Migration>>)
      ensures r == Load(files)
      ensures r.None? <==> SameVersion(files)
      ensures r.Some? ==> forall i, j | 0 <= i < j < |r.value| :: r.value[i].version < r.value[j].version
      ensures r.Some? ==> forall m :: m in r.value <==> exists i | 0 <= i < |files| :: IsMigrationOf(files[i], m)
    {
      hide IsMigrationOf, SameVersion, ReadFile;
      LoadsExactly(files);
      var migrations: seq<Migration> := [];
      for i := 0 to |files|
        invariant Collect(files[..i]) == Some(migrations)
      {
        assert files[..i + 1][..i] == files[..i];
        var parsed := ReadFile(files[i]);
        if parsed.Some? {
          if exists k | 0 <= k < |migrations| :: migrations[k].version == parsed.value.version {
            CollectIff(files);
            CollectIff(files[..i + 1]);
            ClashInPrefix(files, i + 1);
            return None;
          }
          migrations := migrations + [parsed.value];
        }
      }
      assert files[..|files|] == files;
      r := Some(SortByVersion(migrations));
    }

    method VerifyChecksums(ms: seq<Migration>) returns (ok: bool)
      ensures ok == !Modified(State(), ms, hash)
    {
      for i := 0 to |ms|
        invariant forall k | 0 <= k < i && ms[k].version in recorded :: recorded[ms[k].version].checksum == hash(ms[k].sql)
      {
        if ms[i].version in recorded && recorded[ms[i].version].checksum != hash(ms[i].sql) { return false; }
      }
      ok := true;
    }

    method Migrate(files: seq<File>, fault: nat) returns (outcome: Outcome)
      modifies this
      ensures Result(State(), outcome) == Migrated(old(State()), files, fault, hash)
      ensures Exact(old(State())) ==> Exact(State())
      ensures IsRun(old(State()), State(), files, outcome, hash)
    {
      hide Modified, Exact, Load, Pending, IsRun, ApplyAll, SameVersion, IsMigrationOf;
      RunIs(State(), files, fault, hash);
      if Exact(State()) { MigrateKeepsExact(State(), files, fault, hash); }
      ghost var start := State();
      NothingApplied(start, hash);
      var loaded := LoadMigrations(files);
      if loaded.None? { return Refused; }
      var ms := loaded.value;
      var unmodified := VerifyChecksums(ms);
      if !unmodified { return Refused; }
      var pending := Pending(ms, recorded);
      for i := 0 to |pending|
        invariant i <= fault && State() == ApplyAll(start, pending[..i], hash)
      {
        if i == fault { return Failed; }
        OneMoreApplied(start, pending, i, hash);
        recorded := recorded[pending[i].version := Record(pending[i].name, hash(pending[i].sql))];
        log := log + [Applied(pending[i].version)];
      }
      assert pending[..|pending|] == pending;
      outcome := Done;
    }

    method Rollback(files: seq<File>, fails: bool) returns (outcome: Outcome)
      modifies this
      ensures old(recorded) == map[] ==> outcome == Done && State() == old(State())
      ensures old(recorded) != map[] ==>
        exists v: nat :: IsLast(old(State()), v) && Result(State(), outcome) == RolledBack(old(State()), files, v, fails)
      ensures old(recorded) != map[] && outcome == Done ==>
        exists v: nat :: v in old(recorded) && (forall w | w in old(recorded) :: w <= v)
                      && recorded == old(recorded) - {v} && log == old(log) + [Reverted(v)]
      ensures outcome != Done ==> State() == old(State())
    {
      if recorded == map[] { return Done; }
      var last := LastVersion();
      assert IsLast(State(), last);
      var name := RollbackName(last, recorded[last].name);
      if !exists i | 0 <= i < |files| :: files[i].name == name { return Refused; }
      if fails { return Failed; }
      recorded := recorded - {last};
      log := log + [Reverted(last)];
      outcome := Done;
    }

    method LastVersion() returns (last: nat)
      requires recorded != map[]
      ensures IsLast(State(), last)
    {
      ghost var some := LastExists(recorded);
      var left := recorded.Keys;
      last :| last in left;
      while left != {}
        invariant left <= recorded.Keys && last in recorded
        invariant forall v | v in recorded && v !in left :: v <= last
        decreases |left|
      {
        var v :| v in left;
        if v > last { last := v; }
        left := left - {v};
      }
    }
  }
}
