/** Loading the migrations of a directory, and which files they are, read off their names. */
module MigrationFiles {
  import opened Printing

  datatype Option<T> = None | Some(value: T)

  datatype File = File(name: string, sql: string)

  datatype Migration = Migration(version: nat, name: string, digits: string, sql: string)

  predicate EndsWith(s: string, suffix: string) {
    |s| >= |suffix| && s[|s| - |suffix|..] == suffix
  }

  /** The length of the run of digits a string starts with. */
  function DigitRun(s: string): (n: nat)
    ensures n <= |s| && AllDigits(s[..n]) && (n < |s| ==> !('0' <= s[n] <= '9'))
  {
    if s == "" || !('0' <= s[0] <= '9') then 0 else
    var n := 1 + DigitRun(s[1..]);
    assert s[..n] == [s[0]] + s[1..][..n - 1];
    n
  }

  /** The characters `.` does not match. */
  predicate IsOneLine(s: string) {
    forall i | 0 <= i < |s| :: s[i] !in "\n\r\U{2028}\U{2029}"
  }

  /** digits, an underscore, a name on one line, and the extension; rollback files are not migrations. */
  function ReadFile(f: File): Option<Migration> {
    if !EndsWith(f.name, ".sql") || EndsWith(f.name, "_rollback.sql") then None
    else
      var stem := f.name[..|f.name| - 4];
      var n := DigitRun(stem);
      if n == 0 || n + 1 >= |stem| || stem[n] != '_' || !IsOneLine(stem[n + 1..]) then None
      else Some(Migration(ParseDigits(stem[..n]), stem[n + 1..], stem[..n], f.sql))
  }

  predicate HasVersion(ms: seq<Migration>, v: nat) {
    exists i | 0 <= i < |ms| :: ms[i].version == v
  }

  /** The migrations in the files, or nothing when two have the same version. */
  function Collect(files: seq<File>): Option<seq<Migration>> {
    if files == [] then Some([])
    else
      match Collect(files[..|files| - 1])
      case None => None
      case Some(ms) =>
        match ReadFile(files[|files| - 1])
        case None => Some(ms)
        case Some(m) => if HasVersion(ms, m.version) then None else Some(ms + [m])
  }

  function Insert(m: Migration, ms: seq<Migration>): seq<Migration> {
    if ms == [] || m.version <= ms[0].version then [m] + ms else [ms[0]] + Insert(m, ms[1..])
  }

  function SortByVersion(ms: seq<Migration>): seq<Migration> {
    if ms == [] then [] else Insert(ms[0], SortByVersion(ms[1..]))
  }

  function Load(files: seq<File>): Option<seq<Migration>> {
    match Collect(files) case None => None case Some(ms) => Some(SortByVersion(ms))
  }

  ghost predicate Ascending(ms: seq<Migration>) {
    forall i, j | 0 <= i < j < |ms| :: ms[i].version < ms[j].version
  }

  ghost predicate DistinctVersions(ms: seq<Migration>) {
    forall i, j | 0 <= i < j < |ms| :: ms[i].version != ms[j].version
  }

  lemma {:induction false} InsertAscends(m: Migration, ms: seq<Migration>)
    requires Ascending(ms) && !HasVersion(ms, m.version)
    ensures Ascending(Insert(m, ms))
    ensures forall x :: x in Insert(m, ms) <==> x == m || x in ms
  {
    if ms != [] && m.version > ms[0].version {
      assert forall i | 0 <= i < |ms[1..]| :: ms[1..][i] == ms[i + 1];
      InsertAscends(m, ms[1..]);
      var r := Insert(m, ms[1..]);
      forall j | 0 <= j < |r| ensures ms[0].version < r[j].version { assert r[j] in r; }
    }
  }

  lemma {:induction false} SortAscends(ms: seq<Migration>)
    requires DistinctVersions(ms)
    ensures Ascending(SortByVersion(ms))
    ensures forall x :: x in SortByVersion(ms) <==> x in ms
  {
    if ms != [] {
      SortAscends(ms[1..]);
      var r := SortByVersion(ms[1..]);
      forall i | 0 <= i < |r| ensures r[i].version != ms[0].version {
        assert r[i] in r;
        assert r[i] in ms[1..];
      }
      InsertAscends(ms[0], r);
    }
  }

  ghost predicate Clash(files: seq<File>) {
    exists i, j | 0 <= i < j < |files| ::
      ReadFile(files[i]).Some? && ReadFile(files[j]).Some? && ReadFile(files[i]).value.version == ReadFile(files[j]).value.version
  }

  ghost predicate Collects(files: seq<File>, ms: seq<Migration>) {
    && (forall i | 0 <= i < |files| && ReadFile(files[i]).Some? :: ReadFile(files[i]).value in ms)
    && (forall m | m in ms :: exists i | 0 <= i < |files| :: ReadFile(files[i]) == Some(m))
  }

  lemma {:induction false} CollectIff(files: seq<File>)
    ensures Collect(files).None? <==> Clash(files)
    ensures Collect(files).Some? ==> Collects(files, Collect(files).value) && DistinctVersions(Collect(files).value)
  {
    if files != [] {
      var n := |files| - 1;
      CollectIff(files[..n]);
      if Clash(files[..n]) {
        ClashGrows(files);
      } else {
        var ms := Collect(files[..n]).value;
        LastClash(files, ms);
        if !Clash(files) { LastCollects(files, ms); }
      }
    }
  }

  lemma ClashGrows(files: seq<File>)
    requires files != [] && Clash(files[..|files| - 1])
    ensures Clash(files)
  {
    hide ReadFile;
    var f := files[..|files| - 1];
    var i, j :| 0 <= i < j < |f| &&
      ReadFile(f[i]).Some? && ReadFile(f[j]).Some? && ReadFile(f[i]).value.version == ReadFile(f[j]).value.version;
    assert files[i] == f[i] && files[j] == f[j];
  }

  lemma LastClash(files: seq<File>, ms: seq<Migration>)
    requires files != [] && !Clash(files[..|files| - 1]) && Collects(files[..|files| - 1], ms)
    ensures
      var last := ReadFile(files[|files| - 1]);
      Clash(files) <==> last.Some? && HasVersion(ms, last.value.version)
  {
    hide ReadFile;
    var n := |files| - 1;
    var f, last := files[..n], ReadFile(files[n]);
    if last.Some? && HasVersion(ms, last.value.version) {
      var k :| 0 <= k < |ms| && ms[k].version == last.value.version;
      assert ms[k] in ms;
      var i :| 0 <= i < |f| && ReadFile(f[i]) == Some(ms[k]);
      assert files[i] == f[i];
    }
    forall k | 0 <= k < n ensures f[k] == files[k] {}
    if Clash(files) {
      var i, j :| 0 <= i < j < |files| &&
        ReadFile(files[i]).Some? && ReadFile(files[j]).Some? && ReadFile(files[i]).value.version == ReadFile(files[j]).value.version;
      assert j == n;
      assert ReadFile(f[i]).value in ms;
      var k :| 0 <= k < |ms| && ms[k] == ReadFile(f[i]).value;
    }
  }

  lemma LastCollects(files: seq<File>, ms: seq<Migration>)
    requires files != [] && Collects(files[..|files| - 1], ms)
    ensures
      var last := ReadFile(files[|files| - 1]);
      Collects(files, if last.Some? then ms + [last.value] else ms)
  {
    hide ReadFile;
    var n := |files| - 1;
    var f, last := files[..n], ReadFile(files[n]);
    var r := if last.Some? then ms + [last.value] else ms;
    forall i | 0 <= i < |files| && ReadFile(files[i]).Some? ensures ReadFile(files[i]).value in r {
      if i < n { assert f[i] == files[i]; }
    }
    forall m | m in r ensures exists i | 0 <= i < |files| :: ReadFile(files[i]) == Some(m) {
      if m in ms {
        var i :| 0 <= i < |f| && ReadFile(f[i]) == Some(m);
        assert files[i] == f[i];
      } else {
        assert ReadFile(files[n]) == Some(m);
      }
    }
  }

  /** Loading fails exactly when two migration files have one version; otherwise it yields
      every migration in the directory, in strictly ascending version order. */
  lemma LoadIff(files: seq<File>)
    ensures Load(files).None? <==> Clash(files)
    ensures Load(files).Some? ==> Collects(files, Load(files).value) && Ascending(Load(files).value)
  {
    CollectIff(files);
    if Collect(files).Some? { SortAscends(Collect(files).value); }
  }

  lemma ClashInPrefix(files: seq<File>, n: nat)
    requires n <= |files|
    ensures Clash(files[..n]) ==> Clash(files)
  {
    hide ReadFile;
    if Clash(files[..n]) {
      var f := files[..n];
      var i, j :| 0 <= i < j < |f| &&
        ReadFile(f[i]).Some? && ReadFile(f[j]).Some? && ReadFile(f[i]).value.version == ReadFile(f[j]).value.version;
      assert files[i] == f[i] && files[j] == f[j];
    }
  }

  // ---------------------------------------------------------------------------------------------
  // Read off the names.

  /** The value of a string of digits: the sum of each digit times ten to the number of digits behind it. */
  function ValueOf(s: string): int {
    if s == "" then 0 else (s[0] as int - '0' as int) * Power(|s| - 1) + ValueOf(s[1..])
  }

  function Power(n: nat): nat {
    if n == 0 then 1 else 10 * Power(n - 1)
  }

  ghost predicate IsRollbackName(name: string) {
    exists stem: string :: name == stem + "_rollback.sql"
  }

  /** The file is the migration: its name is digits, an underscore, a name and `.sql`, it is no rollback file, and version,
      name and SQL are those of the file. */
  ghost predicate IsMigrationOf(f: File, m: Migration) {
    && m.digits != "" && (forall i | 0 <= i < |m.digits| :: '0' <= m.digits[i] <= '9')
    && m.name != "" && (forall i | 0 <= i < |m.name| :: m.name[i] as int !in {0xA, 0xD, 0x2028, 0x2029})
    && f.name == m.digits + "_" + m.name + ".sql" && !IsRollbackName(f.name)
    && m.version == ValueOf(m.digits) && m.sql == f.sql
  }

  lemma {:induction false} ParsedIsValue(s: string)
    requires AllDigits(s)
    ensures ParseDigits(s) == ValueOf(s)
  {
    if s != "" {
      var n := |s| - 1;
      ParsedIsValue(s[..n]);
      LastDigit(s);
    }
  }

  lemma {:induction false} LastDigit(s: string)
    requires s != ""
    ensures ValueOf(s) == 10 * ValueOf(s[..|s| - 1]) + (s[|s| - 1] as int - '0' as int)
  {
    var n := |s| - 1;
    if n > 0 {
      LastDigit(s[1..]);
      assert s[1..][..n - 1] == s[..n][1..];
      assert ValueOf(s[..n]) == (s[0] as int - '0' as int) * Power(n - 1) + ValueOf(s[..n][1..]);
      assert Power(n) == 10 * Power(n - 1);
      TenTimes(s[0] as int - '0' as int, Power(n - 1));
    }
  }

  lemma TenTimes(d: int, p: int)
    ensures d * (10 * p) == 10 * (d * p)
  {
  }

  lemma EndsWithIs(s: string, suffix: string)
    ensures EndsWith(s, suffix) <==> exists stem: string :: s == stem + suffix
  {
    if EndsWith(s, suffix) { assert s == s[..|s| - |suffix|] + suffix; }
    if stem: string :| s == stem + suffix { assert s[|s| - |suffix|..] == suffix; }
  }

  lemma RunOfDigits(d: string, rest: string)
    requires AllDigits(d) && (rest != "" ==> !('0' <= rest[0] <= '9'))
    ensures DigitRun(d + rest) == |d|
  {
    var s := d + rest;
    var n := DigitRun(s);
    assert forall i | 0 <= i < |d| :: s[i] == d[i];
    assert rest != "" ==> s[|d|] == rest[0];
    assert forall i | 0 <= i < n :: s[..n][i] == s[i];
  }

  /** Reading a file yields a migration exactly when the file is that migration. */
  lemma ReadIff(f: File, m: Migration)
    ensures ReadFile(f) == Some(m) <==> IsMigrationOf(f, m)
  {
    hide ParseDigits, ValueOf, EndsWith, DigitRun;
    EndsWithIs(f.name, ".sql");
    EndsWithIs(f.name, "_rollback.sql");
    if ReadFile(f) == Some(m) {
      var stem := f.name[..|f.name| - 4];
      var s: string :| f.name == s + ".sql";
      assert s == stem;
      assert stem == stem[..|m.digits|] + [stem[|m.digits|]] + stem[|m.digits| + 1..];
      assert stem == m.digits + "_" + m.name;
      ParsedIsValue(m.digits);
    }
    if IsMigrationOf(f, m) { MigrationIsRead(f, m); }
  }

  lemma MigrationIsRead(f: File, m: Migration)
    requires IsMigrationOf(f, m)
    ensures ReadFile(f) == Some(m)
  {
    hide ParseDigits, ValueOf, EndsWith, DigitRun;
    EndsWithIs(f.name, ".sql");
    EndsWithIs(f.name, "_rollback.sql");
    var stem := m.digits + "_" + m.name;
    assert f.name == stem + ".sql";
    assert f.name[..|f.name| - 4] == stem;
    RunOfDigits(m.digits, "_" + m.name);
    assert stem == m.digits + ("_" + m.name);
    assert stem[..|m.digits|] == m.digits && stem[|m.digits|] == '_' && stem[|m.digits| + 1..] == m.name;
    ParsedIsValue(m.digits);
  }

  /** Two files are migrations of one version. */
  ghost predicate SameVersion(files: seq<File>) {
    exists i, j, m, k | 0 <= i < j < |files| :: IsMigrationOf(files[i], m) && IsMigrationOf(files[j], k) && m.version == k.version
  }

  lemma ClashIs(files: seq<File>)
    ensures Clash(files) <==> SameVersion(files)
  {
    hide ReadFile, IsMigrationOf;
    if Clash(files) {
      var i, j :| 0 <= i < j < |files| && ReadFile(files[i]).Some? && ReadFile(files[j]).Some?
        && ReadFile(files[i]).value.version == ReadFile(files[j]).value.version;
      ReadIff(files[i], ReadFile(files[i]).value);
      ReadIff(files[j], ReadFile(files[j]).value);
    }
    if SameVersion(files) {
      var i, j, m, k :| 0 <= i < j < |files| && IsMigrationOf(files[i], m) && IsMigrationOf(files[j], k) && m.version == k.version;
      ReadIff(files[i], m);
      ReadIff(files[j], k);
    }
  }

  lemma CollectedAre(files: seq<File>, ms: seq<Migration>)
    requires Collects(files, ms)
    ensures forall m :: m in ms <==> exists i | 0 <= i < |files| :: IsMigrationOf(files[i], m)
  {
    hide ReadFile, IsMigrationOf;
    forall m ensures m in ms <==> exists i | 0 <= i < |files| :: IsMigrationOf(files[i], m) {
      if m in ms {
        var i :| 0 <= i < |files| && ReadFile(files[i]) == Some(m);
        ReadIff(files[i], m);
      }
      if i :| 0 <= i < |files| && IsMigrationOf(files[i], m) { ReadIff(files[i], m); }
    }
  }

  /** Loading is refused exactly when two files are migrations of one version; otherwise it yields exactly the migrations
      that the files are, in ascending order of their versions. */
  lemma LoadsExactly(files: seq<File>)
    ensures Load(files).None? <==> SameVersion(files)
    ensures Load(files).Some? ==>
      var ms := Load(files).value;
      && (forall i, j | 0 <= i < j < |ms| :: ms[i].version < ms[j].version)
      && (forall m :: m in ms <==> exists i | 0 <= i < |files| :: IsMigrationOf(files[i], m))
  {
    hide Load, Collects, Clash, SameVersion, IsMigrationOf;
    LoadIff(files);
    ClashIs(files);
    if Load(files).Some? { CollectedAre(files, Load(files).value); }
  }

  // ---------------------------------------------------------------------------------------------
  // Rollback files do not matter to loading.

  ghost function WithoutRollbacks(files: seq<File>): (r: seq<File>)
    ensures forall f :: f in r <==> f in files && !IsRollbackName(f.name)
  {
    if files == [] then []
    else
      var n := |files| - 1;
      assert files == files[..n] + [files[n]];
      WithoutRollbacks(files[..n]) + if IsRollbackName(files[n].name) then [] else [files[n]]
  }

  lemma RollbackIsNotRead(f: File)
    requires IsRollbackName(f.name)
    ensures ReadFile(f) == None
  {
    hide ReadFile, IsRollbackName;
    if ReadFile(f).Some? { ReadIff(f, ReadFile(f).value); }
  }

  lemma {:induction false} CollectIgnoresRollbacks(files: seq<File>)
    ensures Collect(WithoutRollbacks(files)) == Collect(files)
  {
    hide ReadFile, IsRollbackName;
    if files != [] {
      var n := |files| - 1;
      CollectIgnoresRollbacks(files[..n]);
      var before, f := WithoutRollbacks(files[..n]), files[n];
      if IsRollbackName(f.name) {
        RollbackIsNotRead(f);
        assert before + [] == before;
      } else {
        assert (before + [f])[..|before|] == before;
      }
    }
  }
}
