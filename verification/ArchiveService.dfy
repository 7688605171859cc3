/** Rows past their retention time move from a live table to an archive in another database: copied in a
    transaction there, then deleted here. Anything may fail in between, and movers may overlap. */
module ArchiveService {

  /** `settled` is true of every audit row and metric snapshot, and of webhook events no longer pending. */
  datatype Row = Row(stamp: int, settled: bool, content: string)

  datatype Entry = Entry(id: nat, row: Row)

  /** The live rows, the archived copies, and all versions each row ever had. */
  datatype Table = Table(live: map<nat, Row>, archive: seq<Entry>, versions: map<nat, seq<Row>>)

  predicate Expired(row: Row, cutoff: int) {
    row.settled && row.stamp < cutoff
  }

  predicate Archived(archive: seq<Entry>, id: nat) {
    exists i | 0 <= i < |archive| :: archive[i].id == id
  }

  /** INSERT … ON CONFLICT DO NOTHING, row by row. */
  function Copied(archive: seq<Entry>, rows: seq<Entry>, anonymise: Row -> Row): seq<Entry> {
    if rows == [] then archive
    else
      var before, e := Copied(archive, rows[..|rows| - 1], anonymise), rows[|rows| - 1];
      if Archived(before, e.id) then before else before + [Entry(e.id, anonymise(e.row))]
  }

  function Ids(rows: seq<Entry>): set<nat> {
    set i | 0 <= i < |rows| :: rows[i].id
  }

  /** Where a move stops: at an insert or the commit, between commit and delete, or not at all. */
  datatype Fault = InTransaction | BeforeDelete | Never

  function Moved(t: Table, rows: seq<Entry>, fault: Fault, anonymise: Row -> Row): Table {
    match fault
    case InTransaction => t
    case BeforeDelete => t.(archive := Copied(t.archive, rows, anonymise))
    case Never => t.(archive := Copied(t.archive, rows, anonymise), live := t.live - Ids(rows))
  }

  // ---------------------------------------------------------------------------------------------

  predicate OneCopyEach(archive: seq<Entry>) {
    forall i, j | 0 <= i < j < |archive| :: archive[i].id != archive[j].id
  }

  ghost predicate IsCopy(e: Entry, versions: map<nat, seq<Row>>, anonymise: Row -> Row) {
    e.id in versions && exists k | 0 <= k < |versions[e.id]| :: e.row == anonymise(versions[e.id][k])
  }

  ghost predicate AllCopies(archive: seq<Entry>, versions: map<nat, seq<Row>>, anonymise: Row -> Row) {
    forall i | 0 <= i < |archive| :: IsCopy(archive[i], versions, anonymise)
  }

  /** Every row that ever existed is live, with its latest version, or archived, as one anonymised copy. */
  ghost predicate Conserved(t: Table, anonymise: Row -> Row) {
    && (forall id :: id in t.versions <==> id in t.live || Archived(t.archive, id))
    && (forall id | id in t.versions :: t.versions[id] != [])
    && (forall id | id in t.live :: t.live[id] == t.versions[id][|t.versions[id]| - 1])
    && OneCopyEach(t.archive) && AllCopies(t.archive, t.versions, anonymise)
  }

  ghost predicate Known(e: Entry, versions: map<nat, seq<Row>>) {
    e.id in versions && e.row in versions[e.id]
  }

  lemma {:induction false} CopiedKeeps(archive: seq<Entry>, rows: seq<Entry>, versions: map<nat, seq<Row>>, anonymise: Row -> Row)
    requires OneCopyEach(archive) && AllCopies(archive, versions, anonymise)
    requires forall i | 0 <= i < |rows| :: Known(rows[i], versions)
    ensures
      var r := Copied(archive, rows, anonymise);
      && OneCopyEach(r) && AllCopies(r, versions, anonymise)
      && archive <= r
      && (forall id :: Archived(r, id) <==> Archived(archive, id) || id in Ids(rows))
  {
    if rows != [] {
      var n, e := |rows| - 1, rows[|rows| - 1];
      CopiedKeeps(archive, rows[..n], versions, anonymise);
      var before := Copied(archive, rows[..n], anonymise);
      assert Ids(rows) == Ids(rows[..n]) + {e.id};
      if !Archived(before, e.id) {
        assert IsCopy(Entry(e.id, anonymise(e.row)), versions, anonymise);
        OneMoreArchived(before, Entry(e.id, anonymise(e.row)));
      }
    }
  }

  /** Copying appends, for rows that had no copy, that row anonymised; afterwards every row has one. */
  lemma {:induction false} CopiesOf(archive: seq<Entry>, rows: seq<Entry>, anonymise: Row -> Row)
    ensures
      var r := Copied(archive, rows, anonymise);
      && archive <= r && (forall i | 0 <= i < |rows| :: Archived(r, rows[i].id))
      && forall k | |archive| <= k < |r| :: exists i | 0 <= i < |rows| ::
           r[k] == Entry(rows[i].id, anonymise(rows[i].row)) && !Archived(archive, rows[i].id)
  {
    if rows != [] {
      var n, e := |rows| - 1, rows[|rows| - 1];
      CopiesOf(archive, rows[..n], anonymise);
      var before, r := Copied(archive, rows[..n], anonymise), Copied(archive, rows, anonymise);
      OneMoreArchived(before, Entry(e.id, anonymise(e.row)));
      ArchivedStays(archive, before, e.id);
      forall k | |archive| <= k < |r| ensures exists i | 0 <= i < |rows| ::
        r[k] == Entry(rows[i].id, anonymise(rows[i].row)) && !Archived(archive, rows[i].id)
      {
        if k < |before| {
          var i :| 0 <= i < n && before[k] == Entry(rows[..n][i].id, anonymise(rows[..n][i].row)) && !Archived(archive, rows[..n][i].id);
          assert rows[i] == rows[..n][i];
        } else {
          assert rows[n] == e;
        }
      }
      forall i | 0 <= i < |rows| ensures Archived(r, rows[i].id) {
        if i < n { assert rows[..n][i] == rows[i]; }
      }
    }
  }

  lemma ArchivedStays(a: seq<Entry>, b: seq<Entry>, id: nat)
    requires a <= b
    ensures Archived(a, id) ==> Archived(b, id)
  {
    if Archived(a, id) {
      var i :| 0 <= i < |a| && a[i].id == id;
      assert b[i].id == id;
    }
  }

  lemma OneMoreArchived(archive: seq<Entry>, e: Entry)
    ensures forall id :: Archived(archive + [e], id) <==> Archived(archive, id) || id == e.id
  {
    forall id ensures Archived(archive + [e], id) <==> Archived(archive, id) || id == e.id {
      if Archived(archive, id) {
        var i :| 0 <= i < |archive| && archive[i].id == id;
        assert (archive + [e])[i].id == id;
      }
      assert (archive + [e])[|archive|] == e;
    }
  }

  /** Wherever a move stops, nothing is lost and nothing is copied twice. */
  lemma MovedConserves(t: Table, rows: seq<Entry>, fault: Fault, anonymise: Row -> Row)
    requires Conserved(t, anonymise) && forall i | 0 <= i < |rows| :: Known(rows[i], t.versions)
    ensures Conserved(Moved(t, rows, fault, anonymise), anonymise)
  {
    CopiedKeeps(t.archive, rows, t.versions, anonymise);
    forall id | id in Ids(rows) ensures id in t.versions {
      var i :| 0 <= i < |rows| && rows[i].id == id;
      assert Known(rows[i], t.versions);
    }
  }

  // ---------------------------------------------------------------------------------------------
  // Any number of movers at once, each between any two of its statements, while rows are added and changed.

  datatype Phase = Idle | Listed(rows: seq<Entry>) | Committed(rows: seq<Entry>)

  /** `reported` is what movers say they archived, `removed` the rows that really left the live table. */
  datatype System = System(table: Table, movers: map<nat, Phase>, reported: nat, removed: nat)

  datatype Step =
    | Append(id: nat, row: Row)
    | Change(id: nat, row: Row)
    | List(mover: nat, rows: seq<Entry>)
    | Commit(mover: nat)
    | Delete(mover: nat)
    | Stop(mover: nat)

  predicate IsListing(t: Table, rows: seq<Entry>) {
    forall i | 0 <= i < |rows| :: rows[i].id in t.live && rows[i].row == t.live[rows[i].id]
  }

  function PhaseOf(s: System, mover: nat): Phase {
    if mover in s.movers then s.movers[mover] else Idle
  }

  predicate Enabled(s: System, e: Step) {
    match e
    case Append(id, _) => id !in s.table.versions
    case Change(id, _) => id in s.table.live && id in s.table.versions
    case List(_, rows) => IsListing(s.table, rows) && OneCopyEach(rows)
    case Commit(m) => PhaseOf(s, m).Listed?
    case Delete(m) => PhaseOf(s, m).Committed?
    case Stop(_) => true
  }

  function Do(s: System, e: Step, anonymise: Row -> Row): System
    requires Enabled(s, e)
  {
    var t := s.table;
    match e
    case Append(id, row) => s.(table := t.(live := t.live[id := row], versions := t.versions[id := [row]]))
    case Change(id, row) =>
      s.(table := t.(live := t.live[id := row], versions := t.versions[id := t.versions[id] + [row]]))
    case List(m, rows) => s.(movers := s.movers[m := Listed(rows)])
    case Commit(m) =>
      var rows := s.movers[m].rows;
      s.(table := Moved(t, rows, BeforeDelete, anonymise), movers := s.movers[m := Committed(rows)])
    case Delete(m) =>
      var rows := s.movers[m].rows;
      System(t.(live := t.live - Ids(rows)), s.movers[m := Idle], s.reported + |rows|,
             s.removed + |t.live.Keys * Ids(rows)|)
    case Stop(m) => s.(movers := s.movers[m := Idle])
  }

  ghost predicate MoverInv(t: Table, p: Phase) {
    match p
    case Idle => true
    case Listed(rows) => OneCopyEach(rows) && forall i | 0 <= i < |rows| :: Known(rows[i], t.versions)
    case Committed(rows) => forall i | 0 <= i < |rows| :: Archived(t.archive, rows[i].id)
  }

  ghost predicate Inv(s: System, anonymise: Row -> Row) {
    Conserved(s.table, anonymise) && forall m | m in s.movers :: MoverInv(s.table, s.movers[m])
  }

  lemma VersionsGrow(s: System, e: Step, anonymise: Row -> Row, x: Entry)
    requires Enabled(s, e)
    ensures Known(x, s.table.versions) ==> Known(x, Do(s, e, anonymise).table.versions)
    ensures IsCopy(x, s.table.versions, anonymise) ==> IsCopy(x, Do(s, e, anonymise).table.versions, anonymise)
  {
    var v, w := s.table.versions, Do(s, e, anonymise).table.versions;
    if x.id in v {
      assert forall k | 0 <= k < |v[x.id]| :: e.Append? || (k < |w[x.id]| && w[x.id][k] == v[x.id][k]);
    }
  }

  lemma ChangeConserves(t: Table, id: nat, row: Row, versions: seq<Row>, anonymise: Row -> Row)
    requires Conserved(t, anonymise) && versions != [] && versions[|versions| - 1] == row
    requires if id in t.versions then id in t.live && t.versions[id] <= versions else versions == [row]
    ensures Conserved(Table(t.live[id := row], t.archive, t.versions[id := versions]), anonymise)
  {
    hide OneCopyEach, IsCopy;
    forall i | 0 <= i < |t.archive| ensures IsCopy(t.archive[i], t.versions[id := versions], anonymise) {
      StaysCopy(t.archive[i], t.versions, id, versions, anonymise);
    }
  }

  lemma StaysCopy(e: Entry, all: map<nat, seq<Row>>, id: nat, versions: seq<Row>, anonymise: Row -> Row)
    requires IsCopy(e, all, anonymise) && (id in all ==> all[id] <= versions)
    ensures IsCopy(e, all[id := versions], anonymise)
  {
    var k :| 0 <= k < |all[e.id]| && e.row == anonymise(all[e.id][k]);
    assert all[id := versions][e.id][k] == all[e.id][k];
  }

  lemma DeleteConserves(t: Table, rows: seq<Entry>, anonymise: Row -> Row)
    requires Conserved(t, anonymise) && forall i | 0 <= i < |rows| :: Archived(t.archive, rows[i].id)
    ensures Conserved(t.(live := t.live - Ids(rows)), anonymise)
  {
    forall id | id in Ids(rows) ensures Archived(t.archive, id) {
      var i :| 0 <= i < |rows| && rows[i].id == id;
    }
  }

  lemma StepConserves(s: System, e: Step, anonymise: Row -> Row)
    requires Inv(s, anonymise) && Enabled(s, e)
    ensures Conserved(Do(s, e, anonymise).table, anonymise)
  {
    hide Conserved, Moved, Ids, Archived;
    match e
    case Append(id, row) => AppendConserves(s.table, id, row, anonymise);
    case Change(id, row) => ChangeConserves(s.table, id, row, s.table.versions[id] + [row], anonymise);
    case Commit(m) =>
      assert MoverInv(s.table, s.movers[m]);
      MovedConserves(s.table, s.movers[m].rows, BeforeDelete, anonymise);
    case Delete(m) =>
      assert MoverInv(s.table, s.movers[m]);
      DeleteConserves(s.table, s.movers[m].rows, anonymise);
    case _ =>
  }

  lemma AppendConserves(t: Table, id: nat, row: Row, anonymise: Row -> Row)
    requires Conserved(t, anonymise) && id !in t.versions
    ensures Conserved(Table(t.live[id := row], t.archive, t.versions[id := [row]]), anonymise)
  {
    ChangeConserves(t, id, row, [row], anonymise);
  }

  /** Copies are never taken back, so a mover that has committed may go on to delete at any time. */
  lemma StepKeepsMovers(s: System, e: Step, anonymise: Row -> Row, m: nat)
    requires Inv(s, anonymise) && Enabled(s, e) && m in s.movers && PhaseOf(Do(s, e, anonymise), m) == s.movers[m]
    ensures MoverInv(Do(s, e, anonymise).table, s.movers[m])
  {
    hide Copied;
    var r := Do(s, e, anonymise);
    assert MoverInv(s.table, s.movers[m]);
    forall x | Known(x, s.table.versions) ensures Known(x, r.table.versions) { VersionsGrow(s, e, anonymise, x); }
    forall id | Archived(s.table.archive, id) ensures Archived(r.table.archive, id) {
      if e.Commit? {
        assert MoverInv(s.table, s.movers[e.mover]);
        CopiedKeeps(s.table.archive, s.movers[e.mover].rows, s.table.versions, anonymise);
      }
    }
  }

  lemma CommitReady(s: System, m: nat, anonymise: Row -> Row)
    requires Inv(s, anonymise) && PhaseOf(s, m).Listed?
    ensures MoverInv(Do(s, Commit(m), anonymise).table, Committed(s.movers[m].rows))
  {
    hide Copied;
    var rows := s.movers[m].rows;
    assert MoverInv(s.table, s.movers[m]);
    CopiedKeeps(s.table.archive, rows, s.table.versions, anonymise);
    forall i | 0 <= i < |rows| ensures rows[i].id in Ids(rows) {}
  }

  /** Every statement of every mover, and every change to the live table, keeps all rows safe. */
  lemma StepKeepsInv(s: System, e: Step, anonymise: Row -> Row)
    requires Inv(s, anonymise) && Enabled(s, e)
    ensures Inv(Do(s, e, anonymise), anonymise)
  {
    hide Conserved, Ids, Archived, Moved;
    StepConserves(s, e, anonymise);
    var r := Do(s, e, anonymise);
    forall m | m in r.movers ensures MoverInv(r.table, r.movers[m]) {
      if m in s.movers && r.movers[m] == s.movers[m] {
        StepKeepsMovers(s, e, anonymise, m);
      } else if e.Commit? {
        CommitReady(s, m, anonymise);
      } else if e.List? {
        ListedAreKnown(s.table, e.rows, anonymise);
      }
    }
  }

  lemma ListedAreKnown(t: Table, rows: seq<Entry>, anonymise: Row -> Row)
    requires Conserved(t, anonymise) && IsListing(t, rows)
    ensures forall i | 0 <= i < |rows| :: Known(rows[i], t.versions)
  {
  }

  ghost predicate EnabledRun(s: System, steps: seq<Step>, anonymise: Row -> Row)
    decreases |steps|
  {
    steps == [] || (Enabled(s, steps[0]) && EnabledRun(Do(s, steps[0], anonymise), steps[1..], anonymise))
  }

  ghost function Run(s: System, steps: seq<Step>, anonymise: Row -> Row): System
    requires EnabledRun(s, steps, anonymise)
    decreases |steps|
  {
    if steps == [] then s else Run(Do(s, steps[0], anonymise), steps[1..], anonymise)
  }

  lemma {:induction false} RunKeepsInv(s: System, steps: seq<Step>, anonymise: Row -> Row)
    requires Inv(s, anonymise) && EnabledRun(s, steps, anonymise)
    ensures Inv(Run(s, steps, anonymise), anonymise)
    decreases |steps|
  {
    hide Inv, Enabled, Do;
    if steps != [] {
      StepKeepsInv(s, steps[0], anonymise);
      RunKeepsInv(Do(s, steps[0], anonymise), steps[1..], anonymise);
    }
  }

  function Start(): System {
    System(Table(map[], [], map[]), map[], 0, 0)
  }

  /** In every run each row that was ever added is live or archived; it is archived at most once; and the copy of
      a row that never changed is that row, anonymised. */
  lemma NoRowIsLost(steps: seq<Step>, anonymise: Row -> Row, id: nat)
    requires EnabledRun(Start(), steps, anonymise) && id in Run(Start(), steps, anonymise).table.versions
    ensures
      var t := Run(Start(), steps, anonymise).table;
      && (id in t.live || exists i | 0 <= i < |t.archive| :: t.archive[i].id == id)
      && (forall i, j | 0 <= i < |t.archive| && 0 <= j < |t.archive| && t.archive[i].id == t.archive[j].id :: i == j)
      && (forall i | 0 <= i < |t.archive| && t.archive[i].id == id && |t.versions[id]| == 1 ::
           t.archive[i].row == anonymise(t.versions[id][0]))
  {
    hide Run, EnabledRun;
    RunKeepsInv(Start(), steps, anonymise);
    var t := Run(Start(), steps, anonymise).table;
    assert Conserved(t, anonymise);
    forall i | 0 <= i < |t.archive| && t.archive[i].id == id ensures IsCopy(t.archive[i], t.versions, anonymise) {}
  }

  /** A webhook event that changes after its copy is committed and before it is deleted is lost in its last
      version: only a copy of an earlier one remains. */
  lemma LateChangeIsLost(s: System, m: nat, id: nat, row: Row, anonymise: Row -> Row)
    requires Inv(s, anonymise) && PhaseOf(s, m).Committed? && id in Ids(s.movers[m].rows) && id in s.table.live
    requires forall k | 0 <= k < |s.table.versions[id]| :: anonymise(s.table.versions[id][k]) != anonymise(row)
    ensures Enabled(Do(s, Change(id, row), anonymise), Delete(m))
    ensures
      var t := Do(Do(s, Change(id, row), anonymise), Delete(m), anonymise).table;
      && id !in t.live && Archived(t.archive, id) && t.versions[id] == s.table.versions[id] + [row]
      && Entry(id, anonymise(row)) !in t.archive
  {
    var rows, t := s.movers[m].rows, s.table;
    var i :| 0 <= i < |rows| && rows[i].id == id;
    assert MoverInv(t, s.movers[m]);
    forall k | 0 <= k < |t.archive| && t.archive[k].id == id ensures t.archive[k].row != anonymise(row) {
      assert IsCopy(t.archive[k], t.versions, anonymise);
    }
  }

  lemma {:induction false} IdsAreCounted(rows: seq<Entry>)
    requires OneCopyEach(rows)
    ensures |Ids(rows)| == |rows|
  {
    if rows != [] {
      var n := |rows| - 1;
      IdsAreCounted(rows[..n]);
      assert Ids(rows) == Ids(rows[..n]) + {rows[n].id};
    }
  }

  /** A delete reports what it removed exactly when nobody else took one of its rows; this is what the lock is for. */
  lemma ReportIsTrueIff(s: System, m: nat, anonymise: Row -> Row)
    requires PhaseOf(s, m).Committed? && OneCopyEach(s.movers[m].rows)
    ensures
      var rows, r := s.movers[m].rows, Do(s, Delete(m), anonymise);
      r.reported - s.reported == r.removed - s.removed <==> forall i | 0 <= i < |rows| :: rows[i].id in s.table.live
  {
    var rows := s.movers[m].rows;
    var ids, live := Ids(rows), s.table.live.Keys;
    IdsAreCounted(rows);
    if ids <= live {
      assert live * ids == ids;
      forall i | 0 <= i < |rows| ensures rows[i].id in live { assert rows[i].id in ids; }
    } else {
      var x :| x in ids && x !in live;
      Fewer(live * ids, ids, x);
      var i :| 0 <= i < |rows| && rows[i].id == x;
    }
  }

  lemma Fewer(a: set<nat>, b: set<nat>, x: nat)
    requires a <= b && x in b && x !in a
    ensures |a| < |b|
  {
    assert b == a + (b - a);
    assert x in b - a;
  }

  // ---------------------------------------------------------------------------------------------
  // Where repeated cycles end up.

  /** Only rows expired at `cutoff` were archived so far, and none of them ever changed. */
  ghost predicate ArchivedBefore(t: Table, cutoff: int) {
    && (forall id | id in t.versions :: |t.versions[id]| == 1)
    && (forall id | id in t.versions && Archived(t.archive, id) :: Expired(t.versions[id][0], cutoff))
  }

  ghost predicate NothingExpired(t: Table, cutoff: int) {
    forall id | id in t.live :: !Expired(t.live[id], cutoff)
  }

  /** Moving expired rows, whatever fails, archives expired rows only. */
  lemma MovedKeepsArchivedBefore(t: Table, rows: seq<Entry>, fault: Fault, cutoff: int, anonymise: Row -> Row)
    requires Conserved(t, anonymise) && ArchivedBefore(t, cutoff) && IsListing(t, rows)
    requires forall i | 0 <= i < |rows| :: Expired(rows[i].row, cutoff)
    ensures ArchivedBefore(Moved(t, rows, fault, anonymise), cutoff)
  {
    ListedAreKnown(t, rows, anonymise);
    CopiedKeeps(t.archive, rows, t.versions, anonymise);
    forall id | id in Ids(rows) ensures id in t.live && Expired(t.live[id], cutoff) {
      var i :| 0 <= i < |rows| && rows[i].id == id;
    }
  }

  lemma SameCopies(t: Table, u: Table, cutoff: int, anonymise: Row -> Row, e: Entry)
    requires Conserved(t, anonymise) && Conserved(u, anonymise) && t.versions == u.versions
    requires ArchivedBefore(t, cutoff) && NothingExpired(u, cutoff) && e in t.archive
    ensures e in u.archive
  {
    hide Expired, IsCopy, OneCopyEach;
    var i :| 0 <= i < |t.archive| && t.archive[i] == e;
    OnlyVersion(t, i, anonymise);
    NotLive(t, u, cutoff, anonymise, e.id) by { assert Archived(t.archive, e.id); }
    var j :| 0 <= j < |u.archive| && u.archive[j].id == e.id;
    OnlyVersion(u, j, anonymise);
    assert u.archive[j] == e;
  }

  /** A row archived in one table is archived in any other in which nothing expired is left. */
  lemma NotLive(t: Table, u: Table, cutoff: int, anonymise: Row -> Row, id: nat)
    requires Conserved(t, anonymise) && Conserved(u, anonymise) && t.versions == u.versions
    requires ArchivedBefore(t, cutoff) && NothingExpired(u, cutoff) && Archived(t.archive, id)
    ensures id !in u.live && Archived(u.archive, id)
  {
    hide Expired, OneCopyEach, AllCopies;
  }

  lemma OnlyVersion(t: Table, i: nat, anonymise: Row -> Row)
    requires AllCopies(t.archive, t.versions, anonymise) && i < |t.archive|
    ensures t.archive[i].id in t.versions
    ensures |t.versions[t.archive[i].id]| == 1 ==> t.archive[i].row == anonymise(t.versions[t.archive[i].id][0])
  {
    assert IsCopy(t.archive[i], t.versions, anonymise);
  }

  lemma {:induction false} CountedOnce(archive: seq<Entry>, e: Entry)
    requires OneCopyEach(archive)
    ensures multiset(archive)[e] == if e in archive then 1 else 0
  {
    if archive != [] {
      var n := |archive| - 1;
      assert archive == archive[..n] + [archive[n]];
      CountedOnce(archive[..n], e);
    }
  }

  /** Two tables that held the same rows and have nothing expired left are equal, however many
      failed and repeated moves brought them there. */
  lemma CyclesConverge(t: Table, u: Table, cutoff: int, anonymise: Row -> Row)
    requires Conserved(t, anonymise) && Conserved(u, anonymise) && t.versions == u.versions
    requires ArchivedBefore(t, cutoff) && ArchivedBefore(u, cutoff)
    requires NothingExpired(t, cutoff) && NothingExpired(u, cutoff)
    ensures t.live == u.live
    ensures multiset(t.archive) == multiset(u.archive)
  {
    hide Expired, IsCopy, OneCopyEach, Conserved, ArchivedBefore, NothingExpired;
    SameRowsLive(t, u, cutoff, anonymise);
    SameRowsLive(u, t, cutoff, anonymise);
    forall e | e in t.archive ensures e in u.archive { SameCopies(t, u, cutoff, anonymise, e); }
    forall e | e in u.archive ensures e in t.archive { SameCopies(u, t, cutoff, anonymise, e); }
    forall e ensures multiset(t.archive)[e] == multiset(u.archive)[e] {
      ArchiveCountedOnce(t, e, anonymise);
      ArchiveCountedOnce(u, e, anonymise);
    }
  }

  lemma ArchiveCountedOnce(t: Table, e: Entry, anonymise: Row -> Row)
    requires Conserved(t, anonymise)
    ensures multiset(t.archive)[e] == if e in t.archive then 1 else 0
  {
    CountedOnce(t.archive, e);
  }

  lemma SameRowsLive(t: Table, u: Table, cutoff: int, anonymise: Row -> Row)
    requires Conserved(t, anonymise) && Conserved(u, anonymise) && t.versions == u.versions
    requires ArchivedBefore(t, cutoff) && NothingExpired(u, cutoff)
    ensures forall id | id in u.live :: id in t.live && t.live[id] == u.live[id]
  {
    hide Expired, IsCopy, OneCopyEach, AllCopies, ArchivedBefore, NothingExpired;
    forall id | id in u.live ensures id in t.live && t.live[id] == u.live[id] {
      if Archived(t.archive, id) { NotLive(t, u, cutoff, anonymise, id); }
    }
  }

  // ---------------------------------------------------------------------------------------------
  // The retention cycle.

  /** The expired rows, oldest first, at most `limit` of them. */
  ghost predicate IsExpiredList(live: map<nat, Row>, cutoff: int, limit: nat, rows: seq<Entry>) {
    && |rows| <= limit && OneCopyEach(rows)
    && (forall i | 0 <= i < |rows| :: rows[i].id in live && rows[i].row == live[rows[i].id] && Expired(rows[i].row, cutoff))
    && (forall i, j | 0 <= i < j < |rows| :: rows[i].row.stamp <= rows[j].row.stamp)
    && (forall id | id in live && Expired(live[id], cutoff) && id !in Ids(rows) ::
         |rows| == limit && forall i | 0 <= i < |rows| :: rows[i].row.stamp <= live[id].stamp)
  }

  lemma IdsGrow(rows: seq<Entry>, e: Entry)
    ensures Ids(rows + [e]) == Ids(rows) + {e.id}
  {
    var longer := rows + [e];
    assert longer[|rows|] == e;
    forall id | id in Ids(rows) ensures id in Ids(longer) {
      var i :| 0 <= i < |rows| && rows[i].id == id;
      assert longer[i].id == id;
    }
  }

  /** What one move of a cycle does to a table: it moves the oldest expired rows, or part of the way. */
  ghost predicate IsMove(t: Table, u: Table, cutoff: int, limit: nat, fault: Fault, anonymise: Row -> Row, failed: bool, count: nat) {
    exists rows ::
      && IsExpiredList(t.live, cutoff, limit, rows)
      && (if rows == [] then !failed && u == t else failed == (fault != Never) && u == Moved(t, rows, fault, anonymise))
      && (!failed ==> count == |rows|)
  }

  /** Rows that are not settled, or not older than `cutoff`, are live as they were. */
  ghost predicate Spares(t: Table, u: Table, cutoff: int) {
    forall id | id in t.live && (!t.live[id].settled || t.live[id].stamp >= cutoff) :: id in u.live && u.live[id] == t.live[id]
  }

  /** No settled row from before `cutoff` is live. */
  ghost predicate NoneOlder(t: Table, cutoff: int) {
    forall id | id in t.live :: !(t.live[id].settled && t.live[id].stamp < cutoff)
  }

  lemma MoveSpares(t: Table, u: Table, cutoff: int, limit: nat, fault: Fault, anonymise: Row -> Row, failed: bool, count: nat, later: int)
    requires IsMove(t, u, cutoff, limit, fault, anonymise, failed, count) && cutoff <= later
    ensures Spares(t, u, later)
    ensures NothingExpired(u, cutoff) ==> NoneOlder(u, cutoff)
  {
    hide Copied;
    var rows: seq<Entry> :|
      && IsExpiredList(t.live, cutoff, limit, rows)
      && (if rows == [] then !failed && u == t else failed == (fault != Never) && u == Moved(t, rows, fault, anonymise))
      && (!failed ==> count == |rows|);
    forall id | id in Ids(rows) ensures id in t.live && t.live[id].settled && t.live[id].stamp < cutoff {
      var i :| 0 <= i < |rows| && rows[i].id == id;
    }
  }

  /** A move keeps the rows safe, removes as many as it counts, and one that counts less than
      its limit leaves nothing expired. */
  lemma MoveIsSafe(t: Table, u: Table, cutoff: int, limit: nat, fault: Fault, anonymise: Row -> Row, failed: bool, count: nat)
    requires IsMove(t, u, cutoff, limit, fault, anonymise, failed, count) && Conserved(t, anonymise)
    ensures Conserved(u, anonymise) && u.versions == t.versions
    ensures forall later | later >= cutoff && ArchivedBefore(t, later) :: ArchivedBefore(u, later)
    ensures !failed ==> count + |u.live| == |t.live|
    ensures failed ==> |u.live| == |t.live|
    ensures !failed && count < limit ==> NothingExpired(u, cutoff)
  {
    hide Copied, Conserved, ArchivedBefore, Ids, IsExpiredList, Moved, NothingExpired;
    var rows :|
      && IsExpiredList(t.live, cutoff, limit, rows)
      && (if rows == [] then !failed && u == t else failed == (fault != Never) && u == Moved(t, rows, fault, anonymise))
      && (!failed ==> count == |rows|);
    if rows == [] {
      EmptyList(t, cutoff, limit);
    } else {
      ListedRows(t.live, cutoff, limit, rows);
      MoveRemoves(t, rows, fault, cutoff, limit, anonymise);
      ListedAreKnown(t, rows, anonymise);
      MovedConserves(t, rows, fault, anonymise);
      forall later | later >= cutoff && ArchivedBefore(t, later) ensures ArchivedBefore(u, later) {
        MovedKeepsArchivedBefore(t, rows, fault, later, anonymise);
      }
    }
  }

  lemma EmptyList(t: Table, cutoff: int, limit: nat)
    requires IsExpiredList(t.live, cutoff, limit, [])
    ensures limit > 0 ==> NothingExpired(t, cutoff)
  {
    NoIds();
  }

  lemma ListedRows(live: map<nat, Row>, cutoff: int, limit: nat, rows: seq<Entry>)
    requires IsExpiredList(live, cutoff, limit, rows)
    ensures OneCopyEach(rows) && |rows| <= limit
    ensures forall i | 0 <= i < |rows| :: rows[i].id in live && rows[i].row == live[rows[i].id] && Expired(rows[i].row, cutoff)
    ensures |rows| < limit ==> forall id | id in live && id !in Ids(rows) :: !Expired(live[id], cutoff)
  {
    hide Expired;
  }

  /** What a move takes out of the live table. */
  lemma MoveRemoves(t: Table, rows: seq<Entry>, fault: Fault, cutoff: int, limit: nat, anonymise: Row -> Row)
    requires IsExpiredList(t.live, cutoff, limit, rows)
    ensures
      var u := Moved(t, rows, fault, anonymise);
      && u.versions == t.versions && |u.live| + (if fault == Never then |rows| else 0) == |t.live|
      && (fault == Never && |rows| < limit ==> NothingExpired(u, cutoff))
  {
    hide Copied, Ids, Expired, IsExpiredList;
    ListedRows(t.live, cutoff, limit, rows);
    IdsAreCounted(rows);
    Removal(t.live, rows);
  }

  lemma Removal(live: map<nat, Row>, rows: seq<Entry>)
    requires forall i | 0 <= i < |rows| :: rows[i].id in live
    ensures |live - Ids(rows)| + |Ids(rows)| == |live|
  {
    assert Ids(rows) <= live.Keys;
    assert (live - Ids(rows)).Keys == live.Keys - Ids(rows);
    assert live.Keys == (live.Keys - Ids(rows)) + Ids(rows);
    KeysCounted(live);
    KeysCounted(live - Ids(rows));
  }

  lemma KeysCounted(m: map<nat, Row>)
    ensures |m| == |m.Keys|
  {
  }

  // Histories of moves on one table.

  datatype Move = Move(cutoff: int, limit: nat, fault: Fault, failed: bool, count: nat)

  ghost predicate IsHistory(tables: seq<Table>, moves: seq<Move>, anonymise: Row -> Row) {
    && |tables| == |moves| + 1
    && forall i | 0 <= i < |moves| ::
         IsMove(tables[i], tables[i + 1], moves[i].cutoff, moves[i].limit, moves[i].fault, anonymise, moves[i].failed, moves[i].count)
  }

  ghost predicate CutoffsUpTo(moves: seq<Move>, latest: int) {
    forall i | 0 <= i < |moves| :: moves[i].cutoff <= latest
  }

  /** Moves that nothing stops, all with one cutoff and limit. */
  ghost predicate Undisturbed(moves: seq<Move>, cutoff: int, limit: nat) {
    forall i | 0 <= i < |moves| :: moves[i].fault == Never && moves[i].cutoff == cutoff && moves[i].limit == limit
  }

  lemma {:induction false} HistoryKeeps(tables: seq<Table>, moves: seq<Move>, latest: int, anonymise: Row -> Row)
    requires IsHistory(tables, moves, anonymise) && CutoffsUpTo(moves, latest)
    requires Conserved(tables[0], anonymise) && ArchivedBefore(tables[0], latest)
    ensures
      var last := tables[|moves|];
      && Conserved(last, anonymise) && ArchivedBefore(last, latest) && last.versions == tables[0].versions
      && Spares(tables[0], last, latest)
  {
    hide Conserved, ArchivedBefore, IsMove, NothingExpired, NoneOlder;
    if moves != [] {
      var n := |moves| - 1;
      HistoryKeeps(tables[..n + 1], moves[..n], latest, anonymise);
      var m := moves[n];
      assert tables[..n + 1][n] == tables[n];
      MoveIsSafe(tables[n], tables[n + 1], m.cutoff, m.limit, m.fault, anonymise, m.failed, m.count);
      MoveSpares(tables[n], tables[n + 1], m.cutoff, m.limit, m.fault, anonymise, m.failed, m.count, latest);
    }
  }

  function ExpiredIds(t: Table, cutoff: int): set<nat> {
    set id | id in t.live && Expired(t.live[id], cutoff)
  }

  /** An undisturbed move takes a full limit of expired rows away, or all there are. */
  lemma UndisturbedMove(t: Table, u: Table, cutoff: int, limit: nat, anonymise: Row -> Row, failed: bool, count: nat)
    requires IsMove(t, u, cutoff, limit, Never, anonymise, failed, count)
    ensures !failed && |ExpiredIds(u, cutoff)| + count == |ExpiredIds(t, cutoff)|
    ensures count == limit || ExpiredIds(u, cutoff) == {}
  {
    hide Copied, Ids, ExpiredIds;
    var rows: seq<Entry> :|
      && IsExpiredList(t.live, cutoff, limit, rows)
      && (if rows == [] then !failed && u == t else failed == false && u == Moved(t, rows, Never, anonymise))
      && (!failed ==> count == |rows|);
    IdsAreCounted(rows);
    NoIds();
    assert u.live == t.live - Ids(rows);
    ListedLeave(t, u, cutoff, limit, rows);
  }

  lemma NoIds()
    ensures Ids([]) == {}
  {
  }

  lemma ListedLeave(t: Table, u: Table, cutoff: int, limit: nat, rows: seq<Entry>)
    requires IsExpiredList(t.live, cutoff, limit, rows) && u.live == t.live - Ids(rows)
    ensures |ExpiredIds(u, cutoff)| + |Ids(rows)| == |ExpiredIds(t, cutoff)|
    ensures |rows| == limit || ExpiredIds(u, cutoff) == {}
  {
    hide Expired, IsExpiredList, Ids;
    ListedRows(t.live, cutoff, limit, rows);
    ListedAreExpired(t, cutoff, rows);
    var rest := ExpiredIds(u, cutoff);
    assert rest == ExpiredIds(t, cutoff) - Ids(rows);
    assert ExpiredIds(t, cutoff) == rest + Ids(rows);
  }

  lemma ListedAreExpired(t: Table, cutoff: int, rows: seq<Entry>)
    requires forall i | 0 <= i < |rows| :: rows[i].id in t.live && rows[i].row == t.live[rows[i].id] && Expired(rows[i].row, cutoff)
    ensures Ids(rows) <= ExpiredIds(t, cutoff)
  {
    hide Expired;
  }

  lemma {:induction false} UndisturbedMovesFinish(tables: seq<Table>, moves: seq<Move>, cutoff: int, limit: nat, anonymise: Row -> Row)
    requires IsHistory(tables, moves, anonymise) && Undisturbed(moves, cutoff, limit)
    ensures
      var last := ExpiredIds(tables[|moves|], cutoff);
      last == {} || |last| + |moves| * limit <= |ExpiredIds(tables[0], cutoff)|
  {
    hide ExpiredIds, IsMove;
    if moves != [] {
      var n := |moves| - 1;
      UndisturbedMovesFinish(tables[..n + 1], moves[..n], cutoff, limit, anonymise);
      var m := moves[n];
      assert tables[..n + 1][n] == tables[n];
      UndisturbedMove(tables[n], tables[n + 1], cutoff, limit, anonymise, m.failed, m.count);
      assert (n + 1) * limit == n * limit + limit;
    }
  }

  lemma EnoughMoves(tables: seq<Table>, moves: seq<Move>, cutoff: int, limit: nat, anonymise: Row -> Row)
    requires IsHistory(tables, moves, anonymise) && Undisturbed(moves, cutoff, limit)
    requires |moves| * limit > |ExpiredIds(tables[0], cutoff)|
    ensures NothingExpired(tables[|moves|], cutoff) && NoneOlder(tables[|moves|], cutoff)
  {
    hide IsMove;
    UndisturbedMovesFinish(tables, moves, cutoff, limit, anonymise);
    var last := ExpiredIds(tables[|moves|], cutoff);
    forall id | id in tables[|moves|].live && Expired(tables[|moves|].live[id], cutoff) ensures id in last {}
  }

  /** A table with a history that may fail anywhere, followed by undisturbed moves enough for what is left. */
  ghost predicate Recovers(tables: seq<Table>, moves: seq<Move>, later: seq<Table>, rerun: seq<Move>, cutoff: int, limit: nat,
                           anonymise: Row -> Row)
  {
    && IsHistory(tables, moves, anonymise) && CutoffsUpTo(moves, cutoff)
    && IsHistory(later, rerun, anonymise) && Undisturbed(rerun, cutoff, limit)
    && later[0] == tables[|moves|] && |rerun| * limit > |ExpiredIds(later[0], cutoff)|
  }

  lemma RecoveryEnds(tables: seq<Table>, moves: seq<Move>, later: seq<Table>, rerun: seq<Move>, cutoff: int, limit: nat,
                     anonymise: Row -> Row)
    requires Recovers(tables, moves, later, rerun, cutoff, limit, anonymise)
    requires Conserved(tables[0], anonymise) && ArchivedBefore(tables[0], cutoff)
    ensures
      var last := later[|rerun|];
      && Conserved(last, anonymise) && ArchivedBefore(last, cutoff) && NothingExpired(last, cutoff)
      && last.versions == tables[0].versions
  {
    hide IsMove, Conserved, ArchivedBefore, NothingExpired, ExpiredIds;
    HistoryKeeps(tables, moves, cutoff, anonymise);
    HistoryKeeps(later, rerun, cutoff, anonymise);
    EnoughMoves(later, rerun, cutoff, limit, anonymise);
  }

  /** Whatever failed on the way, once enough undisturbed moves follow, every history of a table ends in the same live
      rows and the same archived copies. */
  lemma RerunsConverge(a: seq<Table>, ma: seq<Move>, a2: seq<Table>, ra: seq<Move>, la: nat,
                       b: seq<Table>, mb: seq<Move>, b2: seq<Table>, rb: seq<Move>, lb: nat, cutoff: int, anonymise: Row -> Row)
    requires Recovers(a, ma, a2, ra, cutoff, la, anonymise) && Recovers(b, mb, b2, rb, cutoff, lb, anonymise)
    requires a[0] == b[0] && Conserved(a[0], anonymise) && ArchivedBefore(a[0], cutoff)
    ensures a2[|ra|].live == b2[|rb|].live && multiset(a2[|ra|].archive) == multiset(b2[|rb|].archive)
  {
    hide IsMove, Conserved, ArchivedBefore, NothingExpired, ExpiredIds;
    RecoveryEnds(a, ma, a2, ra, cutoff, la, anonymise);
    RecoveryEnds(b, mb, b2, rb, cutoff, lb, anonymise);
    CyclesConverge(a2[|ra|], b2[|rb|], cutoff, anonymise);
  }

  /** What any number of moves with cutoffs up to `latest` keep; `total` is the number of rows that left. */
  ghost predicate Progress(t: Table, u: Table, total: nat, latest: int, anonymise: Row -> Row) {
    && Conserved(u, anonymise) && u.versions == t.versions && total + |u.live| == |t.live|
    && (ArchivedBefore(t, latest) ==> ArchivedBefore(u, latest)) && Spares(t, u, latest)
  }

  lemma MoveProgresses(t: Table, u: Table, w: Table, total: nat, latest: int, cutoff: int, limit: nat, fault: Fault,
                       anonymise: Row -> Row, failed: bool, count: nat)
    requires Progress(t, u, total, latest, anonymise) && cutoff <= latest
    requires IsMove(u, w, cutoff, limit, fault, anonymise, failed, count)
    ensures Spares(t, w, latest)
    ensures Progress(t, w, total + (if failed then 0 else count), latest, anonymise)
    ensures !failed && count < limit ==> NoneOlder(w, cutoff)
  {
    hide Conserved, IsMove, ArchivedBefore, NothingExpired, NoneOlder;
    MoveIsSafe(u, w, cutoff, limit, fault, anonymise, failed, count);
    MoveSpares(u, w, cutoff, limit, fault, anonymise, failed, count, latest);
  }

  class Store {
    const anonymise: Row -> Row
    var live: map<nat, Row>
    var archive: seq<Entry>
    ghost var versions: map<nat, seq<Row>>

    ghost function State(): Table
      reads this
    {
      Table(live, archive, versions)
    }

    constructor (anonymise: Row -> Row, live: map<nat, Row>)
      ensures this.anonymise == anonymise && this.live == live && archive == []
      ensures Conserved(State(), anonymise)
    {
      this.anonymise, this.live, archive := anonymise, live, [];
      versions := map id | id in live :: [live[id]];
    }

    method Oldest(cutoff: int, skip: set<nat>) returns (found: bool, id: nat)
      ensures found ==> id in live && id !in skip && Expired(live[id], cutoff)
      ensures found ==> forall k | k in live && k !in skip && Expired(live[k], cutoff) :: live[id].stamp <= live[k].stamp
      ensures !found ==> forall k | k in live && k !in skip :: !Expired(live[k], cutoff)
    {
      var left := live.Keys;
      found, id := false, 0;
      while left != {}
        invariant left <= live.Keys
        invariant found ==> id in live && id !in skip && Expired(live[id], cutoff)
        invariant forall k | k in live && k !in left && k !in skip && Expired(live[k], cutoff) ::
          found && live[id].stamp <= live[k].stamp
        decreases |left|
      {
        var k :| k in left;
        left := left - {k};
        if k !in skip && Expired(live[k], cutoff) && (!found || live[k].stamp < live[id].stamp) {
          found, id := true, k;
        }
      }
    }

    /** The oldest settled rows from before the cutoff, at most `limit`, oldest first. */
    method ListExpired(cutoff: int, limit: nat) returns (rows: seq<Entry>)
      ensures IsExpiredList(live, cutoff, limit, rows)
      ensures |rows| <= limit && forall i, j | 0 <= i < j < |rows| :: rows[i].id != rows[j].id && rows[i].row.stamp <= rows[j].row.stamp
      ensures forall i | 0 <= i < |rows| ::
        rows[i].id in live && rows[i].row == live[rows[i].id] && rows[i].row.settled && rows[i].row.stamp < cutoff
      ensures forall id | id in live && live[id].settled && live[id].stamp < cutoff && id !in Ids(rows) ::
        |rows| == limit && forall i | 0 <= i < |rows| :: rows[i].row.stamp <= live[id].stamp
    {
      rows := [];
      var listed: set<nat> := {};
      var more := true;
      while more && |rows| < limit
        invariant |rows| <= limit && OneCopyEach(rows) && listed == Ids(rows)
        invariant forall i | 0 <= i < |rows| :: rows[i].id in live && rows[i].row == live[rows[i].id] && Expired(rows[i].row, cutoff)
        invariant forall i, j | 0 <= i < j < |rows| :: rows[i].row.stamp <= rows[j].row.stamp
        invariant forall id | id in live && Expired(live[id], cutoff) && id !in listed ::
          more && forall i | 0 <= i < |rows| :: rows[i].row.stamp <= live[id].stamp
        decreases limit - |rows| + if more then 1 else 0
      {
        var id;
        more, id := Oldest(cutoff, listed);
        if more {
          ghost var before := rows;
          rows := rows + [Entry(id, live[id])];
          forall i | 0 <= i < |before| ensures before[i].id in listed {}
          IdsGrow(before, Entry(id, live[id]));
          listed := listed + {id};
        }
      }
    }

    /** One move of the rows that were listed. */
    method ArchiveListed(rows: seq<Entry>, ghost cutoff: int, ghost limit: nat, fault: Fault) returns (failed: bool, count: nat)
      requires IsExpiredList(live, cutoff, limit, rows)
      modifies this
      ensures IsMove(old(State()), State(), cutoff, limit, fault, anonymise, failed, count)
    {
      failed, count := ArchiveRows(rows, fault);
    }

    /** Copies in a transaction, then deletes; a fault stops it where it says. */
    method ArchiveRows(rows: seq<Entry>, fault: Fault) returns (failed: bool, count: nat)
      modifies this
      ensures versions == old(versions)
      ensures rows == [] ==> !failed && State() == old(State())
      ensures rows != [] ==> failed == (fault != Never) && State() == Moved(old(State()), rows, fault, anonymise)
      ensures !failed ==> count == |rows|
      ensures live == if rows != [] && fault == Never then old(live) - Ids(rows) else old(live)
      ensures rows == [] || fault == InTransaction ==> archive == old(archive)
      ensures rows != [] && fault != InTransaction ==>
        && old(archive) <= archive && (forall i | 0 <= i < |rows| :: Archived(archive, rows[i].id))
        && forall k | |old(archive)| <= k < |archive| :: exists i | 0 <= i < |rows| ::
             archive[k] == Entry(rows[i].id, anonymise(rows[i].row)) && !Archived(old(archive), rows[i].id)
    {
      CopiesOf(archive, rows, anonymise);
      failed, count := false, 0;
      if rows == [] { return; }
      var transaction := archive;
      for i := 0 to |rows|
        invariant transaction == Copied(archive, rows[..i], anonymise) && State() == old(State())
      {
        assert rows[..i + 1][..i] == rows[..i];
        if !exists k | 0 <= k < |transaction| :: transaction[k].id == rows[i].id {
          transaction := transaction + [Entry(rows[i].id, anonymise(rows[i].row))];
        }
      }
      assert rows[..|rows|] == rows;
      if fault == InTransaction { return true, 0; }
      archive := transaction;
      if fault == BeforeDelete { return true, 0; }
      live := live - Ids(rows);
      count := |rows|;
    }
  }

  /** The cutoffs of one round, whether listing the rows fails, and where each of its three moves stops. */
  datatype Round = Round(audit: int, metric: int, webhook: int, listingFails: bool,
                         auditFault: Fault, metricFault: Fault, webhookFault: Fault)

  datatype Summary = Summary(audit: nat, metric: nat, webhook: nat)

  /** How a cycle ends: by a failure, after all its rounds, or because round `last` had less to do than it could. */
  datatype Outcome = Failed | Exhausted | Finished(last: nat)

  class ArchiveService {
    const auditLogs: Store
    const metricSnapshots: Store
    const webhookEvents: Store
    const batchSize: nat

    constructor (auditLogs: Store, metricSnapshots: Store, webhookEvents: Store, batchSize: nat)
      ensures this.auditLogs == auditLogs && this.metricSnapshots == metricSnapshots && this.webhookEvents == webhookEvents
      ensures this.batchSize == batchSize
    {
      this.auditLogs, this.metricSnapshots, this.webhookEvents := auditLogs, metricSnapshots, webhookEvents;
      this.batchSize := batchSize;
    }

    ghost predicate Apart() {
      auditLogs != metricSnapshots && metricSnapshots != webhookEvents && auditLogs != webhookEvents
    }

    /** All three tables are listed first, and a listing that fails stops everything. The three moves then run side by side:
        a failing one does not stop the others, but it fails the round. */
    method RunSingleBatch(r: Round) returns (failed: bool, moved: Summary, ghost failures: (bool, bool, bool))
      requires Apart()
      modifies auditLogs, metricSnapshots, webhookEvents
      ensures failed == (r.listingFails || failures.0 || failures.1 || failures.2)
      ensures r.listingFails ==>
        && auditLogs.State() == old(auditLogs.State()) && metricSnapshots.State() == old(metricSnapshots.State())
        && webhookEvents.State() == old(webhookEvents.State())
      ensures !r.listingFails ==> IsMove(old(auditLogs.State()), auditLogs.State(), r.audit, batchSize, r.auditFault,
                     auditLogs.anonymise, failures.0, moved.audit)
      ensures !r.listingFails ==> IsMove(old(metricSnapshots.State()), metricSnapshots.State(), r.metric, batchSize, r.metricFault,
                     metricSnapshots.anonymise, failures.1, moved.metric)
      ensures !r.listingFails ==> IsMove(old(webhookEvents.State()), webhookEvents.State(), r.webhook, batchSize, r.webhookFault,
                     webhookEvents.anonymise, failures.2, moved.webhook)
    {
      if r.listingFails { return true, Summary(0, 0, 0), (false, false, false); }
      var auditRows := auditLogs.ListExpired(r.audit, batchSize);
      var metricRows := metricSnapshots.ListExpired(r.metric, batchSize);
      var webhookRows := webhookEvents.ListExpired(r.webhook, batchSize);
      var f, a := auditLogs.ArchiveListed(auditRows, r.audit, batchSize, r.auditFault);
      var g, m := metricSnapshots.ArchiveListed(metricRows, r.metric, batchSize, r.metricFault);
      var h, w := webhookEvents.ArchiveListed(webhookRows, r.webhook, batchSize, r.webhookFault);
      failed, moved, failures := f || g || h, Summary(a, m, w), (f, g, h);
    }

    /** Rounds until one leaves all three tables below the batch size, or the rounds run out, or one fails.
        Every row stays safe in each case. A cycle that does not fail reports exactly the rows it removed,
        and one that finishes early leaves nothing that had expired at its last cutoffs. */
    method RunCycle(rounds: seq<Round>, latest: Round) returns (outcome: Outcome, total: Summary)
      requires Apart()
      requires forall i | 0 <= i < |rounds| ::
        rounds[i].audit <= latest.audit && rounds[i].metric <= latest.metric && rounds[i].webhook <= latest.webhook
      requires Conserved(auditLogs.State(), auditLogs.anonymise)
      requires Conserved(metricSnapshots.State(), metricSnapshots.anonymise)
      requires Conserved(webhookEvents.State(), webhookEvents.anonymise)
      modifies auditLogs, metricSnapshots, webhookEvents
      ensures exists a: nat ::
        && Progress(old(auditLogs.State()), auditLogs.State(), a, latest.audit, auditLogs.anonymise)
        && (outcome != Failed ==> a == total.audit)
      ensures exists m: nat ::
        && Progress(old(metricSnapshots.State()), metricSnapshots.State(), m, latest.metric, metricSnapshots.anonymise)
        && (outcome != Failed ==> m == total.metric)
      ensures exists w: nat ::
        && Progress(old(webhookEvents.State()), webhookEvents.State(), w, latest.webhook, webhookEvents.anonymise)
        && (outcome != Failed ==> w == total.webhook)
      ensures outcome.Finished? ==>
        && outcome.last < |rounds|
        && NoneOlder(auditLogs.State(), rounds[outcome.last].audit)
        && NoneOlder(metricSnapshots.State(), rounds[outcome.last].metric)
        && NoneOlder(webhookEvents.State(), rounds[outcome.last].webhook)
      ensures Spares(old(auditLogs.State()), auditLogs.State(), latest.audit)
      ensures Spares(old(metricSnapshots.State()), metricSnapshots.State(), latest.metric)
      ensures Spares(old(webhookEvents.State()), webhookEvents.State(), latest.webhook)
    {
      hide Conserved, IsMove, NothingExpired, Progress, NoneOlder, Spares;
      total := Summary(0, 0, 0);
      NoProgress(auditLogs.State(), latest.audit, auditLogs.anonymise);
      NoProgress(metricSnapshots.State(), latest.metric, metricSnapshots.anonymise);
      NoProgress(webhookEvents.State(), latest.webhook, webhookEvents.anonymise);
      var batch := 0;
      while batch < |rounds|
        invariant 0 <= batch <= |rounds|
        invariant Progress(old(auditLogs.State()), auditLogs.State(), total.audit, latest.audit, auditLogs.anonymise)
        invariant Progress(old(metricSnapshots.State()), metricSnapshots.State(), total.metric, latest.metric, metricSnapshots.anonymise)
        invariant Progress(old(webhookEvents.State()), webhookEvents.State(), total.webhook, latest.webhook, webhookEvents.anonymise)
        invariant Spares(old(auditLogs.State()), auditLogs.State(), latest.audit)
        invariant Spares(old(metricSnapshots.State()), metricSnapshots.State(), latest.metric)
        invariant Spares(old(webhookEvents.State()), webhookEvents.State(), latest.webhook)
      {
        var r := rounds[batch];
        ghost var a, m, w := auditLogs.State(), metricSnapshots.State(), webhookEvents.State();
        var failed, moved, failures := RunSingleBatch(r);
        if !r.listingFails {
          MoveProgresses(old(auditLogs.State()), a, auditLogs.State(), total.audit, latest.audit, r.audit, batchSize,
                         r.auditFault, auditLogs.anonymise, failures.0, moved.audit);
          MoveProgresses(old(metricSnapshots.State()), m, metricSnapshots.State(), total.metric, latest.metric, r.metric, batchSize,
                         r.metricFault, metricSnapshots.anonymise, failures.1, moved.metric);
          MoveProgresses(old(webhookEvents.State()), w, webhookEvents.State(), total.webhook, latest.webhook, r.webhook, batchSize,
                         r.webhookFault, webhookEvents.anonymise, failures.2, moved.webhook);
        }
        if failed { return Failed, total; }
        total := Summary(total.audit + moved.audit, total.metric + moved.metric, total.webhook + moved.webhook);
        if moved.audit < batchSize && moved.metric < batchSize && moved.webhook < batchSize {
          return Finished(batch), total;
        }
        batch := batch + 1;
      }
      outcome := Exhausted;
    }
  }

  lemma NoProgress(t: Table, latest: int, anonymise: Row -> Row)
    requires Conserved(t, anonymise)
    ensures Progress(t, t, 0, latest, anonymise) && Spares(t, t, latest)
  {
  }
}
