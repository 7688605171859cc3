/** Which changes of a row survive the movers that archive it. */
module ArchiveChanges {
  import opened ArchiveService

  /** The row's current version is live, or a copy of it is archived. */
  ghost predicate Survives(t: Table, id: nat, row: Row, anonymise: Row -> Row) {
    (id in t.live && t.live[id] == row) || Entry(id, anonymise(row)) in t.archive
  }

  ghost predicate NoChange(steps: seq<Step>, id: nat) {
    forall i | 0 <= i < |steps| :: !(steps[i].Change? && steps[i].id == id)
  }

  /** The version survives whatever the movers do and wherever they stop, until the row changes again. */
  ghost predicate AlwaysSurvives(s: System, id: nat, row: Row, anonymise: Row -> Row) {
    forall steps | EnabledRun(s, steps, anonymise) && NoChange(steps, id) ::
      Survives(Run(s, steps, anonymise).table, id, row, anonymise)
  }

  /** Every copy of the row in these entries reads like `form`. */
  predicate AllRead(entries: seq<Entry>, id: nat, form: Row, anonymise: Row -> Row) {
    forall i | 0 <= i < |entries| && entries[i].id == id :: anonymise(entries[i].row) == form
  }

  predicate CopiesRead(archive: seq<Entry>, id: nat, form: Row) {
    forall i | 0 <= i < |archive| && archive[i].id == id :: archive[i].row == form
  }

  predicate ListRead(p: Phase, id: nat, form: Row, anonymise: Row -> Row) {
    p.Listed? ==> AllRead(p.rows, id, form, anonymise)
  }

  /** The archived copy reads like the new row; without one, so do all rows that movers have on their lists. */
  ghost predicate Harmless(s: System, id: nat, row: Row, anonymise: Row -> Row) {
    && CopiesRead(s.table.archive, id, anonymise(row))
    && (Archived(s.table.archive, id) || forall m | m in s.movers :: ListRead(s.movers[m], id, anonymise(row), anonymise))
  }

  // ---------------------------------------------------------------------------------------------
  // A harmless change survives.

  ghost predicate Safe(s: System, id: nat, row: Row, anonymise: Row -> Row) {
    && Inv(s, anonymise) && id in s.table.versions
    && (id in s.table.live ==> s.table.live[id] == row) && Harmless(s, id, row, anonymise)
  }

  lemma {:induction false} CopiedReads(archive: seq<Entry>, rows: seq<Entry>, id: nat, form: Row, anonymise: Row -> Row)
    requires CopiesRead(archive, id, form) && (Archived(archive, id) || AllRead(rows, id, form, anonymise))
    ensures CopiesRead(Copied(archive, rows, anonymise), id, form)
    ensures Archived(archive, id) ==> Archived(Copied(archive, rows, anonymise), id)
  {
    if rows != [] {
      var n := |rows| - 1;
      CopiedReads(archive, rows[..n], id, form, anonymise);
      OneMoreArchived(Copied(archive, rows[..n], anonymise), Entry(rows[n].id, anonymise(rows[n].row)));
    }
  }

  lemma CommitStaysSafe(s: System, m: nat, id: nat, row: Row, anonymise: Row -> Row)
    requires Safe(s, id, row, anonymise) && PhaseOf(s, m).Listed?
    ensures Harmless(Do(s, Commit(m), anonymise), id, row, anonymise)
  {
    hide Copied, Inv, Archived, AllRead;
    assert ListRead(s.movers[m], id, anonymise(row), anonymise) || Archived(s.table.archive, id);
    CopiedReads(s.table.archive, s.movers[m].rows, id, anonymise(row), anonymise);
  }

  lemma StepStaysSafe(s: System, e: Step, id: nat, row: Row, anonymise: Row -> Row)
    requires Safe(s, id, row, anonymise) && Enabled(s, e) && !(e.Change? && e.id == id)
    ensures Safe(Do(s, e, anonymise), id, row, anonymise)
  {
    hide Copied, Inv, Archived, CopiesRead;
    StepKeepsInv(s, e, anonymise);
    if e.Commit? { CommitStaysSafe(s, e.mover, id, row, anonymise); }
  }

  lemma SafeSurvives(s: System, id: nat, row: Row, anonymise: Row -> Row)
    requires Safe(s, id, row, anonymise)
    ensures Survives(s.table, id, row, anonymise)
  {
    if id !in s.table.live {
      var i :| 0 <= i < |s.table.archive| && s.table.archive[i].id == id;
      assert s.table.archive[i] == Entry(id, anonymise(row));
    }
  }

  lemma {:induction false} RunStaysSafe(s: System, steps: seq<Step>, id: nat, row: Row, anonymise: Row -> Row)
    requires Safe(s, id, row, anonymise) && EnabledRun(s, steps, anonymise) && NoChange(steps, id)
    ensures Safe(Run(s, steps, anonymise), id, row, anonymise)
    decreases |steps|
  {
    hide Safe, Enabled, Do;
    if steps != [] {
      StepStaysSafe(s, steps[0], id, row, anonymise);
      RunStaysSafe(Do(s, steps[0], anonymise), steps[1..], id, row, anonymise);
    }
  }

  // ---------------------------------------------------------------------------------------------
  // Any other change is lost by two or three statements.

  lemma RunTwo(s: System, a: Step, b: Step, anonymise: Row -> Row)
    requires Enabled(s, a) && Enabled(Do(s, a, anonymise), b)
    ensures EnabledRun(s, [a, b], anonymise) && Run(s, [a, b], anonymise) == Do(Do(s, a, anonymise), b, anonymise)
  {
    hide Enabled, Do;
    assert [a, b][1..] == [b] && [b][1..] == [];
    var t := Do(s, a, anonymise);
    assert EnabledRun(t, [b], anonymise) && Run(t, [b], anonymise) == Do(t, b, anonymise);
  }

  lemma RunThree(s: System, a: Step, b: Step, c: Step, anonymise: Row -> Row)
    requires Enabled(s, a) && Enabled(Do(s, a, anonymise), b) && Enabled(Do(Do(s, a, anonymise), b, anonymise), c)
    ensures EnabledRun(s, [a, b, c], anonymise)
    ensures Run(s, [a, b, c], anonymise) == Do(Do(Do(s, a, anonymise), b, anonymise), c, anonymise)
  {
    hide Enabled, Do;
    assert [a, b, c][1..] == [b, c];
    RunTwo(Do(s, a, anonymise), b, c, anonymise);
  }

  /** Once the row is deleted, only its one copy speaks for it. */
  lemma OtherCopyIsFinal(t: Table, id: nat, row: Row, anonymise: Row -> Row, e: Entry)
    requires OneCopyEach(t.archive) && e in t.archive && e.id == id && e.row != anonymise(row) && id !in t.live
    ensures !Survives(t, id, row, anonymise)
  {
  }

  /** With a copy of another version archived, the next mover to delete the row deletes its only trace. */
  lemma OldCopyLosesChange(s: System, id: nat, row: Row, anonymise: Row -> Row, e: Entry)
    requires Inv(s, anonymise) && id in s.table.live && s.table.live[id] == row
    requires e in s.table.archive && e.id == id && e.row != anonymise(row)
    ensures !AlwaysSurvives(s, id, row, anonymise)
  {
    hide Survives, Copied, Conserved;
    var list := [Entry(id, row)];
    var a, b, c := List(0, list), Commit(0), Delete(0);
    var t := Do(s, a, anonymise);
    var u := Do(t, b, anonymise);
    var v := Do(u, c, anonymise);
    StepKeepsInv(s, a, anonymise);
    StepKeepsInv(t, b, anonymise);
    StepKeepsInv(u, c, anonymise);
    KeepsCopies(t, 0, anonymise);
    assert list[0].id in Ids(list);
    assert Conserved(v.table, anonymise);
    RunThree(s, a, b, c, anonymise);
    DistinctIn(v.table, anonymise);
    OtherCopyIsFinal(v.table, id, row, anonymise, e);
    assert NoChange([a, b, c], id);
  }

  lemma DistinctIn(t: Table, anonymise: Row -> Row)
    requires Conserved(t, anonymise)
    ensures OneCopyEach(t.archive)
  {
  }

  lemma KeepsCopies(s: System, m: nat, anonymise: Row -> Row)
    requires Inv(s, anonymise) && PhaseOf(s, m).Listed?
    ensures s.table.archive <= Do(s, Commit(m), anonymise).table.archive
  {
    hide Copied;
    assert MoverInv(s.table, s.movers[m]);
    CopiedKeeps(s.table.archive, s.movers[m].rows, s.table.versions, anonymise);
  }

  /** The insert of a row that has no copy yet. */
  lemma {:induction false} FirstCopy(archive: seq<Entry>, rows: seq<Entry>, k: nat, anonymise: Row -> Row)
    requires k < |rows| && OneCopyEach(rows) && !Archived(archive, rows[k].id)
    ensures Entry(rows[k].id, anonymise(rows[k].row)) in Copied(archive, rows, anonymise)
  {
    var n := |rows| - 1;
    if k < n {
      FirstCopy(archive, rows[..n], k, anonymise);
    } else {
      NotCopied(archive, rows[..n], rows[k].id, anonymise);
    }
  }

  lemma {:induction false} NotCopied(archive: seq<Entry>, rows: seq<Entry>, id: nat, anonymise: Row -> Row)
    requires !Archived(archive, id) && forall i | 0 <= i < |rows| :: rows[i].id != id
    ensures !Archived(Copied(archive, rows, anonymise), id)
  {
    if rows != [] {
      var n := |rows| - 1;
      NotCopied(archive, rows[..n], id, anonymise);
      OneMoreArchived(Copied(archive, rows[..n], anonymise), Entry(rows[n].id, anonymise(rows[n].row)));
    }
  }

  /** A mover that listed another version copies that one and then deletes the row. */
  lemma OldListLosesChange(s: System, id: nat, row: Row, anonymise: Row -> Row, m: nat, k: nat)
    requires Inv(s, anonymise) && id in s.table.live && !Archived(s.table.archive, id)
    requires PhaseOf(s, m).Listed? && k < |s.movers[m].rows|
    requires s.movers[m].rows[k].id == id && anonymise(s.movers[m].rows[k].row) != anonymise(row)
    ensures !AlwaysSurvives(s, id, row, anonymise)
  {
    hide Survives, Copied, Conserved, Archived;
    var rows := s.movers[m].rows;
    var a, b := Commit(m), Delete(m);
    var t := Do(s, a, anonymise);
    var u := Do(t, b, anonymise);
    StepKeepsInv(s, a, anonymise);
    StepKeepsInv(t, b, anonymise);
    assert MoverInv(s.table, s.movers[m]);
    FirstCopy(s.table.archive, rows, k, anonymise);
    assert rows[k].id in Ids(rows);
    RunTwo(s, a, b, anonymise);
    DistinctIn(u.table, anonymise);
    OtherCopyIsFinal(u.table, id, row, anonymise, Entry(id, anonymise(rows[k].row)));
    assert NoChange([a, b], id);
  }

  lemma ChangeKeepsHarm(s: System, id: nat, row: Row, anonymise: Row -> Row)
    requires Enabled(s, Change(id, row))
    ensures Harmless(Do(s, Change(id, row), anonymise), id, row, anonymise) == Harmless(s, id, row, anonymise)
  {
  }

  /** A change survives every continuation, until the row changes again, if and only if the archived copy of the row reads
      like the new version or, while there is none, every mover that has the row on its list listed one that does. */
  lemma ChangeSurvivesIff(s: System, id: nat, row: Row, anonymise: Row -> Row)
    requires Inv(s, anonymise) && Enabled(s, Change(id, row))
    ensures AlwaysSurvives(Do(s, Change(id, row), anonymise), id, row, anonymise) <==> Harmless(s, id, row, anonymise)
  {
    hide Inv, Survives, Copied, Archived, CopiesRead, ListRead;
    var n := Do(s, Change(id, row), anonymise);
    StepKeepsInv(s, Change(id, row), anonymise);
    ChangeKeepsHarm(s, id, row, anonymise);
    if Harmless(s, id, row, anonymise) {
      forall steps | EnabledRun(n, steps, anonymise) && NoChange(steps, id)
        ensures Survives(Run(n, steps, anonymise).table, id, row, anonymise)
      {
        RunStaysSafe(n, steps, id, row, anonymise);
        SafeSurvives(Run(n, steps, anonymise), id, row, anonymise);
      }
    } else {
      HarmfulIsLost(n, id, row, anonymise);
    }
  }

  lemma HarmfulIsLost(n: System, id: nat, row: Row, anonymise: Row -> Row)
    requires Inv(n, anonymise) && id in n.table.live && n.table.live[id] == row && !Harmless(n, id, row, anonymise)
    ensures !AlwaysSurvives(n, id, row, anonymise)
  {
    hide Inv, AlwaysSurvives, Archived;
    var form := anonymise(row);
    if !CopiesRead(n.table.archive, id, form) {
      var i :| 0 <= i < |n.table.archive| && n.table.archive[i].id == id && n.table.archive[i].row != form;
      OldCopyLosesChange(n, id, row, anonymise, n.table.archive[i]);
    } else {
      var m :| m in n.movers && !ListRead(n.movers[m], id, form, anonymise);
      var k :| 0 <= k < |n.movers[m].rows| && n.movers[m].rows[k].id == id && anonymise(n.movers[m].rows[k].row) != form;
      OldListLosesChange(n, id, row, anonymise, m, k);
    }
  }

  /** No mover that has not committed yet has the row on its list. */
  ghost predicate Unlisted(s: System, id: nat) {
    forall m | m in s.movers && s.movers[m].Listed? :: id !in Ids(s.movers[m].rows)
  }

  /** So a version that reads unlike all earlier ones survives exactly when no copy of the row is archived and no mover
      is between listing and copying it. */
  lemma NewVersionSurvivesIff(s: System, id: nat, row: Row, anonymise: Row -> Row)
    requires Inv(s, anonymise) && Enabled(s, Change(id, row))
    requires forall k | 0 <= k < |s.table.versions[id]| :: anonymise(s.table.versions[id][k]) != anonymise(row)
    ensures AlwaysSurvives(Do(s, Change(id, row), anonymise), id, row, anonymise)
       <==> !Archived(s.table.archive, id) && Unlisted(s, id)
  {
    hide AlwaysSurvives, Do;
    ChangeSurvivesIff(s, id, row, anonymise);
    NoCopyReads(s.table, id, anonymise(row), anonymise);
    forall m | m in s.movers ensures ListRead(s.movers[m], id, anonymise(row), anonymise)
                                <==> !(s.movers[m].Listed? && id in Ids(s.movers[m].rows))
    {
      if s.movers[m].Listed? {
        assert MoverInv(s.table, s.movers[m]);
        NoListReads(s.table, s.movers[m].rows, id, anonymise(row), anonymise);
      }
    }
  }

  lemma NoCopyReads(t: Table, id: nat, form: Row, anonymise: Row -> Row)
    requires AllCopies(t.archive, t.versions, anonymise)
    requires id in t.versions && forall k | 0 <= k < |t.versions[id]| :: anonymise(t.versions[id][k]) != form
    ensures CopiesRead(t.archive, id, form) <==> !Archived(t.archive, id)
  {
    if i :| 0 <= i < |t.archive| && t.archive[i].id == id {
      assert IsCopy(t.archive[i], t.versions, anonymise);
    }
  }

  lemma NoListReads(t: Table, rows: seq<Entry>, id: nat, form: Row, anonymise: Row -> Row)
    requires forall i | 0 <= i < |rows| :: Known(rows[i], t.versions)
    requires id in t.versions && forall k | 0 <= k < |t.versions[id]| :: anonymise(t.versions[id][k]) != form
    ensures AllRead(rows, id, form, anonymise) <==> id !in Ids(rows)
  {
    if id in Ids(rows) {
      var i :| 0 <= i < |rows| && rows[i].id == id;
      assert Known(rows[i], t.versions);
    }
  }
}
