/** The audit logger's flushes, statement by statement. Each statement goes through the connection pool and may reach any
    of its sessions; only those that reach the session of the BEGIN belong to its transaction. */
module AuditFlush {
  import opened JsonRedaction
  import opened AuditQueue

  /** A session in a transaction: its uncommitted rows, and whether a statement failed in it. */
  datatype Session = InTx(rows: seq<Entry>, doomed: bool)

  /** The committed rows, and the sessions that are in a transaction. */
  datatype Db = Db(table: seq<Entry>, open: map<int, Session>)

  datatype Statement = TxBegin | TxInsert(entry: Entry) | TxCommit | TxRollback

  /** After a failure a transaction takes only its end. */
  predicate Refuses(db: Db, session: int, st: Statement) {
    session in db.open && db.open[session].doomed && (st.TxBegin? || st.TxInsert?)
  }

  /** Outside a transaction an insert commits by itself; a second BEGIN changes nothing; ending nothing does nothing. */
  function Execute(db: Db, session: int, st: Statement): Db {
    match st
    case TxBegin => if session in db.open then db else db.(open := db.open[session := InTx([], false)])
    case TxInsert(e) =>
      if session in db.open then db.(open := db.open[session := db.open[session].(rows := db.open[session].rows + [e])])
      else db.(table := db.table + [e])
    case TxCommit =>
      if session !in db.open then db
      else Db(db.table + (if db.open[session].doomed then [] else db.open[session].rows), db.open - {session})
    case TxRollback => db.(open := db.open - {session})
  }

  function Doom(db: Db, session: int): Db {
    if session in db.open then db.(open := db.open[session := db.open[session].(doomed := true)]) else db
  }

  /** After a statement failed in a transaction, nothing of it can be written any more: inserts and a further BEGIN are refused,
      and its COMMIT writes nothing. A BEGIN inside a transaction keeps its rows. Other sessions are not touched. */
  lemma FailedTransactionWritesNothing(db: Db, session: int, e: Entry, other: int)
    requires session in db.open && other != session
    ensures
      var d := Doom(db, session);
      && Refuses(d, session, TxInsert(e)) && Refuses(d, session, TxBegin)
      && !Refuses(d, session, TxCommit) && !Refuses(d, session, TxRollback) && Refuses(d, other, TxInsert(e)) == Refuses(db, other, TxInsert(e))
      && Execute(d, session, TxCommit) == Db(db.table, db.open - {session})
      && Execute(d, session, TxRollback) == Db(db.table, db.open - {session})
      && Execute(db, session, TxBegin) == db && Doom(Db(db.table, db.open - {session}), session) == Db(db.table, db.open - {session})
  {
  }

  // ---------------------------------------------------------------------------------------------
  // A flush by itself.

  /** Where the statements of one flush go, and which of them fails: 0 is the BEGIN, then the inserts, then the COMMIT. */
  datatype Plan = Plan(begin: int, inserts: seq<int>, commit: int, rollback: int, failAt: nat)

  /** After the BEGIN and `k` inserts. */
  function Inserted(db: Db, batch: seq<Entry>, plan: Plan, k: nat): Db
    requires k <= |batch| == |plan.inserts|
  {
    if k == 0 then Execute(db, plan.begin, TxBegin)
    else Execute(Inserted(db, batch, plan, k - 1), plan.inserts[k - 1], TxInsert(batch[k - 1]))
  }

  datatype Outcome = Outcome(db: Db, requeued: bool)

  /** A flush of a batch, no other being in flight. */
  function Flushed(db: Db, batch: seq<Entry>, plan: Plan): Outcome
    requires |batch| == |plan.inserts|
  {
    var n := |batch|;
    if plan.failAt == 0 then Outcome(Execute(Doom(db, plan.begin), plan.rollback, TxRollback), true)
    else if plan.failAt <= n then
      var d := Doom(Inserted(db, batch, plan, plan.failAt - 1), plan.inserts[plan.failAt - 1]);
      Outcome(Execute(d, plan.rollback, TxRollback), true)
    else
      var d := Inserted(db, batch, plan, n);
      if plan.failAt == n + 1 then Outcome(Execute(Doom(d, plan.commit), plan.rollback, TxRollback), true)
      else Outcome(Execute(d, plan.commit, TxCommit), false)
  }

  /** All rows are written in order, or none and the batch is back in the queue; and no transaction is left open. */
  predicate IsWhole(db: Db, batch: seq<Entry>, plan: Plan)
    requires |batch| == |plan.inserts|
  {
    var r := Flushed(db, batch, plan);
    r.db.open == map[] && r.db.table == db.table + if r.requeued then [] else batch
  }

  /** Inserts outside the transaction come before those in it. */
  predicate Staged(inserts: seq<int>, begin: int) {
    forall i, j | 0 <= i < j < |inserts| :: inserts[i] == begin ==> inserts[j] == begin
  }

  /** The sessions are chosen well for how far the flush comes. */
  predicate Fits(plan: Plan) {
    var n := |plan.inserts|;
    if plan.failAt == 0 then true
    else if plan.failAt <= n + 1 then
      plan.rollback == plan.begin && forall k | 0 <= k < n && k < plan.failAt - 1 :: plan.inserts[k] == plan.begin
    else plan.commit == plan.begin && Staged(plan.inserts, plan.begin)
  }

  /** The first `k` rows that went outside the transaction, or into it. */
  function Chosen(batch: seq<Entry>, inserts: seq<int>, begin: int, inside: bool, k: nat): seq<Entry>
    requires k <= |batch| == |inserts|
  {
    if k == 0 then []
    else Chosen(batch, inserts, begin, inside, k - 1) + if (inserts[k - 1] == begin) == inside then [batch[k - 1]] else []
  }

  lemma {:induction false} InsertedRows(db: Db, batch: seq<Entry>, plan: Plan, k: nat)
    requires k <= |batch| == |plan.inserts| && db.open == map[]
    ensures
      var begin := plan.begin;
      Inserted(db, batch, plan, k)
      == Db(db.table + Chosen(batch, plan.inserts, begin, false, k), map[begin := InTx(Chosen(batch, plan.inserts, begin, true, k), false)])
  {
    if k == 0 {
      assert db.table + [] == db.table;
    } else {
      InsertedRows(db, batch, plan, k - 1);
      var begin, e := plan.begin, batch[k - 1];
      var out, within := Chosen(batch, plan.inserts, begin, false, k - 1), Chosen(batch, plan.inserts, begin, true, k - 1);
      assert (db.table + out) + [e] == db.table + (out + [e]);
      assert forall rows :: map[begin := InTx(within, false)][begin := InTx(rows, false)] == map[begin := InTx(rows, false)];
      assert out + [] == out && within + [] == within;
    }
  }

  lemma {:induction false} ChosenNone(batch: seq<Entry>, inserts: seq<int>, begin: int, k: nat)
    requires k <= |batch| == |inserts|
    ensures Chosen(batch, inserts, begin, false, k) == [] <==> forall i | 0 <= i < k :: inserts[i] == begin
  {
    if k > 0 { ChosenNone(batch, inserts, begin, k - 1); }
  }

  lemma {:induction false} ChosenAt(batch: seq<Entry>, inserts: seq<int>, begin: int, inside: bool, k: nat, i: nat)
    requires i < k <= |batch| == |inserts| && (inserts[i] == begin) == inside
    ensures batch[i] in Chosen(batch, inserts, begin, inside, k)
  {
    if i < k - 1 { ChosenAt(batch, inserts, begin, inside, k - 1, i); }
  }

  lemma {:induction false} ChosenWhole(batch: seq<Entry>, inserts: seq<int>, begin: int, k: nat)
    requires k <= |batch| == |inserts| && Staged(inserts, begin)
    ensures Chosen(batch, inserts, begin, false, k) + Chosen(batch, inserts, begin, true, k) == batch[..k]
  {
    if k > 0 {
      ChosenWhole(batch, inserts, begin, k - 1);
      if inserts[k - 1] != begin { ChosenInsideNone(batch, inserts, begin, k - 1); }
    }
  }

  lemma {:induction false} ChosenInsideNone(batch: seq<Entry>, inserts: seq<int>, begin: int, k: nat)
    requires k <= |batch| == |inserts| && forall i | 0 <= i < k :: inserts[i] != begin
    ensures Chosen(batch, inserts, begin, true, k) == []
  {
    if k > 0 { ChosenInsideNone(batch, inserts, begin, k - 1); }
  }

  /** Rows outside the transaction and then those in it are the batch in order exactly when no row was put
      in the transaction before one outside it. */
  lemma StagedIff(batch: seq<Entry>, inserts: seq<int>, begin: int)
    requires |batch| == |inserts| && Increasing(batch)
    ensures
      var n := |batch|;
      Chosen(batch, inserts, begin, false, n) + Chosen(batch, inserts, begin, true, n) == batch <==> Staged(inserts, begin)
  {
    var n := |batch|;
    if Staged(inserts, begin) {
      ChosenWhole(batch, inserts, begin, n);
      assert batch[..n] == batch;
    } else {
      var i, j :| 0 <= i < j < n && inserts[i] == begin && inserts[j] != begin;
      UnstagedDisorders(batch, inserts, begin, i, j);
    }
  }

  lemma UnstagedDisorders(batch: seq<Entry>, inserts: seq<int>, begin: int, i: nat, j: nat)
    requires i < j < |batch| == |inserts| && Increasing(batch) && inserts[i] == begin && inserts[j] != begin
    ensures !Increasing(Chosen(batch, inserts, begin, false, |batch|) + Chosen(batch, inserts, begin, true, |batch|))
  {
    var n := |batch|;
    var out, within := Chosen(batch, inserts, begin, false, n), Chosen(batch, inserts, begin, true, n);
    ChosenAt(batch, inserts, begin, true, n, i);
    ChosenAt(batch, inserts, begin, false, n, j);
    var p :| 0 <= p < |within| && within[p] == batch[i];
    var q :| 0 <= q < |out| && out[q] == batch[j];
    var all := out + within;
    assert all[q] == batch[j] && all[|out| + p] == batch[i];
    assert all[q].number > all[|out| + p].number;
  }

  lemma Same<T>(a: seq<T>, b: seq<T>, c: seq<T>)
    ensures a + b == a + c <==> b == c
  {
    if a + b == a + c {
      assert b == (a + b)[|a|..] && c == (a + c)[|a|..];
    }
  }

  /** A flush is all or nothing, in order, and leaves no transaction behind, if and only if its statements fit:
      what matters is whether they reach the session of the BEGIN. */
  lemma FlushIsWholeIff(db: Db, batch: seq<Entry>, plan: Plan)
    requires db.open == map[] && |batch| == |plan.inserts| && Increasing(batch)
    ensures IsWhole(db, batch, plan) <==> Fits(plan)
  {
    hide Increasing, Staged, Chosen, Inserted;
    var n, begin := |batch|, plan.begin;
    if plan.failAt == 0 {
      assert db.open - {plan.rollback} == map[];
    } else {
      var k := if plan.failAt <= n then plan.failAt - 1 else n;
      InsertedRows(db, batch, plan, k);
      ChosenNone(batch, plan.inserts, begin, k);
      var out := Chosen(batch, plan.inserts, begin, false, k);
      Same(db.table, out, []);
      assert db.table + [] == db.table;
      if plan.failAt <= n + 1 {
        RollbackLeaves(Doom(Inserted(db, batch, plan, k), if plan.failAt <= n then plan.inserts[k] else plan.commit), begin, plan.rollback);
      } else {
        StagedIff(batch, plan.inserts, begin);
        var within := Chosen(batch, plan.inserts, begin, true, n);
        Same(db.table, out + within, batch);
        assert (db.table + out) + within == db.table + (out + within);
        CommitLeaves(Inserted(db, batch, plan, n), begin, plan.commit);
      }
    }
  }

  lemma RollbackLeaves(db: Db, begin: int, session: int)
    requires db.open.Keys == {begin}
    ensures Execute(db, session, TxRollback).open == map[] <==> session == begin
    ensures Execute(db, session, TxRollback).table == db.table
  {
    var r := Execute(db, session, TxRollback);
    if session != begin { assert begin in r.open; } else { assert r.open.Keys == {}; }
  }

  lemma CommitLeaves(db: Db, begin: int, session: int)
    requires db.open.Keys == {begin} && !db.open[begin].doomed
    ensures Execute(db, session, TxCommit).open == map[] <==> session == begin
    ensures session == begin ==> Execute(db, session, TxCommit).table == db.table + db.open[begin].rows
  {
    var r := Execute(db, session, TxCommit);
    if session != begin { assert begin in r.open; } else { assert r.open.Keys == {}; }
  }

  /** A flush served by one session is always whole. */
  lemma OneSessionIsWhole(db: Db, batch: seq<Entry>, plan: Plan)
    requires db.open == map[] && |batch| == |plan.inserts| && Increasing(batch)
    requires plan.commit == plan.rollback == plan.begin && forall k | 0 <= k < |plan.inserts| :: plan.inserts[k] == plan.begin
    ensures IsWhole(db, batch, plan)
  {
    FlushIsWholeIff(db, batch, plan);
  }

  /** A row whose insert reached another session stays written when the flush fails; the batch is queued again,
      and the next flush, however well served, writes that row a second time. */
  lemma FailedFlushWritesTwice(db: Db, batch: seq<Entry>, plan: Plan, k: nat, again: Plan)
    requires db.open == map[] && |batch| == |plan.inserts| == |again.inserts| && Increasing(batch)
    requires k < |batch| && k < plan.failAt - 1 <= |batch| && plan.inserts[k] != plan.begin && plan.rollback == plan.begin
    requires Fits(again) && again.failAt > |batch| + 1
    ensures
      var r := Flushed(db, batch, plan);
      && r.requeued && r.db.open == map[] && db.table <= r.db.table && batch[k] in r.db.table[|db.table|..]
      && var s := Flushed(r.db, batch, again);
         s.db.table == r.db.table + batch && multiset(s.db.table)[batch[k]] >= 2
  {
    hide Increasing, Staged, Chosen;
    var n := |batch|;
    var j := plan.failAt - 1;
    var i := if j < n then j else n;
    InsertedRows(db, batch, plan, i);
    ChosenAt(batch, plan.inserts, plan.begin, false, i, k);
    RollbackLeaves(Doom(Inserted(db, batch, plan, i), if plan.failAt <= n then plan.inserts[i] else plan.commit), plan.begin, plan.rollback);
    var r := Flushed(db, batch, plan);
    assert r.db.table == db.table + Chosen(batch, plan.inserts, plan.begin, false, i);
    FlushIsWholeIff(r.db, batch, again);
    assert batch[k] in multiset(r.db.table) && batch[k] in multiset(batch);
  }
}
