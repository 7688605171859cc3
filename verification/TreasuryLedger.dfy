/** Streams, treasury balances and the stream audit trail, changed only by
    all-or-nothing transactions. Amounts are whole stroops. */
module TreasuryLedger {

  datatype Status = Active | Paused | Completed | Cancelled

  datatype Stream = Stream(employer: string, worker: string, total: int, withdrawn: int, status: Status, deleted: bool)

  datatype AuditRow =
    | Created(streamId: int, changedBy: string, newStatus: Status, total: int)
    | Refunded(streamId: int, changedBy: string, oldStatus: Status, refund: int)

  datatype Db = Db(streams: map<int, Stream>, balances: map<string, int>, audit: seq<AuditRow>)

  datatype Upsert = Upsert(streamId: int, employer: string, worker: string, total: int, withdrawn: int,
                           status: Status, changedBy: string)

  const EMPTY := Db(map[], map[], [])

  function Balance(balances: map<string, int>, employer: string): int {
    if employer in balances then balances[employer] else 0
  }

  /** The partial unique index: one active stream per employer and worker. */
  ghost predicate OneActivePerPair(streams: map<int, Stream>) {
    forall i, j | i in streams && j in streams && i != j && streams[i].status == streams[j].status == Active ::
      streams[i].employer != streams[j].employer || streams[i].worker != streams[j].worker
  }

  /** The row the upsert writes: a new row, or the old one with the three updatable columns replaced. */
  function UpsertedRow(streams: map<int, Stream>, p: Upsert): Stream {
    if p.streamId in streams then streams[p.streamId].(withdrawn := p.withdrawn, status := p.status)
    else Stream(p.employer, p.worker, p.total, p.withdrawn, p.status, false)
  }

  /** No other active stream of the same pair stands in the way of the written row. */
  predicate PairIsFree(streams: map<int, Stream>, id: int, row: Stream) {
    row.status == Active ==>
      forall i | i in streams && i != id && streams[i].status == Active ::
        streams[i].employer != row.employer || streams[i].worker != row.worker
  }

  predicate UpsertAllowed(db: Db, p: Upsert) {
    p.total > 0 && PairIsFree(db.streams, p.streamId, UpsertedRow(db.streams, p))
  }

  function AfterUpsert(db: Db, p: Upsert): Db {
    var streams := db.streams[p.streamId := UpsertedRow(db.streams, p)];
    if p.streamId in db.streams then db.(streams := streams) else
    Db(streams, db.balances[p.employer := Balance(db.balances, p.employer) - p.total],
       db.audit + [Created(p.streamId, p.changedBy, p.status, p.total)])
  }

  predicate CancelApplies(db: Db, id: int) {
    id in db.streams && !db.streams[id].deleted
  }

  function RefundDue(s: Stream): int {
    if s.total - s.withdrawn > 0 then s.total - s.withdrawn else 0
  }

  function AfterCancel(db: Db, id: int, actor: string): Db
    requires CancelApplies(db, id)
  {
    var s := db.streams[id];
    Db(db.streams[id := s.(deleted := true, status := Cancelled)],
       db.balances[s.employer := Balance(db.balances, s.employer) + RefundDue(s)],
       db.audit + [Refunded(id, actor, s.status, RefundDue(s))])
  }

  /** Cancelling moves `refund` from the stream's charge back to its employer, and records it. */
  ghost predicate IsCancelled(before: Db, after: Db, id: int, actor: string, refund: int) {
    && id in before.streams && !before.streams[id].deleted
    && var s := before.streams[id];
       && after.streams == before.streams[id := Stream(s.employer, s.worker, s.total, s.withdrawn, Cancelled, true)]
       && after.balances
          == before.balances[s.employer := refund + if s.employer in before.balances then before.balances[s.employer] else 0]
       && after.audit == before.audit + [Refunded(id, actor, s.status, refund)]
  }

  /** The refund is what of the total was not withdrawn, and nothing when more than the total was. */
  predicate IsRefund(total: int, withdrawn: int, refund: int) {
    refund >= 0 && (withdrawn <= total ==> withdrawn + refund == total) && (withdrawn > total ==> refund == 0)
  }

  lemma CancelRefunds(db: Db, id: int, actor: string)
    requires CancelApplies(db, id)
    ensures exists refund :: IsRefund(db.streams[id].total, db.streams[id].withdrawn, refund)
                          && IsCancelled(db, AfterCancel(db, id, actor), id, actor, refund)
  {
    assert IsRefund(db.streams[id].total, db.streams[id].withdrawn, RefundDue(db.streams[id]));
  }

  /** A new row is the one described and its total is charged to its employer; a known row only changes what is withdrawn and
      its status. */
  ghost predicate IsUpserted(before: Db, after: Db, p: Upsert) {
    if p.streamId in before.streams then
      var s := before.streams[p.streamId];
      after == before.(streams := before.streams[p.streamId := Stream(s.employer, s.worker, s.total, p.withdrawn, p.status, s.deleted)])
    else
      && after.streams == before.streams[p.streamId := Stream(p.employer, p.worker, p.total, p.withdrawn, p.status, false)]
      && after.balances
         == before.balances[p.employer := (if p.employer in before.balances then before.balances[p.employer] else 0) - p.total]
      && after.audit == before.audit + [Created(p.streamId, p.changedBy, p.status, p.total)]
  }

  /** The written row would be the second active one of its employer and worker. */
  ghost predicate SecondActive(streams: map<int, Stream>, p: Upsert) {
    p.status == Active && exists i | i in streams && i != p.streamId && streams[i].status == Active ::
      var row := if p.streamId in streams then streams[p.streamId] else Stream(p.employer, p.worker, p.total, p.withdrawn, p.status, false);
      streams[i].employer == row.employer && streams[i].worker == row.worker
  }

  lemma UpsertDoes(db: Db, p: Upsert)
    ensures UpsertAllowed(db, p) <==> p.total > 0 && !SecondActive(db.streams, p)
    ensures IsUpserted(db, AfterUpsert(db, p), p)
  {
  }

  /** How many statements of a transaction succeed before a fault; a larger number than there are means none. */
  type FaultPoint = nat

  datatype Op =
    | DoUpsert(p: Upsert, fault: FaultPoint)
    | DoCancel(id: int, actor: string, fault: FaultPoint)
    | DoDeposit(employer: string, amount: int)

  /** Statements of the two transactions, the commit included. */
  function UpsertStatements(db: Db, p: Upsert): nat { if p.streamId in db.streams then 2 else 5 }
  const CANCEL_STATEMENTS := 5

  function Step(db: Db, op: Op): Db {
    match op
    case DoUpsert(p, fault) =>
      if UpsertAllowed(db, p) && fault >= UpsertStatements(db, p) then AfterUpsert(db, p) else db
    case DoCancel(id, actor, fault) =>
      if CancelApplies(db, id) && fault >= CANCEL_STATEMENTS then AfterCancel(db, id, actor) else db
    case DoDeposit(employer, amount) =>
      db.(balances := db.balances[employer := Balance(db.balances, employer) + amount])
  }

  function Run(ops: seq<Op>): Db {
    if ops == [] then EMPTY else Step(Run(ops[..|ops| - 1]), ops[|ops| - 1])
  }

  lemma UpsertGuard(db: Db, p: Upsert)
    ensures UpsertAllowed(db, p) <==> p.total > 0 && PairIsFree(db.streams, p.streamId, UpsertedRow(db.streams, p))
  {
  }

  /** An upsert that stands and is repeated, because its caller was told of a failure, charges nothing a second time. */
  lemma RepeatedUpsertChangesNothing(db: Db, p: Upsert, fault: FaultPoint, again: FaultPoint)
    requires UpsertAllowed(db, p)
    ensures var once := AfterUpsert(db, p); UpsertAllowed(once, p) && Step(once, DoUpsert(p, again)) == once
  {
    var once := AfterUpsert(db, p);
    assert once.streams[p.streamId := once.streams[p.streamId]] == once.streams;
  }

  /** The three tables, changed statement by statement inside a transaction. */
  class Database {
    var streams: map<int, Stream>
    var balances: map<string, int>
    var audit: seq<AuditRow>

    function State(): Db
      reads this
    {
      Db(streams, balances, audit)
    }

    constructor ()
      ensures State() == EMPTY
    {
      streams, balances, audit := map[], map[], [];
    }

    method Rollback(snapshot: Db)
      modifies this
      ensures State() == snapshot
    {
      streams, balances, audit := snapshot.streams, snapshot.balances, snapshot.audit;
    }

    /** INSERT .. ON CONFLICT (employer) DO NOTHING. */
    method EnsureBalanceRow(employer: string)
      modifies `balances
      ensures balances == old(balances)[employer := Balance(old(balances), employer)]
    {
      if employer !in balances {
        balances := balances[employer := 0];
      }
    }

    method AddToBalance(employer: string, delta: int)
      requires employer in balances
      modifies `balances
      ensures balances == old(balances)[employer := old(balances)[employer] + delta]
    {
      balances := balances[employer := balances[employer] + delta];
    }

    /** Runs the transaction; `fault` statements succeed before the database fails. The answer to an executed COMMIT may be
        lost: then the caller is told of a failure although the transaction stands, and repeating it changes nothing. */
    method UpsertStream(p: Upsert, fault: FaultPoint, answered: bool) returns (ok: bool)
      modifies this
      ensures State() == Step(old(State()), DoUpsert(p, fault))
      ensures var statements := if p.streamId in old(streams) then 2 else 5;
        var stands := p.total > 0 && !SecondActive(old(streams), p) && fault >= statements;
        && (ok <==> answered && stands)
        && if stands then IsUpserted(old(State()), State(), p) else State() == old(State())
      ensures State() == old(State()) || Step(State(), DoUpsert(p, fault)) == State()
    {
      hide SecondActive, IsUpserted, PairIsFree, UpsertAllowed;
      UpsertDoes(State(), p);
      UpsertGuard(State(), p);
      if UpsertAllowed(State(), p) { RepeatedUpsertChangesNothing(State(), p, fault, fault); }
      var snapshot := State();
      var inserted := p.streamId !in streams;
      var row := UpsertedRow(streams, p);
      if p.total <= 0 || !PairIsFree(streams, p.streamId, row) || fault < 1 {
        Rollback(snapshot);
        return false;
      }
      streams := streams[p.streamId := row];
      if inserted {
        if fault < 2 { Rollback(snapshot); return false; }
        EnsureBalanceRow(p.employer);
        if fault < 3 { Rollback(snapshot); return false; }
        AddToBalance(p.employer, -p.total);
        if fault < 4 { Rollback(snapshot); return false; }
        audit := audit + [Created(p.streamId, p.changedBy, p.status, p.total)];
      }
      if fault < UpsertStatements(snapshot, p) { Rollback(snapshot); return false; }
      return answered;
    }

    /** Returns whether the stream existed and was not deleted, unless it fails: before the COMMIT, which leaves everything
        as it was, or by losing the answer to it, after which the cancellation stands and a repetition finds nothing to do. */
    method SoftDeleteStream(id: int, actor: string, fault: FaultPoint, answered: bool) returns (cancelled: bool, failed: bool)
      modifies this
      ensures State() == Step(old(State()), DoCancel(id, actor, fault))
      ensures failed <==> !answered || fault < if CancelApplies(old(State()), id) then CANCEL_STATEMENTS else 2
      ensures failed && answered ==> State() == old(State())
      ensures !failed ==> (cancelled <==> CancelApplies(old(State()), id))
      ensures State() == old(State()) || !CancelApplies(State(), id)
      ensures id in old(streams) && !old(streams)[id].deleted && fault >= 5 ==>
        var s := old(streams)[id];
        exists refund ::
          && refund >= 0 && (s.withdrawn <= s.total ==> s.withdrawn + refund == s.total) && (s.withdrawn > s.total ==> refund == 0)
          && IsCancelled(old(State()), State(), id, actor, refund)
      ensures !(id in old(streams) && !old(streams)[id].deleted && fault >= 5) ==> State() == old(State())
    {
      if CancelApplies(State(), id) { CancelRefunds(State(), id, actor); }
      var snapshot := State();
      if fault < 1 { Rollback(snapshot); return false, true; }
      if !(id in streams && !streams[id].deleted) { return false, fault < 2 || !answered; }
      var oldStatus, employer, refund := streams[id].status, streams[id].employer, RefundDue(streams[id]);
      streams := streams[id := streams[id].(deleted := true, status := Cancelled)];
      if fault < 2 { Rollback(snapshot); return false, true; }
      EnsureBalanceRow(employer);
      if fault < 3 { Rollback(snapshot); return false, true; }
      AddToBalance(employer, refund);
      if fault < 4 { Rollback(snapshot); return false, true; }
      audit := audit + [Refunded(id, actor, oldStatus, refund)];
      if fault < 5 { Rollback(snapshot); return false, true; }
      return answered, !answered;
    }

    /** INSERT .. ON CONFLICT (employer) DO UPDATE SET balance. */
    method UpdateTreasuryBalance(employer: string, balance: int)
      modifies `balances
      ensures balances == old(balances)[employer := balance]
    {
      balances := balances[employer := balance];
    }

    /** The deposit route: reads the balance, then sets it. */
    method Deposit(employer: string, amount: int)
      modifies this
      ensures streams == old(streams) && audit == old(audit)
      ensures balances == old(balances)[employer := amount + if employer in old(balances) then old(balances)[employer] else 0]
      ensures State() == Step(old(State()), DoDeposit(employer, amount))
    {
      var existing := Balance(balances, employer);
      UpdateTreasuryBalance(employer, existing + amount);
    }
  }

  // ---------------------------------------------------------------------------------------------
  // Totals: what was deposited, what the stream table says was charged, what the trail refunds.

  function Deposited(ops: seq<Op>, employer: string): int {
    if ops == [] then 0 else
    var op := ops[|ops| - 1];
    Deposited(ops[..|ops| - 1], employer)
      + if op.DoDeposit? && op.employer == employer then op.amount else 0
  }

  ghost function ChargeOf(s: Stream, employer: string): int {
    if s.employer == employer then s.total else 0
  }

  /** Sum over the stream table of the totals of one employer's streams. */
  ghost function Charged(streams: map<int, Stream>, employer: string): int
    decreases |streams|
  {
    if forall id :: id !in streams then 0 else
    var id :| id in streams;
    ChargeOf(streams[id], employer) + Charged(streams - {id}, employer)
  }

  ghost predicate OwnedBy(streams: map<int, Stream>, id: int, employer: string) {
    id in streams && streams[id].employer == employer
  }

  /** Sum of the refunds the trail records for one employer's streams. */
  ghost function RefundsInTrail(audit: seq<AuditRow>, streams: map<int, Stream>, employer: string): int {
    if audit == [] then 0 else
    var row := audit[|audit| - 1];
    RefundsInTrail(audit[..|audit| - 1], streams, employer)
      + if row.Refunded? && OwnedBy(streams, row.streamId, employer) then row.refund else 0
  }

  /** Sum of the charges the trail records for one employer's streams. */
  ghost function ChargesInTrail(audit: seq<AuditRow>, streams: map<int, Stream>, employer: string): int {
    if audit == [] then 0 else
    var row := audit[|audit| - 1];
    ChargesInTrail(audit[..|audit| - 1], streams, employer)
      + if row.Created? && OwnedBy(streams, row.streamId, employer) then row.total else 0
  }

  lemma {:induction false} ChargedRemove(streams: map<int, Stream>, id: int, employer: string)
    requires id in streams
    ensures Charged(streams, employer) == ChargeOf(streams[id], employer) + Charged(streams - {id}, employer)
    decreases |streams|
  {
    var k :| k in streams && Charged(streams, employer) == ChargeOf(streams[k], employer) + Charged(streams - {k}, employer);
    if k != id {
      ChargedRemove(streams - {k}, id, employer);
      ChargedRemove(streams - {id}, k, employer);
      assert streams - {k} - {id} == streams - {id} - {k};
    }
  }

  lemma ChargedAfterWrite(streams: map<int, Stream>, id: int, row: Stream, employer: string)
    ensures Charged(streams[id := row], employer) == ChargeOf(row, employer)
      + Charged(streams, employer) - if id in streams then ChargeOf(streams[id], employer) else 0
  {
    var after := streams[id := row];
    ChargedRemove(after, id, employer);
    assert after - {id} == streams - {id};
    if id in streams { ChargedRemove(streams, id, employer); } else { assert streams - {id} == streams; }
  }

  /** Who owns a stream never changes. */
  ghost predicate SameOwners(before: map<int, Stream>, after: map<int, Stream>) {
    forall id | id in before :: id in after && after[id].employer == before[id].employer && after[id].total == before[id].total
  }

  ghost predicate TrailNamesStreams(db: Db) {
    forall i | 0 <= i < |db.audit| :: db.audit[i].streamId in db.streams
  }

  lemma {:induction false} TrailSumsKept(audit: seq<AuditRow>, before: map<int, Stream>, after: map<int, Stream>, employer: string)
    requires SameOwners(before, after) && forall i | 0 <= i < |audit| :: audit[i].streamId in before
    ensures RefundsInTrail(audit, before, employer) == RefundsInTrail(audit, after, employer)
    ensures ChargesInTrail(audit, before, employer) == ChargesInTrail(audit, after, employer)
  {
    if audit != [] {
      TrailSumsKept(audit[..|audit| - 1], before, after, employer);
    }
  }

  lemma TrailSumsAppend(audit: seq<AuditRow>, row: AuditRow, streams: map<int, Stream>, employer: string)
    ensures RefundsInTrail(audit + [row], streams, employer) == RefundsInTrail(audit, streams, employer)
      + if row.Refunded? && OwnedBy(streams, row.streamId, employer) then row.refund else 0
    ensures ChargesInTrail(audit + [row], streams, employer) == ChargesInTrail(audit, streams, employer)
      + if row.Created? && OwnedBy(streams, row.streamId, employer) then row.total else 0
  {
    assert (audit + [row])[..|audit|] == audit;
  }

  // ---------------------------------------------------------------------------------------------
  // The trail of one stream.

  function TrailOf(audit: seq<AuditRow>, id: int): seq<AuditRow> {
    if audit == [] then [] else
    var row := audit[|audit| - 1];
    TrailOf(audit[..|audit| - 1], id) + if row.streamId == id then [row] else []
  }

  /** A stream's trail is one charge of its total, followed by one refund exactly when it was deleted. */
  ghost predicate TrailShape(trail: seq<AuditRow>, streams: map<int, Stream>, id: int) {
    if id !in streams then trail == [] else
      && |trail| == (if streams[id].deleted then 2 else 1)
      && trail[0].Created? && trail[0].streamId == id && trail[0].total == streams[id].total > 0
      && (streams[id].deleted ==> trail[1].Refunded? && trail[1].streamId == id && trail[1].refund >= 0)
  }

  ghost predicate TrailsMatch(db: Db) {
    forall id: int :: TrailShape(TrailOf(db.audit, id), db.streams, id)
  }

  lemma {:induction false} TrailOfOther(audit: seq<AuditRow>, id: int)
    requires forall i | 0 <= i < |audit| :: audit[i].streamId != id
    ensures TrailOf(audit, id) == []
  {
    if audit != [] { TrailOfOther(audit[..|audit| - 1], id); }
  }

  lemma TrailAppend(audit: seq<AuditRow>, row: AuditRow, id: int)
    ensures TrailOf(audit + [row], id) == TrailOf(audit, id) + if row.streamId == id then [row] else []
  {
    assert (audit + [row])[..|audit|] == audit;
  }

  // ---------------------------------------------------------------------------------------------
  // Main results.

  ghost predicate Balanced(db: Db, ops: seq<Op>, e: string) {
    && Balance(db.balances, e) == Deposited(ops, e) - Charged(db.streams, e) + RefundsInTrail(db.audit, db.streams, e)
    && ChargesInTrail(db.audit, db.streams, e) == Charged(db.streams, e)
  }

  ghost predicate Reconciled(db: Db, ops: seq<Op>) {
    && OneActivePerPair(db.streams) && TrailNamesStreams(db) && TrailsMatch(db)
    && forall e: string :: Balanced(db, ops, e)
  }

  lemma WriteBalances(db: Db, ops: seq<Op>, op: Op, id: int, row: Stream, delta: int, rows: seq<AuditRow>, e: string)
    requires Balanced(db, ops, e) && TrailNamesStreams(db) && !op.DoDeposit?
    requires id in db.streams ==> row.employer == db.streams[id].employer && row.total == db.streams[id].total
    requires |rows| <= 1
    requires id !in db.streams ==> |rows| == 1 && rows[0].Created? && rows[0].total == row.total && delta == -row.total
    requires id in db.streams && rows != [] ==> rows[0].Refunded? && rows[0].refund == delta
    requires rows == [] ==> delta == 0
    requires rows != [] ==> rows[0].streamId == id
    ensures
      var balances := if rows == [] then db.balances else db.balances[row.employer := Balance(db.balances, row.employer) + delta];
      Balanced(Db(db.streams[id := row], balances, db.audit + rows), ops + [op], e)
  {
    hide RefundsInTrail, ChargesInTrail, Charged;
    assert (ops + [op])[..|ops|] == ops;
    var streams := db.streams[id := row];
    ChargedAfterWrite(db.streams, id, row, e);
    TrailSumsKept(db.audit, db.streams, streams, e);
    if rows == [] {
      assert db.audit + rows == db.audit;
    } else {
      assert rows == [rows[0]];
      TrailSumsAppend(db.audit, rows[0], streams, e);
    }
  }

  lemma UpsertKeepsTrails(db: Db, op: Op)
    requires TrailsMatch(db) && TrailNamesStreams(db) && OneActivePerPair(db.streams) && op.DoUpsert?
    ensures TrailsMatch(Step(db, op)) && TrailNamesStreams(Step(db, op)) && OneActivePerPair(Step(db, op).streams)
  {
    hide TrailOf;
    var next, p := Step(db, op), op.p;
    if next != db {
      var id := p.streamId;
      var rows := if id in db.streams then [] else [Created(id, p.changedBy, p.status, p.total)];
      assert next.audit == db.audit + rows;
      forall k: int ensures TrailShape(TrailOf(next.audit, k), next.streams, k) {
        assert TrailShape(TrailOf(db.audit, k), db.streams, k);
        if id !in db.streams { TrailAppend(db.audit, rows[0], k); }
      }
    }
  }

  lemma UpsertReconciles(db: Db, ops: seq<Op>, op: Op)
    requires Reconciled(db, ops) && op.DoUpsert?
    ensures Reconciled(Step(db, op), ops + [op])
  {
    hide Balanced, TrailsMatch, TrailNamesStreams, OneActivePerPair;
    UpsertKeepsTrails(db, op);
    forall e: string ensures Balanced(Step(db, op), ops + [op], e) { UpsertBalances(db, ops, op, e); }
  }

  lemma UpsertBalances(db: Db, ops: seq<Op>, op: Op, e: string)
    requires Balanced(db, ops, e) && TrailNamesStreams(db) && op.DoUpsert?
    ensures Balanced(Step(db, op), ops + [op], e)
  {
    hide Balanced, TrailNamesStreams;
    var next, p := Step(db, op), op.p;
    if next == db {
      NothingMoves(db, ops, op, e);
    } else {
      var id, row := p.streamId, UpsertedRow(db.streams, p);
      var rows := if id in db.streams then [] else [Created(id, p.changedBy, p.status, p.total)];
      assert next.audit == db.audit + rows;
      WriteBalances(db, ops, op, id, row, if id in db.streams then 0 else -p.total, rows, e);
    }
  }

  lemma NothingMoves(db: Db, ops: seq<Op>, op: Op, e: string)
    requires Balanced(db, ops, e) && !op.DoDeposit?
    ensures Balanced(db, ops + [op], e)
  {
    assert (ops + [op])[..|ops|] == ops;
  }

  lemma CancelReconciles(db: Db, ops: seq<Op>, op: Op)
    requires Reconciled(db, ops) && op.DoCancel?
    ensures Reconciled(Step(db, op), ops + [op])
  {
    hide Balanced;
    var next, id := Step(db, op), op.id;
    if next == db {
      forall e: string ensures Balanced(db, ops + [op], e) { NothingMoves(db, ops, op, e); }
    } else {
      var row := next.streams[id];
      var rows := [next.audit[|db.audit|]];
      assert next.audit == db.audit + rows;
      forall e: string ensures Balanced(next, ops + [op], e) {
        WriteBalances(db, ops, op, id, row, RefundDue(db.streams[id]), rows, e);
      }
      forall k: int ensures TrailShape(TrailOf(next.audit, k), next.streams, k) {
        assert TrailShape(TrailOf(db.audit, k), db.streams, k);
        TrailAppend(db.audit, rows[0], k);
      }
    }
  }

  /** Money is conserved over every serial run, whatever aborts: each balance is deposits less charges plus refunds,
      and the trail, with each stream's owner, recomputes the charges. */
  lemma {:induction false} EveryRunReconciles(ops: seq<Op>)
    ensures Reconciled(Run(ops), ops)
  {
    if ops == [] {
      assert TrailsMatch(EMPTY);
      assert forall e: string :: Balanced(EMPTY, [], e);
    } else {
      var before, op := ops[..|ops| - 1], ops[|ops| - 1];
      EveryRunReconciles(before);
      assert ops == before + [op];
      match op
      case DoUpsert(_, _) => UpsertReconciles(Run(before), before, op);
      case DoCancel(_, _, _) => CancelReconciles(Run(before), before, op);
      case DoDeposit(_, _) =>
        forall e: string ensures Balanced(Run(ops), ops, e) {
          assert Balanced(Run(before), before, e);
        }
    }
  }

  // ---------------------------------------------------------------------------------------------
  // The trail by itself.

  /** Charges less refunds, read off the trail without looking at any table. */
  function TrailNet(audit: seq<AuditRow>): int {
    if audit == [] then 0
    else
      TrailNet(audit[..|audit| - 1])
      + match audit[|audit| - 1] case Created(_, _, _, total) => total case Refunded(_, _, _, refund) => -refund
  }

  ghost function SumOf(balances: map<string, int>): int {
    if forall e :: e !in balances then 0
    else
      var e :| e in balances;
      balances[e] + SumOf(balances - {e})
  }

  function TotalDeposited(ops: seq<Op>): int {
    if ops == [] then 0
    else TotalDeposited(ops[..|ops| - 1]) + if ops[|ops| - 1].DoDeposit? then ops[|ops| - 1].amount else 0
  }

  lemma {:induction false} SumRemove(balances: map<string, int>, e: string)
    requires e in balances
    ensures SumOf(balances) == balances[e] + SumOf(balances - {e})
    decreases |balances|
  {
    var k :| k in balances && SumOf(balances) == balances[k] + SumOf(balances - {k});
    if k != e {
      SumRemove(balances - {k}, e);
      SumRemove(balances - {e}, k);
      assert balances - {k} - {e} == balances - {e} - {k};
    }
  }

  lemma SumUpdated(balances: map<string, int>, e: string, amount: int)
    ensures SumOf(balances[e := amount]) == SumOf(balances) - Balance(balances, e) + amount
  {
    var after := balances[e := amount];
    SumRemove(after, e);
    assert after - {e} == balances - {e};
    if e in balances { SumRemove(balances, e); } else { assert balances - {e} == balances; }
  }

  lemma TrailNetAppend(audit: seq<AuditRow>, row: AuditRow)
    ensures TrailNet(audit + [row])
         == TrailNet(audit) + match row case Created(_, _, _, total) => total case Refunded(_, _, _, refund) => -refund
  {
    assert (audit + [row])[..|audit|] == audit;
  }

  lemma StepKeepsTotal(db: Db, op: Op)
    ensures
      SumOf(Step(db, op).balances) + TrailNet(Step(db, op).audit)
      == SumOf(db.balances) + TrailNet(db.audit) + if op.DoDeposit? then op.amount else 0
  {
    hide SumOf, TrailNet;
    match op
    case DoUpsert(p, _) =>
      SumUpdated(db.balances, p.employer, Balance(db.balances, p.employer) - p.total);
      TrailNetAppend(db.audit, Created(p.streamId, p.changedBy, p.status, p.total));
    case DoCancel(id, actor, _) =>
      if CancelApplies(db, id) {
        var s := db.streams[id];
        SumUpdated(db.balances, s.employer, Balance(db.balances, s.employer) + RefundDue(s));
        TrailNetAppend(db.audit, Refunded(id, actor, s.status, RefundDue(s)));
      }
    case DoDeposit(employer, amount) =>
      SumUpdated(db.balances, employer, Balance(db.balances, employer) + amount);
  }

  /** After any run the trail alone, folded without any other table, says what all balances together differ from all deposits. */
  lemma {:induction false} TrailAloneReconcilesTotal(ops: seq<Op>)
    ensures SumOf(Run(ops).balances) == TotalDeposited(ops) - TrailNet(Run(ops).audit)
  {
    if ops != [] {
      TrailAloneReconcilesTotal(ops[..|ops| - 1]);
      StepKeepsTotal(Run(ops[..|ops| - 1]), ops[|ops| - 1]);
    }
  }

  /** The withdrawal on record is not negative, and neither is what a refund leaves of the charge. */
  ghost predicate RefundCovered(db: Db, id: int) {
    id in db.streams ==>
      && db.streams[id].withdrawn >= 0
      && (db.streams[id].deleted ==>
        var trail := TrailOf(db.audit, id);
        |trail| == 2 && trail[1].Refunded? && 0 <= trail[1].refund <= db.streams[id].total)
  }

  lemma RefundStaysCovered(db: Db, op: Op, id: int)
    requires TrailsMatch(db) && RefundCovered(db, id)
    requires op.DoUpsert? ==> op.p.withdrawn >= 0
    ensures RefundCovered(Step(db, op), id)
  {
    hide TrailOf, PairIsFree;
    var next := Step(db, op);
    assert TrailShape(TrailOf(db.audit, id), db.streams, id);
    if next.audit != db.audit {
      assert next.audit == db.audit + [next.audit[|db.audit|]];
      TrailAppend(db.audit, next.audit[|db.audit|], id);
    }
  }

  /** Every refund lies between zero and the stream's charge when no reported withdrawal is negative. */
  lemma {:induction false} RefundsAreCovered(ops: seq<Op>, id: int)
    requires forall i | 0 <= i < |ops| :: ops[i].DoUpsert? ==> ops[i].p.withdrawn >= 0
    ensures RefundCovered(Run(ops), id)
  {
    if ops != [] {
      var before := ops[..|ops| - 1];
      RefundsAreCovered(before, id);
      EveryRunReconciles(before);
      RefundStaysCovered(Run(before), ops[|ops| - 1], id);
    }
  }

  /** The state in which the stream was cancelled: the refund in its trail is what was not withdrawn by then. */
  ghost predicate RefundedAsOf(before: Db, after: Db, id: int) {
    && id in before.streams && !before.streams[id].deleted
    && var trail := TrailOf(after.audit, id);
       |trail| == 2 && trail[1].Refunded? && IsRefund(before.streams[id].total, before.streams[id].withdrawn, trail[1].refund)
  }

  ghost predicate CancelledAt(ops: seq<Op>, n: nat, id: int) {
    n < |ops| && ops[n].DoCancel? && ops[n].id == id && RefundedAsOf(Run(ops[..n]), Run(ops), id)
  }

  /** Over every run, a deleted stream was cancelled by one operation, and the refund in its trail is the total less what was
      withdrawn on record at that time, or nothing if more was. */
  lemma {:induction false} RefundsAreWhatWasLeft(ops: seq<Op>, id: int)
    requires id in Run(ops).streams && Run(ops).streams[id].deleted
    ensures exists n: nat :: CancelledAt(ops, n, id)
  {
    hide Step, TrailOf, IsRefund;
    var k := |ops| - 1;
    assert ops != [];
    var before := Run(ops[..k]);
    EveryRunReconciles(ops[..k]);
    EveryRunReconciles(ops);
    if id in before.streams && before.streams[id].deleted {
      RefundsAreWhatWasLeft(ops[..k], id);
      var n: nat :| CancelledAt(ops[..k], n, id);
      assert ops[..k][..n] == ops[..n];
      DeletedKeepsTrail(before, ops[k], id);
      assert CancelledAt(ops, n, id);
    } else {
      DeletingRefunds(before, ops[k], id);
      assert CancelledAt(ops, k, id);
    }
  }

  lemma DeletedKeepsTrail(db: Db, op: Op, id: int)
    requires TrailsMatch(db) && TrailsMatch(Step(db, op)) && id in db.streams && db.streams[id].deleted
    ensures TrailOf(Step(db, op).audit, id) == TrailOf(db.audit, id)
  {
    hide PairIsFree, TrailOf;
    var next := Step(db, op);
    if next.audit != db.audit {
      assert next.audit == db.audit + [next.audit[|db.audit|]];
      TrailAppend(db.audit, next.audit[|db.audit|], id);
    }
  }

  lemma DeletingRefunds(db: Db, op: Op, id: int)
    requires TrailsMatch(db) && id in Step(db, op).streams && Step(db, op).streams[id].deleted
    requires !(id in db.streams && db.streams[id].deleted)
    ensures op.DoCancel? && op.id == id && RefundedAsOf(db, Step(db, op), id)
  {
    hide PairIsFree, TrailOf;
    var next := Step(db, op);
    assert op.DoCancel? && op.id == id;
    assert TrailShape(TrailOf(db.audit, id), db.streams, id);
    var s := db.streams[id];
    TrailAppend(db.audit, Refunded(id, op.actor, s.status, RefundDue(s)), id);
  }

  /** The trail is append-only, and a stream keeps its owner, its charge and its deletion for ever. */
  lemma {:induction false} HistoryIsKept(ops: seq<Op>, more: seq<Op>)
    ensures Run(ops).audit <= Run(ops + more).audit
    ensures SameOwners(Run(ops).streams, Run(ops + more).streams)
    ensures forall id | id in Run(ops).streams && Run(ops).streams[id].deleted ::
      id in Run(ops + more).streams && Run(ops + more).streams[id].deleted
    decreases |more|
  {
    hide Step;
    if more == [] {
      assert ops + more == ops;
    } else {
      var all, n := ops + more, |ops| + |more|;
      HistoryIsKept(ops, more[..|more| - 1]);
      assert all[..n - 1] == ops + more[..|more| - 1];
      StepKeepsHistory(Run(all[..n - 1]), all[n - 1]);
    }
  }

  lemma StepKeepsHistory(db: Db, op: Op)
    ensures db.audit <= Step(db, op).audit && SameOwners(db.streams, Step(db, op).streams)
    ensures forall id | id in db.streams && db.streams[id].deleted ::
      id in Step(db, op).streams && Step(db, op).streams[id].deleted
  {
    hide PairIsFree;
  }

  // ---------------------------------------------------------------------------------------------
  // What the chain's events do to the stream table.

  datatype ChainEvent =
    | StreamCreated(id: int, employer: string, worker: string, rate: int, startTs: int, endTs: int)
    | StreamCancelled(id: int, employer: string, worker: string)

  /** The upsert an event is ingested as; a cancellation names no amount, so its total is zero. */
  function Observed(e: ChainEvent): Upsert {
    match e
    case StreamCreated(id, employer, worker, rate, startTs, endTs) =>
      Upsert(id, employer, worker, rate * if endTs > startTs then endTs - startTs else 0, 0, Active, employer)
    case StreamCancelled(id, employer, worker) => Upsert(id, employer, worker, 0, 0, Cancelled, employer)
  }

  /** Ingestion goes on after an event that fails. */
  function Ingested(db: Db, events: seq<ChainEvent>, faults: nat -> FaultPoint): Db {
    if events == [] then db
    else
      var n := |events| - 1;
      Step(Ingested(db, events[..n], faults), DoUpsert(Observed(events[n]), faults(n)))
  }

  /** A creation that the chain reports is recorded as an active stream over rate times duration exactly when that is positive,
      the stream is new, no other active one has its employer and worker, and nothing fails; else it is not. */
  lemma CreationIsRecordedIff(db: Db, id: int, employer: string, worker: string, rate: int, startTs: int, endTs: int, fault: FaultPoint)
    requires id !in db.streams
    ensures
      var after := Step(db, DoUpsert(Observed(StreamCreated(id, employer, worker, rate, startTs, endTs)), fault));
      var stands := rate > 0 && endTs > startTs && fault >= 5
        && forall i | i in db.streams && db.streams[i].status == Active :: db.streams[i].employer != employer || db.streams[i].worker != worker;
      if stands then
        && after.streams == db.streams[id := Stream(employer, worker, rate * (endTs - startTs), 0, Active, false)]
        && after.balances == db.balances[employer := (if employer in db.balances then db.balances[employer] else 0) - rate * (endTs - startTs)]
      else after == db
  {
    PositiveProduct(rate, endTs - startTs);
  }

  lemma PositiveProduct(a: int, b: int)
    ensures b > 0 ==> (a * b > 0 <==> a > 0)
  {
  }

  /** Ingestion takes the events one after the other. */
  lemma IngestionGoesOn(db: Db, events: seq<ChainEvent>, e: ChainEvent, faults: nat -> FaultPoint)
    ensures Ingested(db, [], faults) == db
    ensures Ingested(db, events + [e], faults) == Step(Ingested(db, events, faults), DoUpsert(Observed(e), faults(|events|)))
  {
    assert (events + [e])[..|events|] == events;
  }

  predicate SamePair(a: Stream, b: Stream) {
    a.employer == b.employer && a.worker == b.worker
  }

  /** An active stream stays active whatever the chain reports, also its own cancellation; and every new stream of the same
      employer and worker is refused for as long as only the chain's events come in. */
  lemma {:induction false} ChainCancelsNothing(db: Db, events: seq<ChainEvent>, faults: nat -> FaultPoint, i: int)
    requires i in db.streams && db.streams[i].status == Active
    ensures
      var r := Ingested(db, events, faults).streams;
      && i in r && r[i].status == Active && SamePair(r[i], db.streams[i])
      && forall j | j in r && j !in db.streams :: r[j].status == Active && !SamePair(r[j], db.streams[i])
  {
    if events != [] {
      var n := |events| - 1;
      ChainCancelsNothing(db, events[..n], faults, i);
      var before, p := Ingested(db, events[..n], faults), Observed(events[n]);
      if p.streamId == i { assert UpsertedRow(before.streams, p).employer == before.streams[i].employer; }
    }
  }

  /** No event of the chain cancels, completes or pauses a stream: it can only make one active. */
  lemma {:induction false} ChainOnlyActivates(db: Db, events: seq<ChainEvent>, faults: nat -> FaultPoint, i: int)
    ensures
      var r := Ingested(db, events, faults).streams;
      if i in db.streams then i in r && (r[i].status == Active || r[i].status == db.streams[i].status)
      else i in r ==> r[i].status == Active
  {
    if events != [] { ChainOnlyActivates(db, events[..|events| - 1], faults, i); }
  }
}
