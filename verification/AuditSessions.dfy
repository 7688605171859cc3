/** The audit logger over a connection pool: logging, overlapping flushes and their single statements interleave in any
    way. As long as each flush has a session of its own, this does what flushes in one piece would do. */
module AuditSessions {
  import opened JsonRedaction
  import opened AuditQueue
  import opened AuditFlush

  /** A flush under way: how many of its statements succeeded, whether one failed, and where its BEGIN went. */
  datatype Flight = Flight(batch: seq<Entry>, done: nat, failed: bool, home: int)

  datatype System = System(queue: seq<Entry>, flights: seq<Flight>, db: Db, dropped: seq<Entry>, lost: seq<Entry>, offered: seq<Entry>)

  const START := System([], [], Db([], map[]), [], [], [])

  datatype Event =
    | Logs(content: Content)
    | Attaches(at: nat, error: Option<string>, stack: Option<string>)
    | Starts
    | Executes(flight: nat, session: int, ok: bool)
    | Undoes(flight: nat, session: int, ok: bool)
    | Closes(session: int)

  function NextStatement(f: Flight): Statement {
    if f.done == 0 then TxBegin else if f.done <= |f.batch| then TxInsert(f.batch[f.done - 1]) else TxCommit
  }

  predicate Possible(s: System, e: Event) {
    match e
    case Logs(_) => true
    case Attaches(k, _, _) => k < |s.queue|
    case Starts => s.queue != []
    case Executes(i, _, _) => i < |s.flights| && !s.flights[i].failed
    case Undoes(i, _, _) => i < |s.flights| && s.flights[i].failed
    case Closes(_) => true
  }

  function Without<T>(xs: seq<T>, i: nat): seq<T>
    requires i < |xs|
  {
    xs[..i] + xs[i + 1..]
  }

  /** The next statement of a flush, sent to a session, which may fail. */
  function Executed(s: System, i: nat, session: int, ok: bool): System
    requires i < |s.flights|
  {
    var f := s.flights[i];
    var st := NextStatement(f);
    var g := f.(home := if f.done == 0 then session else f.home);
    if ok && !Refuses(s.db, session, st) then
      if st == TxCommit then s.(flights := Without(s.flights, i), db := Execute(s.db, session, st))
      else s.(flights := s.flights[i := g.(done := f.done + 1)], db := Execute(s.db, session, st))
    else s.(flights := s.flights[i := g.(failed := true)], db := Doom(s.db, session))
  }

  /** The ROLLBACK of a failed flush; only when it succeeds are the entries queued again. */
  function Undone(s: System, c: Config, i: nat, session: int, ok: bool): System
    requires i < |s.flights|
  {
    var t := s.(flights := Without(s.flights, i));
    if ok then
      var back := s.flights[i].batch + s.queue;
      var n := Excess(back, c.max);
      t.(queue := back[n..], dropped := s.dropped + back[..n], db := Execute(s.db, session, TxRollback))
    else t.(lost := s.lost + s.flights[i].batch)
  }

  function Do(s: System, c: Config, e: Event): System
    requires Possible(s, e)
  {
    match e
    case Logs(content) =>
      var x := Entry(|s.offered|, Redacted(c, content));
      var n := s.(offered := s.offered + [x]);
      if |s.queue| < c.max then n.(queue := s.queue + [x]) else n.(dropped := s.dropped + [x])
    case Attaches(k, error, stack) =>
      var x := Attached(s.queue[k], error, stack);
      s.(queue := s.queue[k := x], offered := if x.number < |s.offered| then s.offered[x.number := x] else s.offered)
    case Starts => s.(queue := [], flights := s.flights + [Flight(s.queue, 0, false, 0)])
    case Executes(i, session, ok) => Executed(s, i, session, ok)
    case Undoes(i, session, ok) => Undone(s, c, i, session, ok)
    case Closes(session) => s.(db := s.db.(open := s.db.open - {session}))
  }

  // ---------------------------------------------------------------------------------------------
  // Flushes with a session of their own.

  predicate Begun(f: Flight) {
    f.done > 0 || f.failed
  }

  /** Some flush under way began on this session. */
  predicate IsHome(s: System, session: int) {
    exists i | 0 <= i < |s.flights| :: Begun(s.flights[i]) && s.flights[i].home == session
  }

  /** A flush begins on a session nobody is in a transaction on, keeps to it, and the pool keeps it open meanwhile. */
  predicate Served(s: System, e: Event)
    requires Possible(s, e)
  {
    match e
    case Executes(i, session, _) =>
      if s.flights[i].done == 0 then session !in s.db.open && !IsHome(s, session) else session == s.flights[i].home
    case Undoes(i, session, _) => session == s.flights[i].home
    case Closes(session) => !IsHome(s, session)
    case _ => true
  }

  function Batches(flights: seq<Flight>): (r: seq<seq<Entry>>)
    ensures |r| == |flights| && forall i | 0 <= i < |r| :: r[i] == flights[i].batch
  {
    if flights == [] then [] else [flights[0].batch] + Batches(flights[1..])
  }

  /** What the system is when flushes are taken in one piece. */
  function Abstract(s: System): Log {
    Log(s.queue, Batches(s.flights), s.db.table, s.dropped, s.lost, s.offered)
  }

  /** The session of a flush holds exactly the rows it has inserted so far. */
  ghost predicate FlightWell(db: Db, f: Flight) {
    && f.done <= |f.batch| + 1
    && (f.done > 0 && !f.failed ==> f.home in db.open && db.open[f.home] == InTx(f.batch[..f.done - 1], false))
  }

  ghost predicate Well(s: System) {
    && (forall i | 0 <= i < |s.flights| :: FlightWell(s.db, s.flights[i]))
    && (forall i, j | 0 <= i < j < |s.flights| && Begun(s.flights[i]) && Begun(s.flights[j]) ::
         s.flights[i].home != s.flights[j].home)
  }

  /** The step of the queue that an event amounts to, if any. */
  function Seen(s: System, e: Event): Option<Step>
    requires Possible(s, e)
  {
    match e
    case Logs(content) => Some(Offer(content))
    case Attaches(k, error, stack) => Some(Attach(k, error, stack))
    case Starts => Some(FlushStart)
    case Executes(i, _, ok) => if ok && NextStatement(s.flights[i]) == TxCommit then Some(Commit(i)) else None
    case Undoes(i, _, ok) => Some(if ok then Rollback(i) else RollbackFails(i))
    case Closes(_) => None
  }

  lemma BatchesAppend(flights: seq<Flight>, f: Flight)
    ensures Batches(flights + [f]) == Batches(flights) + [f.batch]
  {
  }

  lemma BatchesWithout(flights: seq<Flight>, i: nat)
    requires i < |flights|
    ensures Batches(Without(flights, i)) == Remove(Batches(flights), i)
  {
    hide Batches;
    var a, b := Batches(Without(flights, i)), Remove(Batches(flights), i);
    assert |a| == |b|;
    forall k | 0 <= k < |a| ensures a[k] == b[k] {
      assert Without(flights, i)[k] == flights[if k < i then k else k + 1];
    }
  }

  lemma BatchesUpdated(flights: seq<Flight>, i: nat, f: Flight)
    requires i < |flights| && f.batch == flights[i].batch
    ensures Batches(flights[i := f]) == Batches(flights)
  {
  }

  /** A statement that keeps to its flush's session: inserts stay in the transaction, the COMMIT writes them all. */
  lemma StatementIsSeen(s: System, c: Config, i: nat, session: int, ok: bool)
    requires Well(s) && Possible(s, Executes(i, session, ok)) && Served(s, Executes(i, session, ok))
    ensures
      var t := Abstract(Executed(s, i, session, ok));
      if ok && NextStatement(s.flights[i]) == TxCommit then t == Apply(Abstract(s), c, Commit(i)) else t == Abstract(s)
  {
    hide IsHome, Batches, Without;
    var f := s.flights[i];
    assert FlightWell(s.db, f);
    BatchesWithout(s.flights, i);
    BatchesUpdated(s.flights, i, f.(home := if f.done == 0 then session else f.home, done := f.done + 1));
    BatchesUpdated(s.flights, i, f.(home := if f.done == 0 then session else f.home, failed := true));
    if f.done == |f.batch| + 1 { assert f.batch[..f.done - 1] == f.batch; }
  }

  lemma EventIsSeen(s: System, c: Config, e: Event)
    requires Well(s) && Possible(s, e) && Served(s, e)
    ensures
      var t, step := Abstract(Do(s, c, e)), Seen(s, e);
      if step.Some? then Enabled(Abstract(s), step.value) && t == Apply(Abstract(s), c, step.value) else t == Abstract(s)
  {
    hide IsHome, Batches, Redacted, Executed;
    match e
    case Executes(i, session, ok) => StatementIsSeen(s, c, i, session, ok);
    case Undoes(i, session, ok) => BatchesWithout(s.flights, i);
    case Starts => BatchesAppend(s.flights, Flight(s.queue, 0, false, 0));
    case _ =>
  }

  lemma StatementKeepsWell(s: System, i: nat, session: int, ok: bool)
    requires Well(s) && Possible(s, Executes(i, session, ok)) && Served(s, Executes(i, session, ok))
    ensures Well(Executed(s, i, session, ok))
  {
    var f, t := s.flights[i], Executed(s, i, session, ok);
    assert FlightWell(s.db, f);
    if f.done > 0 && f.done <= |f.batch| {
      assert f.batch[..f.done] == f.batch[..f.done - 1] + [f.batch[f.done - 1]];
    }
    forall j | 0 <= j < |s.flights| && j != i ensures FlightWell(t.db, s.flights[j]) && (Begun(s.flights[j]) ==> s.flights[j].home != session) {
      assert FlightWell(s.db, s.flights[j]);
    }
  }

  lemma EventKeepsWell(s: System, c: Config, e: Event)
    requires Well(s) && Possible(s, e) && Served(s, e)
    ensures Well(Do(s, c, e))
  {
    hide Redacted, Executed;
    match e
    case Executes(i, session, ok) => StatementKeepsWell(s, i, session, ok);
    case Undoes(i, session, ok) => UndoKeepsWell(s, c, i, session, ok);
    case Closes(session) =>
      forall j | 0 <= j < |s.flights| ensures FlightWell(Do(s, c, e).db, s.flights[j]) { assert FlightWell(s.db, s.flights[j]); }
    case _ =>
  }

  lemma UndoKeepsWell(s: System, c: Config, i: nat, session: int, ok: bool)
    requires Well(s) && Possible(s, Undoes(i, session, ok)) && Served(s, Undoes(i, session, ok))
    ensures Well(Undone(s, c, i, session, ok))
  {
    var t := Undone(s, c, i, session, ok);
    assert forall k | 0 <= k < |t.flights| :: t.flights[k] == s.flights[if k < i then k else k + 1];
    forall j | 0 <= j < |s.flights| && j != i ensures FlightWell(t.db, s.flights[j]) {
      assert FlightWell(s.db, s.flights[j]);
    }
  }

  // ---------------------------------------------------------------------------------------------
  // Runs.

  ghost predicate ServedRun(s: System, c: Config, events: seq<Event>)
    decreases |events|
  {
    events == [] ||
    (Possible(s, events[0]) && Served(s, events[0]) && ServedRun(Do(s, c, events[0]), c, events[1..]))
  }

  ghost function After(s: System, c: Config, events: seq<Event>): System
    requires ServedRun(s, c, events)
    decreases |events|
  {
    if events == [] then s else After(Do(s, c, events[0]), c, events[1..])
  }

  /** The run of the queue that a run of statements amounts to. */
  ghost function SeenRun(s: System, c: Config, events: seq<Event>): seq<Step>
    requires ServedRun(s, c, events)
    decreases |events|
  {
    if events == [] then []
    else
      var rest := SeenRun(Do(s, c, events[0]), c, events[1..]);
      match Seen(s, events[0]) case None => rest case Some(step) => [step] + rest
  }

  /** Flushes that have a session of their own refine flushes in one piece. */
  lemma {:induction false} StatementsRefineFlushes(s: System, c: Config, events: seq<Event>)
    requires Well(s) && ServedRun(s, c, events)
    ensures Runs(Abstract(s), c, SeenRun(s, c, events), Abstract(After(s, c, events)))
    ensures Well(After(s, c, events))
    decreases |events|
  {
    hide Well, Do, Abstract, Served, Apply;
    if events != [] {
      var t := Do(s, c, events[0]);
      EventIsSeen(s, c, events[0]);
      EventKeepsWell(s, c, events[0]);
      StatementsRefineFlushes(t, c, events[1..]);
      var step := Seen(s, events[0]);
      if step.Some? {
        var rest := SeenRun(t, c, events[1..]);
        assert ([step.value] + rest)[1..] == rest;
      }
    }
  }

  /** So no entry is written twice, and everything offered stays in exactly one place, however statements interleave. */
  lemma ServedFlushesWriteOnce(c: Config, events: seq<Event>)
    requires ServedRun(START, c, events)
    ensures
      var t := After(START, c, events);
      && Inv(Abstract(t), c) && |t.queue| <= c.max
      && forall i, j | 0 <= i < j < |t.db.table| :: t.db.table[i] != t.db.table[j]
  {
    hide After, SeenRun, ServedRun, Runs, Inv;
    StartIsEmpty();
    StatementsRefineFlushes(START, c, events);
    var t, steps := After(START, c, events), SeenRun(START, c, events);
    EmptyIsInv(c);
    NothingVanishes(EMPTY, c, steps, Abstract(t));
    QueueIsBounded(Abstract(t), c);
    forall i, j | 0 <= i < j < |t.db.table| ensures t.db.table[i] != t.db.table[j] {
      PersistedOnce(c, steps, Abstract(t), i, j);
    }
  }

  lemma StartIsEmpty()
    ensures Well(START) && Abstract(START) == EMPTY
  {
  }

  lemma QueueIsBounded(s: Log, c: Config)
    requires Inv(s, c)
    ensures |s.queue| <= c.max
  {
  }

  /** A flush starts only when no other is under way. */
  ghost predicate OneAtATime(s: System, c: Config, events: seq<Event>)
    requires ServedRun(s, c, events)
    decreases |events|
  {
    events == [] ||
    ((events[0].Starts? ==> s.flights == []) && OneAtATime(Do(s, c, events[0]), c, events[1..]))
  }

  lemma {:induction false} OneAtATimeIsSeen(s: System, c: Config, events: seq<Event>)
    requires Well(s) && ServedRun(s, c, events) && OneAtATime(s, c, events)
    ensures OneFlushAtATime(Abstract(s), c, SeenRun(s, c, events), Abstract(After(s, c, events)))
    decreases |events|
  {
    hide Well, Do, Served, Apply;
    if events != [] {
      var t := Do(s, c, events[0]);
      EventIsSeen(s, c, events[0]);
      EventKeepsWell(s, c, events[0]);
      OneAtATimeIsSeen(t, c, events[1..]);
      var step := Seen(s, events[0]);
      if step.Some? {
        var rest := SeenRun(t, c, events[1..]);
        assert ([step.value] + rest)[1..] == rest;
      }
    }
  }

  /** With one flush at a time, rows are written in the order of logging. */
  lemma ServedFlushesKeepOrder(c: Config, events: seq<Event>)
    requires ServedRun(START, c, events) && OneAtATime(START, c, events)
    ensures Increasing(After(START, c, events).db.table)
  {
    hide After, SeenRun, ServedRun, OneAtATime;
    StartIsEmpty();
    OneAtATimeIsSeen(START, c, events);
    PersistedInOrder(EMPTY, c, SeenRun(START, c, events), Abstract(After(START, c, events)));
  }

  ghost predicate AttachesNothing(events: seq<Event>) {
    forall i | 0 <= i < |events| && events[i].Attaches? :: NoToken(events[i].error) && NoToken(events[i].stack)
  }

  lemma {:induction false} AttachesNothingIsSeen(s: System, c: Config, events: seq<Event>)
    requires ServedRun(s, c, events) && AttachesNothing(events)
    ensures AttachesNoToken(SeenRun(s, c, events))
    decreases |events|
  {
    hide Do, Served, NoToken;
    if events != [] {
      assert forall i | 0 <= i < |events[1..]| :: events[1..][i] == events[i + 1];
      AttachesNothingIsSeen(Do(s, c, events[0]), c, events[1..]);
    }
  }

  /** With redaction on, no row is written with a token in it, unless it came with an error text attached late. */
  lemma ServedFlushesWriteNoToken(c: Config, events: seq<Event>, k: nat)
    requires c.redacts && ServedRun(START, c, events) && AttachesNothing(events) && k < |After(START, c, events).db.table|
    ensures TokenFree(c, After(START, c, events).db.table[k].content)
  {
    hide After, SeenRun, ServedRun, Runs, TokenFree, AttachesNothing, AttachesNoToken;
    StartIsEmpty();
    StatementsRefineFlushes(START, c, events);
    AttachesNothingIsSeen(START, c, events);
    NoTokenIsPersisted(c, SeenRun(START, c, events), Abstract(After(START, c, events)), k);
  }

  // ---------------------------------------------------------------------------------------------
  // The logger object.

  class AuditLogger {
    const config: Config
    var writeQueue: seq<Entry>
    var flights: seq<Flight>
    var db: Db
    var logged: nat
    ghost var dropped: seq<Entry>
    ghost var lost: seq<Entry>
    ghost var offered: seq<Entry>

    ghost function State(): System
      reads this
    {
      System(writeQueue, flights, db, dropped, lost, offered)
    }

    constructor (config: Config)
      ensures State() == START && logged == |offered| && this.config == config
    {
      this.config := config;
      writeQueue, flights, db, logged := [], [], Db([], map[]), 0;
      dropped, lost, offered := [], [], [];
    }

    method EnqueueWrite(content: Content)
      requires logged == |offered|
      modifies this
      ensures State() == Do(old(State()), config, Logs(content)) && logged == |offered|
      ensures |offered| == |old(offered)| + 1 && offered[..|old(offered)|] == old(offered)
      ensures
        var entry := offered[|old(offered)|];
        && entry.number == |old(offered)|
        && (config.redacts ==> TokenFree(config, entry.content))
        && (forall names | HidesNamed(config.policy, names) :: IsStored(config, names, content, entry.content))
        && if |old(writeQueue)| < config.max then writeQueue == old(writeQueue) + [entry] && dropped == old(dropped)
           else writeQueue == old(writeQueue) && dropped == old(dropped) + [entry]
    {
      hide Redacted, TokenFree, HidesNamed, IsStored;
      forall names | HidesNamed(config.policy, names) ensures IsStored(config, names, content, Redacted(config, content)) {
        RedactedIsStored(config, names, content);
      }
      if config.redacts { RedactedIsTokenFree(config, content); }
      var entry := Entry(logged, Redacted(config, content));
      logged := logged + 1;
      offered := offered + [entry];
      if |writeQueue| < config.max {
        writeQueue := writeQueue + [entry];
      } else {
        dropped := dropped + [entry];
      }
    }

    /** The caller that logged an event sets error texts on its entry, which is queued by then. While nothing offered
        holds a token, none will ever be written, whatever follows, if and only if these texts hold none. */
    method AttachError(at: nat, error: Option<string>, stack: Option<string>)
      requires at < |writeQueue| && logged == |offered|
      modifies this
      ensures State() == Do(old(State()), config, Attaches(at, error, stack)) && logged == |offered|
      ensures config.redacts && old(Inv(Abstract(State()), config)) && old(AllTokenFree(config, offered)) ==>
        (NeverWritesToken(Abstract(State()), config) <==> NoToken(error) && NoToken(stack))
    {
      hide NoToken, AllTokenFree, Inv, NeverWritesToken;
      if config.redacts && Inv(Abstract(State()), config) && AllTokenFree(config, offered) {
        AttachIsHarmlessIff(Abstract(State()), config, at, error, stack);
      }
      var entry := Attached(writeQueue[at], error, stack);
      writeQueue := writeQueue[at := entry];
      if entry.number < |offered| { offered := offered[entry.number := entry]; }
    }

    /** The part of a flush before its first wait: nothing happens on an empty queue or without a database. */
    method BeginFlush(poolReady: bool) returns (started: bool)
      modifies this
      ensures started == (poolReady && old(writeQueue) != []) && logged == old(logged)
      ensures State() == if started then Do(old(State()), config, Starts) else old(State())
      ensures started ==> writeQueue == [] && flights == old(flights) + [Flight(old(writeQueue), 0, false, 0)]
    {
      if writeQueue == [] || !poolReady { return false; }
      var entriesToWrite := writeQueue;
      writeQueue := [];
      flights := flights + [Flight(entriesToWrite, 0, false, 0)];
      return true;
    }

    /** The next statement of a flush, on the session the pool gives it; afterwards the flush has failed,
        is finished, or goes on. A served statement keeps all sessions well, and writes nothing but the COMMIT's whole batch. */
    method NextOf(i: nat, session: int, ok: bool)
      requires i < |flights| && !flights[i].failed
      modifies this
      ensures State() == Do(old(State()), config, Executes(i, session, ok)) && logged == old(logged)
      ensures old(Well(State()) && Served(State(), Executes(i, session, ok))) ==>
        && Well(State())
        && Abstract(State()) == if ok && old(NextStatement(flights[i])) == TxCommit
                                then old(Apply(Abstract(State()), config, Commit(i))) else old(Abstract(State()))
    {
      hide Well, Abstract, Served, Apply;
      if Well(State()) && Served(State(), Executes(i, session, ok)) {
        StatementIsSeen(State(), config, i, session, ok);
        StatementKeepsWell(State(), i, session, ok);
      }
      var f := flights[i];
      var statement := NextStatement(f);
      var home := if f.done == 0 then session else f.home;
      if ok && !Refuses(db, session, statement) {
        db := Execute(db, session, statement);
        flights := if statement == TxCommit then Without(flights, i) else flights[i := f.(done := f.done + 1, home := home)];
      } else {
        db := Doom(db, session);
        flights := flights[i := f.(failed := true, home := home)];
      }
    }

    /** The ROLLBACK of a failed flush: its entries go back to the front, the oldest beyond the bound are dropped. */
    method RollBack(i: nat, session: int, ok: bool)
      requires i < |flights| && flights[i].failed
      modifies this
      ensures State() == Do(old(State()), config, Undoes(i, session, ok)) && logged == old(logged)
      ensures
        var back := old(flights)[i].batch + old(writeQueue);
        var excess := if |back| > config.max then |back| - config.max else 0;
        if ok then writeQueue == back[excess..] && dropped == old(dropped) + back[..excess] && lost == old(lost)
        else writeQueue == old(writeQueue) && dropped == old(dropped) && lost == old(lost) + old(flights)[i].batch
    {
      var entries := flights[i].batch;
      flights := Without(flights, i);
      if !ok {
        lost := lost + entries;
        return;
      }
      db := Execute(db, session, TxRollback);
      writeQueue := entries + writeQueue;
      if |writeQueue| > config.max {
        var excess := |writeQueue| - config.max;
        dropped := dropped + writeQueue[..excess];
        writeQueue := writeQueue[excess..];
      } else {
        assert dropped + writeQueue[..0] == dropped && writeQueue[0..] == writeQueue;
      }
    }

    /** A flush from start to end with nothing else under way, its statements sent where `plan` says. It is all or nothing,
        in order, and leaves no transaction behind if and only if the plan fits. */
    method FlushQueue(poolReady: bool, plan: Plan)
      requires flights == [] && db.open == map[] && |plan.inserts| == |writeQueue| <= config.max
      modifies this
      ensures flights == [] && dropped == old(dropped) && lost == old(lost) && offered == old(offered)
      ensures old(writeQueue) == [] || !poolReady ==> State() == old(State())
      ensures old(writeQueue) != [] && poolReady ==>
        var r := Flushed(old(db), old(writeQueue), plan);
        && db == r.db && writeQueue == (if r.requeued then old(writeQueue) else [])
        && (Increasing(old(writeQueue)) ==>
             (Fits(plan) <==> db.open == map[] && db.table == old(db.table) + if r.requeued then [] else old(writeQueue)))
    {
      hide Increasing, Inserted, Flushed, Execute, Fits, Doom, Refuses, NextStatement, Excess, Executed, Redacted, Well, Abstract, Served, Apply;
      var before, batch := db, writeQueue;
      if Increasing(batch) { FlushIsWholeIff(before, batch, plan); }
      var started := BeginFlush(poolReady);
      if !started { return; }
      var n := |batch|;
      var k := 0;
      while k < n + 2 && k != plan.failAt
        invariant k <= n + 2 && writeQueue == [] && k <= plan.failAt
        invariant dropped == old(dropped) && lost == old(lost) && offered == old(offered)
        invariant k == 0 ==> flights == [Flight(batch, 0, false, 0)] && db == before
        invariant 0 < k <= n + 1 ==> flights == [Flight(batch, k, false, plan.begin)] && db == Inserted(before, batch, plan, k - 1)
        invariant k == n + 2 ==> flights == [] && db == Execute(Inserted(before, batch, plan, n), plan.commit, TxCommit)
      {
        var session := SessionOf(plan, k);
        NextIsTaken(before, batch, plan, k);
        NextIgnoresHome(batch, k, 0, plan.begin);
        LoneStep(State(), batch, k, if k == 0 then 0 else plan.begin, session);
        NextOf(0, session, true);
        k := k + 1;
      }
      FlushedIs(before, batch, plan);
      if k < n + 2 {
        LoneFailure(State(), config, batch, k, if k == 0 then 0 else plan.begin, SessionOf(plan, k), plan.rollback);
        NextOf(0, SessionOf(plan, k), false);
        RollBack(0, plan.rollback, true);
      }
    }
  }

  lemma NextIgnoresHome(batch: seq<Entry>, k: nat, home: int, other: int)
    ensures NextStatement(Flight(batch, k, false, home)) == NextStatement(Flight(batch, k, false, other))
  {
  }

  /** The next statement of the only flush, when it is taken. */
  lemma LoneStep(s: System, batch: seq<Entry>, k: nat, home: int, session: int)
    requires s.flights == [Flight(batch, k, false, home)] && k <= |batch| + 1
    requires !Refuses(s.db, session, NextStatement(s.flights[0]))
    ensures
      var db := Execute(s.db, session, NextStatement(Flight(batch, k, false, home)));
      Executed(s, 0, session, true)
      == if k <= |batch| then s.(flights := [Flight(batch, k + 1, false, if k == 0 then session else home)], db := db)
         else s.(flights := [], db := db)
    ensures k == |batch| + 1 ==> NextStatement(Flight(batch, k, false, home)) == TxCommit
  {
    hide Execute, Refuses;
  }

  /** The failure of the only flush's next statement, and its ROLLBACK. */
  lemma LoneFailure(s: System, c: Config, batch: seq<Entry>, k: nat, home: int, session: int, rollback: int)
    requires s.flights == [Flight(batch, k, false, home)] && s.queue == [] && |batch| <= c.max
    ensures
      var t := Executed(s, 0, session, false);
      && |t.flights| == 1 && t.flights[0].failed
      && Undone(t, c, 0, rollback, true)
         == s.(queue := batch, flights := [], db := Execute(Doom(s.db, session), rollback, TxRollback))
  {
    hide Execute, Refuses, Doom;
    assert batch + [] == batch && s.dropped + batch[..0] == s.dropped && batch[0..] == batch;
  }

  function SessionOf(plan: Plan, k: nat): int {
    if k == 0 then plan.begin else if k <= |plan.inserts| then plan.inserts[k - 1] else plan.commit
  }

  /** No statement of a flush is refused before one of them fails, and each does what the plan foresees. */
  lemma NextIsTaken(db: Db, batch: seq<Entry>, plan: Plan, k: nat)
    requires db.open == map[] && |batch| == |plan.inserts| && k < |batch| + 2
    ensures
      var d := if k == 0 then db else Inserted(db, batch, plan, k - 1);
      var st := NextStatement(Flight(batch, k, false, plan.begin));
      && !Refuses(d, SessionOf(plan, k), st)
      && (k <= |batch| ==> Inserted(db, batch, plan, k) == Execute(d, SessionOf(plan, k), st))
  {
    hide Execute;
    if k > 0 { InsertedRows(db, batch, plan, k - 1); }
  }

  lemma FlushedIs(db: Db, batch: seq<Entry>, plan: Plan)
    requires |batch| == |plan.inserts|
    ensures
      var n := |batch|;
      var k := if plan.failAt < n + 2 then plan.failAt else n + 2;
      var d := if k == 0 then db else Inserted(db, batch, plan, if k - 1 <= n then k - 1 else n);
      Flushed(db, batch, plan)
      == if plan.failAt < n + 2 then Outcome(Execute(Doom(d, SessionOf(plan, k)), plan.rollback, TxRollback), true)
         else Outcome(Execute(d, plan.commit, TxCommit), false)
  {
    hide Execute, Inserted, Doom;
  }
}
