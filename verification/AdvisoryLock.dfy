/** One advisory lock shared by replicas that each talk to the database through a pool
    of sessions. The lock belongs to a session and is re-entrant; a task may be
    unlocked on another session of its replica than the one that locked it. */
module AdvisoryLock {

  type Session = int
  type Replica = int
  type Task = int

  datatype Hold = Free | Held(session: Session, count: nat)

  predicate Grants(hold: Hold, session: Session) {
    hold.Free? || hold.session == session
  }

  /** pg_try_advisory_lock. */
  function AfterTryLock(hold: Hold, session: Session): Hold {
    if hold.Free? then Held(session, 1)
    else if hold.session == session then Held(session, hold.count + 1) else hold
  }

  /** pg_advisory_unlock: a session that does not hold the lock releases nothing. */
  function AfterUnlock(hold: Hold, session: Session): Hold {
    if hold.Free? || hold.session != session then hold
    else if hold.count <= 1 then Free else Held(session, hold.count - 1)
  }

  datatype Phase = Running | Finishing
  datatype TaskInfo = TaskInfo(replica: Replica, session: Session, phase: Phase)

  /** Open sessions with their replicas, the lock, and the tasks between acquire and release. */
  datatype State = State(sessions: map<Session, Replica>, hold: Hold, tasks: map<Task, TaskInfo>)

  const START := State(map[], Free, map[])

  datatype Step =
    | Connect(session: Session, replica: Replica)
    | TryLock(task: Task, session: Session)
    | LostReply(session: Session)             // the lock query ran, the client gave up on its answer
    | Finish(task: Task)                      // the task returned or threw
    | Unlock(task: Task, session: Session)    // on any open session of the task's replica
    | UnlockFails(task: Task)
    | Crash(replica: Replica)
    | Close(session: Session)                 // the pool drops a session of a live replica

  predicate Enabled(s: State, step: Step) {
    match step
    case Connect(session, _) => session !in s.sessions
    case TryLock(task, session) => task !in s.tasks && session in s.sessions
    case LostReply(session) => session in s.sessions
    case Finish(task) => task in s.tasks
    case Unlock(task, session) =>
      task in s.tasks && s.tasks[task].phase == Finishing && session in s.sessions
      && s.sessions[session] == s.tasks[task].replica
    case UnlockFails(task) => task in s.tasks && s.tasks[task].phase == Finishing
    case Crash(_) => true
    case Close(session) => session in s.sessions
  }

  function Without(hold: Hold, sessions: map<Session, Replica>): Hold {
    if hold.Held? && hold.session in sessions then hold else Free
  }

  function Apply(s: State, step: Step): State
    requires Enabled(s, step)
  {
    match step
    case Connect(session, replica) => s.(sessions := s.sessions[session := replica])
    case TryLock(task, session) =>
      s.(hold := AfterTryLock(s.hold, session),
         tasks := if Grants(s.hold, session) then s.tasks[task := TaskInfo(s.sessions[session], session, Running)] else s.tasks)
    case LostReply(session) => s.(hold := AfterTryLock(s.hold, session))
    case Finish(task) => s.(tasks := s.tasks[task := s.tasks[task].(phase := Finishing)])
    case Unlock(task, session) => s.(hold := AfterUnlock(s.hold, session), tasks := s.tasks - {task})
    case UnlockFails(task) => s.(tasks := s.tasks - {task})
    case Crash(replica) =>
      var open := map x | x in s.sessions && s.sessions[x] != replica :: s.sessions[x];
      State(open, Without(s.hold, open), map t | t in s.tasks && s.tasks[t].replica != replica :: s.tasks[t])
    case Close(session) =>
      var open := s.sessions - {session};
      State(open, Without(s.hold, open), s.tasks)
  }

  /** Two tasks that run at once run on one replica. */
  ghost predicate Exclusive(s: State) {
    forall t, u | t in s.tasks && u in s.tasks && s.tasks[t].phase == s.tasks[u].phase == Running ::
      s.tasks[t].replica == s.tasks[u].replica
  }

  /** The pool does not drop the holding session while a task is between acquire and release. */
  predicate Considerate(s: State, step: Step) {
    step.Close? ==> s.hold.Free? || s.hold.session != step.session || s.tasks == map[]
  }

  ghost predicate Runs(s: State, steps: seq<Step>, t: State)
    decreases |steps|
  {
    if steps == [] then s == t
    else Enabled(s, steps[0]) && Runs(Apply(s, steps[0]), steps[1..], t)
  }

  ghost predicate RunsConsiderately(s: State, steps: seq<Step>, t: State)
    decreases |steps|
  {
    if steps == [] then s == t
    else Enabled(s, steps[0]) && Considerate(s, steps[0]) && RunsConsiderately(Apply(s, steps[0]), steps[1..], t)
  }

  predicate OnHolder(s: State, info: TaskInfo) {
    && s.hold.Held? && info.session == s.hold.session
    && s.hold.session in s.sessions && info.replica == s.sessions[s.hold.session]
  }

  /** Every live task acquired the lock on the one holding session, whose count is at least their number. */
  ghost predicate Inv(s: State) {
    && (s.hold.Free? ==> s.tasks == map[])
    && (s.hold.Held? ==> s.hold.session in s.sessions && s.hold.count >= 1)
    && (forall t | t in s.tasks :: OnHolder(s, s.tasks[t]))
    && (s.hold.Held? ==> |s.tasks| <= s.hold.count)
  }

  lemma StepKeepsInv(s: State, step: Step)
    requires Inv(s) && Enabled(s, step) && Considerate(s, step)
    ensures Inv(Apply(s, step))
  {
    match step
    case Unlock(task, _) => TaskLeaves(s, task);
    case UnlockFails(task) => TaskLeaves(s, task);
    case Crash(replica) => CrashKeepsInv(s, replica);
    case Finish(task) => assert Apply(s, step).tasks.Keys == s.tasks.Keys; SameSize(s.tasks, Apply(s, step).tasks);
    case TryLock(task, session) => AcquireKeepsInv(s, task, session);
    case _ =>
  }

  lemma SameSize(a: map<Task, TaskInfo>, b: map<Task, TaskInfo>)
    requires a.Keys == b.Keys
    ensures |a| == |b|
  {
    assert |a| == |a.Keys| && |b| == |b.Keys|;
  }

  lemma TaskLeaves(s: State, task: Task)
    requires Inv(s) && task in s.tasks
    ensures |s.tasks - {task}| == |s.tasks| - 1
    ensures s.hold.Held? && s.hold.count == 1 ==> s.tasks - {task} == map[]
  {
    var rest := s.tasks - {task};
    assert rest.Keys == s.tasks.Keys - {task} && |rest| == |rest.Keys| && |s.tasks| == |s.tasks.Keys|;
  }

  lemma AcquireKeepsInv(s: State, task: Task, session: Session)
    requires Inv(s) && Enabled(s, TryLock(task, session))
    ensures Inv(Apply(s, TryLock(task, session)))
  {
    var n := Apply(s, TryLock(task, session));
    if Grants(s.hold, session) {
      assert n.tasks.Keys == s.tasks.Keys + {task} && |n.tasks| == |n.tasks.Keys| && |s.tasks| == |s.tasks.Keys|;
    }
  }

  lemma CrashKeepsInv(s: State, replica: Replica)
    requires Inv(s)
    ensures Inv(Apply(s, Crash(replica)))
  {
    var n := Apply(s, Crash(replica));
    KeepingFewerTasks(s.tasks, n.tasks);
    if n.hold.Free? {
      forall t | t in s.tasks ensures OnHolder(s, s.tasks[t]) {}
      forall t | t in n.tasks.Keys ensures false {}
    }
  }

  lemma KeepingFewerTasks(tasks: map<Task, TaskInfo>, kept: map<Task, TaskInfo>)
    requires kept.Keys <= tasks.Keys
    ensures |kept| <= |tasks|
  {
    assert tasks.Keys == kept.Keys + (tasks.Keys - kept.Keys);
    assert |kept| == |kept.Keys| && |tasks| == |tasks.Keys|;
  }

  /** In every interleaving of any number of replicas, sessions and tasks, with lost replies, failed unlocks,
      unlocks on the wrong session and crashes, no two replicas run a task at once. */
  lemma {:induction false} Exclusion(s: State, steps: seq<Step>, t: State)
    requires Inv(s) && RunsConsiderately(s, steps, t)
    ensures Inv(t) && Exclusive(t)
    decreases |steps|
  {
    if steps != [] {
      StepKeepsInv(s, steps[0]);
      Exclusion(Apply(s, steps[0]), steps[1..], t);
    }
  }

  /** From the moment nothing is connected yet, no two replicas ever run a task at once. */
  lemma ExclusionFromStart(steps: seq<Step>, t: State)
    requires RunsConsiderately(START, steps, t)
    ensures Exclusive(t)
  {
    Exclusion(START, steps, t);
  }

  /** An unlock on another session of the replica releases nothing: the lock stays with the first session. */
  lemma WrongSessionKeepsLock(s: State, task: Task, session: Session)
    requires Inv(s) && Enabled(s, Unlock(task, session))
    ensures Apply(s, Unlock(task, session)).hold == s.hold <==> session != s.tasks[task].session
  {
  }

  /** A second task starts beside a running one exactly when the pool hands it the holding session. */
  lemma SecondTaskStartsIff(s: State, running: Task, task: Task, session: Session)
    requires Inv(s) && running in s.tasks && Enabled(s, TryLock(task, session))
    ensures task in Apply(s, TryLock(task, session)).tasks <==> session == s.tasks[running].session
  {
  }

  lemma {:induction false} Fresh(used: set<int>) returns (x: int)
    ensures x !in used
  {
    x := Bound(used) + 1;
  }

  ghost function Bound(used: set<int>): (b: int)
    ensures forall x | x in used :: x <= b
  {
    if forall x :: x !in used then 0 else
    var x :| x in used;
    var b := Bound(used - {x});
    assert forall y | y in used :: y == x || y in used - {x};
    if b < x then x else b
  }

  lemma RunTwo(s: State, a: Step, b: Step)
    requires Enabled(s, a) && Enabled(Apply(s, a), b)
    ensures Runs(s, [a, b], Apply(Apply(s, a), b))
  {
    assert [a, b][1..] == [b] && [b][1..] == [];
  }

  lemma {:induction false} RunsCompose(s: State, a: seq<Step>, t: State, b: seq<Step>, u: State)
    requires Runs(s, a, t) && Runs(t, b, u)
    ensures Runs(s, a + b, u)
    decreases |a|
  {
    if a == [] {
      assert a + b == b;
    } else {
      assert (a + b)[1..] == a[1..] + b;
      RunsCompose(Apply(s, a[0]), a[1..], t, b, u);
    }
  }

  /** With the lock free and a task running, another replica can run one too. */
  lemma FreeLockIsStolen(s: State, victim: Task) returns (steps: seq<Step>, t: State)
    requires s.hold.Free? && victim in s.tasks && s.tasks[victim].phase == Running
    ensures Runs(s, steps, t) && !Exclusive(t)
    ensures forall i | 0 <= i < |steps| :: !steps[i].Close?
  {
    var x := Fresh(s.sessions.Keys);
    var u := Fresh(s.tasks.Keys);
    var a, b := Connect(x, s.tasks[victim].replica + 1), TryLock(u, x);
    RunTwo(s, a, b);
    steps, t := [a, b], Apply(Apply(s, a), b);
    assert t.tasks[u].replica != t.tasks[victim].replica;
  }

  lemma NoTasks(tasks: map<Task, TaskInfo>)
    requires forall x :: x !in tasks
    ensures tasks == map[]
  {
    forall x | x in tasks.Keys ensures false {}
  }

  lemma SomeTask(tasks: map<Task, TaskInfo>) returns (t: Task)
    requires tasks != map[]
    ensures t in tasks
  {
    if forall x :: x !in tasks { NoTasks(tasks); }
    t :| t in tasks;
  }

  /** Dropping the holding session under a live task opens the way to two replicas running at once. */
  lemma DroppingTheHolderIsUnsafe(s: State, session: Session) returns (steps: seq<Step>, t: State)
    requires Inv(s) && Enabled(s, Close(session)) && !Considerate(s, Close(session))
    ensures Runs(Apply(s, Close(session)), steps, t) && !Exclusive(t)
    ensures forall i | 0 <= i < |steps| :: !steps[i].Close?
  {
    var n := Apply(s, Close(session));
    var victim := SomeTask(n.tasks);
    if n.tasks[victim].phase == Running {
      steps, t := FreeLockIsStolen(n, victim);
    } else {
      var x := Fresh(n.sessions.Keys);
      var u := Fresh(n.tasks.Keys);
      var r := n.tasks[victim].replica;
      var a, b, c := Connect(x, r), TryLock(u, x), Unlock(victim, x);
      RunTwo(n, a, b);
      var m := Apply(Apply(n, a), b);
      var k := Apply(m, c);
      assert Runs(m, [c], k) by { assert [c][1..] == []; }
      RunsCompose(n, [a, b], m, [c], k);
      var rest: seq<Step>;
      rest, t := FreeLockIsStolen(k, u);
      RunsCompose(n, [a, b] + [c], k, rest, t);
      steps := [a, b] + [c] + rest;
    }
  }

  /** Whatever considerate steps follow, no two replicas run a task at once. */
  ghost predicate StaysExclusive(s: State) {
    forall steps: seq<Step>, t: State :: RunsConsiderately(s, steps, t) ==> Exclusive(t)
  }

  lemma NotExclusiveAfter(s: State, steps: seq<Step>, t: State)
    requires RunsConsiderately(s, steps, t) && !Exclusive(t)
    ensures !StaysExclusive(s)
  {
    hide Exclusive, RunsConsiderately;
  }

  /** Dropping a session keeps the lock's promise exactly when it is not the holding session of a live task. */
  lemma DropIsSafeIff(s: State, session: Session)
    requires Inv(s) && Enabled(s, Close(session))
    ensures Considerate(s, Close(session)) <==> StaysExclusive(Apply(s, Close(session)))
  {
    var n := Apply(s, Close(session));
    if Considerate(s, Close(session)) {
      StepKeepsInv(s, Close(session));
      forall steps, t | RunsConsiderately(n, steps, t) ensures Exclusive(t) { Exclusion(n, steps, t); }
    } else {
      var steps, t := DroppingTheHolderIsUnsafe(s, session);
      RunsWithoutClosing(n, steps, t);
      NotExclusiveAfter(n, steps, t);
    }
  }

  lemma {:induction false} RunsWithoutClosing(s: State, steps: seq<Step>, t: State)
    requires Runs(s, steps, t) && forall i | 0 <= i < |steps| :: !steps[i].Close?
    ensures RunsConsiderately(s, steps, t)
    decreases |steps|
  {
    if steps != [] {
      assert !steps[0].Close?;
      RunsWithoutClosing(Apply(s, steps[0]), steps[1..], t);
    }
  }

  /** How a query goes: it never reaches the database, its answer is lost, or it is answered. */
  datatype Query = NotSent | AnswerLost | Answered

  /** The lock table as the client code drives it. */
  class LockTable {
    var hold: Hold

    constructor ()
      ensures hold == Free
    {
      hold := Free;
    }

    method TryAcquire(session: Session) returns (acquired: bool)
      modifies this
      ensures acquired == (old(hold).Free? || old(hold).session == session) && hold == AfterTryLock(old(hold), session)
      ensures hold == if acquired then Held(session, 1 + if old(hold).Free? then 0 else old(hold).count) else old(hold)
    {
      acquired := hold.Free? || hold.session == session;
      if acquired {
        hold := Held(session, if hold.Free? then 1 else hold.count + 1);
      }
    }

    method Release(session: Session) returns (released: bool)
      modifies this
      ensures released == (old(hold).Held? && old(hold).session == session)
      ensures hold == AfterUnlock(old(hold), session)
      ensures hold == if !released then old(hold) else if old(hold).count <= 1 then Free else Held(session, old(hold).count - 1)
    {
      released := hold.Held? && hold.session == session;
      if released {
        hold := if hold.count <= 1 then Free else Held(session, hold.count - 1);
      }
    }

    /** Acquire, run, release, with queries that may fail before or after the database has executed them. The task is
        skipped when another session holds the lock, and it does not run when the answer to the lock query is lost. The
        lock is left as it was found exactly when it was not taken, or the task ran and the unlock reached the same session. */
    method WithAdvisoryLock(acquireOn: Session, acquire: Query, taskFails: bool, releaseOn: Session, release: Query)
      returns (ran: bool, threw: bool)
      requires hold.Held? ==> hold.count >= 1
      modifies this
      ensures ran == (acquire == Answered && (old(hold).Free? || old(hold).session == acquireOn))
      ensures threw == (acquire != Answered || (ran && (taskFails || release != Answered)))
      ensures hold == old(hold) <==>
        || acquire == NotSent || (old(hold).Held? && old(hold).session != acquireOn)
        || (ran && release != NotSent && acquireOn == releaseOn)
      ensures hold != old(hold) ==> hold == Held(acquireOn, 1 + if old(hold).Free? then 0 else old(hold).count)
    {
      ran, threw := false, false;
      if acquire == NotSent { return false, true; }
      var acquired := TryAcquire(acquireOn);
      if acquire == AnswerLost { return false, true; }
      if !acquired { return; }
      ran, threw := true, taskFails || release != Answered;
      if release != NotSent {
        var released := Release(releaseOn);
      }
    }
  }
}
