/** The payroll scheduler keeps one cron task per enabled schedule. A refresh brings the tasks in line
    with the schedule table; stopping and starting single tasks may fail. */
module JobScheduler {

  /** `terms` stands for the columns a run uses: worker, rate, duration. */
  datatype Schedule = Schedule(id: int, cron: string, terms: string)

  datatype Job = Job(task: nat, cron: string)

  /** The scheduler's own map, and the tasks that really run, each with the row it was created from. */
  datatype Jobs = Jobs(active: map<int, Job>, live: map<nat, Schedule>, next: nat)

  /** The ids whose task refuses to stop, or to start, during one refresh. */
  datatype Faults = Faults(stop: set<int>, start: set<int>)

  const NO_FAULTS := Faults({}, {})

  predicate Keyed(rows: seq<Schedule>) {
    forall i, j | 0 <= i < j < |rows| :: rows[i].id != rows[j].id
  }

  function Ids(rows: seq<Schedule>): set<int> {
    set i | 0 <= i < |rows| :: rows[i].id
  }

  function Without(s: Jobs, ids: set<int>): Jobs {
    Jobs(s.active - ids, s.live - (set id | id in s.active && id in ids :: s.active[id].task), s.next)
  }

  function Unscheduled(s: Jobs, id: int, f: Faults): Jobs {
    if id in s.active && id !in f.stop then Without(s, {id}) else s
  }

  function Scheduled(s: Jobs, row: Schedule, f: Faults, valid: string -> bool): Jobs {
    if !valid(row.cron) || row.id in s.active || row.id in f.start then s
    else Jobs(s.active[row.id := Job(s.next, row.cron)], s.live[s.next := row], s.next + 1)
  }

  function RowDone(s: Jobs, row: Schedule, f: Faults, valid: string -> bool): Jobs {
    if row.id !in s.active then Scheduled(s, row, f, valid)
    else if s.active[row.id].cron != row.cron then Scheduled(Unscheduled(s, row.id, f), row, f, valid)
    else s
  }

  function RowsDone(s: Jobs, rows: seq<Schedule>, f: Faults, valid: string -> bool): Jobs {
    if rows == [] then s else RowDone(RowsDone(s, rows[..|rows| - 1], f, valid), rows[|rows| - 1], f, valid)
  }

  function Gone(s: Jobs, rows: seq<Schedule>, f: Faults): set<int> {
    set id | id in s.active && id !in Ids(rows) && id !in f.stop
  }

  function Refreshed(s: Jobs, rows: seq<Schedule>, f: Faults, valid: string -> bool): Jobs {
    RowsDone(Without(s, Gone(s, rows, f)), rows, f, valid)
  }

  // ---------------------------------------------------------------------------------------------

  /** The running tasks are exactly those in the map, one per id, each on the cron expression the map says. */
  ghost predicate Agree(s: Jobs, valid: string -> bool) {
    && (forall id | id in s.active ::
         && s.active[id].task in s.live && s.live[s.active[id].task].id == id
         && s.live[s.active[id].task].cron == s.active[id].cron && valid(s.active[id].cron))
    && (forall t | t in s.live :: t < s.next && s.live[t].id in s.active && s.active[s.live[t].id].task == t)
  }

  lemma WithoutAgrees(s: Jobs, ids: set<int>, valid: string -> bool)
    requires Agree(s, valid)
    ensures Agree(Without(s, ids), valid)
    ensures forall id | id in s.active && id !in ids :: SameJob(s, Without(s, ids), id)
  {
  }

  lemma RowKeepsAgreement(s: Jobs, row: Schedule, f: Faults, valid: string -> bool)
    requires Agree(s, valid)
    ensures Agree(RowDone(s, row, f, valid), valid)
  {
    WithoutAgrees(s, {row.id}, valid);
  }

  lemma {:induction false} RowsKeepAgreement(s: Jobs, rows: seq<Schedule>, f: Faults, valid: string -> bool)
    requires Agree(s, valid)
    ensures Agree(RowsDone(s, rows, f, valid), valid)
  {
    hide Agree, RowDone;
    if rows != [] {
      RowsKeepAgreement(s, rows[..|rows| - 1], f, valid);
      RowKeepsAgreement(RowsDone(s, rows[..|rows| - 1], f, valid), rows[|rows| - 1], f, valid);
    }
  }

  /** A refresh keeps map and tasks in agreement, whatever fails. */
  lemma RefreshKeepsAgreement(s: Jobs, rows: seq<Schedule>, f: Faults, valid: string -> bool)
    requires Agree(s, valid)
    ensures Agree(Refreshed(s, rows, f, valid), valid)
  {
    WithoutAgrees(s, Gone(s, rows, f), valid);
    RowsKeepAgreement(Without(s, Gone(s, rows, f)), rows, f, valid);
  }

  datatype Refresh = Refresh(rows: seq<Schedule>, faults: Faults)

  function History(refreshes: seq<Refresh>, valid: string -> bool): Jobs {
    if refreshes == [] then Jobs(map[], map[], 0)
    else
      var last := refreshes[|refreshes| - 1];
      Refreshed(History(refreshes[..|refreshes| - 1], valid), last.rows, last.faults, valid)
  }

  /** A history is its refreshes one after the other, from an empty scheduler. */
  lemma HistoryGoesOn(refreshes: seq<Refresh>, next: Refresh, valid: string -> bool)
    ensures History([], valid) == Jobs(map[], map[], 0)
    ensures History(refreshes + [next], valid) == Refreshed(History(refreshes, valid), next.rows, next.faults, valid)
  {
    assert (refreshes + [next])[..|refreshes|] == refreshes;
  }

  /** After any history of refreshes, over any tables and with any failures. */
  lemma {:induction false} HistoryAgrees(refreshes: seq<Refresh>, valid: string -> bool)
    ensures Agree(History(refreshes, valid), valid)
  {
    if refreshes != [] {
      HistoryAgrees(refreshes[..|refreshes| - 1], valid);
      var last := refreshes[|refreshes| - 1];
      RefreshKeepsAgreement(History(refreshes[..|refreshes| - 1], valid), last.rows, last.faults, valid);
    }
  }

  // ---------------------------------------------------------------------------------------------
  // What a refresh does to one id.

  /** The id has no job in either state, or the same task, created from the same row. */
  ghost predicate SameJob(s: Jobs, t: Jobs, id: int) {
    if id in s.active then
      && id in t.active && t.active[id] == s.active[id]
      && (s.active[id].task in s.live ==> s.active[id].task in t.live && t.live[s.active[id].task] == s.live[s.active[id].task])
    else id !in t.active
  }

  /** The id runs a task created from this very row. */
  ghost predicate RunsRow(s: Jobs, row: Schedule) {
    && row.id in s.active && s.active[row.id].cron == row.cron
    && s.active[row.id].task in s.live && s.live[s.active[row.id].task] == row
  }

  /** A row's id keeps its job if its cron is unchanged, or if it cannot be stopped; otherwise it
      runs the row, unless its cron is invalid or it cannot be started. */
  ghost predicate RowOutcome(s: Jobs, t: Jobs, row: Schedule, f: Faults, valid: string -> bool) {
    if row.id in s.active && (s.active[row.id].cron == row.cron || row.id in f.stop) then SameJob(s, t, row.id)
    else if valid(row.cron) && row.id !in f.start then RunsRow(t, row)
    else row.id !in t.active
  }

  lemma RowHasOutcome(s: Jobs, row: Schedule, f: Faults, valid: string -> bool)
    requires Agree(s, valid)
    ensures RowOutcome(s, RowDone(s, row, f, valid), row, f, valid)
    ensures forall id | id != row.id :: SameJob(s, RowDone(s, row, f, valid), id)
  {
    WithoutAgrees(s, {row.id}, valid);
  }

  lemma SameJobTwice(s: Jobs, t: Jobs, u: Jobs, id: int, valid: string -> bool)
    requires Agree(s, valid) && SameJob(s, t, id) && SameJob(t, u, id)
    ensures SameJob(s, u, id)
  {
  }

  lemma OutcomeLasts(s: Jobs, t: Jobs, u: Jobs, row: Schedule, f: Faults, valid: string -> bool)
    requires Agree(s, valid) && RowOutcome(s, t, row, f, valid) && SameJob(t, u, row.id)
    ensures RowOutcome(s, u, row, f, valid)
  {
  }

  lemma OutcomeFromSame(s: Jobs, t: Jobs, u: Jobs, row: Schedule, f: Faults, valid: string -> bool)
    requires Agree(s, valid) && SameJob(s, t, row.id) && RowOutcome(t, u, row, f, valid)
    ensures RowOutcome(s, u, row, f, valid)
  {
  }

  lemma IdsOfPrefix(rows: seq<Schedule>, n: nat)
    requires n < |rows|
    ensures rows[n].id in Ids(rows) && Ids(rows[..n]) <= Ids(rows)
    ensures Keyed(rows) ==> rows[n].id !in Ids(rows[..n])
  {
    forall id | id in Ids(rows[..n]) ensures id in Ids(rows) && (Keyed(rows) ==> id != rows[n].id) {
      var i :| 0 <= i < n && rows[..n][i].id == id;
      assert rows[i].id == id;
    }
  }

  lemma {:induction false} RowsHaveOutcome(s: Jobs, rows: seq<Schedule>, f: Faults, valid: string -> bool, id: int)
    requires Agree(s, valid) && Keyed(rows)
    ensures id !in Ids(rows) ==> SameJob(s, RowsDone(s, rows, f, valid), id)
    ensures forall i | 0 <= i < |rows| && rows[i].id == id :: RowOutcome(s, RowsDone(s, rows, f, valid), rows[i], f, valid)
  {
    hide RowDone, RowOutcome, SameJob, Agree, Ids;
    if rows == [] {
      NothingListed(s, id);
    } else {
      var n := |rows| - 1;
      var t, u := RowsDone(s, rows[..n], f, valid), RowsDone(s, rows, f, valid);
      RowsHaveOutcome(s, rows[..n], f, valid, id);
      RowsKeepAgreement(s, rows[..n], f, valid);
      RowHasOutcome(t, rows[n], f, valid);
      IdsOfPrefix(rows, n);
      if id !in Ids(rows) { SameJobTwice(s, t, u, id, valid); }
      forall i | 0 <= i < |rows| && rows[i].id == id ensures RowOutcome(s, u, rows[i], f, valid) {
        if i < n {
          assert rows[..n][i] == rows[i];
          OutcomeLasts(s, t, u, rows[i], f, valid);
        } else {
          OutcomeFromSame(s, t, u, rows[n], f, valid);
        }
      }
    }
  }

  lemma NothingListed(s: Jobs, id: int)
    ensures SameJob(s, s, id)
  {
  }

  /** The whole effect of a refresh, id by id: jobs without a row go unless they cannot be stopped. */
  lemma RefreshOutcome(s: Jobs, rows: seq<Schedule>, f: Faults, valid: string -> bool)
    requires Agree(s, valid) && Keyed(rows)
    ensures
      var t := Refreshed(s, rows, f, valid);
      && (forall i | 0 <= i < |rows| :: RowOutcome(s, t, rows[i], f, valid))
      && (forall id | id !in Ids(rows) :: if id in f.stop then SameJob(s, t, id) else id !in t.active)
  {
    var gone := Gone(s, rows, f);
    var u, t := Without(s, gone), Refreshed(s, rows, f, valid);
    WithoutAgrees(s, gone, valid);
    forall i | 0 <= i < |rows| ensures RowOutcome(s, t, rows[i], f, valid) {
      assert rows[i].id in Ids(rows);
      RowsHaveOutcome(u, rows, f, valid, rows[i].id);
      assert RowOutcome(u, t, rows[i], f, valid);
    }
    forall id | id !in Ids(rows) ensures if id in f.stop then SameJob(s, t, id) else id !in t.active {
      RowsHaveOutcome(u, rows, f, valid, id);
    }
  }

  function Crons(s: Jobs): map<int, string> {
    map id | id in s.active :: s.active[id].cron
  }

  /** What should run: the rows whose cron expression is valid. */
  ghost predicate IsTable(m: map<int, string>, rows: seq<Schedule>, valid: string -> bool) {
    && (forall i | 0 <= i < |rows| && valid(rows[i].cron) :: rows[i].id in m && m[rows[i].id] == rows[i].cron)
    && (forall id | id in m :: exists i | 0 <= i < |rows| :: rows[i].id == id && valid(rows[i].cron))
  }

  lemma RowOf(rows: seq<Schedule>, id: int) returns (i: nat)
    requires id in Ids(rows)
    ensures i < |rows| && rows[i].id == id
  {
    i :| 0 <= i < |rows| && rows[i].id == id;
  }

  lemma CleanRefreshMakesTable(s: Jobs, rows: seq<Schedule>, valid: string -> bool)
    requires Agree(s, valid) && Keyed(rows)
    ensures IsTable(Crons(Refreshed(s, rows, NO_FAULTS, valid)), rows, valid)
  {
    var t := Refreshed(s, rows, NO_FAULTS, valid);
    RefreshOutcome(s, rows, NO_FAULTS, valid);
    forall i | 0 <= i < |rows| && valid(rows[i].cron)
      ensures rows[i].id in t.active && t.active[rows[i].id].cron == rows[i].cron
    {
      assert RowOutcome(s, t, rows[i], NO_FAULTS, valid);
    }
    forall id | id in t.active ensures exists i | 0 <= i < |rows| :: rows[i].id == id && valid(rows[i].cron) {
      var i := RowOf(rows, id);
      assert RowOutcome(s, t, rows[i], NO_FAULTS, valid);
    }
  }

  /** A refresh without failures, from any state, yields the jobs one would build from scratch. */
  lemma CleanRefreshStartsAfresh(s: Jobs, rows: seq<Schedule>, valid: string -> bool)
    requires Agree(s, valid) && Keyed(rows)
    ensures Crons(Refreshed(s, rows, NO_FAULTS, valid))
         == Crons(Refreshed(Jobs(map[], map[], 0), rows, NO_FAULTS, valid))
  {
    CleanRefreshMakesTable(s, rows, valid);
    CleanRefreshMakesTable(Jobs(map[], map[], 0), rows, valid);
    SameTable(Crons(Refreshed(s, rows, NO_FAULTS, valid)),
              Crons(Refreshed(Jobs(map[], map[], 0), rows, NO_FAULTS, valid)), rows, valid);
  }

  lemma SameTable(m: map<int, string>, n: map<int, string>, rows: seq<Schedule>, valid: string -> bool)
    requires IsTable(m, rows, valid) && IsTable(n, rows, valid)
    ensures m == n
  {
    forall id | id in m ensures id in n && n[id] == m[id] {
      var i :| 0 <= i < |rows| && rows[i].id == id && valid(rows[i].cron);
    }
    forall id | id in n ensures id in m {
      var i :| 0 <= i < |rows| && rows[i].id == id && valid(rows[i].cron);
    }
  }

  /** A job whose row still has its cron expression keeps its task, even when other jobs fail. */
  lemma UnchangedJobIsKept(s: Jobs, rows: seq<Schedule>, f: Faults, valid: string -> bool, i: nat)
    requires Agree(s, valid) && Keyed(rows) && i < |rows|
    requires rows[i].id in s.active && s.active[rows[i].id].cron == rows[i].cron
    ensures SameJob(s, Refreshed(s, rows, f, valid), rows[i].id)
  {
    RefreshOutcome(s, rows, f, valid);
    assert RowOutcome(s, Refreshed(s, rows, f, valid), rows[i], f, valid);
  }

  /** Nothing left to do: every row runs if its cron expression is valid. */
  ghost predicate Settled(s: Jobs, rows: seq<Schedule>, valid: string -> bool) {
    forall i | 0 <= i < |rows| ::
      if valid(rows[i].cron) then rows[i].id in s.active && s.active[rows[i].id].cron == rows[i].cron
      else rows[i].id !in s.active
  }

  lemma {:induction false} SettledStays(s: Jobs, rows: seq<Schedule>, f: Faults, valid: string -> bool)
    requires Settled(s, rows, valid)
    ensures RowsDone(s, rows, f, valid) == s
  {
    if rows != [] {
      assert forall i | 0 <= i < |rows| - 1 :: rows[..|rows| - 1][i] == rows[i];
      SettledStays(s, rows[..|rows| - 1], f, valid);
    }
  }

  /** A second refresh over the same table changes nothing at all, not even by failing. */
  lemma RefreshIsIdempotent(s: Jobs, rows: seq<Schedule>, f: Faults, valid: string -> bool)
    requires Agree(s, valid) && Keyed(rows)
    ensures
      var t := Refreshed(s, rows, NO_FAULTS, valid);
      Refreshed(t, rows, f, valid) == t
  {
    var t := Refreshed(s, rows, NO_FAULTS, valid);
    RefreshOutcome(s, rows, NO_FAULTS, valid);
    assert Settled(t, rows, valid) by {
      assert forall i | 0 <= i < |rows| :: RowOutcome(s, t, rows[i], NO_FAULTS, valid);
    }
    forall id | id in t.active ensures id in Ids(rows) {}
    assert Gone(t, rows, f) == {};
    assert Without(t, {}) == t;
    SettledStays(t, rows, f, valid);
  }

  /** A job runs its schedule's current row after a refresh without failures exactly when it was new, its cron
      expression changed, or the row had not changed: any other change of the row is not picked up. */
  lemma CurrentRowRunsIff(s: Jobs, rows: seq<Schedule>, valid: string -> bool, i: nat)
    requires Agree(s, valid) && Keyed(rows) && i < |rows| && valid(rows[i].cron)
    ensures
      RunsRow(Refreshed(s, rows, NO_FAULTS, valid), rows[i])
      <==> (rows[i].id !in s.active || s.active[rows[i].id].cron != rows[i].cron
            || s.live[s.active[rows[i].id].task].terms == rows[i].terms)
  {
    RefreshOutcome(s, rows, NO_FAULTS, valid);
    assert RowOutcome(s, Refreshed(s, rows, NO_FAULTS, valid), rows[i], NO_FAULTS, valid);
  }

  /** Shutting down stops every job that can be stopped, and no other. */
  lemma ShutdownStopsAll(s: Jobs, f: Faults, valid: string -> bool)
    requires Agree(s, valid)
    ensures Agree(Refreshed(s, [], f, valid), valid)
    ensures forall t :: t in Refreshed(s, [], f, valid).live <==> t in s.live && s.live[t].id in f.stop
  {
    RefreshKeepsAgreement(s, [], f, valid);
    RefreshOutcome(s, [], f, valid);
    var r := Refreshed(s, [], f, valid);
    forall t | t in s.live && s.live[t].id in f.stop ensures t in r.live { assert SameJob(s, r, s.live[t].id); }
    forall t | t in r.live ensures t in s.live && s.live[t].id in f.stop {
      assert SameJob(s, r, r.live[t].id);
    }
  }

  // ---------------------------------------------------------------------------------------------
  // The scheduler.

  lemma WithoutMore(s: Jobs, ids: set<int>, id: int, valid: string -> bool)
    requires Agree(s, valid) && id !in ids
    ensures Without(Without(s, ids), {id}) == Without(s, ids + {id})
  {
  }

  lemma WithoutNone(s: Jobs)
    ensures Without(s, {}) == s
  {
  }

  lemma SomeMember(ids: set<int>)
    requires ids != {}
    ensures exists id :: id in ids
  {
    if forall id :: id !in ids {}
  }

  class Scheduler {
    const valid: string -> bool
    var activeJobs: map<int, Job>
    var tasks: map<nat, Schedule>
    var next: nat

    constructor (valid: string -> bool)
      ensures this.valid == valid && State() == Jobs(map[], map[], 0)
    {
      this.valid, activeJobs, tasks, next := valid, map[], map[], 0;
    }

    ghost function State(): Jobs
      reads this
    {
      Jobs(activeJobs, tasks, next)
    }

    method ScheduleJob(row: Schedule, f: Faults) returns (done: bool)
      modifies this
      ensures State() == Scheduled(old(State()), row, f, valid)
      ensures done <==> valid(row.cron) && row.id !in old(activeJobs) && row.id !in f.start
    {
      if !valid(row.cron) { return false; }
      if row.id in activeJobs { return false; }
      if row.id in f.start { return false; }
      tasks := tasks[next := row];
      activeJobs := activeJobs[row.id := Job(next, row.cron)];
      next := next + 1;
      done := true;
    }

    method UnscheduleJob(id: int, f: Faults) returns (done: bool)
      modifies this
      ensures State() == Unscheduled(old(State()), id, f)
      ensures done <==> id in old(activeJobs) && id !in f.stop
    {
      if id !in activeJobs { return false; }
      if id in f.stop { return false; }
      tasks := tasks - {activeJobs[id].task};
      activeJobs := activeJobs - {id};
      done := true;
      assert (set k | k in old(activeJobs) && k in {id} :: old(activeJobs)[k].task) == {old(activeJobs)[id].task};
    }

    method UnscheduleMissing(rows: seq<Schedule>, f: Faults)
      requires Agree(State(), valid)
      modifies this
      ensures State() == Without(old(State()), Gone(old(State()), rows, f))
    {
      hide Agree;
      ghost var start := State();
      WithoutNone(start);
      var left := activeJobs.Keys;
      ghost var gone := {};
      while left != {}
        invariant left <= start.active.Keys && gone == Gone(start, rows, f) - left
        invariant State() == Without(start, gone)
        decreases |left|
      {
        SomeMember(left);
        var id :| id in left;
        left := left - {id};
        if forall i | 0 <= i < |rows| :: rows[i].id != id {
          var done := UnscheduleJob(id, f);
          assert id !in Ids(rows);
          if done {
            WithoutMore(start, gone, id, valid);
            gone := gone + {id};
          }
        }
      }
      assert gone == Gone(start, rows, f);
    }

    method RefreshJobs(rows: seq<Schedule>, f: Faults)
      requires Agree(State(), valid)
      modifies this
      ensures State() == Refreshed(old(State()), rows, f, valid)
      ensures Agree(State(), valid)
    {
      hide Agree, Without, Gone;
      ghost var start := State();
      UnscheduleMissing(rows, f);
      for i := 0 to |rows|
        invariant State() == RowsDone(Without(start, Gone(start, rows, f)), rows[..i], f, valid)
      {
        assert rows[..i + 1][..i] == rows[..i];
        var row := rows[i];
        if row.id !in activeJobs {
          var done := ScheduleJob(row, f);
        } else if activeJobs[row.id].cron != row.cron {
          var stopped := UnscheduleJob(row.id, f);
          var done := ScheduleJob(row, f);
        }
      }
      assert rows[..|rows|] == rows;
      RefreshKeepsAgreement(start, rows, f, valid);
    }
  }
}
