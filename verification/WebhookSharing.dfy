/** When the life cycle of an item that is listed once more holds for good. */
module WebhookSharing {
  import opened WebhookDeadLetters
  import opened WebhookLifeCycle
  import opened WebhookOverlap
  import opened WebhookStarvation

  /** Every listed row, and every row in hand, is in the table. Rows are never deleted, so this always holds. */
  ghost predicate RowsExist(q: Queue) {
    forall b | b in q.open ::
      && (forall i | 0 <= i < |q.open[b].rest| :: q.open[b].rest[i].id in q.items)
      && (!q.open[b].work.Free? ==> q.open[b].work.row.id in q.items)
  }

  lemma StepKeepsRows(q: Queue, s: Step)
    requires RowsExist(q)
    ensures RowsExist(Do(q, s)) && q.items.Keys <= Do(q, s).items.Keys
  {
    hide Deliveries, Count, Writes, Written, WriteEvents, Expected, Before, SkippedAll;
  }

  lemma {:induction false} RowsAlwaysExist(q: Queue, steps: seq<Step>)
    requires RowsExist(q)
    ensures RowsExist(Run(q, steps))
  {
    hide Do, RowsExist;
    if steps != [] {
      RowsAlwaysExist(q, steps[..|steps| - 1]);
      StepKeepsRows(Run(q, steps[..|steps| - 1]), steps[|steps| - 1]);
    }
  }

  predicate DrawsNoList(steps: seq<Step>) {
    forall i | 0 <= i < |steps| :: !steps[i].Open?
  }

  /** Only this batch got on. */
  ghost predicate Moves(q: Queue, r: Queue, b: nat) {
    b in q.open && b in r.open && r.items == q.items && r.clock == q.clock && r.open == q.open[b := r.open[b]]
  }

  /** The batch has not written anything about the row it works on. */
  predicate NothingSaved(w: Work) {
    w.Delivering? || (w.Saving? && w.saved == 0)
  }

  /** The batch waits for the answer, if it has to. */
  lemma GetsAnswer(q: Queue, b: nat) returns (steps: seq<Step>)
    requires b in q.open && !q.open[b].work.Free?
    ensures
      var r, w := Run(q, steps), q.open[b].work;
      && DrawsNoList(steps) && Moves(q, r, b) && r.log == q.log
      && r.open[b] == Batch(q.open[b].rest, if w.Delivering? then Saving(w.row, w.ok, q.clock, 0) else w)
  {
    if q.open[b].work.Delivering? {
      steps := [Answer(b)];
      RunOne(q, Answer(b));
    } else {
      steps := [];
      RunNothing(q);
    }
  }

  /** The batch gives up the row it works on, if any. */
  lemma GivesUp(q: Queue, b: nat) returns (steps: seq<Step>)
    requires b in q.open
    ensures
      var r := Run(q, steps);
      && DrawsNoList(steps) && Moves(q, r, b) && r.open[b] == Batch(q.open[b].rest, Free)
      && forall id :: Count(r.log, Clobbered(id)) == Count(q.log, Clobbered(id))
  {
    hide Count, Run;
    if q.open[b].work.Free? {
      steps := [];
      RunNothing(q);
    } else {
      steps := GetsAnswer(q, b);
      var r := Run(q, steps);
      StepBy(q, steps, Fail(b));
      Logged(r.log, Faulted(r.open[b].work.row.id), 0);
      steps := steps + [Fail(b)];
    }
  }

  /** The batch takes the next row of its list. */
  lemma TakesNext(q: Queue, b: nat)
    requires b in q.open && q.open[b].work.Free? && q.open[b].rest != [] && q.open[b].rest[0].id in q.items
    ensures
      var r, row := Run(q, [Take(b, false)]), q.open[b].rest[0];
      && Moves(q, r, b) && r.open[b].rest == q.open[b].rest[1..]
      && NothingSaved(r.open[b].work) && r.open[b].work.row == row && WorksOn(r.open[b], row.id)
  {
    RunOne(q, Take(b, false));
  }

  lemma MovesOn(q: Queue, r: Queue, t: Queue, b: nat)
    requires Moves(q, r, b) && Moves(r, t, b)
    ensures Moves(q, t, b)
  {
  }

  /** Giving up what comes before, the batch gets to an item on its list. */
  lemma {:induction false} Reaches(q: Queue, b: nat, id: nat) returns (steps: seq<Step>)
    requires b in q.open && Lists(q.open[b], id) && RowsExist(q)
    ensures
      var r := Run(q, steps);
      && DrawsNoList(steps) && Moves(q, r, b) && WorksOn(r.open[b], id)
      && NothingSaved(r.open[b].work) && r.open[b].work.row in q.open[b].rest
    decreases |q.open[b].rest|
  {
    hide Run, Lists, RowsExist;
    var up := GivesUp(q, b);
    var q1 := Run(q, up);
    ListsSome(q.open[b], id);
    var row := q.open[b].rest[0];
    assert row.id in q.items by { ListedExists(q, b); }
    TakesNext(q1, b);
    RunOn(q, up, [Take(b, false)]);
    steps := up + [Take(b, false)];
    var q2 := Run(q1, [Take(b, false)]);
    MovesOn(q, q1, q2, b);
    if row.id != id {
      RestOfList(q.open[b], id);
      ListsByRest(q2.open[b], q.open[b].work, id);
      MovedRowsExist(q, q2, b);
      var more := Reaches(q2, b, id);
      RunOn(q, steps, more);
      MovesOn(q, q2, Run(q2, more), b);
      steps := steps + more;
    }
  }

  lemma ListsSome(b: Batch, id: nat)
    requires Lists(b, id)
    ensures b.rest != []
  {
  }

  lemma ListedExists(q: Queue, b: nat)
    requires RowsExist(q) && b in q.open && q.open[b].rest != []
    ensures q.open[b].rest[0].id in q.items
  {
  }

  lemma MovedRowsExist(q: Queue, r: Queue, b: nat)
    requires RowsExist(q) && Moves(q, r, b) && q.open[b].rest != [] && r.open[b].rest == q.open[b].rest[1..]
    requires !r.open[b].work.Free? && r.open[b].work.row == q.open[b].rest[0]
    ensures RowsExist(r)
  {
  }

  /** The batch performs its first write about the item in hand and gives it up. */
  lemma WritesOnce(q: Queue, b: nat, id: nat) returns (steps: seq<Step>, at: int)
    requires b in q.open && WorksOn(q.open[b], id) && NothingSaved(q.open[b].work) && id in q.items
    ensures
      var r, w := Run(q, steps), q.open[b].work;
      && DrawsNoList(steps) && r.clock == q.clock && r.open == q.open[b := Batch(q.open[b].rest, Free)]
      && r.items == q.items[id := Written(q.items[id], Writes(w.row.item, w.ok, at)[0])]
      && (q.items[id] != w.row.item ==> Count(r.log, Clobbered(id)) >= 1)
  {
    hide Run, Writes, Written, Count, Deliveries;
    var w := q.open[b].work;
    var ready := GetsAnswer(q, b);
    var q1 := Run(q, ready);
    at := q1.open[b].work.at;
    var write := Writes(w.row.item, w.ok, at)[0];
    var q2 := Do(q1, Save(b));
    assert Possible(q1, Save(b));
    StepBy(q, ready, Save(b));
    WriteLogged(q1.log, id, write, q.items[id] == w.row.item, id);
    assert Expected(w.row.item, Writes(w.row.item, w.ok, at), 0) == w.row.item;
    assert q2.log == q1.log + WriteEvents(id, write, q.items[id] == w.row.item);
    var up := GivesUp(q2, b);
    RunOn(q, ready + [Save(b)], up);
    steps := ready + [Save(b)] + up;
  }

  lemma FirstWriteChanges(item: Item, ok: bool, at: int)
    requires item.status == Pending
    ensures Written(item, Writes(item, ok, at)[0]) != item
  {
  }

  /** What the batch knows of the item is its current row, and it has written nothing about it. */
  ghost predicate KnowsCurrent(q: Queue, b: nat, id: nat)
    requires b in q.open && id in q.items
  {
    && (forall i | 0 <= i < |q.open[b].rest| && q.open[b].rest[i].id == id :: q.open[b].rest[i].item == q.items[id])
    && (WorksOn(q.open[b], id) ==> q.open[b].work.row.item == q.items[id] && NothingSaved(q.open[b].work))
  }

  /** The batch gets the item in its hands, if it has not yet. */
  lemma ComesToHave(q: Queue, b: nat, id: nat) returns (steps: seq<Step>)
    requires b in q.open && id in q.items && Claims(q.open[b], id) && KnowsCurrent(q, b, id) && RowsExist(q)
    ensures
      var r := Run(q, steps);
      && DrawsNoList(steps) && Moves(q, r, b) && WorksOn(r.open[b], id)
      && NothingSaved(r.open[b].work) && r.open[b].work.row.item == q.items[id] && RowsExist(r)
  {
    hide Run;
    if WorksOn(q.open[b], id) {
      steps := [];
      RunNothing(q);
    } else {
      steps := Reaches(q, b, id);
      RowsAlwaysExist(q, steps);
    }
  }

  /** The item is in nobody's hands, and out of its life cycle. */
  ghost predicate IsBroken(q: Queue, id: nat) {
    id in q.items && !InHand(q, id) && !LifeCycle(StoryOf(q, id))
  }

  lemma ClobberedIsBroken(q: Queue, id: nat)
    requires id in q.items && Count(q.log, Clobbered(id)) >= 1 && forall b | b in q.open :: !WorksOn(q.open[b], id)
    ensures IsBroken(q, id)
  {
    hide Count, Deliveries;
  }

  /** Two batches with one item: the first write of one of them makes the other overwrite it. */
  lemma SharedBreaks(q: Queue, b: nat, c: nat, id: nat) returns (steps: seq<Step>)
    requires b in q.open && c in q.open && b != c && id in q.items && q.items[id].status == Pending && RowsExist(q)
    requires Claims(q.open[b], id) && Claims(q.open[c], id) && KnowsCurrent(q, b, id) && KnowsCurrent(q, c, id)
    requires forall d | d in q.open && d != b && d != c :: !WorksOn(q.open[d], id)
    ensures DrawsNoList(steps) && IsBroken(Run(q, steps), id)
  {
    hide Run, Writes, Written, Count, RowsExist, Lists, IsBroken;
    var one := ComesToHave(q, b, id);
    var q1 := Run(q, one);
    var two := ComesToHave(q1, c, id);
    var q2 := Run(q1, two);
    var three, at := WritesOnce(q2, b, id);
    var q3 := Run(q2, three);
    FirstWriteChanges(q.items[id], q2.open[b].work.ok, at);
    var four, later := WritesOnce(q3, c, id);
    var q4 := Run(q3, four);
    ClobberedIsBroken(q4, id);
    RunOn(q, one, two);
    RunOn(q, one + two, three);
    RunOn(q, one + two + three, four);
    steps := one + two + three + four;
  }

  // ---------------------------------------------------------------------------------------------

  /** However it goes on, if only the item is never listed while a batch has it: it follows its life cycle whenever
      no batch has it in hand. */
  ghost predicate LivesOn(q: Queue, id: nat) {
    forall steps | AlwaysListedAlone(q, steps, id) ::
      id in Run(q, steps).items && (!InHand(Run(q, steps), id) ==> LifeCycle(StoryOf(Run(q, steps), id)))
  }

  lemma NoListsAlone(q: Queue, steps: seq<Step>, id: nat)
    requires DrawsNoList(steps)
    ensures AlwaysListedAlone(q, steps, id)
  {
  }

  lemma BrokenIsDead(q: Queue, steps: seq<Step>, id: nat)
    requires DrawsNoList(steps) && IsBroken(Run(q, steps), id)
    ensures !LivesOn(q, id)
  {
    hide Run, InHand, LifeCycle;
    NoListsAlone(q, steps, id);
  }

  lemma AliveLivesOn(q: Queue, id: nat)
    requires Alive(q, id)
    ensures LivesOn(q, id)
  {
    hide Run, InHand, LifeCycle, Sole, BatchWell, AlwaysListedAlone;
    forall steps | AlwaysListedAlone(q, steps, id)
      ensures id in Run(q, steps).items && (!InHand(Run(q, steps), id) ==> LifeCycle(StoryOf(Run(q, steps), id)))
    {
      RunKeepsAlive(q, steps, id);
    }
  }

  /** A pending item is known as it is to the batch that has it. */
  lemma PendingIsKnown(q: Queue, b: nat, id: nat)
    requires id in q.items && b in q.open && BatchWell(q, b, id) && q.items[id].status == Pending
    ensures KnowsCurrent(q, b, id)
  {
    hide LifeCycle, Unwritten, Deliveries, Count, EndsWell;
    if WorksOn(q.open[b], id) && q.open[b].work.Saving? {
      var Saving(row, ok, at, saved) := q.open[b].work;
      var ws := Writes(row.item, ok, at);
      var base := BaseOf(StoryOf(q, id), q.open[b].work, q.clock);
      SavedAsExpected(base, ws, saved);
      PendingIsUnsaved(row.item, ok, at, saved);
    }
  }

  lemma PendingIsUnsaved(item: Item, ok: bool, at: int, saved: nat)
    requires saved < |Writes(item, ok, at)|
    ensures saved == 0 ==> Expected(item, Writes(item, ok, at), saved) == item
    ensures saved > 0 ==> Expected(item, Writes(item, ok, at), saved).status != Pending
  {
    var ws := Writes(item, ok, at);
    if saved >= 1 { assert Expected(item, ws, 1) == Written(Expected(item, ws, 0), ws[0]); }
    if saved >= 2 { assert Expected(item, ws, 2) == Written(Expected(item, ws, 1), ws[1]); }
  }

  lemma OpenedKnows(q: Queue, b: nat, limit: nat, ids: seq<nat>, id: nat)
    requires Possible(q, Open(b, limit, ids)) && id in ids
    ensures
      var r := Effect(q, Open(b, limit, ids));
      && b !in q.open && id in q.items && q.items[id].status == Pending && r.items == q.items && r.open == q.open[b := r.open[b]]
      && Claims(r.open[b], id) && KnowsCurrent(r, b, id) && !WorksOn(r.open[b], id)
  {
    hide Before;
    var r := Effect(q, Open(b, limit, ids));
    var i :| 0 <= i < |ids| && ids[i] == id;
    assert r.open[b].rest[i].id == id;
  }

  /** Listing an item keeps its life cycle, in every continuation that lists it alone, if and only if no other batch has
      it on its list or in its hands. */
  lemma ListingKeepsLifeCycleIff(q: Queue, b: nat, limit: nat, ids: seq<nat>, id: nat)
    requires Alive(q, id) && RowsExist(q) && Possible(q, Open(b, limit, ids)) && id in ids
    ensures LivesOn(Do(q, Open(b, limit, ids)), id) <==> forall c | c in q.open :: !Claims(q.open[c], id)
  {
    hide Possible, Effect, BatchWell, KnowsCurrent, LifeCycle, Lists, LivesOn, IsBroken, RowsExist;
    var r := Do(q, Open(b, limit, ids));
    if c :| c in q.open && Claims(q.open[c], id) {
      OpenedKnows(q, b, limit, ids, id);
      StepKeepsRows(q, Open(b, limit, ids));
      PendingIsKnown(q, c, id);
      KnownStays(q, r, b, c, id);
      forall d | d in r.open && d != b && d != c ensures !WorksOn(r.open[d], id) { assert Claims(q.open[d], id) ==> d == c; }
      var steps := SharedBreaks(r, b, c, id);
      BrokenIsDead(r, steps, id);
    } else {
      OpenKeepsAlive(q, Open(b, limit, ids), id);
      AliveLivesOn(r, id);
    }
  }

  lemma KnownStays(q: Queue, r: Queue, b: nat, c: nat, id: nat)
    requires c in q.open && id in q.items && KnowsCurrent(q, c, id)
    requires b in r.open && r.items == q.items && r.open == q.open[b := r.open[b]] && b != c
    ensures c in r.open && r.open[c] == q.open[c] && KnowsCurrent(r, c, id)
  {
  }

  // ---------------------------------------------------------------------------------------------
  // Six deliveries, from the push on.

  /** The table holds only this item, waiting with `n` failed deliveries, and no batch is running. */
  ghost predicate WaitsAlone(q: Queue, id: nat, n: nat) {
    && q.open == map[] && q.items.Keys == {id} && n < MAX_RETRIES
    && q.items[id].deliverable && q.items[id].status == Pending && q.items[id].retryCount == n
    && |Deliveries(q.log, id)| == n && Count(q.log, Faulted(id)) == 0
  }

  lemma ComesDue(q: Queue, id: nat, n: nat) returns (t: nat)
    requires WaitsAlone(q, id, n)
    ensures WaitsAlone(Do(q, Wait(t)), id, n) && IsFirstDue(Do(q, Wait(t)), id) && Do(q, Wait(t)).items == q.items
  {
    hide Deliveries, Count, Before;
    t := if Key(q.items[id]) > q.clock then Key(q.items[id]) - q.clock else 0;
  }

  lemma DeliveredOnce(q: Queue, id: nat, n: nat)
    requires WaitsAlone(q, id, n) && IsFirstDue(q, id) && n + 1 < MAX_RETRIES
    ensures WaitsAlone(Run(q, [Open(0, 1, [id]), Take(0, false), Answer(0), Save(0), Close(0)]), id, n + 1)
  {
    hide Deliveries, Count, Before, DueList, Run, ListsDrawn;
    var row := Row(id, q.items[id]);
    OpensAlone(q, id);
    var q1 := q.(open := map[0 := Batch([row], Free)]);
    assert [row][1..] == [];
    var q2 := Do(q1, Take(0, false));
    assert q2 == q1.(log := q.log + [Delivered(id, q.clock, false)], open := map[0 := Batch([], Delivering(row, false))]);
    Logged(q.log, Delivered(id, q.clock, false), id);
    var q3 := Do(q2, Answer(0));
    assert q3 == q2.(open := map[0 := Batch([], Saving(row, false, q.clock, 0))]);
    var w := Patch(n + 1, NextRetryAt(n + 1, q.clock));
    assert Writes(row.item, false, q.clock) == [w];
    assert Expected(row.item, [w], 0) == row.item;
    var q4 := Do(q3, Save(0));
    assert q3.log + [] == q3.log;
    assert q4 == Queue(map[id := row.item.(retryCount := n + 1, nextRetryAt := NextRetryAt(n + 1, q.clock))], q3.log, q.clock, map[0 := Batch([], Free)]);
    ClosesAlone(q4);
    RunFive(q, Open(0, 1, [id]), Take(0, false), Answer(0), Save(0), Close(0));
  }

  lemma {:induction false} FailsOften(q: Queue, id: nat, n: nat) returns (steps: seq<Step>)
    requires WaitsAlone(q, id, 0) && n < MAX_RETRIES
    ensures WaitsAlone(Run(q, steps), id, n)
    decreases n
  {
    hide WaitsAlone, Run, IsFirstDue;
    steps := [];
    RunNothing(q);
    if n > 0 {
      steps := FailsOften(q, id, n - 1);
      var t := ComesDue(Run(q, steps), id, n - 1);
      StepBy(q, steps, Wait(t));
      DeliveredOnce(Do(Run(q, steps), Wait(t)), id, n - 1);
      var more := [Open(0, 1, [id]), Take(0, false), Answer(0), Save(0), Close(0)];
      RunOn(q, steps + [Wait(t)], more);
      steps := steps + [Wait(t)] + more;
    }
  }

  /** From the push into an empty table a run of the worker leads to six deliveries, though no fault falls on the item. */
  lemma PushedIsDeliveredSixTimes(q: Queue, id: nat) returns (steps: seq<Step>)
    requires q.items == map[] && q.open == map[] && Unknown(q, id) && Count(q.log, Faulted(id)) == 0
    ensures
      var r := Run(Do(q, Push(id, true)), steps);
      id in r.items && |StoryOf(r, id).deliveries| == 6 && StoryOf(r, id).faults == 0
  {
    hide Run, Deliveries, Count, IsFirstDue;
    var p := Do(q, Push(id, true));
    var four := FailsOften(p, id, 4);
    var t := ComesDue(Run(p, four), id, 4);
    StepBy(p, four, Wait(t));
    var q4 := Run(p, four + [Wait(t)]);
    var last := [Open(0, 1, [id]), Open(1, 1, [id]), Take(0, false), Take(1, false)];
    OverlapDeliversTwice(q4, id);
    RunOn(p, four + [Wait(t)], last);
    steps := four + [Wait(t)] + last;
  }
}
