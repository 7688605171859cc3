/** The batch worker, write by write. */
module WebhookWorker {
  import opened WebhookDeadLetters
  import opened WebhookLifeCycle
  import opened WebhookOverlap
  import opened WebhookStarvation

  /** How the processing of one row goes: the receiver's answer, the time it takes, and how many of the
      writes that follow reach the database before one fails. */
  datatype Attempt = Attempt(ok: bool, duration: nat, completed: nat)

  lemma AllListed(q: Queue, limit: nat, ids: seq<nat>)
    requires DueList(q, limit, ids)
    ensures |ids| <= limit && forall i | 0 <= i < |ids| :: ids[i] in q.items
  {
  }

  /** The retry time, with zero for none. */
  predicate IsDue(item: Item, clock: int) {
    item.status == Pending && match item.nextRetryAt case None => 0 <= clock case Some(t) => t <= clock
  }

  predicate InQueryOrder(a: Item, b: Item) {
    var x, y := if a.nextRetryAt.Some? then a.nextRetryAt.value else 0, if b.nextRetryAt.Some? then b.nextRetryAt.value else 0;
    x < y || (x == y && a.created <= b.created)
  }

  /** The milliseconds before the retry with this number. */
  function DelayBefore(retry: nat): int {
    match retry
    case 0 => 30_000
    case 1 => 120_000
    case 2 => 600_000
    case 3 => 3_600_000
    case _ => 21_600_000
  }

  /** The row after its processing, when all of that was saved: discarded without a delivery when it cannot be delivered or was
      delivered five times; replayed after success; else waiting for its next retry, or discarded after the fifth failure. */
  ghost predicate IsProcessed(listed: Item, ok: bool, now: int, before: Item, after: Item) {
    && after.deliverable == before.deliverable && after.created == before.created
    && if !listed.deliverable || listed.retryCount >= 5 then
         after.status == Discarded && after.retryCount == listed.retryCount && after.nextRetryAt == None
       else if ok then after.status == Replayed && after.retryCount == listed.retryCount && after.nextRetryAt == None
       else if listed.retryCount == 4 then after.status == Discarded && after.retryCount == 5 && after.nextRetryAt == None
       else
         && after.status == before.status && after.retryCount == listed.retryCount + 1
         && after.nextRetryAt == Some(now + DelayBefore(listed.retryCount + 1))
  }

  function WrittenAll(item: Item, ws: seq<Write>, n: nat): Item
    requires n <= |ws|
  {
    if n == 0 then item else Written(WrittenAll(item, ws, n - 1), ws[n - 1])
  }

  lemma AllWrittenIsProcessed(listed: Item, ok: bool, now: int, before: Item)
    ensures IsProcessed(listed, ok, now, before, WrittenAll(before, Writes(listed, ok, now), |Writes(listed, ok, now)|))
  {
    var ws := Writes(listed, ok, now);
    assert WrittenAll(before, ws, 1) == Written(before, ws[0]);
    if |ws| >= 2 { assert WrittenAll(before, ws, 2) == Written(WrittenAll(before, ws, 1), ws[1]); }
    if |ws| >= 3 { assert WrittenAll(before, ws, 3) == Written(WrittenAll(before, ws, 2), ws[2]); }
  }

  class Worker {
    var items: map<nat, Item>
    var clock: int
    ghost var log: seq<Event>
    ghost var open: map<nat, Batch>

    ghost function State(): Queue
      reads this
    {
      Queue(items, log, clock, open)
    }

    method PushToDLQ(id: nat, deliverable: bool)
      requires id !in items
      modifies this
      ensures State() == Do(old(State()), Push(id, deliverable))
      ensures items == old(items)[id := Item(deliverable, 0, Some(clock + 30_000), Pending, clock)]
      ensures old(Unknown(State(), id)) ==> Alive(State(), id) && LifeCycle(StoryOf(State(), id))
    {
      if Unknown(State(), id) { PushedIsAlive(State(), id, deliverable); }
      items := items[id := Item(deliverable, 0, NextRetryAt(0, clock), Pending, clock)];
    }

    /** The first of the due items not yet taken, in the order of the query. */
    method FirstDue(skip: set<nat>) returns (found: bool, id: nat)
      ensures found ==> Due(State(), id) && id !in skip
      ensures found ==> forall k | Due(State(), k) && k !in skip :: !Before(items[k], items[id])
      ensures !found ==> forall k | Due(State(), k) :: k in skip
    {
      var left := items.Keys;
      found, id := false, 0;
      while left != {}
        invariant left <= items.Keys
        invariant found ==> Due(State(), id) && id !in skip
        invariant forall k | Due(State(), k) && k !in left && k !in skip :: found && !Before(items[k], items[id])
        decreases |left|
      {
        var k :| k in left;
        left := left - {k};
        if k !in skip && items[k].status == Pending && Key(items[k]) <= clock && (!found || Before(items[k], items[id])) {
          found, id := true, k;
        }
      }
    }

    /** The pending items whose time has come, by that time, then by age, each once, up to the limit; one without a time has
        time zero. */
    method ListDue(limit: nat) returns (ids: seq<nat>)
      ensures DueList(State(), limit, ids)
      ensures |ids| <= limit && forall i, j | 0 <= i < j < |ids| :: ids[i] != ids[j]
      ensures forall i | 0 <= i < |ids| :: ids[i] in items && IsDue(items[ids[i]], clock)
      ensures forall i, j | 0 <= i < j < |ids| :: InQueryOrder(items[ids[i]], items[ids[j]])
      ensures forall id | id in items && IsDue(items[id], clock) && id !in ids ::
        |ids| == limit && forall i | 0 <= i < |ids| :: InQueryOrder(items[ids[i]], items[id])
    {
      ids := [];
      var taken: set<nat> := {};
      var more := true;
      while more && |ids| < limit
        invariant |ids| <= limit && Distinct(ids) && forall k :: k in taken <==> k in ids
        invariant forall i | 0 <= i < |ids| :: Due(State(), ids[i])
        invariant forall i, j | 0 <= i < j < |ids| :: !Before(items[ids[j]], items[ids[i]])
        invariant forall k | Due(State(), k) && k !in taken ::
          more && forall i | 0 <= i < |ids| :: !Before(items[k], items[ids[i]])
        decreases limit - |ids| + if more then 1 else 0
      {
        var id;
        more, id := FirstDue(taken);
        if more {
          ids := ids + [id];
          taken := taken + {id};
        }
      }
    }

    ghost method Begin(batch: nat, ok: bool)
      requires Possible(State(), Take(batch, ok))
      modifies this
      ensures State() == Do(old(State()), Take(batch, ok))
    {
      var next := Do(State(), Take(batch, ok));
      log, open := next.log, next.open;
    }

    ghost method Receive(batch: nat)
      requires Possible(State(), Answer(batch))
      modifies this
      ensures State() == Do(old(State()), Answer(batch))
    {
      open := Do(State(), Answer(batch)).open;
    }

    /** Performs the next write about the row in hand, unless it is the one that fails. */
    method SaveNext(ghost batch: nat, row: Row, w: Write, fails: bool)
      requires batch in open && open[batch].work.Saving? && Knows(State(), open[batch].work) && open[batch].work.row == row
      requires w == Writes(row.item, open[batch].work.ok, open[batch].work.at)[open[batch].work.saved]
      modifies this
      ensures State() == Do(old(State()), if fails then Fail(batch) else Save(batch))
    {
      ghost var next := Do(State(), if fails then Fail(batch) else Save(batch));
      if !fails {
        match w
        case SetStatus(s) => items := items[row.id := items[row.id].(status := s)];
        case Patch(n, t) => items := items[row.id := items[row.id].(retryCount := n, nextRetryAt := t)];
        case Audit => items := items[row.id := items[row.id]];
      }
      log, open := next.log, next.open;
    }

    /** Saves the outcome of the row in hand, up to the write that fails. */
    method SaveAll(ghost batch: nat, row: Row, ws: seq<Write>, completed: nat) returns (ghost steps: seq<Step>)
      requires batch in open && row.id in items
      requires open[batch].work.Saving? && open[batch].work.row == row && open[batch].work.saved == 0
      requires ws == Writes(row.item, open[batch].work.ok, open[batch].work.at)
      modifies this
      ensures State() == Run(old(State()), steps) && OwnSteps(steps, batch)
      ensures items.Keys == old(items.Keys) && open == old(open)[batch := Batch(old(open[batch].rest), Free)]
      ensures clock == old(clock)
      ensures items == old(items)[row.id := WrittenAll(old(items)[row.id], ws, if completed < |ws| then completed else |ws|)]
    {
      hide Run, Writes, Written, WriteEvents, Expected, Possible;
      ghost var start, at, ok := State(), open[batch].work.at, open[batch].work.ok;
      var i := 0;
      steps := [];
      RunNothing(start);
      while i < |ws|
        invariant i <= |ws| && i <= completed && State() == Run(start, steps) && OwnSteps(steps, batch)
        invariant items.Keys == start.items.Keys && clock == start.clock
        invariant items == start.items[row.id := WrittenAll(start.items[row.id], ws, i)]
        invariant open == start.open[batch := Batch(start.open[batch].rest, if i < |ws| then Saving(row, ok, at, i) else Free)]
      {
        ghost var before := State();
        var fails := i == completed;
        PossibleToSave(before, batch);
        SaveNext(batch, row, ws[i], fails);
        StepBy(start, steps, if fails then Fail(batch) else Save(batch));
        steps := steps + [if fails then Fail(batch) else Save(batch)];
        if fails { return; }
        i := i + 1;
      }
    }

    /** Processes one listed row, deciding by the row as it was listed; returns the steps that were taken. */
    method ProcessItem(ghost batch: nat, row: Row, a: Attempt) returns (ghost steps: seq<Step>)
      requires batch in open && open[batch].work.Free? && open[batch].rest != [] && open[batch].rest[0] == row && row.id in items
      modifies this
      ensures State() == Run(old(State()), steps) && OwnSteps(steps, batch) && steps != [] && steps[0] == Take(batch, a.ok)
      ensures forall id | id in items && id != row.id :: id in old(items) && items[id] == old(items)[id]
      ensures row.id in items && (a.completed >= 3 ==> IsProcessed(row.item, a.ok, clock, old(items)[row.id], items[row.id]))
      ensures clock == old(clock) + if row.item.deliverable && row.item.retryCount < 5 then a.duration else 0
      ensures items.Keys == old(items.Keys) && open == old(open)[batch := Batch(old(open[batch].rest[1..]), Free)]
    {
      hide Run, Written, WriteEvents, Expected, DueList, WrittenAll, IsProcessed;
      ghost var start := State();
      Begin(batch, a.ok);
      RunOne(start, Take(batch, a.ok));
      steps := [Take(batch, a.ok)];
      var ws: seq<Write>;
      if !row.item.deliverable {
        ws := [SetStatus(Discarded), Patch(row.item.retryCount, None), Audit];
      } else if row.item.retryCount >= MAX_RETRIES {
        ws := [SetStatus(Discarded), Patch(row.item.retryCount, None), Audit];
      } else {
        clock := clock + a.duration;
        StepBy(start, steps, Wait(a.duration));
        steps := steps + [Wait(a.duration)];
        Receive(batch);
        StepBy(start, steps, Answer(batch));
        steps := steps + [Answer(batch)];
        var next := row.item.retryCount + 1;
        if a.ok {
          ws := [SetStatus(Replayed), Patch(row.item.retryCount, None)];
        } else if next >= MAX_RETRIES {
          ws := [SetStatus(Discarded), Patch(next, None), Audit];
        } else {
          ws := [Patch(next, NextRetryAt(next, clock))];
        }
      }
      ghost var saving := SaveAll(batch, row, ws, a.completed);
      RunOn(start, steps, saving);
      steps := steps + saving;
      AllWrittenIsProcessed(row.item, a.ok, clock, start.items[row.id]);
    }

    /** Works through the rows its batch has listed; a fault on one does not keep it from the next. */
    method WorkThrough(ghost batch: nat, rows: seq<Row>, attempts: seq<Attempt>) returns (ghost steps: seq<Step>)
      requires |attempts| >= |rows| && batch in open && open[batch] == Batch(rows, Free)
      requires forall i | 0 <= i < |rows| :: rows[i].id in items
      modifies this
      ensures State() == Run(old(State()), steps) && OwnSteps(steps, batch)
      ensures open == old(open)[batch := Batch([], Free)]
    {
      hide Run, OwnSteps;
      ghost var start := State();
      steps := [];
      RunNothing(start);
      NoSteps(batch);
      for i := 0 to |rows|
        invariant State() == Run(start, steps) && OwnSteps(steps, batch) && items.Keys == start.items.Keys
        invariant open == start.open[batch := Batch(rows[i..], Free)]
      {
        assert rows[i..][0] == rows[i] && rows[i..][1..] == rows[i + 1..];
        ghost var more := ProcessItem(batch, rows[i], attempts[i]);
        RunOn(start, steps, more);
        MoreSteps(steps, more, batch);
        steps := steps + more;
      }
      assert rows[|rows|..] == [];
    }

    /** Lists what is due and works through the list; `attempts` says how the deliveries and their writes go. Nothing but
        the batch's own steps and the passing of time happens meanwhile. */
    method RunBatch(ghost batch: nat, limit: nat, attempts: seq<Attempt>) returns (ids: seq<nat>, ghost steps: seq<Step>)
      requires |attempts| >= limit && batch !in open
      modifies this
      ensures DueList(old(State()), limit, ids) && open == old(open)
      ensures State() == Run(old(State()), [Open(batch, limit, ids)] + steps + [Close(batch)]) && OwnSteps(steps, batch)
    {
      hide Run, DueList, OwnSteps;
      ghost var start := State();
      ids := ListDue(limit);
      AllListed(start, limit, ids);
      var rows := Rows(items, ids);
      open := open[batch := Batch(rows, Free)];
      RunOne(start, Open(batch, limit, ids));
      steps := WorkThrough(batch, rows, attempts);
      RunOn(start, [Open(batch, limit, ids)], steps);
      StepBy(start, [Open(batch, limit, ids)] + steps, Close(batch));
      open := open - {batch};
      assert open == start.open;
    }
  }

  lemma NoSteps(batch: nat)
    ensures OwnSteps([], batch)
  {
  }

  lemma MoreSteps(a: seq<Step>, b: seq<Step>, batch: nat)
    requires OwnSteps(a, batch) && OwnSteps(b, batch)
    ensures OwnSteps(a + b, batch)
  {
  }

  /** Steps of one batch, and the passing of time. */
  predicate OwnSteps(steps: seq<Step>, batch: nat) {
    forall i | 0 <= i < |steps| ::
      match steps[i]
      case Wait(_) => true
      case Take(b, _) => b == batch
      case Answer(b) => b == batch
      case Save(b) => b == batch
      case Fail(b) => b == batch
      case _ => false
  }

  lemma PossibleToSave(q: Queue, b: nat)
    requires b in q.open && q.open[b].work.Saving? && Knows(q, q.open[b].work)
    ensures Possible(q, Save(b)) && Possible(q, Fail(b))
  {
  }
}
