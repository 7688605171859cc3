/** The life cycle of a dead-letter item that is never on two lists at a time. */
module WebhookLifeCycle {
  import opened WebhookDeadLetters

  /** No delivery comes sooner after the push than the waiting times before it add up to. */
  ghost predicate Spaced(deliveries: seq<Delivery>, created: int) {
    |deliveries| <= MAX_RETRIES && forall k | 0 <= k < |deliveries| :: deliveries[k].at >= created + Backoff(k + 1)
  }

  /** The first `n` deliveries failed. */
  ghost predicate Failed(deliveries: seq<Delivery>, n: nat) {
    forall k | 0 <= k < n && k < |deliveries| :: !deliveries[k].ok
  }

  /** An item that waits, or is finished. */
  ghost predicate LifeCycle(s: Story) {
    && s.clobbers == 0 && |s.deliveries| <= MAX_RETRIES + s.faults
    && s.audits <= 1 && (s.audits == 1 ==> s.item.status == Discarded)
    && (s.item.status == Pending ==>
         && s.item.retryCount < MAX_RETRIES && s.item.nextRetryAt.Some?
         && |s.deliveries| <= s.item.retryCount + s.faults)
    && (s.faults == 0 ==> Undisturbed(s))
  }

  /** The same for an item on which no fault ever fell. */
  ghost predicate Undisturbed(s: Story) {
    && Spaced(s.deliveries, s.item.created) && (s.item.deliverable || s.deliveries == [])
    && (s.audits == 1 <==> s.item.status == Discarded)
    && match s.item.status
       case Pending =>
         && |s.deliveries| == s.item.retryCount < MAX_RETRIES && Failed(s.deliveries, |s.deliveries|)
         && s.item.nextRetryAt.Some? && s.item.nextRetryAt.value >= s.item.created + Backoff(s.item.retryCount + 1)
       case Replayed =>
         && |s.deliveries| == s.item.retryCount + 1 && s.item.nextRetryAt == None
         && s.deliveries[s.item.retryCount].ok && Failed(s.deliveries, s.item.retryCount)
       case Discarded =>
         && |s.deliveries| == (if s.item.deliverable then MAX_RETRIES else 0) && s.item.nextRetryAt == None
         && Failed(s.deliveries, |s.deliveries|)
  }

  lemma BackoffTable()
    ensures Backoff(1) == 30_000 && Backoff(2) == 150_000 && Backoff(3) == 750_000
    ensures Backoff(4) == 4_350_000 && Backoff(5) == 25_950_000
  {
    assert Backoff(0) == 0;
    assert Backoff(3) == Backoff(2) + 600_000;
  }

  /** A pending story with a delivery, or none needed, that no write accounts for yet. */
  ghost predicate Unwritten(s: Story, ok: bool, now: int) {
    && s.item.status == Pending && s.item.retryCount < MAX_RETRIES && s.item.nextRetryAt.Some?
    && s.clobbers == 0 && s.audits == 0 && |s.deliveries| <= s.item.retryCount + s.faults + 1
    && (s.faults == 0 ==>
         && Spaced(s.deliveries, s.item.created)
         && if IsDelivered(s.item) then Answered(s, ok, now) else s.deliveries == [])
  }

  ghost predicate Answered(s: Story, ok: bool, now: int) {
    && s.item.retryCount < MAX_RETRIES && |s.deliveries| == s.item.retryCount + 1
    && Failed(s.deliveries, s.item.retryCount) && s.deliveries[s.item.retryCount].ok == ok
    && now >= s.item.created + Backoff(s.item.retryCount + 1)
  }

  /** The story after `n` of the writes, each onto the row its batch expects. */
  function SavedAll(s: Story, ws: seq<Write>, n: nat): Story
    requires n <= |ws|
  {
    if n == 0 then s else Saved(SavedAll(s, ws, n - 1), ws[n - 1], true)
  }

  lemma {:induction false} SavedAsExpected(s: Story, ws: seq<Write>, n: nat)
    requires n <= |ws|
    ensures SavedAll(s, ws, n).item == Expected(s.item, ws, n)
  {
    if n > 0 { SavedAsExpected(s, ws, n - 1); }
  }

  /** However far its saving comes, the item is left in its life cycle. */
  ghost predicate EndsWell(s: Story, ws: seq<Write>) {
    LifeCycle(SavedAll(s, ws, |ws|)) && forall n | 0 <= n < |ws| :: LifeCycle(Faulting(SavedAll(s, ws, n)))
  }

  lemma SavedThree(s: Story, ws: seq<Write>)
    requires |ws| <= 3
    ensures SavedAll(s, ws, 0) == s
    ensures |ws| >= 1 ==> SavedAll(s, ws, 1) == Saved(s, ws[0], true)
    ensures |ws| >= 2 ==> SavedAll(s, ws, 2) == Saved(Saved(s, ws[0], true), ws[1], true)
    ensures |ws| >= 3 ==> SavedAll(s, ws, 3) == Saved(Saved(Saved(s, ws[0], true), ws[1], true), ws[2], true)
  {
    if |ws| >= 1 { assert SavedAll(s, ws, 1) == Saved(SavedAll(s, ws, 0), ws[0], true); }
    if |ws| >= 2 { assert SavedAll(s, ws, 2) == Saved(SavedAll(s, ws, 1), ws[1], true); }
    if |ws| >= 3 { assert SavedAll(s, ws, 3) == Saved(SavedAll(s, ws, 2), ws[2], true); }
  }

  lemma DiscardEndsWell(s: Story, n: nat, ok: bool, now: int)
    requires Unwritten(s, ok, now)
    requires s.faults == 0 ==>
      Failed(s.deliveries, |s.deliveries|) && |s.deliveries| == if s.item.deliverable then MAX_RETRIES else 0
    ensures EndsWell(s, [SetStatus(Discarded), Patch(n, None), Audit])
  {
    hide SavedAll, Backoff;
    SavedThree(s, [SetStatus(Discarded), Patch(n, None), Audit]);
  }

  lemma ReplayEndsWell(s: Story, now: int)
    requires Unwritten(s, true, now) && IsDelivered(s.item)
    ensures EndsWell(s, [SetStatus(Replayed), Patch(s.item.retryCount, None)])
  {
    hide SavedAll, Backoff;
    SavedThree(s, [SetStatus(Replayed), Patch(s.item.retryCount, None)]);
  }

  lemma RetryEndsWell(s: Story, now: int)
    requires Unwritten(s, false, now) && IsDelivered(s.item) && s.item.retryCount + 1 < MAX_RETRIES
    ensures EndsWell(s, [Patch(s.item.retryCount + 1, NextRetryAt(s.item.retryCount + 1, now))])
  {
    hide SavedAll;
    var n := s.item.retryCount + 1;
    SavedThree(s, [Patch(n, NextRetryAt(n, now))]);
    assert Backoff(n + 1) == Backoff(n) + SCHEDULE[n];
  }

  lemma UnwrittenEndsWell(s: Story, ok: bool, now: int)
    requires Unwritten(s, ok, now)
    ensures EndsWell(s, Writes(s.item, ok, now))
  {
    hide EndsWell, Backoff;
    if !IsDelivered(s.item) {
      DiscardEndsWell(s, s.item.retryCount, ok, now);
    } else if ok {
      ReplayEndsWell(s, now);
    } else if s.item.retryCount + 1 >= MAX_RETRIES {
      DiscardEndsWell(s, s.item.retryCount + 1, ok, now);
    } else {
      RetryEndsWell(s, now);
    }
  }

  /** Taking up a due item leaves it with one delivery more, or none if there is nothing to deliver. */
  lemma TakenIsUnwritten(s: Story, ok: bool, now: int)
    requires LifeCycle(s) && s.item.status == Pending && Key(s.item) <= now
    ensures Unwritten(WithDelivery(s, s.item, ok, now), ok, now)
  {
    hide Backoff;
  }

  // ---------------------------------------------------------------------------------------------
  // Runs in which no item is on two lists at a time.

  ghost predicate OnceListed(rest: seq<Row>, id: nat) {
    forall i, j | 0 <= i < j < |rest| :: rest[i].id != id || rest[j].id != id
  }

  /** At most one batch has the item, and has it once. */
  ghost predicate Sole(q: Queue, id: nat) {
    && (forall b, c | b in q.open && c in q.open && Claims(q.open[b], id) && Claims(q.open[c], id) :: b == c)
    && (forall b | b in q.open :: OnceListed(q.open[b].rest, id) && !(WorksOn(q.open[b], id) && Lists(q.open[b], id)))
  }

  /** The listed row is still the current one, pending and due. */
  ghost predicate ListedWell(q: Queue, rest: seq<Row>, id: nat)
    requires id in q.items
  {
    forall i | 0 <= i < |rest| && rest[i].id == id ::
      rest[i].item == q.items[id] && q.items[id].status == Pending && Key(q.items[id]) <= q.clock
  }

  /** The story agrees with how far its batch has come. */
  ghost predicate WorkedWell(s: Story, w: Work, clock: int)
    requires !w.Free?
  {
    match w
    case Delivering(row, ok) => s.item == row.item && Unwritten(s, ok, clock) && IsDelivered(row.item)
    case Saving(row, ok, at, saved) =>
      var ws := Writes(row.item, ok, at);
      saved < |ws| && exists base ::
        EndsWell(base, ws) && base.item == row.item && s == SavedAll(base, ws, saved)
  }

  ghost predicate InHand(q: Queue, id: nat) {
    exists b :: b in q.open && WorksOn(q.open[b], id)
  }

  ghost predicate BatchWell(q: Queue, b: nat, id: nat)
    requires id in q.items && b in q.open
  {
    ListedWell(q, q.open[b].rest, id) && (WorksOn(q.open[b], id) ==> WorkedWell(StoryOf(q, id), q.open[b].work, q.clock))
  }

  ghost predicate Alive(q: Queue, id: nat) {
    && id in q.items && Sole(q, id) && (forall b | b in q.open :: BatchWell(q, b, id))
    && (InHand(q, id) || LifeCycle(StoryOf(q, id)))
  }

  /** A list that holds the item is drawn up only while no other batch has the item. */
  ghost predicate ListsAlone(q: Queue, s: Step, id: nat) {
    s.Open? && id in s.ids ==> forall b | b in q.open :: !Claims(q.open[b], id)
  }

  lemma UnwrittenLater(s: Story, ok: bool, now: int, later: int)
    requires Unwritten(s, ok, now) && later >= now
    ensures Unwritten(s, ok, later)
  {
  }

  /** A batch that is as before, in a state where the item is, stays well. */
  lemma BatchStaysWell(q: Queue, r: Queue, b: nat, id: nat)
    requires id in q.items && b in q.open && BatchWell(q, b, id)
    requires id in r.items && b in r.open && r.open[b] == q.open[b] && r.clock >= q.clock
    requires StoryOf(r, id) == StoryOf(q, id)
    ensures BatchWell(r, b, id)
  {
    hide Unwritten, EndsWell, Deliveries, Count;
    assert r.items[id] == StoryOf(r, id).item == StoryOf(q, id).item == q.items[id];
    if WorksOn(q.open[b], id) && q.open[b].work.Delivering? {
      UnwrittenLater(StoryOf(q, id), q.open[b].work.ok, q.clock, r.clock);
    }
  }

  lemma InHandStays(q: Queue, r: Queue, id: nat)
    requires forall b | b in q.open && WorksOn(q.open[b], id) :: b in r.open && WorksOn(r.open[b], id)
    ensures InHand(q, id) ==> InHand(r, id)
  {
  }

  lemma ListedFresh(q: Queue, ids: seq<nat>, id: nat)
    requires id in q.items && Distinct(ids) && forall i | 0 <= i < |ids| :: ids[i] in q.items && Due(q, ids[i])
    ensures OnceListed(Rows(q.items, ids), id) && ListedWell(q, Rows(q.items, ids), id)
    ensures Lists(Batch(Rows(q.items, ids), Free), id) ==> id in ids
  {
    var rows := Rows(q.items, ids);
    forall i, j | 0 <= i < j < |rows| ensures rows[i].id != id || rows[j].id != id { assert ids[i] != ids[j]; }
    if Lists(Batch(rows, Free), id) {
      var i :| 0 <= i < |rows| && rows[i].id == id;
      assert ids[i] == id;
    }
  }

  lemma SoleOpens(q: Queue, b: nat, batch: Batch, id: nat)
    requires Sole(q, id) && b !in q.open && batch.work.Free? && OnceListed(batch.rest, id)
    requires Lists(batch, id) ==> forall c | c in q.open :: !Claims(q.open[c], id)
    ensures Sole(q.(open := q.open[b := batch]), id)
  {
    hide OnceListed, Lists;
  }

  lemma OpenKeepsAlive(q: Queue, s: Step, id: nat)
    requires Alive(q, id) && s.Open? && Possible(q, s) && ListsAlone(q, s, id)
    ensures Alive(Effect(q, s), id)
  {
    hide LifeCycle, BatchWell, Deliveries, Count, Before, Sole, OnceListed, ListedWell, Rows;
    var r := Effect(q, s);
    ListedFresh(q, s.ids, id);
    SoleOpens(q, s.batch, Batch(Rows(q.items, s.ids), Free), id);
    assert StoryOf(r, id) == StoryOf(q, id);
    forall b | b in r.open ensures BatchWell(r, b, id) {
      if b == s.batch { FreshBatchWell(q, r, b, id); } else { BatchStaysWell(q, r, b, id); }
    }
    InHandStays(q, r, id);
  }

  lemma FreshBatchWell(q: Queue, r: Queue, b: nat, id: nat)
    requires id in r.items && b in r.open && r.open[b].work.Free?
    requires r.items == q.items && r.clock == q.clock && ListedWell(q, r.open[b].rest, id)
    ensures BatchWell(r, b, id)
  {
  }

  lemma IdleKeepsAlive(q: Queue, s: Step, id: nat)
    requires Alive(q, id) && Possible(q, s) && (s.Wait? || s.Push? || s.Close?)
    ensures Alive(Effect(q, s), id)
  {
    hide LifeCycle, BatchWell, Deliveries, Count, OnceListed, Lists;
    var r := Effect(q, s);
    assert StoryOf(r, id) == StoryOf(q, id);
    forall b | b in r.open ensures BatchWell(r, b, id) { BatchStaysWell(q, r, b, id); }
    InHandStays(q, r, id);
  }

  lemma RestOfList(b: Batch, id: nat)
    requires b.rest != []
    ensures Lists(b, id) <==> b.rest[0].id == id || Lists(Batch(b.rest[1..], b.work), id)
    ensures OnceListed(b.rest, id) ==> OnceListed(b.rest[1..], id)
    ensures OnceListed(b.rest, id) && b.rest[0].id == id ==> !Lists(Batch(b.rest[1..], b.work), id)
  {
    var t := b.rest[1..];
    assert forall i | 0 <= i < |t| :: t[i] == b.rest[i + 1];
    if Lists(b, id) && b.rest[0].id != id {
      var i :| 0 <= i < |b.rest| && b.rest[i].id == id;
      assert t[i - 1].id == id;
    }
    if Lists(Batch(t, b.work), id) {
      var i :| 0 <= i < |t| && t[i].id == id;
      assert b.rest[i + 1].id == id;
    }
  }

  /** Replacing one batch by another that claims no more keeps the item's claim sole. */
  lemma SoleStays(q: Queue, r: Queue, b: nat, id: nat)
    requires Sole(q, id) && b in q.open && b in r.open && r.open == q.open[b := r.open[b]]
    requires Claims(r.open[b], id) ==> Claims(q.open[b], id)
    requires OnceListed(r.open[b].rest, id) && !(WorksOn(r.open[b], id) && Lists(r.open[b], id))
    ensures Sole(r, id)
  {
  }

  lemma OthersDoNotWork(q: Queue, b: nat, id: nat)
    requires Sole(q, id) && b in q.open && Claims(q.open[b], id)
    ensures forall c | c in q.open && c != b :: !Claims(q.open[c], id)
  {
  }

  lemma TakeKeepsSole(q: Queue, s: Step, id: nat)
    requires Sole(q, id) && s.Take? && Possible(q, s)
    ensures Sole(Effect(q, s), id)
  {
    hide OnceListed, Lists;
    var r, b := Effect(q, s), s.batch;
    RestOfList(q.open[b], id);
    ListsByRest(r.open[b], q.open[b].work, id);
    SoleStays(q, r, b, id);
  }

  lemma TailStaysWell(q: Queue, r: Queue, rest: seq<Row>, id: nat)
    requires id in q.items && id in r.items && rest != [] && ListedWell(q, rest, id)
    requires r.items[id] == q.items[id] && r.clock >= q.clock
    ensures ListedWell(r, rest[1..], id)
  {
    assert forall i | 0 <= i < |rest[1..]| :: rest[1..][i] == rest[i + 1];
  }

  lemma TakeKeepsAlive(q: Queue, s: Step, id: nat)
    requires Alive(q, id) && s.Take? && Possible(q, s)
    ensures Alive(Effect(q, s), id)
  {
    hide LifeCycle, Sole, Deliveries, Count, OnceListed, Lists, ListedWell, WorkedWell;
    var r, b := Effect(q, s), s.batch;
    var row := q.open[b].rest[0];
    TakeKeepsSole(q, s, id);
    assert BatchWell(q, b, id);
    TailStaysWell(q, r, q.open[b].rest, id);
    if row.id == id {
      OthersDoNotWork(q, b, id) by { HeadIsListed(q.open[b]); }
      TakenHere(q, s, id);
      forall c | c in r.open ensures BatchWell(r, c, id) {
        if c != b {
          assert !WorksOn(q.open[c], id);
          assert ListedWell(r, q.open[c].rest, id) by { NotListedWell(r, q.open[c], id); }
        }
      }
      assert WorksOn(r.open[b], id);
    } else {
      UntouchedStory(q, s, id);
      forall c | c in r.open ensures BatchWell(r, c, id) { if c != b { BatchStaysWell(q, r, c, id); } }
      InHandStays(q, r, id);
    }
  }

  lemma HeadIsListed(b: Batch)
    requires b.rest != []
    ensures Claims(b, b.rest[0].id)
  {
  }

  lemma NotListedWell(r: Queue, b: Batch, id: nat)
    requires id in r.items && !Claims(b, id)
    ensures ListedWell(r, b.rest, id)
  {
  }

  /** The row taken up is worked on as its batch expects. */
  lemma TakenHere(q: Queue, s: Step, id: nat)
    requires id in q.items && s.Take? && Possible(q, s) && q.open[s.batch].rest[0].id == id
    requires ListedWell(q, q.open[s.batch].rest, id) && LifeCycle(StoryOf(q, id))
    ensures
      var r := Effect(q, s);
      id in r.items && WorksOn(r.open[s.batch], id) && WorkedWell(StoryOf(r, id), r.open[s.batch].work, r.clock)
  {
    hide LifeCycle, Unwritten, EndsWell, Deliveries, Count, SavedAll;
    TakeHere(q, s.batch, s.ok, id);
    TakenIsUnwritten(StoryOf(q, id), s.ok, q.clock);
    if !IsDelivered(q.items[id]) { UnwrittenStarts(StoryOf(q, id), s.ok, q.clock); }
  }

  lemma ListsByRest(b: Batch, w: Work, id: nat)
    ensures Lists(b, id) == Lists(Batch(b.rest, w), id)
  {
  }

  lemma UnwrittenStarts(s: Story, ok: bool, now: int)
    requires Unwritten(s, ok, now)
    ensures EndsWell(s, Writes(s.item, ok, now)) && SavedAll(s, Writes(s.item, ok, now), 0) == s
  {
    UnwrittenEndsWell(s, ok, now);
  }

  /** A batch that goes on with the item it has in hand. */
  lemma HandKeepsAlive(q: Queue, r: Queue, b: nat, id: nat)
    requires Alive(q, id) && b in q.open && WorksOn(q.open[b], id)
    requires id in r.items && b in r.open && r.open == q.open[b := r.open[b]] && r.clock >= q.clock
    requires r.open[b].rest == q.open[b].rest
    requires if WorksOn(r.open[b], id) then WorkedWell(StoryOf(r, id), r.open[b].work, r.clock)
             else r.open[b].work.Free? && LifeCycle(StoryOf(r, id))
    ensures Alive(r, id)
  {
    hide LifeCycle, Unwritten, EndsWell, Deliveries, Count, WorkedWell, OnceListed, Lists, ListedWell;
    OthersDoNotWork(q, b, id);
    ListsByRest(q.open[b], r.open[b].work, id);
    SoleStays(q, r, b, id);
    forall c | c in r.open ensures BatchWell(r, c, id) {
      if c == b {
        assert !Lists(q.open[b], id);
        ListedWellUnlisted(r, q.open[b].rest, q.open[b].work, id);
      } else {
        NotListedWell(r, q.open[c], id);
      }
    }
  }

  lemma ListedWellUnlisted(r: Queue, rest: seq<Row>, w: Work, id: nat)
    requires id in r.items && !Lists(Batch(rest, w), id)
    ensures ListedWell(r, rest, id)
  {
  }

  /** A step of another item leaves this one as it is. */
  lemma ElsewhereKeepsAlive(q: Queue, s: Step, id: nat)
    requires Alive(q, id) && (s.Answer? || s.Save? || s.Fail?) && Possible(q, s) && !WorksOn(q.open[s.batch], id)
    ensures Alive(Effect(q, s), id)
  {
    hide LifeCycle, Unwritten, EndsWell, Deliveries, Count, WorkedWell, OnceListed, ListedWell, BatchWell, Lists;
    var r, b := Effect(q, s), s.batch;
    UntouchedStory(q, s, id);
    assert r.open == q.open[b := r.open[b]] && r.open[b].rest == q.open[b].rest;
    ListsByRest(q.open[b], r.open[b].work, id);
    SoleStays(q, r, b, id);
    forall c | c in r.open ensures BatchWell(r, c, id) {
      if c == b { OtherWorkWell(q, r, b, id); } else { BatchStaysWell(q, r, c, id); }
    }
    InHandStays(q, r, id);
  }

  lemma OtherWorkWell(q: Queue, r: Queue, b: nat, id: nat)
    requires id in q.items && b in q.open && BatchWell(q, b, id) && id in r.items && b in r.open
    requires r.open[b].rest == q.open[b].rest && !WorksOn(r.open[b], id) && r.clock >= q.clock && r.items[id] == q.items[id]
    ensures BatchWell(r, b, id)
  {
  }

  lemma AnswerKeepsAlive(q: Queue, s: Step, id: nat)
    requires Alive(q, id) && s.Answer? && Possible(q, s)
    ensures Alive(Effect(q, s), id)
  {
    hide LifeCycle, Deliveries, Count, SavedAll, EndsWell, OnceListed, Lists, ListedWell;
    if WorksOn(q.open[s.batch], id) {
      assert BatchWell(q, s.batch, id);
      var Delivering(row, ok) := q.open[s.batch].work;
      var r := Effect(q, s);
      assert StoryOf(r, id) == StoryOf(q, id);
      UnwrittenStarts(StoryOf(q, id), ok, q.clock);
      HandKeepsAlive(q, r, s.batch, id);
    } else {
      ElsewhereKeepsAlive(q, s, id);
    }
  }

  /** One more write of a batch that works as expected. */
  lemma SavedHere(q: Queue, b: nat, id: nat)
    requires id in q.items && Possible(q, Save(b)) && WorksOn(q.open[b], id)
    requires WorkedWell(StoryOf(q, id), q.open[b].work, q.clock)
    ensures
      var r := Saves(q, b);
      && id in r.items
      && if WorksOn(r.open[b], id) then WorkedWell(StoryOf(r, id), r.open[b].work, r.clock)
         else r.open[b].work.Free? && LifeCycle(StoryOf(r, id))
  {
    hide LifeCycle, Deliveries, Count, Writes, Written, StoryOf, Expected, EndsWell, SavedAll;
    var Saving(row, ok, at, saved) := q.open[b].work;
    var ws := Writes(row.item, ok, at);
    var s, r := StoryOf(q, id), Saves(q, b);
    var base := BaseOf(s, q.open[b].work, q.clock);
    SavedAsExpected(base, ws, saved);
    assert s.item == q.items[id] by { ItemOf(q, id); }
    SaveHere(q, b, id);
    assert StoryOf(r, id) == SavedAll(base, ws, saved + 1) by { OneSaveMore(base, ws, saved); }
    if saved + 1 < |ws| {
      StillSaving(StoryOf(r, id), base, row, ok, at, saved + 1, r.clock);
    } else {
      AllSaved(base, ws);
    }
  }

  lemma ItemOf(q: Queue, id: nat)
    requires id in q.items
    ensures StoryOf(q, id).item == q.items[id]
  {
  }

  lemma BaseOf(s: Story, w: Work, clock: int) returns (base: Story)
    requires w.Saving? && WorkedWell(s, w, clock)
    ensures
      var ws := Writes(w.row.item, w.ok, w.at);
      w.saved < |ws| && EndsWell(base, ws) && base.item == w.row.item && s == SavedAll(base, ws, w.saved)
  {
    var ws := Writes(w.row.item, w.ok, w.at);
    base :| EndsWell(base, ws) && base.item == w.row.item && s == SavedAll(base, ws, w.saved);
  }

  lemma OneSaveMore(base: Story, ws: seq<Write>, n: nat)
    requires n < |ws|
    ensures SavedAll(base, ws, n + 1) == Saved(SavedAll(base, ws, n), ws[n], true)
  {
  }

  lemma StillSaving(s: Story, base: Story, row: Row, ok: bool, at: int, saved: nat, clock: int)
    requires saved < |Writes(row.item, ok, at)| && EndsWell(base, Writes(row.item, ok, at)) && base.item == row.item
    requires s == SavedAll(base, Writes(row.item, ok, at), saved)
    ensures WorkedWell(s, Saving(row, ok, at, saved), clock)
  {
  }

  lemma AllSaved(base: Story, ws: seq<Write>)
    requires EndsWell(base, ws)
    ensures LifeCycle(SavedAll(base, ws, |ws|))
  {
  }

  lemma SaveKeepsAlive(q: Queue, s: Step, id: nat)
    requires Alive(q, id) && s.Save? && Possible(q, s)
    ensures Alive(Effect(q, s), id)
  {
    hide LifeCycle, Deliveries, Count, EndsWell, Writes, Written, WorkedWell, OnceListed, Lists, ListedWell;
    if WorksOn(q.open[s.batch], id) {
      assert BatchWell(q, s.batch, id);
      SavedHere(q, s.batch, id);
      HandKeepsAlive(q, Effect(q, s), s.batch, id);
    } else {
      ElsewhereKeepsAlive(q, s, id);
    }
  }

  lemma FaultedIsWell(s: Story, w: Work, clock: int)
    requires !w.Free? && WorkedWell(s, w, clock)
    ensures LifeCycle(Faulting(s))
  {
    hide Backoff;
  }

  lemma FailKeepsAlive(q: Queue, s: Step, id: nat)
    requires Alive(q, id) && s.Fail? && Possible(q, s)
    ensures Alive(Effect(q, s), id)
  {
    hide LifeCycle, Deliveries, Count, EndsWell, Writes, WorkedWell, OnceListed, Lists, ListedWell;
    if WorksOn(q.open[s.batch], id) {
      assert BatchWell(q, s.batch, id);
      FaultedIsWell(StoryOf(q, id), q.open[s.batch].work, q.clock);
      Logged(q.log, Faulted(id), id);
      assert StoryOf(Effect(q, s), id) == Faulting(StoryOf(q, id));
      HandKeepsAlive(q, Effect(q, s), s.batch, id);
    } else {
      ElsewhereKeepsAlive(q, s, id);
    }
  }

  lemma SoleWithout(q: Queue, r: Queue, b: nat, id: nat)
    requires Sole(q, id) && r.open == q.open - {b}
    ensures Sole(r, id)
  {
    hide OnceListed, Lists;
  }

  lemma CrashKeepsAlive(q: Queue, s: Step, id: nat)
    requires Alive(q, id) && s.Crash? && Possible(q, s)
    ensures Alive(Effect(q, s), id)
  {
    hide LifeCycle, Deliveries, Count, EndsWell, Writes, WorkedWell, OnceListed, Lists, ListedWell, BatchWell, SkippedAll;
    var r, b := Effect(q, s), s.batch;
    SoleWithout(q, r, b, id);
    if WorksOn(q.open[b], id) {
      CrashHere(q, b, id);
      assert WorkedWell(StoryOf(q, id), q.open[b].work, q.clock) by { BatchWork(q, b, id); }
      FaultedIsWell(StoryOf(q, id), q.open[b].work, q.clock);
      OthersDoNotWork(q, b, id);
      forall c | c in r.open ensures BatchWell(r, c, id) {
        NotListedWell(r, q.open[c], id);
        UnclaimedBatchWell(r, c, id);
      }
    } else {
      CrashElsewhere(q, b, id);
      forall c | c in r.open ensures BatchWell(r, c, id) { BatchStaysWell(q, r, c, id); }
      InHandStays(q, r, id);
    }
  }

  lemma BatchWork(q: Queue, b: nat, id: nat)
    requires id in q.items && b in q.open && BatchWell(q, b, id) && WorksOn(q.open[b], id)
    ensures WorkedWell(StoryOf(q, id), q.open[b].work, q.clock)
  {
  }

  lemma UnclaimedBatchWell(r: Queue, c: nat, id: nat)
    requires id in r.items && c in r.open && !Claims(r.open[c], id)
    ensures BatchWell(r, c, id)
  {
  }

  lemma StepKeepsAlive(q: Queue, s: Step, id: nat)
    requires Alive(q, id) && ListsAlone(q, s, id)
    ensures Alive(Do(q, s), id)
  {
    hide Alive, Effect, ListsAlone, DueList;
    if Possible(q, s) {
      match s
      case Open(_, _, _) => OpenKeepsAlive(q, s, id);
      case Take(_, _) => TakeKeepsAlive(q, s, id);
      case Answer(_) => AnswerKeepsAlive(q, s, id);
      case Save(_) => SaveKeepsAlive(q, s, id);
      case Fail(_) => FailKeepsAlive(q, s, id);
      case Crash(_) => CrashKeepsAlive(q, s, id);
      case _ => IdleKeepsAlive(q, s, id);
    }
  }

  /** Throughout the run the item is never on two lists at a time. */
  ghost predicate AlwaysListedAlone(q: Queue, steps: seq<Step>, id: nat) {
    forall i | 0 <= i < |steps| :: ListsAlone(Run(q, steps[..i]), steps[i], id)
  }

  lemma {:induction false} RunKeepsAlive(q: Queue, steps: seq<Step>, id: nat)
    requires Alive(q, id) && AlwaysListedAlone(q, steps, id)
    ensures Alive(Run(q, steps), id)
  {
    hide Alive, Do, ListsAlone;
    if steps != [] {
      var n := |steps| - 1;
      assert forall i | 0 <= i < n :: steps[..n][..i] == steps[..i];
      RunKeepsAlive(q, steps[..n], id);
      StepKeepsAlive(Run(q, steps[..n]), steps[n], id);
    }
  }

  /** Nothing was ever noted about the id, and no batch has it. */
  ghost predicate Unknown(q: Queue, id: nat) {
    && Deliveries(q.log, id) == [] && Count(q.log, Audited(id)) == 0 && Count(q.log, Clobbered(id)) == 0
    && forall b | b in q.open :: !Claims(q.open[b], id)
  }

  lemma PushedIsAlive(q: Queue, id: nat, deliverable: bool)
    requires id !in q.items && Unknown(q, id)
    ensures Alive(Do(q, Push(id, deliverable)), id) && LifeCycle(StoryOf(Do(q, Push(id, deliverable)), id))
  {
    hide Deliveries, Count;
    BackoffTable();
    var r := Do(q, Push(id, deliverable));
    assert r.items[id] == Pushed(deliverable, q.clock);
    forall b | b in r.open ensures BatchWell(r, b, id) && OnceListed(r.open[b].rest, id) {
      assert !Claims(q.open[b], id);
      UnclaimedBatchWell(r, b, id);
      UnlistedOnce(r.open[b], id);
    }
  }

  lemma UnlistedOnce(b: Batch, id: nat)
    requires !Lists(b, id)
    ensures OnceListed(b.rest, id)
  {
  }

  /** Through every run in which a pushed item is never on two lists at a time, whatever else happens and fails,
      it follows its life cycle whenever no batch has it in hand. */
  lemma PushedItemLivesOn(q: Queue, id: nat, deliverable: bool, steps: seq<Step>)
    requires id !in q.items && Unknown(q, id)
    requires AlwaysListedAlone(Do(q, Push(id, deliverable)), steps, id)
    ensures
      var r := Run(Do(q, Push(id, deliverable)), steps);
      id in r.items && (!InHand(r, id) ==> LifeCycle(StoryOf(r, id)))
  {
    PushedIsAlive(q, id, deliverable);
    RunKeepsAlive(Do(q, Push(id, deliverable)), steps, id);
  }

  /** Without faults on it, an item in its life cycle is delivered at most five times, is finished after the fifth, and
      the fifth comes at least 25,950 seconds after the push. It is replayed exactly when a delivery succeeded, which
      was then the last one. */
  lemma FifthDeliveryIsLast(s: Story)
    requires LifeCycle(s) && s.faults == 0
    ensures |s.deliveries| <= 5
    ensures s.item.status == Replayed <==> exists k | 0 <= k < |s.deliveries| :: s.deliveries[k].ok
    ensures forall k | 0 <= k < |s.deliveries| && s.deliveries[k].ok :: k == |s.deliveries| - 1
    ensures |s.deliveries| == 5 ==> s.item.status != Pending && s.deliveries[4].at >= s.item.created + 25_950_000
  {
    BackoffTable();
  }
}
