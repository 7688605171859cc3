/** What overlapping batches do to an item, and what still bounds its deliveries. */
module WebhookOverlap {
  import opened WebhookDeadLetters
  import opened WebhookLifeCycle

  lemma StepBy(q: Queue, steps: seq<Step>, s: Step)
    ensures Run(q, steps + [s]) == Do(Run(q, steps), s)
  {
    assert (steps + [s])[..|steps|] == steps;
  }

  /** The item comes first among those due. */
  ghost predicate IsFirstDue(q: Queue, id: nat) {
    Due(q, id) && forall other | Due(q, other) && other != id :: Before(q.items[id], q.items[other])
  }

  lemma OnlyFirstListed(q: Queue, b: nat, id: nat)
    requires IsFirstDue(q, id) && b !in q.open
    ensures Possible(q, Open(b, 1, [id])) && Effect(q, Open(b, 1, [id])) == q.(open := q.open[b := Batch([Row(id, q.items[id])], Free)])
  {
    assert DueList(q, 1, [id]);
    assert Rows(q.items, [id]) == [Row(id, q.items[id])];
  }

  /** Two batches that list the same row both deliver it: the life cycle's count of deliveries is passed by one. */
  lemma OverlapDeliversTwice(q: Queue, id: nat)
    requires IsFirstDue(q, id) && IsDelivered(q.items[id]) && q.open == map[]
    ensures
      var r := Run(q, [Open(0, 1, [id]), Open(1, 1, [id]), Take(0, false), Take(1, false)]);
      && id in r.items && r.items[id] == q.items[id]
      && |Deliveries(r.log, id)| == |Deliveries(q.log, id)| + 2
      && Count(r.log, Faulted(id)) == Count(q.log, Faulted(id))
  {
    hide DueList, Deliveries, Count;
    var row := Row(id, q.items[id]);
    var one, two := Batch([row], Free), Batch([], Delivering(row, false));
    OnlyFirstListed(q, 0, id);
    var q1 := q.(open := map[0 := one]);
    OnlyFirstListed(q1, 1, id);
    var q2 := q.(open := map[0 := one, 1 := one]);
    assert [row][1..] == [];
    var q3 := q2.(log := q.log + [Delivered(id, q.clock, false)], open := map[0 := two, 1 := one]);
    assert Do(q2, Take(0, false)) == q3;
    var q4 := q3.(log := q3.log + [Delivered(id, q.clock, false)], open := map[0 := two, 1 := two]);
    assert Do(q3, Take(1, false)) == q4;
    Logged(q.log, Delivered(id, q.clock, false), id);
    Logged(q3.log, Delivered(id, q.clock, false), id);
    RunFour(q, Open(0, 1, [id]), Open(1, 1, [id]), Take(0, false), Take(1, false));
  }

  lemma RunFour(q: Queue, a: Step, b: Step, c: Step, d: Step)
    ensures Run(q, [a, b, c, d]) == Do(Do(Do(Do(q, a), b), c), d)
  {
    hide Do, Possible;
    StepBy(q, [], a);
    StepBy(q, [a], b);
    StepBy(q, [a, b], c);
    StepBy(q, [a, b, c], d);
    assert [] + [a] == [a] && [a] + [b] == [a, b] && [a, b] + [c] == [a, b, c] && [a, b, c] + [d] == [a, b, c, d];
  }

  /** So overlapping batches deliver an item six times though no fault ever fell on it. */
  lemma SixDeliveries(q: Queue, id: nat)
    requires IsFirstDue(q, id) && IsDelivered(q.items[id]) && q.open == map[]
    requires LifeCycle(StoryOf(q, id)) && StoryOf(q, id).faults == 0 && q.items[id].retryCount == 4
    ensures
      var r := Run(q, [Open(0, 1, [id]), Open(1, 1, [id]), Take(0, false), Take(1, false)]);
      id in r.items && |StoryOf(r, id).deliveries| == 6 && StoryOf(r, id).faults == 0
  {
    OverlapDeliversTwice(q, id);
  }

  /** A batch that comes late to a row listed as pending delivers it though it is finished by now, and overwrites it. */
  lemma LateBatchRewritesFinished(q: Queue, b: nat, row: Row, rest: seq<Row>)
    requires b in q.open && q.open[b] == Batch([row] + rest, Free) && row.id in q.items && q.items[row.id].status != Pending
    requires IsDelivered(row.item) && row.item.retryCount + 1 < MAX_RETRIES
    ensures
      var r := Do(Do(Do(q, Take(b, false)), Answer(b)), Save(b));
      && row.id in r.items && r.items[row.id].status == q.items[row.id].status
      && r.items[row.id].retryCount == row.item.retryCount + 1
      && |Deliveries(r.log, row.id)| == |Deliveries(q.log, row.id)| + 1
  {
    hide Deliveries, Count;
    assert ([row] + rest)[1..] == rest;
    TakeHere(q, b, false, row.id);
    var q1 := Do(q, Take(b, false));
    assert q1.open[b] == Batch(rest, Delivering(row, false));
    var q2 := Do(q1, Answer(b));
    assert q2.open[b] == Batch(rest, Saving(row, false, q1.clock, 0));
    SaveHere(q2, b, row.id);
  }

  /** A finished item that no batch has is never touched again. */
  lemma {:induction false} FinishedIsFinal(q: Queue, steps: seq<Step>, id: nat)
    requires id in q.items && q.items[id].status != Pending && forall b | b in q.open :: !Claims(q.open[b], id)
    ensures id in Run(q, steps).items && StoryOf(Run(q, steps), id) == StoryOf(q, id)
    ensures forall b | b in Run(q, steps).open :: !Claims(Run(q, steps).open[b], id)
  {
    hide Deliveries, Count;
    if steps != [] {
      var n := |steps| - 1;
      FinishedIsFinal(q, steps[..n], id);
      var t := Run(q, steps[..n]);
      assert t.items[id] == StoryOf(t, id).item == q.items[id];
      FinishedStays(t, steps[n], id);
    }
  }

  lemma FinishedStays(q: Queue, s: Step, id: nat)
    requires id in q.items && q.items[id].status != Pending && forall b | b in q.open :: !Claims(q.open[b], id)
    ensures id in Do(q, s).items && StoryOf(Do(q, s), id) == StoryOf(q, id)
    ensures forall b | b in Do(q, s).open :: !Claims(Do(q, s).open[b], id)
  {
    hide Deliveries, Count, Lists, Before, StoryOf;
    if Possible(q, s) {
      if s.Take? {
        RestOfList(q.open[s.batch], id);
        ListsByRest(Do(q, s).open[s.batch], q.open[s.batch].work, id);
      } else if s.Open? {
        ListedFresh(q, s.ids, id);
      } else if s.Answer? || s.Save? || s.Fail? {
        ListsByRest(Do(q, s).open[s.batch], q.open[s.batch].work, id);
      }
      UntouchedStory(q, s, id);
    }
  }

  // ---------------------------------------------------------------------------------------------
  // A bound for all runs.

  /** Which of its writes counts a delivery of the row. */
  function CountingWrite(item: Item, ok: bool): nat {
    if !ok && item.retryCount + 1 >= MAX_RETRIES then 1 else 0
  }

  /** The batch delivered the item and has not counted that yet. */
  predicate Owes(b: Batch, id: nat) {
    match b.work
    case Free => false
    case Delivering(row, _) => row.id == id
    case Saving(row, ok, _, saved) => row.id == id && IsDelivered(row.item) && saved <= CountingWrite(row.item, ok)
  }

  function InFlight(q: Queue, id: nat): set<nat> {
    set b | b in q.open && Owes(q.open[b], id)
  }

  predicate IsListable(item: Item) {
    item.retryCount <= MAX_RETRIES && item.status == Pending
  }

  predicate FewRetries(b: Batch, id: nat) {
    && (forall i | 0 <= i < |b.rest| && b.rest[i].id == id :: IsListable(b.rest[i].item))
    && (WorksOn(b, id) ==> IsListable(b.work.row.item) && (b.work.Delivering? ==> IsDelivered(b.work.row.item)))
  }

  /** Deliveries are accounted for by the retry count, success, faults, overwritten rows, or are in flight. */
  predicate Accounted(s: Story, inFlight: nat) {
    && s.item.retryCount <= MAX_RETRIES
    && |s.deliveries|
       <= s.item.retryCount + (if s.item.status == Replayed then 1 else 0) + s.faults + 5 * s.clobbers + inFlight
    && (s.clobbers == 0 && s.item.status == Replayed ==> s.item.retryCount < MAX_RETRIES)
  }

  ghost predicate Bounded(q: Queue, id: nat) {
    && id in q.items && (forall b | b in q.open :: FewRetries(q.open[b], id))
    && Accounted(StoryOf(q, id), |InFlight(q, id)|)
  }

  lemma OneBatchChanged(q: Queue, r: Queue, b: nat, id: nat)
    requires b in q.open && b in r.open && r.open == q.open[b := r.open[b]]
    ensures
      |InFlight(r, id)| + (if Owes(q.open[b], id) then 1 else 0) == |InFlight(q, id)| + (if Owes(r.open[b], id) then 1 else 0)
    ensures Owes(q.open[b], id) ==> |InFlight(q, id)| >= 1
  {
    hide Owes, InFlight;
    OneBatchGone(q, b, id);
    OneBatchGone(r, b, id);
    assert q.open - {b} == r.open - {b};
    SameOpenSameFlight(q.(open := q.open - {b}), r.(open := r.open - {b}), id);
  }

  lemma OneBatchGone(q: Queue, b: nat, id: nat)
    requires b in q.open
    ensures |InFlight(q.(open := q.open - {b}), id)| + (if Owes(q.open[b], id) then 1 else 0) == |InFlight(q, id)|
  {
    hide Owes;
    var r := q.(open := q.open - {b});
    assert InFlight(q, id) == InFlight(r, id) + if Owes(q.open[b], id) then {b} else {};
  }

  lemma SaveAccounts(s: Story, row: Row, ok: bool, at: int, saved: nat, inFlight: nat)
    requires Accounted(s, inFlight) && IsListable(row.item) && saved < |Writes(row.item, ok, at)|
    requires IsDelivered(row.item) && saved <= CountingWrite(row.item, ok) ==> inFlight >= 1
    ensures
      var ws := Writes(row.item, ok, at);
      var before := IsDelivered(row.item) && saved <= CountingWrite(row.item, ok);
      var after := IsDelivered(row.item) && saved + 1 <= CountingWrite(row.item, ok) && saved + 1 < |ws|;
      Accounted(Saved(s, ws[saved], s.item == Expected(row.item, ws, saved)),
                inFlight - (if before then 1 else 0) + (if after then 1 else 0))
  {
    var ws := Writes(row.item, ok, at);
    assert Expected(row.item, ws, 0) == row.item;
    if saved >= 1 { assert Expected(row.item, ws, 1) == Written(row.item, ws[0]); }
    if saved >= 2 { assert Expected(row.item, ws, 2) == Written(Expected(row.item, ws, 1), ws[1]); }
  }

  lemma UntouchedInFlight(q: Queue, s: Step, id: nat)
    requires Possible(q, s) && Untouched(q, s, id) && (s.Take? || s.Answer? || s.Save? || s.Fail?)
    requires FewRetries(q.open[s.batch], id)
    ensures |InFlight(Effect(q, s), id)| == |InFlight(q, id)|
  {
    hide InFlight, Deliveries, Count, Writes, Written, Expected, WriteEvents, Rows;
    OneBatchChanged(q, Effect(q, s), s.batch, id);
  }

  lemma FewRetriesStay(q: Queue, s: Step, id: nat)
    requires Possible(q, s) && Bounded(q, id)
    ensures forall b | b in Effect(q, s).open :: FewRetries(Effect(q, s).open[b], id)
  {
    hide InFlight, Deliveries, Count, Before, Writes, Written, SkippedAll;
    var r := Effect(q, s);
    forall b | b in r.open ensures FewRetries(r.open[b], id) {
      if b in q.open {
        assert FewRetries(q.open[b], id);
        if s.Take? && b == s.batch { FewRetriesInTail(q.open[b], s.ok, q.clock, id); }
      } else {
        FewRetriesWhenListed(q, s.ids, id);
      }
    }
  }

  lemma FewRetriesInTail(b: Batch, ok: bool, now: int, id: nat)
    requires FewRetries(b, id) && b.work.Free? && b.rest != []
    ensures
      var row, rest := b.rest[0], b.rest[1..];
      FewRetries(Batch(rest, if IsDelivered(row.item) then Delivering(row, ok) else Saving(row, ok, now, 0)), id)
  {
    assert forall i | 0 <= i < |b.rest[1..]| :: b.rest[1..][i] == b.rest[i + 1];
  }

  lemma FewRetriesWhenListed(q: Queue, ids: seq<nat>, id: nat)
    requires id in q.items && q.items[id].retryCount <= MAX_RETRIES
    requires forall i | 0 <= i < |ids| :: ids[i] in q.items && Due(q, ids[i])
    ensures FewRetries(Batch(Rows(q.items, ids), Free), id)
  {
  }

  lemma TakeAccounts(q: Queue, s: Step, id: nat)
    requires Possible(q, s) && Bounded(q, id) && s.Take? && q.open[s.batch].rest[0].id == id
    ensures id in Effect(q, s).items && Accounted(StoryOf(Effect(q, s), id), |InFlight(Effect(q, s), id)|)
  {
    hide InFlight, Deliveries, Count;
    OneBatchChanged(q, Effect(q, s), s.batch, id);
    TakeHere(q, s.batch, s.ok, id);
  }

  lemma SaveBounded(q: Queue, s: Step, id: nat)
    requires Possible(q, s) && Bounded(q, id) && s.Save? && WorksOn(q.open[s.batch], id)
    ensures id in Effect(q, s).items && Accounted(StoryOf(Effect(q, s), id), |InFlight(Effect(q, s), id)|)
  {
    hide InFlight, Deliveries, Count, Accounted, Writes, Written, Expected, CountingWrite;
    var b := s.batch;
    var Saving(row, ok, at, saved) := q.open[b].work;
    OneBatchChanged(q, Effect(q, s), b, id);
    SaveHere(q, b, id);
    assert FewRetries(q.open[b], id);
    SaveAccounts(StoryOf(q, id), row, ok, at, saved, |InFlight(q, id)|);
  }

  lemma FailBounded(q: Queue, s: Step, id: nat)
    requires Possible(q, s) && Bounded(q, id) && s.Fail? && WorksOn(q.open[s.batch], id)
    ensures id in Effect(q, s).items && Accounted(StoryOf(Effect(q, s), id), |InFlight(Effect(q, s), id)|)
  {
    hide InFlight, Deliveries, Count;
    OneBatchChanged(q, Effect(q, s), s.batch, id);
    Logged(q.log, Faulted(id), id);
  }

  lemma CrashBounded(q: Queue, s: Step, id: nat)
    requires Possible(q, s) && Bounded(q, id) && s.Crash?
    ensures id in Effect(q, s).items && Accounted(StoryOf(Effect(q, s), id), |InFlight(Effect(q, s), id)|)
  {
    hide InFlight, Deliveries, Count, StoryOf;
    OneBatchGone(q, s.batch, id);
    assert InFlight(q.(open := q.open - {s.batch}), id) == InFlight(Effect(q, s), id) by { SameOpenSameFlight(q.(open := q.open - {s.batch}), Effect(q, s), id); }
    if WorksOn(q.open[s.batch], id) {
      CrashHere(q, s.batch, id);
    } else {
      CrashElsewhere(q, s.batch, id);
    }
  }

  lemma SameOpenSameFlight(q: Queue, r: Queue, id: nat)
    requires q.open == r.open
    ensures InFlight(q, id) == InFlight(r, id)
  {
  }

  lemma OpenBounded(q: Queue, s: Step, id: nat)
    requires Possible(q, s) && Bounded(q, id) && (s.Open? || s.Close? || s.Wait? || s.Push?)
    ensures id in Effect(q, s).items && Accounted(StoryOf(Effect(q, s), id), |InFlight(Effect(q, s), id)|)
  {
    hide Deliveries, Count, Before, Rows;
    assert InFlight(Effect(q, s), id) == InFlight(q, id);
    UntouchedStory(q, s, id);
  }

  lemma StepKeepsBound(q: Queue, s: Step, id: nat)
    requires Bounded(q, id)
    ensures Bounded(Do(q, s), id)
  {
    hide Accounted, InFlight, FewRetries, StoryOf, Effect;
    if Possible(q, s) {
      FewRetriesStay(q, s, id);
      match s
      case Take(b, _) => if q.open[b].rest[0].id == id { TakeAccounts(q, s, id); } else { ElsewhereBounded(q, s, id); }
      case Save(b) => if WorksOn(q.open[b], id) { SaveBounded(q, s, id); } else { ElsewhereBounded(q, s, id); }
      case Fail(b) => if WorksOn(q.open[b], id) { FailBounded(q, s, id); } else { ElsewhereBounded(q, s, id); }
      case Answer(_) => ElsewhereBounded(q, s, id);
      case Crash(_) => CrashBounded(q, s, id);
      case _ => OpenBounded(q, s, id);
    }
  }

  lemma ElsewhereBounded(q: Queue, s: Step, id: nat)
    requires Possible(q, s) && Untouched(q, s, id) && Bounded(q, id) && (s.Take? || s.Answer? || s.Save? || s.Fail?)
    ensures id in Effect(q, s).items && Accounted(StoryOf(Effect(q, s), id), |InFlight(Effect(q, s), id)|)
  {
    hide Accounted, InFlight, Effect, StoryOf, FewRetries;
    UntouchedInFlight(q, s, id);
    UntouchedStory(q, s, id);
  }

  lemma {:induction false} DeliveriesAreBounded(q: Queue, steps: seq<Step>, id: nat)
    requires Bounded(q, id)
    ensures Bounded(Run(q, steps), id)
    ensures
      var r := Run(q, steps);
      |StoryOf(r, id).deliveries| <= 5 + StoryOf(r, id).faults + 6 * StoryOf(r, id).clobbers + |InFlight(r, id)|
  {
    hide InFlight, FewRetries, Deliveries, Count, Do;
    if steps != [] {
      DeliveriesAreBounded(q, steps[..|steps| - 1], id);
      StepKeepsBound(Run(q, steps[..|steps| - 1]), steps[|steps| - 1], id);
    }
  }

  lemma PushedIsBounded(q: Queue, id: nat, deliverable: bool)
    requires id !in q.items && Unknown(q, id)
    ensures Bounded(Do(q, Push(id, deliverable)), id)
  {
    hide Deliveries, Count;
    var r := Do(q, Push(id, deliverable));
    assert r.items[id] == Pushed(deliverable, q.clock);
    forall b | b in r.open ensures FewRetries(r.open[b], id) { assert !Claims(q.open[b], id); }
  }

  /** In every run, however its lists overlap, a pushed item gets at most five deliveries, one more for each fault on it,
      six more for each write onto a row that somebody else had changed, and those in flight. */
  lemma PushedItemIsBounded(q: Queue, id: nat, deliverable: bool, steps: seq<Step>)
    requires id !in q.items && Unknown(q, id)
    ensures
      var r := Run(Do(q, Push(id, deliverable)), steps);
      && id in r.items
      && |StoryOf(r, id).deliveries| <= 5 + StoryOf(r, id).faults + 6 * StoryOf(r, id).clobbers + |InFlight(r, id)|
  {
    PushedIsBounded(q, id, deliverable);
    DeliveriesAreBounded(Do(q, Push(id, deliverable)), steps, id);
  }
}
