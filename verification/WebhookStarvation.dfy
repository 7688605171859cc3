/** How long a due item waits for its turn. */
module WebhookStarvation {
  import opened WebhookDeadLetters
  import opened WebhookLifeCycle
  import opened WebhookOverlap

  /** The other waiting items that may be listed before `id`. */
  function Ahead(q: Queue, id: nat): set<nat>
    requires id in q.items
  {
    set y | y in q.items && y != id && q.items[y].status == Pending && Key(q.items[y]) <= Key(q.items[id])
  }

  ghost predicate Claimed(q: Queue, id: nat) {
    exists b :: b in q.open && Claims(q.open[b], id)
  }

  /** Those of them that no batch has. */
  ghost function Unclaimed(q: Queue, id: nat): set<nat>
    requires id in q.items
  {
    set y | y in Ahead(q, id) && !Claimed(q, y)
  }

  /** How many rows were not processed to the end. */
  function Losses(log: seq<Event>): nat {
    if log == [] then 0
    else Losses(log[..|log| - 1]) + if log[|log| - 1].Faulted? || log[|log| - 1].Skipped? then 1 else 0
  }

  lemma LossLogged(log: seq<Event>, e: Event)
    ensures Losses(log + [e]) == Losses(log) + if e.Faulted? || e.Skipped? then 1 else 0
  {
    assert (log + [e])[..|log|] == log;
  }

  lemma {:induction false} SkippingIsLosing(log: seq<Event>, rows: seq<Row>)
    ensures Losses(log + SkippedAll(rows)) == Losses(log) + |rows|
  {
    if rows == [] {
      assert log + [] == log;
    } else {
      var n := |rows| - 1;
      SkippingIsLosing(log, rows[..n]);
      assert log + SkippedAll(rows) == (log + SkippedAll(rows[..n])) + [Skipped(rows[n].id)];
      LossLogged(log + SkippedAll(rows[..n]), Skipped(rows[n].id));
    }
  }

  lemma WritingIsNoLoss(log: seq<Event>, id: nat, w: Write, expected: bool)
    ensures Losses(log + WriteEvents(id, w, expected)) == Losses(log)
  {
    hide Losses;
    var mid := if expected then log else log + [Clobbered(id)];
    if !expected { LossLogged(log, Clobbered(id)); }
    if w.Audit? { LossLogged(mid, Audited(id)); }
    assert log + WriteEvents(id, w, expected) == if w.Audit? then mid + [Audited(id)] else mid;
  }

  lemma SmallerSet(a: set<nat>, b: set<nat>)
    requires a <= b
    ensures |a| <= |b|
  {
    assert b == a + (b - a);
  }

  /** What a batch saves lies in the future of a due item, or finishes the row. */
  ghost predicate WorkPasses(q: Queue, w: Work, key: int) {
    match w
    case Free => true
    case Delivering(row, _) => row.id in q.items && IsDelivered(row.item)
    case Saving(row, ok, at, saved) =>
      && row.id in q.items && saved < |Writes(row.item, ok, at)| && at >= key
      && (saved >= 1 ==> q.items[row.id].status != Pending)
  }

  /** The item is due and waits on nobody's list. */
  ghost predicate Waits(q: Queue, id: nat) {
    && Due(q, id) && !Claimed(q, id)
    && forall b | b in q.open :: WorkPasses(q, q.open[b].work, Key(q.items[id]))
  }

  /** The step lets the item wait: lists are drawn up one batch at a time, hold `size` rows when that many
      are due, and do not hold this one. */
  ghost predicate PassesOver(q: Queue, s: Step, id: nat, size: nat) {
    s.Open? && Possible(q, s) ==> q.open == map[] && s.limit >= size && id !in s.ids
  }

  ghost function Opens(q: Queue, s: Step): nat {
    if s.Open? && Possible(q, s) then 1 else 0
  }

  lemma ClaimsAfter(q: Queue, r: Queue, b: nat, y: nat)
    requires b in q.open && b in r.open && r.open == q.open[b := r.open[b]]
    requires Claims(q.open[b], y) ==> Claims(r.open[b], y)
    ensures Claimed(q, y) ==> Claimed(r, y)
  {
    if Claimed(q, y) {
      var c :| c in q.open && Claims(q.open[c], y);
      assert c in r.open && Claims(r.open[c], y);
    }
  }

  /** A row saved to the end is no longer ahead of an item that was due when it was saved. */
  lemma SavedLeaves(q: Queue, b: nat, id: nat)
    requires Waits(q, id) && Possible(q, Save(b))
    ensures
      var Saving(row, ok, at, saved) := q.open[b].work;
      var r := Saves(q, b);
      && id in q.items && id in r.items && row.id != id && r.items[id] == q.items[id]
      && row.id !in Ahead(r, id)
      && (saved + 1 < |Writes(row.item, ok, at)| ==> r.items[row.id].status != Pending)
  {
    hide Deliveries, Count, Expected;
    var Saving(row, ok, at, saved) := q.open[b].work;
    assert WorkPasses(q, q.open[b].work, Key(q.items[id]));
    assert Claims(q.open[b], row.id);
    if IsDelivered(row.item) && !ok && row.item.retryCount + 1 < MAX_RETRIES {
      assert NextRetryAt(row.item.retryCount + 1, at).Some?;
    }
  }

  /** Claims spread no further than this row. */
  lemma UnclaimedShrinks(q: Queue, r: Queue, id: nat, freed: set<nat>)
    requires id in q.items && id in r.items
    requires forall y | y in Ahead(r, id) && y !in freed :: y in Ahead(q, id) && (Claimed(q, y) ==> Claimed(r, y))
    ensures |Unclaimed(r, id)| <= |Unclaimed(q, id)| + |freed|
  {
    hide Ahead, Claimed;
    SmallerSet(Unclaimed(r, id), Unclaimed(q, id) + freed);
    assert |Unclaimed(q, id) + freed| <= |Unclaimed(q, id)| + |freed|;
  }

  lemma SameItemsAhead(q: Queue, r: Queue, id: nat)
    requires id in q.items && r.items == q.items
    ensures Ahead(r, id) == Ahead(q, id)
  {
  }

  /** Steps that move no row out of a batch's hands and list none. */
  lemma QuietStep(q: Queue, s: Step, id: nat)
    requires Waits(q, id) && Possible(q, s) && (s.Wait? || s.Push? || s.Take? || s.Answer? || s.Close?)
    ensures Waits(Effect(q, s), id) && |Unclaimed(Effect(q, s), id)| <= |Unclaimed(q, id)|
    ensures Losses(Effect(q, s).log) == Losses(q.log)
  {
    hide Deliveries, Count, Losses, Lists, Writes, Written;
    var r := Effect(q, s);
    match s
    case Take(b, ok) =>
      LossLogged(q.log, Delivered(q.open[b].rest[0].id, q.clock, ok));
      TakeQuiet(q, s, id);
      SameItemsAhead(q, r, id);
      UnclaimedShrinks(q, r, id, {});
    case Answer(b) =>
      forall y ensures Lists(r.open[b], y) == Lists(q.open[b], y) { ListsByRest(q.open[b], r.open[b].work, y); }
      forall y ensures Claimed(q, y) == Claimed(r, y) { ClaimsAfter(q, r, b, y); ClaimsAfter(r, q, b, y); }
      SameItemsAhead(q, r, id);
      UnclaimedShrinks(q, r, id, {});
    case Close(b) =>
      forall y | Claimed(q, y) ensures Claimed(r, y) { CloseKeepsClaims(q, b, y); }
      SameItemsAhead(q, r, id);
      UnclaimedShrinks(q, r, id, {});
    case Push(other, deliverable) =>
      assert r.items[other] == Pushed(deliverable, q.clock);
      UnclaimedShrinks(q, r, id, {});
    case Wait(_) =>
      SameItemsAhead(q, r, id);
      UnclaimedShrinks(q, r, id, {});
  }

  lemma CloseKeepsClaims(q: Queue, b: nat, y: nat)
    requires Possible(q, Close(b)) && Claimed(q, y)
    ensures Claimed(q.(open := q.open - {b}), y)
  {
    var c :| c in q.open && Claims(q.open[c], y);
    assert c in (q.open - {b});
  }

  lemma TakeQuiet(q: Queue, s: Step, id: nat)
    requires Waits(q, id) && Possible(q, s) && s.Take?
    ensures Waits(Effect(q, s), id)
    ensures forall y :: Claimed(q, y) <==> Claimed(Effect(q, s), y)
  {
    hide Deliveries, Count, Lists, Writes, Written;
    var r, b := Effect(q, s), s.batch;
    forall y ensures Claims(q.open[b], y) == Claims(r.open[b], y) {
      RestOfList(q.open[b], y);
      ListsByRest(r.open[b], q.open[b].work, y);
    }
    forall y ensures Claimed(q, y) == Claimed(r, y) { ClaimsAfter(q, r, b, y); ClaimsAfter(r, q, b, y); }
    TakenPasses(q, b, s.ok, id);
  }

  lemma TakenPasses(q: Queue, b: nat, ok: bool, id: nat)
    requires Due(q, id) && Possible(q, Take(b, ok))
    ensures WorkPasses(Takes(q, b, ok), Takes(q, b, ok).open[b].work, Key(q.items[id]))
  {
  }

  /** Saving moves no row but its own, and takes no claim but its own away. */
  lemma SaveMoves(q: Queue, b: nat)
    requires Possible(q, Save(b))
    ensures
      var r, row := Saves(q, b), q.open[b].work.row;
      && r.items == q.items[row.id := r.items[row.id]] && r.clock == q.clock
      && (q.items[row.id].status != Pending ==> r.items[row.id].status != Pending)
      && (forall y | y != row.id :: Claimed(q, y) <==> Claimed(r, y)) && (forall y | Claimed(r, y) :: Claimed(q, y))
  {
    hide Lists, WriteEvents;
    var r, row := Saves(q, b), q.open[b].work.row;
    forall y ensures Lists(r.open[b], y) == Lists(q.open[b], y) { ListsByRest(q.open[b], r.open[b].work, y); }
    forall y | y != row.id ensures Claimed(q, y) == Claimed(r, y) { ClaimsAfter(q, r, b, y); ClaimsAfter(r, q, b, y); }
    forall y | Claimed(r, y) ensures Claimed(q, y) { ClaimsAfter(r, q, b, y); }
  }

  lemma SaveWaits(q: Queue, b: nat, id: nat)
    requires Waits(q, id) && Possible(q, Save(b))
    ensures Waits(Saves(q, b), id)
  {
    hide Lists, WriteEvents, Claimed, Ahead, Writes;
    var r := Saves(q, b);
    SaveMoves(q, b);
    SavedLeaves(q, b, id);
    forall c | c in r.open ensures WorkPasses(r, r.open[c].work, Key(r.items[id])) {
      assert WorkPasses(q, q.open[c].work, Key(q.items[id]));
    }
  }

  lemma SaveStep(q: Queue, s: Step, id: nat)
    requires Waits(q, id) && Possible(q, s) && s.Save?
    ensures Waits(Effect(q, s), id) && |Unclaimed(Effect(q, s), id)| <= |Unclaimed(q, id)|
    ensures Losses(Effect(q, s).log) == Losses(q.log)
  {
    hide Losses, Lists, Writes, Written, Expected, Ahead, Claimed, WriteEvents, Waits, Unclaimed;
    var r, b := Effect(q, s), s.batch;
    var Saving(row, ok, at, saved) := q.open[b].work;
    WritingIsNoLoss(q.log, row.id, Writes(row.item, ok, at)[saved], q.items[row.id] == Expected(row.item, Writes(row.item, ok, at), saved));
    SaveWaits(q, b, id);
    SaveMoves(q, b);
    SavedLeaves(q, b, id);
    forall y | y in Ahead(r, id) ensures y in Ahead(q, id) && (Claimed(q, y) ==> Claimed(r, y)) { AheadByItem(q, r, id, y); }
    UnclaimedShrinks(q, r, id, {});
  }

  lemma AheadByItem(q: Queue, r: Queue, id: nat, y: nat)
    requires id in q.items && id in r.items && r.items[id] == q.items[id]
    ensures y in q.items && y in r.items && q.items[y] == r.items[y] ==> (y in Ahead(r, id) <==> y in Ahead(q, id))
    ensures y in r.items && r.items[y].status != Pending ==> y !in Ahead(r, id)
    ensures y in Ahead(r, id) ==> y in r.items
  {
  }

  /** A fault gives one row back. */
  lemma FailStep(q: Queue, s: Step, id: nat)
    requires Waits(q, id) && Possible(q, s) && s.Fail?
    ensures Waits(Effect(q, s), id)
    ensures |Unclaimed(Effect(q, s), id)| + Losses(q.log) <= |Unclaimed(q, id)| + Losses(Effect(q, s).log)
  {
    hide Losses, Lists, Writes, Ahead, Unclaimed;
    var r, b := Effect(q, s), s.batch;
    var row := q.open[b].work.row;
    LossLogged(q.log, Faulted(row.id));
    forall y ensures Lists(r.open[b], y) == Lists(q.open[b], y) { ListsByRest(q.open[b], r.open[b].work, y); }
    forall y | Claimed(r, y) ensures Claimed(q, y) { ClaimsAfter(r, q, b, y); }
    forall y | y != row.id && Claimed(q, y) ensures Claimed(r, y) { ClaimsAfter(q, r, b, y); }
    SameItemsAhead(q, r, id);
    UnclaimedShrinks(q, r, id, {row.id});
  }

  function RowIds(rows: seq<Row>): (ids: set<nat>)
    ensures |ids| <= |rows| && forall y :: y in ids <==> exists i :: 0 <= i < |rows| && rows[i].id == y
  {
    if rows == [] then {} else
    assert forall i | 0 <= i < |rows| - 1 :: rows[1..][i] == rows[i + 1];
    {rows[0].id} + RowIds(rows[1..])
  }

  /** A death gives back all its batch had. */
  lemma CrashStep(q: Queue, s: Step, id: nat)
    requires Waits(q, id) && Possible(q, s) && s.Crash?
    ensures Waits(Effect(q, s), id)
    ensures |Unclaimed(Effect(q, s), id)| + Losses(q.log) <= |Unclaimed(q, id)| + Losses(Effect(q, s).log)
  {
    hide Losses, Writes, Ahead, Unclaimed, SkippedAll;
    var r, b := Effect(q, s), s.batch;
    var w, rest := q.open[b].work, q.open[b].rest;
    var log := if w.Free? then q.log else q.log + [Faulted(w.row.id)];
    if !w.Free? { LossLogged(q.log, Faulted(w.row.id)); }
    SkippingIsLosing(log, rest);
    assert r.log == log + SkippedAll(rest);
    var freed := RowIds(rest) + if w.Free? then {} else {w.row.id};
    forall y | Claimed(q, y) && y !in freed ensures Claimed(r, y) { CrashKeepsClaims(q, b, y); }
    forall y | Claimed(r, y) ensures Claimed(q, y) {
      var c :| c in r.open && Claims(r.open[c], y);
      assert c in q.open && Claims(q.open[c], y);
    }
    SameItemsAhead(q, r, id);
    UnclaimedShrinks(q, r, id, freed);
  }

  lemma CrashKeepsClaims(q: Queue, b: nat, y: nat)
    requires b in q.open && Claimed(q, y) && !Claims(q.open[b], y)
    ensures Claimed(Dies(q, b), y)
  {
    hide SkippedAll;
    var c :| c in q.open && Claims(q.open[c], y);
    assert c in Dies(q, b).open;
  }

  /** A list drawn up while no other is open takes its rows from those ahead. */
  lemma OpenStep(q: Queue, s: Step, id: nat, size: nat)
    requires Waits(q, id) && Possible(q, s) && s.Open? && PassesOver(q, s, id, size)
    ensures Waits(Effect(q, s), id)
    ensures |Unclaimed(Effect(q, s), id)| + size <= |Unclaimed(q, id)|
  {
    hide Rows, Ahead, DueList, Before;
    var r := Effect(q, s);
    var ids := set i | 0 <= i < |s.ids| :: s.ids[i];
    ListedAreAhead(q, s, id);
    ListedAreClaimed(q, s);
    SameItemsAhead(q, r, id);
    hide Claimed;
    assert Unclaimed(r, id) == Unclaimed(q, id) - ids;
    IdsCounted(s.ids);
    forall y | y in ids ensures y in Ahead(q, id) {}
    SetWithout(Ahead(q, id), ids);
  }

  lemma SetWithout(a: set<nat>, b: set<nat>)
    requires b <= a
    ensures |a| == |a - b| + |b|
  {
    assert a == (a - b) + b;
  }

  lemma ListedAreClaimed(q: Queue, s: Step)
    requires Possible(q, s) && s.Open? && q.open == map[]
    ensures forall y :: Claimed(Effect(q, s), y) <==> exists i | 0 <= i < |s.ids| :: s.ids[i] == y
  {
    hide Before;
    var r := Effect(q, s);
    forall y | (exists i | 0 <= i < |s.ids| :: s.ids[i] == y) ensures Claimed(r, y) {
      var i :| 0 <= i < |s.ids| && s.ids[i] == y;
      assert r.open[s.batch].rest[i].id == y;
      assert Claims(r.open[s.batch], y);
    }
    forall y | Claimed(r, y) ensures exists i | 0 <= i < |s.ids| :: s.ids[i] == y {
      var c :| c in r.open && Claims(r.open[c], y);
      var i :| 0 <= i < |r.open[c].rest| && r.open[c].rest[i].id == y;
      assert s.ids[i] == y;
    }
  }

  lemma ListedAreAhead(q: Queue, s: Step, id: nat)
    requires Due(q, id) && s.Open? && DueList(q, s.limit, s.ids) && id !in s.ids
    ensures |s.ids| == s.limit && Distinct(s.ids) && forall i | 0 <= i < |s.ids| :: s.ids[i] in Ahead(q, id)
  {
  }

  lemma {:induction false} IdsCounted(ids: seq<nat>)
    requires Distinct(ids)
    ensures |set i | 0 <= i < |ids| :: ids[i]| == |ids|
  {
    var all := set i | 0 <= i < |ids| :: ids[i];
    if ids != [] {
      var n := |ids| - 1;
      var before := set i | 0 <= i < n :: ids[..n][i];
      IdsCounted(ids[..n]);
      assert all == before + {ids[n]} by {
        assert forall i | 0 <= i < n :: ids[..n][i] == ids[i];
      }
    }
  }

  /** While a due item is passed over, lists use up those ahead of it, unless their rows are lost. */
  lemma PassingStep(q: Queue, s: Step, id: nat, size: nat)
    requires Waits(q, id) && PassesOver(q, s, id, size)
    ensures Waits(Do(q, s), id)
    ensures
      |Unclaimed(Do(q, s), id)| + Opens(q, s) * size + Losses(q.log) <= |Unclaimed(q, id)| + Losses(Do(q, s).log)
  {
    hide Waits, Unclaimed, Losses, Effect, PassesOver;
    if Possible(q, s) {
      match s
      case Open(_, _, _) => OpenStep(q, s, id, size); OpenLogsNothing(q, s);
      case Save(_) => SaveStep(q, s, id);
      case Fail(_) => FailStep(q, s, id);
      case Crash(_) => CrashStep(q, s, id);
      case _ => QuietStep(q, s, id);
    }
  }

  lemma OpenLogsNothing(q: Queue, s: Step)
    requires s.Open? && Possible(q, s)
    ensures Effect(q, s).log == q.log
  {
  }

  ghost predicate AlwaysPassesOver(q: Queue, steps: seq<Step>, id: nat, size: nat) {
    forall i | 0 <= i < |steps| :: PassesOver(Run(q, steps[..i]), steps[i], id, size)
  }

  /** How many lists were drawn up. */
  ghost function ListsDrawn(q: Queue, steps: seq<Step>): nat {
    if steps == [] then 0
    else ListsDrawn(q, steps[..|steps| - 1]) + Opens(Run(q, steps[..|steps| - 1]), steps[|steps| - 1])
  }

  lemma OneMore(n: nat, m: nat, size: nat)
    ensures (n + m) * size == n * size + m * size
  {
  }

  lemma {:induction false} PassedOver(q: Queue, steps: seq<Step>, id: nat, size: nat)
    requires Waits(q, id) && AlwaysPassesOver(q, steps, id, size)
    ensures Waits(Run(q, steps), id)
    ensures
      |Unclaimed(Run(q, steps), id)| + ListsDrawn(q, steps) * size + Losses(q.log) <= |Unclaimed(q, id)| + Losses(Run(q, steps).log)
  {
    hide Waits, Unclaimed, Losses, Do, PassesOver, Opens;
    if steps != [] {
      var n := |steps| - 1;
      assert forall i | 0 <= i < n :: steps[..n][..i] == steps[..i];
      PassedOver(q, steps[..n], id, size);
      PassingStep(Run(q, steps[..n]), steps[n], id, size);
      OneMore(ListsDrawn(q, steps[..n]), Opens(Run(q, steps[..n]), steps[n]), size);
    }
  }

  lemma Quotient(k: nat, n: nat, size: nat)
    requires size >= 1 && n >= k / size + 1
    ensures n * size > k
  {
    assert k == size * (k / size) + k % size;
    assert n * size >= (k / size + 1) * size;
  }

  /** With batches that do not overlap and whose rows are all processed to the end, a due item with k items ahead of it
      is listed at the latest by the batch number k / size + 1. */
  lemma NoStarvation(q: Queue, steps: seq<Step>, id: nat, size: nat)
    requires size >= 1 && Due(q, id) && q.open == map[]
    requires Losses(Run(q, steps).log) == Losses(q.log)
    requires ListsDrawn(q, steps) >= |Ahead(q, id)| / size + 1
    ensures !AlwaysPassesOver(q, steps, id, size)
  {
    hide Ahead, Losses, Run, ListsDrawn, AlwaysPassesOver;
    Quotient(|Ahead(q, id)|, ListsDrawn(q, steps), size);
    if AlwaysPassesOver(q, steps, id, size) {
      PassedOver(q, steps, id, size);
      SmallerSet(Unclaimed(q, id), Ahead(q, id));
      assert false;
    }
  }

  lemma {:induction false} RunOn(q: Queue, a: seq<Step>, b: seq<Step>)
    ensures Run(q, a + b) == Run(Run(q, a), b)
    ensures ListsDrawn(q, a + b) == ListsDrawn(q, a) + ListsDrawn(Run(q, a), b)
  {
    hide Do, Opens;
    if b == [] {
      assert a + b == a;
    } else {
      var n := |b| - 1;
      assert (a + b)[..|a + b| - 1] == a + b[..n];
      RunOn(q, a, b[..n]);
    }
  }

  /** One batch that lists only `y`, delivers it with success, and cannot save that. */
  function StuckBatch(y: nat): seq<Step> {
    [Open(0, 1, [y]), Take(0, true), Answer(0), Fail(0), Close(0)]
  }

  function Stuck(y: nat, n: nat): seq<Step> {
    if n == 0 then [] else StuckBatch(y) + Stuck(y, n - 1)
  }

  lemma RunFive(q: Queue, a: Step, b: Step, c: Step, d: Step, e: Step)
    ensures Run(q, [a, b, c, d, e]) == Do(Do(Do(Do(Do(q, a), b), c), d), e)
    ensures !b.Open? && !c.Open? && !d.Open? && !e.Open? ==> ListsDrawn(q, [a, b, c, d, e]) == Opens(q, a)
  {
    hide Do, Possible;
    RunFour(q, a, b, c, d);
    StepBy(q, [a, b, c, d], e);
    assert [a, b, c, d] + [e] == [a, b, c, d, e];
    assert [a, b, c, d, e][..4] == [a, b, c, d] && [a, b, c, d][..3] == [a, b, c] && [a, b, c][..2] == [a, b];
    assert [a, b][..1] == [a] && [a][..0] == [];
    assert Run(q, []) == q;
    assert ListsDrawn(q, [a]) == Opens(q, a);
    if !b.Open? && !c.Open? && !d.Open? && !e.Open? {
      assert ListsDrawn(q, [a, b]) == ListsDrawn(q, [a]);
      assert ListsDrawn(q, [a, b, c]) == ListsDrawn(q, [a, b]);
      assert ListsDrawn(q, [a, b, c, d]) == ListsDrawn(q, [a, b, c]);
    }
  }

  lemma StuckOnce(q: Queue, y: nat)
    requires IsFirstDue(q, y) && IsDelivered(q.items[y]) && q.open == map[]
    ensures
      var r := Run(q, StuckBatch(y));
      && r.items == q.items && r.clock == q.clock && r.open == map[] && ListsDrawn(q, StuckBatch(y)) == 1
      && |Deliveries(r.log, y)| == |Deliveries(q.log, y)| + 1
  {
    hide DueList, Deliveries, Count, Run, ListsDrawn, Do, Before;
    var row := Row(y, q.items[y]);
    var q1 := q.(open := map[0 := Batch([row], Free)]);
    OpensAlone(q, y);
    FailsToSave(q1, row);
    ClosesAlone(q1.(log := q.log + [Delivered(y, q.clock, true)] + [Faulted(y)], open := map[0 := Batch([], Free)]));
    Logged(q.log, Delivered(y, q.clock, true), y);
    Logged(q.log + [Delivered(y, q.clock, true)], Faulted(y), y);
    RunFive(q, Open(0, 1, [y]), Take(0, true), Answer(0), Fail(0), Close(0));
  }

  lemma OpensAlone(q: Queue, y: nat)
    requires IsFirstDue(q, y) && q.open == map[]
    ensures Do(q, Open(0, 1, [y])) == q.(open := map[0 := Batch([Row(y, q.items[y])], Free)])
    ensures Opens(q, Open(0, 1, [y])) == 1
  {
    hide DueList, Before;
    OnlyFirstListed(q, 0, y);
  }

  lemma ClosesAlone(q: Queue)
    requires q.open == map[0 := Batch([], Free)]
    ensures Do(q, Close(0)) == q.(open := map[])
  {
    assert q.open - {0} == map[];
  }

  lemma FailsToSave(q: Queue, row: Row)
    requires q.open == map[0 := Batch([row], Free)] && row.id in q.items && IsDelivered(row.item)
    ensures Do(Do(Do(q, Take(0, true)), Answer(0)), Fail(0))
         == q.(log := q.log + [Delivered(row.id, q.clock, true)] + [Faulted(row.id)], open := map[0 := Batch([], Free)])
  {
    assert [row][1..] == [];
    var two, three := Batch([], Delivering(row, true)), Batch([], Saving(row, true, q.clock, 0));
    var q2 := q.(log := q.log + [Delivered(row.id, q.clock, true)], open := map[0 := two]);
    assert q.open[0 := two] == map[0 := two] && map[0 := two][0 := three] == map[0 := three];
    assert map[0 := three][0 := Batch([], Free)] == map[0 := Batch([], Free)];
    assert Do(q, Take(0, true)) == q2;
    assert Do(q2, Answer(0)) == q2.(open := map[0 := three]);
  }

  /** Faults can starve: while the first item's outcome cannot be saved, it is delivered over and over, beyond any bound,
      and no list ever holds another item. */
  lemma {:induction false} FaultsStarve(q: Queue, y: nat, n: nat)
    requires IsFirstDue(q, y) && IsDelivered(q.items[y]) && q.open == map[]
    ensures ListsDrawn(q, Stuck(y, n)) == n && Run(q, Stuck(y, n)).items == q.items
    ensures |Deliveries(Run(q, Stuck(y, n)).log, y)| == |Deliveries(q.log, y)| + n
    ensures forall i | 0 <= i < |Stuck(y, n)| && Stuck(y, n)[i].Open? :: Stuck(y, n)[i].ids == [y]
    decreases n
  {
    hide Run, Deliveries, ListsDrawn, Before;
    if n == 0 {
      RunNothing(q);
    } else {
      StuckOnce(q, y);
      RunOn(q, StuckBatch(y), Stuck(y, n - 1));
      FaultsStarve(Run(q, StuckBatch(y)), y, n - 1);
    }
  }

  lemma RunOne(q: Queue, s: Step)
    ensures Run(q, [s]) == Do(q, s)
  {
    RunNothing(q);
    assert [s][..0] == [];
  }

  lemma RunNothing(q: Queue)
    ensures Run(q, []) == q && ListsDrawn(q, []) == 0
  {
  }
}
