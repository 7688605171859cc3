/** How many audit rows overlapping batches can write about one item. */
module WebhookAudits {
  import opened WebhookDeadLetters
  import opened WebhookLifeCycle
  import opened WebhookOverlap

  /** The batch has discarded the item and has not written its audit row yet. */
  predicate WillAudit(b: Batch, id: nat) {
    match b.work
    case Saving(row, ok, at, saved) => row.id == id && saved >= 1 && Writes(row.item, ok, at)[0] == SetStatus(Discarded)
    case _ => false
  }

  function Auditing(open: map<nat, Batch>, id: nat): set<nat> {
    set b | b in open && WillAudit(open[b], id)
  }

  /** Audit rows written, on their way, or still possible: at most one, and one more for each write onto a changed row. */
  ghost predicate FewAudits(q: Queue, id: nat) {
    && Bounded(q, id)
    && StoryOf(q, id).audits + |Auditing(q.open, id)| + (if q.items[id].status == Pending then 1 else 0)
       <= 1 + StoryOf(q, id).clobbers
  }

  lemma OneBatchMore(open: map<nat, Batch>, b: nat, batch: Batch, id: nat)
    ensures |Auditing(open[b := batch], id)|
         == |Auditing(open - {b}, id)| + if WillAudit(batch, id) then 1 else 0
  {
    hide WillAudit;
    var rest := Auditing(open - {b}, id);
    assert Auditing(open[b := batch], id) == rest + if WillAudit(batch, id) then {b} else {};
    assert b !in rest;
  }

  lemma OneBatchLess(open: map<nat, Batch>, b: nat, id: nat)
    requires b in open
    ensures |Auditing(open, id)| == |Auditing(open - {b}, id)| + if WillAudit(open[b], id) then 1 else 0
  {
    hide WillAudit;
    assert open[b := open[b]] == open;
    OneBatchMore(open, b, open[b], id);
  }

  lemma ReplacedBatch(open: map<nat, Batch>, b: nat, batch: Batch, id: nat)
    requires b in open
    ensures |Auditing(open[b := batch], id)| + (if WillAudit(open[b], id) then 1 else 0)
         == |Auditing(open, id)| + if WillAudit(batch, id) then 1 else 0
    ensures WillAudit(open[b], id) ==> |Auditing(open, id)| >= 1
  {
    hide WillAudit, Auditing;
    OneBatchMore(open, b, batch, id);
    OneBatchLess(open, b, id);
  }

  /** What one write does to the count, whether or not the row is as expected. */
  lemma WriteCounts(s: Story, row: Row, ok: bool, at: int, saved: nat)
    requires saved < |Writes(row.item, ok, at)| && row.item.status == Pending
    ensures
      var ws := Writes(row.item, ok, at);
      var r := Saved(s, ws[saved], s.item == Expected(row.item, ws, saved));
      var before := saved >= 1 && ws[0] == SetStatus(Discarded);
      var after := saved + 1 < |ws| && ws[0] == SetStatus(Discarded);
      r.audits + (if after then 1 else 0) + (if r.item.status == Pending then 1 else 0) + s.clobbers
        <= s.audits + (if before then 1 else 0) + (if s.item.status == Pending then 1 else 0) + r.clobbers
  {
    assert Expected(row.item, Writes(row.item, ok, at), 0) == row.item;
  }

  lemma SaveCounts(q: Queue, b: nat, id: nat)
    requires FewAudits(q, id) && Possible(q, Save(b)) && WorksOn(q.open[b], id) && id in Saves(q, b).items
    requires Bounded(Saves(q, b), id)
    ensures FewAudits(Saves(q, b), id)
  {
    hide Deliveries, Count, Writes, Written, Expected, Auditing, Accounted, InFlight;
    var Saving(row, ok, at, saved) := q.open[b].work;
    assert FewRetries(q.open[b], id);
    ReplacedBatch(q.open, b, Saves(q, b).open[b], id);
    SaveHere(q, b, id);
    WriteCounts(StoryOf(q, id), row, ok, at, saved);
  }

  lemma ElsewhereCounts(q: Queue, s: Step, id: nat)
    requires FewAudits(q, id) && Possible(q, s) && Untouched(q, s, id) && !s.Open? && !s.Crash? && !s.Close?
    requires Bounded(Effect(q, s), id)
    ensures FewAudits(Effect(q, s), id)
  {
    hide Deliveries, Count, Writes, Written, Expected, WriteEvents, Auditing, Accounted, InFlight, FewRetries;
    UntouchedStory(q, s, id);
    assert StoryOf(Effect(q, s), id).item == q.items[id];
    if s.Take? || s.Answer? || s.Save? || s.Fail? { ReplacedBatch(q.open, s.batch, Effect(q, s).open[s.batch], id); }
  }

  lemma TakeCounts(q: Queue, s: Step, id: nat)
    requires FewAudits(q, id) && Possible(q, s) && s.Take? && q.open[s.batch].rest[0].id == id
    requires Bounded(Effect(q, s), id)
    ensures FewAudits(Effect(q, s), id)
  {
    hide Deliveries, Count, Auditing, Accounted, InFlight, FewRetries;
    TakeHere(q, s.batch, s.ok, id);
    ReplacedBatch(q.open, s.batch, Effect(q, s).open[s.batch], id);
  }

  lemma FailCounts(q: Queue, s: Step, id: nat)
    requires FewAudits(q, id) && Possible(q, s) && s.Fail? && WorksOn(q.open[s.batch], id)
    requires Bounded(Effect(q, s), id)
    ensures FewAudits(Effect(q, s), id)
  {
    hide Deliveries, Count, Auditing, Accounted, InFlight, FewRetries;
    Logged(q.log, Faulted(id), id);
    ReplacedBatch(q.open, s.batch, Effect(q, s).open[s.batch], id);
  }

  lemma OpenCounts(q: Queue, s: Step, id: nat)
    requires FewAudits(q, id) && Possible(q, s) && (s.Open? || s.Close?)
    requires Bounded(Effect(q, s), id)
    ensures FewAudits(Effect(q, s), id)
  {
    hide Deliveries, Count, Auditing, Accounted, InFlight, FewRetries, Before, Rows;
    if s.Open? {
      assert q.open - {s.batch} == q.open;
      OneBatchMore(q.open, s.batch, Effect(q, s).open[s.batch], id);
    } else {
      OneBatchLess(q.open, s.batch, id);
    }
    UntouchedStory(q, s, id);
  }

  lemma CrashCounts(q: Queue, s: Step, id: nat)
    requires FewAudits(q, id) && Possible(q, s) && s.Crash?
    requires Bounded(Effect(q, s), id)
    ensures FewAudits(Effect(q, s), id)
  {
    hide Deliveries, Count, Auditing, Accounted, InFlight, FewRetries, StoryOf;
    OneBatchLess(q.open, s.batch, id);
    if WorksOn(q.open[s.batch], id) {
      CrashHere(q, s.batch, id);
    } else {
      CrashElsewhere(q, s.batch, id);
    }
    assert Effect(q, s).items == q.items;
  }

  lemma StepKeepsCount(q: Queue, s: Step, id: nat)
    requires FewAudits(q, id)
    ensures FewAudits(Do(q, s), id)
  {
    hide FewAudits, Effect, Bounded;
    assert Bounded(q, id) by { CountIsBounded(q, id); }
    StepKeepsBound(q, s, id);
    if Possible(q, s) {
      match s
      case Take(b, _) => if q.open[b].rest[0].id == id { TakeCounts(q, s, id); } else { ElsewhereCounts(q, s, id); }
      case Save(b) => if WorksOn(q.open[b], id) { SavedCounts(q, b, id); } else { ElsewhereCounts(q, s, id); }
      case Fail(b) => if WorksOn(q.open[b], id) { FailCounts(q, s, id); } else { ElsewhereCounts(q, s, id); }
      case Crash(_) => CrashCounts(q, s, id);
      case Open(_, _, _) => OpenCounts(q, s, id);
      case Close(_) => OpenCounts(q, s, id);
      case _ => ElsewhereCounts(q, s, id);
    }
  }

  lemma SavedCounts(q: Queue, b: nat, id: nat)
    requires FewAudits(q, id) && Possible(q, Save(b)) && WorksOn(q.open[b], id) && Bounded(Effect(q, Save(b)), id)
    ensures FewAudits(Effect(q, Save(b)), id)
  {
    hide FewAudits, Bounded, Saves, StoryOf;
    SaveHere(q, b, id);
    SaveCounts(q, b, id);
  }

  lemma CountIsBounded(q: Queue, id: nat)
    requires FewAudits(q, id)
    ensures Bounded(q, id)
  {
  }

  lemma {:induction false} RunKeepsCount(q: Queue, steps: seq<Step>, id: nat)
    requires FewAudits(q, id)
    ensures FewAudits(Run(q, steps), id)
  {
    hide FewAudits, Do;
    if steps != [] {
      RunKeepsCount(q, steps[..|steps| - 1], id);
      StepKeepsCount(Run(q, steps[..|steps| - 1]), steps[|steps| - 1], id);
    }
  }

  lemma NobodyAudits(open: map<nat, Batch>, id: nat)
    requires forall b | b in open :: !Claims(open[b], id)
    ensures Auditing(open, id) == {}
  {
  }

  /** In every run, however its lists overlap and whatever fails, a pushed item gets at most one audit row, and one more
      for each write onto a row that somebody else had changed. */
  lemma AuditRowsAreBounded(q: Queue, id: nat, deliverable: bool, steps: seq<Step>)
    requires id !in q.items && Unknown(q, id)
    ensures
      var r := Run(Do(q, Push(id, deliverable)), steps);
      && id in r.items && StoryOf(r, id).audits <= 1 + StoryOf(r, id).clobbers
      && (r.items[id].status == Pending ==> StoryOf(r, id).audits <= StoryOf(r, id).clobbers)
  {
    hide Run, Deliveries, Count, Auditing, Accounted, InFlight, FewRetries;
    var p := Do(q, Push(id, deliverable));
    PushedIsBounded(q, id, deliverable);
    NobodyAudits(q.open, id);
    RunKeepsCount(p, steps, id);
  }
}
