/** Webhooks whose delivery failed wait in a dead-letter table and are retried, at growing distances, by batches
    that list the due ones and work through that list. Batches may overlap: each decides by the rows as it listed
    them. Database faults may cut the work on an item short, and a process may die in the middle of a batch. */
module WebhookDeadLetters {

  datatype Option<T> = None | Some(value: T)

  datatype Status = Pending | Replayed | Discarded

  /** `deliverable` is false when the target address or the request payload is missing. */
  datatype Item = Item(deliverable: bool, retryCount: nat, nextRetryAt: Option<int>, status: Status, created: int)

  /** A row as it was listed. */
  datatype Row = Row(id: nat, item: Item)

  /** `Clobbered` marks a write onto a row that somebody else had changed since it was listed, `Skipped` a listed
      row that nobody came to process. */
  datatype Event =
    | Delivered(id: nat, at: int, ok: bool)
    | Audited(id: nat)
    | Faulted(id: nat)
    | Clobbered(id: nat)
    | Skipped(id: nat)

  /** What a batch is doing: between two rows; waiting for a receiver whose answer will be `ok`; or saving the
      outcome, of which `saved` writes reached the database. */
  datatype Work = Free | Delivering(row: Row, ok: bool) | Saving(row: Row, ok: bool, at: int, saved: nat)

  datatype Batch = Batch(rest: seq<Row>, work: Work)

  /** The table, everything that ever happened to its items, the clock in milliseconds, and the running batches. */
  datatype Queue = Queue(items: map<nat, Item>, log: seq<Event>, clock: int, open: map<nat, Batch>)

  const MAX_RETRIES := 5

  const SCHEDULE: seq<int> := [30_000, 120_000, 600_000, 3_600_000, 21_600_000]

  function NextRetryAt(retryCount: nat, now: int): Option<int> {
    if retryCount < |SCHEDULE| then Some(now + SCHEDULE[retryCount]) else None
  }

  /** The least time between the push and the `n`-th delivery. */
  function Backoff(n: nat): int
    requires n <= MAX_RETRIES
  {
    if n == 0 then 0 else Backoff(n - 1) + SCHEDULE[n - 1]
  }

  /** An item without a retry time sorts, and is due, at time zero. */
  function Key(item: Item): int {
    match item.nextRetryAt case None => 0 case Some(t) => t
  }

  predicate Due(q: Queue, id: nat) {
    id in q.items && q.items[id].status == Pending && Key(q.items[id]) <= q.clock
  }

  predicate Before(a: Item, b: Item) {
    Key(a) < Key(b) || (Key(a) == Key(b) && a.created < b.created)
  }

  predicate Distinct(ids: seq<nat>) {
    forall i, j | 0 <= i < j < |ids| :: ids[i] != ids[j]
  }

  /** The rows a due query with this limit may return: ties are broken either way. */
  ghost predicate DueList(q: Queue, limit: nat, ids: seq<nat>) {
    && |ids| <= limit && Distinct(ids)
    && (forall i | 0 <= i < |ids| :: Due(q, ids[i]))
    && (forall i, j | 0 <= i < j < |ids| :: !Before(q.items[ids[j]], q.items[ids[i]]))
    && (forall id | Due(q, id) && id !in ids ::
         |ids| == limit && forall i | 0 <= i < |ids| :: !Before(q.items[id], q.items[ids[i]]))
  }

  function Rows(items: map<nat, Item>, ids: seq<nat>): (rows: seq<Row>)
    requires forall i | 0 <= i < |ids| :: ids[i] in items
    ensures |rows| == |ids| && forall i | 0 <= i < |ids| :: rows[i] == Row(ids[i], items[ids[i]])
  {
    if ids == [] then [] else [Row(ids[0], items[ids[0]])] + Rows(items, ids[1..])
  }

  // ---------------------------------------------------------------------------------------------
  // Writes.

  datatype Write = SetStatus(status: Status) | Patch(retryCount: nat, nextRetryAt: Option<int>) | Audit

  predicate IsDelivered(item: Item) {
    item.deliverable && item.retryCount < MAX_RETRIES
  }

  /** What is saved about a row after its processing, decided by the row as listed. */
  function Writes(item: Item, ok: bool, now: int): (ws: seq<Write>)
    ensures 1 <= |ws| <= 3
  {
    if !IsDelivered(item) then [SetStatus(Discarded), Patch(item.retryCount, None), Audit]
    else if ok then [SetStatus(Replayed), Patch(item.retryCount, None)]
    else if item.retryCount + 1 >= MAX_RETRIES then [SetStatus(Discarded), Patch(item.retryCount + 1, None), Audit]
    else [Patch(item.retryCount + 1, NextRetryAt(item.retryCount + 1, now))]
  }

  function Written(item: Item, w: Write): Item {
    match w
    case SetStatus(s) => item.(status := s)
    case Patch(n, t) => item.(retryCount := n, nextRetryAt := t)
    case Audit => item
  }

  /** The row as its batch believes it to be after `n` of its writes. */
  function Expected(item: Item, ws: seq<Write>, n: nat): Item
    requires n <= |ws|
  {
    if n == 0 then item else Written(Expected(item, ws, n - 1), ws[n - 1])
  }

  // ---------------------------------------------------------------------------------------------
  // Steps.

  datatype Step =
    | Wait(time: nat)
    | Push(id: nat, deliverable: bool)
    | Open(batch: nat, limit: nat, ids: seq<nat>)
    | Take(batch: nat, ok: bool)
    | Answer(batch: nat)
    | Save(batch: nat)
    | Fail(batch: nat)
    | Crash(batch: nat)
    | Close(batch: nat)

  function Pushed(deliverable: bool, now: int): Item {
    Item(deliverable, 0, NextRetryAt(0, now), Pending, now)
  }

  predicate Knows(q: Queue, w: Work) {
    match w
    case Free => true
    case Delivering(row, _) => row.id in q.items
    case Saving(row, ok, at, saved) => row.id in q.items && saved < |Writes(row.item, ok, at)|
  }

  ghost predicate Possible(q: Queue, s: Step) {
    match s
    case Wait(_) => true
    case Push(id, _) => id !in q.items
    case Open(b, limit, ids) => b !in q.open && DueList(q, limit, ids)
    case Take(b, _) => b in q.open && q.open[b].work.Free? && q.open[b].rest != [] && q.open[b].rest[0].id in q.items
    case Answer(b) => b in q.open && q.open[b].work.Delivering?
    case Save(b) => b in q.open && q.open[b].work.Saving? && Knows(q, q.open[b].work)
    case Fail(b) => b in q.open && q.open[b].work.Saving?
    case Crash(b) => b in q.open
    case Close(b) => b in q.open && q.open[b] == Batch([], Free)
  }

  function SkippedAll(rows: seq<Row>): seq<Event> {
    if rows == [] then [] else SkippedAll(rows[..|rows| - 1]) + [Skipped(rows[|rows| - 1].id)]
  }

  function Takes(q: Queue, b: nat, ok: bool): Queue
    requires b in q.open && q.open[b].rest != []
  {
    var row, rest := q.open[b].rest[0], q.open[b].rest[1..];
    if IsDelivered(row.item) then
      q.(log := q.log + [Delivered(row.id, q.clock, ok)], open := q.open[b := Batch(rest, Delivering(row, ok))])
    else q.(open := q.open[b := Batch(rest, Saving(row, ok, q.clock, 0))])
  }

  /** The log entries of one write: a note that it hit a changed row, and the audit row if it is one. */
  function WriteEvents(id: nat, w: Write, expected: bool): seq<Event> {
    (if expected then [] else [Clobbered(id)]) + (if w.Audit? then [Audited(id)] else [])
  }

  function Saves(q: Queue, b: nat): Queue
    requires b in q.open && q.open[b].work.Saving? && Knows(q, q.open[b].work)
  {
    var Saving(row, ok, at, saved) := q.open[b].work;
    var ws := Writes(row.item, ok, at);
    var item := q.items[row.id];
    Queue(q.items[row.id := Written(item, ws[saved])],
          q.log + WriteEvents(row.id, ws[saved], item == Expected(row.item, ws, saved)), q.clock,
          q.open[b := q.open[b].(work := if saved + 1 < |ws| then Saving(row, ok, at, saved + 1) else Free)])
  }

  /** The process dies: what it worked on is cut short, the rest of its list is not processed. */
  function Dies(q: Queue, b: nat): Queue
    requires b in q.open
  {
    var w := q.open[b].work;
    q.(log := q.log + (if w.Free? then [] else [Faulted(w.row.id)]) + SkippedAll(q.open[b].rest), open := q.open - {b})
  }

  ghost function Effect(q: Queue, s: Step): Queue
    requires Possible(q, s)
  {
    match s
    case Wait(t) => q.(clock := q.clock + t)
    case Push(id, deliverable) => q.(items := q.items[id := Pushed(deliverable, q.clock)])
    case Open(b, _, ids) => q.(open := q.open[b := Batch(Rows(q.items, ids), Free)])
    case Take(b, ok) => Takes(q, b, ok)
    case Answer(b) =>
      var Delivering(row, ok) := q.open[b].work;
      q.(open := q.open[b := q.open[b].(work := Saving(row, ok, q.clock, 0))])
    case Save(b) => Saves(q, b)
    case Fail(b) =>
      q.(log := q.log + [Faulted(q.open[b].work.row.id)], open := q.open[b := q.open[b].(work := Free)])
    case Crash(b) => Dies(q, b)
    case Close(b) => q.(open := q.open - {b})
  }

  /** A step that cannot be taken changes nothing. */
  ghost function Do(q: Queue, s: Step): Queue {
    if Possible(q, s) then Effect(q, s) else q
  }

  ghost function Run(q: Queue, steps: seq<Step>): Queue {
    if steps == [] then q else Do(Run(q, steps[..|steps| - 1]), steps[|steps| - 1])
  }

  // ---------------------------------------------------------------------------------------------
  // What happened to one item.

  datatype Delivery = Delivery(at: int, ok: bool)

  /** When an item was delivered, and with what success. */
  function Deliveries(log: seq<Event>, id: nat): seq<Delivery> {
    if log == [] then []
    else
      var before, e := Deliveries(log[..|log| - 1], id), log[|log| - 1];
      if e.Delivered? && e.id == id then before + [Delivery(e.at, e.ok)] else before
  }

  /** How often an event occurred. */
  function Count(log: seq<Event>, e: Event): (n: nat)
    ensures n == 0 <==> e !in log
  {
    assert log != [] ==> log == log[..|log| - 1] + [log[|log| - 1]];
    if log == [] then 0 else Count(log[..|log| - 1], e) + if log[|log| - 1] == e then 1 else 0
  }

  datatype Story = Story(item: Item, deliveries: seq<Delivery>, audits: nat, faults: nat, clobbers: nat)

  function StoryOf(q: Queue, id: nat): Story
    requires id in q.items
  {
    Story(q.items[id], Deliveries(q.log, id), Count(q.log, Audited(id)), Count(q.log, Faulted(id)), Count(q.log, Clobbered(id)))
  }

  lemma Logged(log: seq<Event>, e: Event, id: nat)
    ensures Deliveries(log + [e], id)
         == if e.Delivered? && e.id == id then Deliveries(log, id) + [Delivery(e.at, e.ok)] else Deliveries(log, id)
    ensures forall f :: Count(log + [e], f) == Count(log, f) + if e == f then 1 else 0
  {
    assert (log + [e])[..|log|] == log;
  }

  /** Events that do not concern an item leave its part of the log alone. */
  ghost predicate SameLog(before: seq<Event>, after: seq<Event>, id: nat) {
    && Deliveries(after, id) == Deliveries(before, id) && Count(after, Audited(id)) == Count(before, Audited(id))
    && Count(after, Faulted(id)) == Count(before, Faulted(id)) && Count(after, Clobbered(id)) == Count(before, Clobbered(id))
  }

  lemma LoggedElsewhere(log: seq<Event>, e: Event, id: nat)
    requires e.Skipped? || e.id != id
    ensures SameLog(log, log + [e], id)
  {
    Logged(log, e, id);
  }

  lemma {:induction false} SkippingIsSilent(log: seq<Event>, rows: seq<Row>, id: nat)
    ensures SameLog(log, log + SkippedAll(rows), id)
  {
    if rows == [] {
      assert log + [] == log;
    } else {
      var n := |rows| - 1;
      SkippingIsSilent(log, rows[..n], id);
      var e := Skipped(rows[n].id);
      assert log + SkippedAll(rows) == (log + SkippedAll(rows[..n])) + [e];
      LoggedElsewhere(log + SkippedAll(rows[..n]), e, id);
    }
  }

  /** The story of an item after one write that may hit a changed row. */
  function Saved(s: Story, w: Write, expected: bool): Story {
    Story(Written(s.item, w), s.deliveries, s.audits + (if w.Audit? then 1 else 0), s.faults,
          s.clobbers + if expected then 0 else 1)
  }

  lemma WriteLogged(log: seq<Event>, id: nat, w: Write, expected: bool, other: nat)
    ensures
      var after := log + WriteEvents(id, w, expected);
      if other != id then SameLog(log, after, other)
      else
        && Deliveries(after, id) == Deliveries(log, id) && Count(after, Faulted(id)) == Count(log, Faulted(id))
        && Count(after, Audited(id)) == Count(log, Audited(id)) + (if w.Audit? then 1 else 0)
        && Count(after, Clobbered(id)) == Count(log, Clobbered(id)) + if expected then 0 else 1
  {
    hide Deliveries, Count;
    var mid := if expected then log else log + [Clobbered(id)];
    if !expected { Logged(log, Clobbered(id), other); }
    if w.Audit? { Logged(mid, Audited(id), other); }
    assert log + WriteEvents(id, w, expected) == if w.Audit? then mid + [Audited(id)] else mid;
  }

  /** The row a batch is working on. */
  predicate WorksOn(b: Batch, id: nat) {
    !b.work.Free? && b.work.row.id == id
  }

  predicate Lists(b: Batch, id: nat) {
    exists i | 0 <= i < |b.rest| :: b.rest[i].id == id
  }

  /** The batch has the item on its list or in its hands. */
  predicate Claims(b: Batch, id: nat) {
    WorksOn(b, id) || Lists(b, id)
  }

  /** The step neither takes nor saves nor gives up this item. */
  ghost predicate Untouched(q: Queue, s: Step, id: nat)
    requires Possible(q, s)
  {
    match s
    case Take(b, _) => q.open[b].rest[0].id != id
    case Save(b) => !WorksOn(q.open[b], id)
    case Fail(b) => !WorksOn(q.open[b], id)
    case Crash(b) => !WorksOn(q.open[b], id)
    case _ => true
  }

  lemma UntouchedStory(q: Queue, s: Step, id: nat)
    requires id in q.items && Possible(q, s) && Untouched(q, s, id)
    ensures id in Effect(q, s).items && StoryOf(Effect(q, s), id) == StoryOf(q, id)
  {
    hide Deliveries, Count, DueList;
    match s
    case Take(b, ok) => LoggedElsewhere(q.log, Delivered(q.open[b].rest[0].id, q.clock, ok), id);
    case Save(b) =>
      var Saving(row, ok, at, saved) := q.open[b].work;
      var ws := Writes(row.item, ok, at);
      WriteLogged(q.log, row.id, ws[saved], q.items[row.id] == Expected(row.item, ws, saved), id);
    case Fail(b) => LoggedElsewhere(q.log, Faulted(q.open[b].work.row.id), id);
    case Crash(b) => CrashElsewhere(q, b, id);
    case _ =>
  }

  lemma CrashElsewhere(q: Queue, b: nat, id: nat)
    requires id in q.items && b in q.open && !WorksOn(q.open[b], id)
    ensures id in Dies(q, b).items && StoryOf(Dies(q, b), id) == StoryOf(q, id)
  {
    hide Deliveries, Count;
    var w := q.open[b].work;
    var log := if w.Free? then q.log else q.log + [Faulted(w.row.id)];
    if !w.Free? { LoggedElsewhere(q.log, Faulted(w.row.id), id); }
    SkippingIsSilent(log, q.open[b].rest, id);
    assert Dies(q, b).log == log + SkippedAll(q.open[b].rest);
  }

  lemma CrashHere(q: Queue, b: nat, id: nat)
    requires id in q.items && b in q.open && WorksOn(q.open[b], id)
    ensures id in Dies(q, b).items && StoryOf(Dies(q, b), id) == Faulting(StoryOf(q, id))
  {
    hide Deliveries, Count;
    var log := q.log + [Faulted(id)];
    Logged(q.log, Faulted(id), id);
    SkippingIsSilent(log, q.open[b].rest, id);
    assert Dies(q, b).log == log + SkippedAll(q.open[b].rest);
  }

  lemma SaveHere(q: Queue, b: nat, id: nat)
    requires id in q.items && Possible(q, Save(b)) && WorksOn(q.open[b], id)
    ensures
      var Saving(row, ok, at, saved) := q.open[b].work;
      var ws := Writes(row.item, ok, at);
      && id in Saves(q, b).items
      && StoryOf(Saves(q, b), id) == Saved(StoryOf(q, id), ws[saved], q.items[id] == Expected(row.item, ws, saved))
  {
    hide Deliveries, Count;
    var Saving(row, ok, at, saved) := q.open[b].work;
    var ws := Writes(row.item, ok, at);
    WriteLogged(q.log, id, ws[saved], q.items[id] == Expected(row.item, ws, saved), id);
  }

  lemma TakeHere(q: Queue, b: nat, ok: bool, id: nat)
    requires id in q.items && Possible(q, Take(b, ok)) && q.open[b].rest[0].id == id
    ensures id in Takes(q, b, ok).items
    ensures StoryOf(Takes(q, b, ok), id) == WithDelivery(StoryOf(q, id), q.open[b].rest[0].item, ok, q.clock)
  {
    hide Deliveries, Count;
    Logged(q.log, Delivered(id, q.clock, ok), id);
  }

  function Faulting(s: Story): Story {
    s.(faults := s.faults + 1)
  }

  function WithDelivery(s: Story, listed: Item, ok: bool, now: int): Story {
    if IsDelivered(listed) then s.(deliveries := s.deliveries + [Delivery(now, ok)]) else s
  }
}
