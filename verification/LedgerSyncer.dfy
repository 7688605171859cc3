/** The ledger syncer: a cursor loop that hands pages of chain events to ingestion
    through a queue that retries each page and gives up after three attempts. */
module LedgerSyncer {

  datatype Event = Event(ledger: int, id: int)

  const BATCH_SIZE := 200
  const MAX_RETRIES := 3

  ghost predicate Sorted(events: seq<Event>) {
    forall i, j | 0 <= i < j < |events| :: events[i].ledger <= events[j].ledger
  }

  /** The events of ledgers `from` up to, not including, `to`, in chain order. */
  function EventsIn(world: seq<Event>, from: int, to: int): seq<Event> {
    if world == [] then [] else
    (if from <= world[0].ledger < to then [world[0]] else []) + EventsIn(world[1..], from, to)
  }

  /** The RPC node as the syncer meets it: at cursor `c` the first `fails(c)` calls fail, the next answers `page(c)`. */
  datatype Node = Node(fails: int -> nat, page: int -> seq<Event>)

  /** When the queue starts to refuse jobs: never, or once that many jobs were accepted. */
  datatype Shutdown = Never | After(jobs: nat)

  predicate Refuses(stop: Shutdown, jobs: nat) {
    stop.After? && jobs >= stop.jobs
  }

  /** A page answers in ledger order, from the cursor on. The request names no last ledger: ledgers that
      closed after the cycle asked for the latest one may be in it. */
  ghost predicate PageInRange(page: seq<Event>, cursor: int) {
    Sorted(page) && forall i | 0 <= i < |page| :: cursor <= page[i].ledger
  }

  function NextCursor(page: seq<Event>, latest: int): int {
    if page == [] then latest + 1 else page[|page| - 1].ledger + 1
  }

  /** One stretch of ledgers the cursor moved over: what was handed to ingestion and how many calls failed. */
  datatype Window = Window(from: int, to: int, got: seq<Event>, answered: bool, failed: nat)

  ghost predicate WindowOk(w: Window, node: Node, latest: int) {
    if w.answered then
      w.got == node.page(w.from) && w.to == NextCursor(w.got, latest) && w.failed == node.fails(w.from)
    else
      w.got == [] && w.to == w.from + BATCH_SIZE && w.failed % MAX_RETRIES == 0
  }

  /** The windows follow one another from `from` to `to`. */
  ghost predicate Covers(log: seq<Window>, from: int, to: int) {
    if log == [] then from == to else
    var w := log[|log| - 1];
    w.from < w.to == to && Covers(log[..|log| - 1], from, w.from)
  }

  function Handed(log: seq<Window>): seq<Event> {
    if log == [] then [] else Handed(log[..|log| - 1]) + log[|log| - 1].got
  }

  /** A page that failed `n` times reached the dead-letter queue once for every three failures. */
  function Buried(log: seq<Window>): nat {
    if log == [] then 0 else Buried(log[..|log| - 1]) + log[|log| - 1].failed / MAX_RETRIES
  }

  /** The jobs the queue accepted for these windows: one for every three failures, and the one that was answered. */
  function JobsOf(log: seq<Window>): nat {
    if log == [] then 0
    else JobsOf(log[..|log| - 1]) + log[|log| - 1].failed / MAX_RETRIES + if log[|log| - 1].answered then 1 else 0
  }

  /** A stretch is skipped exactly when the queue has accepted as many jobs as it ever will by then. */
  ghost predicate SkippedOnlyWhenShut(log: seq<Window>, stop: Shutdown, jobs: nat) {
    forall i | 0 <= i < |log| ::
      !log[i].answered <==> stop.After? && jobs + JobsOf(log[..i]) + log[i].failed / 3 >= stop.jobs
  }

  ghost predicate CycleLog(log: seq<Window>, node: Node, latest: int, from: int, to: int) {
    && Covers(log, from, to)
    && (forall i | 0 <= i < |log| :: WindowOk(log[i], node, latest) && log[i].from <= latest)
  }

  function Max(a: int, b: int): int { if a > b then a else b }

  /** The first ledger of the next cycle. */
  function StartLedger(saved: int, syncStart: int): int {
    Max(saved + 1, syncStart + 1)
  }

  datatype Progress = Progress(saved: int, handed: seq<Event>)

  class Syncer {
    const syncStart: int
    var saved: int
    var handed: seq<Event>
    var deadLetters: nat
    var jobs: nat
    // The variables of the running cycle that its job closure changes.
    var cursor: int
    var totalIngested: nat
    var calls: nat
    ghost var log: seq<Window>

    constructor (syncStart: int)
      ensures this.syncStart == syncStart && saved == 0 && handed == [] && deadLetters == 0 && jobs == 0
    {
      this.syncStart := syncStart;
      saved, handed, deadLetters, jobs := 0, [], 0, 0;
      cursor, totalIngested, calls, log := 0, 0, 0, [];
    }

    function State(): Progress
      reads this
    {
      Progress(saved, handed)
    }

    /** One accepted job: up to three calls; a page is handed over and the cursor moved only on success. */
    method RunBatchJob(node: Node, latest: int)
      requires calls <= node.fails(cursor)
      modifies `handed, `deadLetters, `cursor, `totalIngested, `calls
      ensures
        var left := node.fails(old(cursor)) - old(calls);
        if left < MAX_RETRIES then
          var page := node.page(old(cursor));
          && handed == old(handed) + page && totalIngested == old(totalIngested) + |page|
          && cursor == NextCursor(page, latest) && calls == 0 && deadLetters == old(deadLetters)
          && cursor == (if page == [] then latest else page[|page| - 1].ledger) + 1
        else
          && handed == old(handed) && totalIngested == old(totalIngested) && cursor == old(cursor)
          && calls == old(calls) + MAX_RETRIES && deadLetters == old(deadLetters) + 1
    {
      var attempt := 1;
      while attempt <= MAX_RETRIES
        invariant 1 <= attempt <= MAX_RETRIES
        invariant handed == old(handed) && cursor == old(cursor) && totalIngested == old(totalIngested)
        invariant deadLetters == old(deadLetters)
        invariant calls == old(calls) + attempt - 1 <= node.fails(cursor)
        decreases MAX_RETRIES - attempt
      {
        if calls < node.fails(cursor) {
          calls := calls + 1;
          if attempt >= MAX_RETRIES {
            deadLetters := deadLetters + 1;
            return;
          }
          attempt := attempt + 1;
        } else {
          var page := node.page(cursor);
          handed := handed + page;
          totalIngested := totalIngested + |page|;
          cursor := NextCursor(page, latest);
          calls := 0;
          return;
        }
      }
    }

    /** One sync cycle up to `latest`. It ends however often each page fails, as long as no page fails for ever. */
    method RunSync(node: Node, latest: int, stop: Shutdown)
      requires forall c: int :: PageInRange(node.page(c), c)
      modifies this
      ensures
        var start := if old(saved) > syncStart then old(saved) + 1 else syncStart + 1;
        if start > latest then State() == old(State()) && deadLetters == old(deadLetters)
        else
          && saved == latest && CycleLog(log, node, latest, start, cursor) && cursor > latest
          && handed == old(handed) + Handed(log) && totalIngested == |Handed(log)|
          && deadLetters == old(deadLetters) + Buried(log)
          && jobs == old(jobs) + JobsOf(log)
          && (forall i | 0 <= i < |log| ::
               !log[i].answered <==> stop.After? && old(jobs) + JobsOf(log[..i]) + log[i].failed / 3 >= stop.jobs)
          && (stop.Never? || jobs < stop.jobs ==> forall i | 0 <= i < |log| :: log[i].answered)
    {
      hide Covers, Handed, Buried, CycleLog, JobsOf, SkippedOnlyWhenShut;
      var startLedger := StartLedger(saved, syncStart);
      if startLedger > latest { return; }
      EmptyLog(node, latest, startLedger);
      cursor, totalIngested, calls, log := startLedger, 0, 0, [];
      while cursor <= latest
        invariant saved == old(saved) && calls <= node.fails(cursor) && calls % MAX_RETRIES == 0
        invariant cursor > latest ==> calls == 0
        invariant CycleLog(log, node, latest, startLedger, cursor)
        invariant handed == old(handed) + Handed(log) && totalIngested == |Handed(log)|
        invariant deadLetters == old(deadLetters) + Buried(log) + calls / MAX_RETRIES
        invariant jobs == old(jobs) + JobsOf(log) + calls / MAX_RETRIES && SkippedOnlyWhenShut(log, stop, old(jobs))
        decreases latest + 1 - cursor, node.fails(cursor) - calls
      {
        ghost var from, failed := cursor, calls;
        if Refuses(stop, jobs) {
          cursor := cursor + BATCH_SIZE;
          ghost var w := Window(from, cursor, [], false, failed);
          LogGrows(log, w, node, latest, startLedger);
          JobsGrow(log, w, stop, old(jobs));
          log := log + [w];
          calls := 0;
        } else {
          jobs := jobs + 1;
          RunBatchJob(node, latest);
          if node.fails(from) - failed < MAX_RETRIES {
            ghost var w := Window(from, cursor, node.page(from), true, node.fails(from));
            assert PageInRange(node.page(from), from);
            LogGrows(log, w, node, latest, startLedger);
            JobsGrow(log, w, stop, old(jobs));
            log := log + [w];
          }
        }
      }
      saved := latest;
      AcceptedAreAnswered(log, stop, old(jobs));
    }
  }

  lemma EmptyLog(node: Node, latest: int, from: int)
    ensures CycleLog([], node, latest, from, from) && Handed([]) == [] && Buried([]) == 0
    ensures JobsOf([]) == 0 && forall stop, jobs :: SkippedOnlyWhenShut([], stop, jobs)
  {
  }

  lemma JobsGrow(log: seq<Window>, w: Window, stop: Shutdown, jobs: nat)
    requires SkippedOnlyWhenShut(log, stop, jobs)
    requires !w.answered <==> stop.After? && jobs + JobsOf(log) + w.failed / 3 >= stop.jobs
    ensures SkippedOnlyWhenShut(log + [w], stop, jobs)
    ensures JobsOf(log + [w]) == JobsOf(log) + w.failed / MAX_RETRIES + if w.answered then 1 else 0
  {
    hide JobsOf;
    var more := log + [w];
    forall i | 0 <= i < |log| ensures more[..i] == log[..i] && more[i] == log[i] {}
    assert more[..|log|] == log;
    JobsStep(more);
  }

  lemma JobsStep(log: seq<Window>)
    requires log != []
    ensures JobsOf(log) == JobsOf(log[..|log| - 1]) + log[|log| - 1].failed / MAX_RETRIES + if log[|log| - 1].answered then 1 else 0
  {
  }

  lemma {:induction false} JobsBefore(log: seq<Window>, i: nat)
    requires i < |log|
    ensures JobsOf(log[..i]) + log[i].failed / MAX_RETRIES <= JobsOf(log)
  {
    var n := |log| - 1;
    if i < n {
      JobsBefore(log[..n], i);
      assert log[..n][..i] == log[..i];
    }
  }

  /** While the queue accepts more jobs than it was given, every window is answered. */
  lemma AcceptedAreAnswered(log: seq<Window>, stop: Shutdown, jobs: nat)
    requires SkippedOnlyWhenShut(log, stop, jobs)
    ensures stop.Never? || jobs + JobsOf(log) < stop.jobs ==> forall i | 0 <= i < |log| :: log[i].answered
    ensures forall i | 0 <= i < |log| ::
      !log[i].answered <==> stop.After? && jobs + JobsOf(log[..i]) + log[i].failed / 3 >= stop.jobs
  {
    hide JobsOf;
    forall i | 0 <= i < |log| ensures JobsOf(log[..i]) + log[i].failed / 3 <= JobsOf(log) { JobsBefore(log, i); }
  }

  lemma LogGrows(log: seq<Window>, w: Window, node: Node, latest: int, from: int)
    requires CycleLog(log, node, latest, from, w.from)
    requires WindowOk(w, node, latest) && w.from < w.to && w.from <= latest
    ensures CycleLog(log + [w], node, latest, from, w.to)
    ensures Handed(log + [w]) == Handed(log) + w.got && Buried(log + [w]) == Buried(log) + w.failed / MAX_RETRIES
  {
    assert (log + [w])[..|log|] == log;
  }

  // ---------------------------------------------------------------------------------------------

  lemma {:induction false} EventsSplit(world: seq<Event>, a: int, b: int, c: int)
    requires Sorted(world) && a <= b <= c
    ensures EventsIn(world, a, c) == EventsIn(world, a, b) + EventsIn(world, b, c)
  {
    hide EventsIn;
    EventsStep(world, a, b);
    EventsStep(world, b, c);
    EventsStep(world, a, c);
    if world != [] {
      EventsSplit(world[1..], a, b, c);
      if world[0].ledger >= b {
        NothingBefore(world[1..], a, b);
      } else {
        Regrouped(world[0], EventsIn(world[1..], a, b), EventsIn(world[1..], b, c));
      }
    }
  }

  lemma EventsStep(world: seq<Event>, from: int, to: int)
    ensures world == [] ==> EventsIn(world, from, to) == []
    ensures world != [] && from <= world[0].ledger < to ==> EventsIn(world, from, to) == [world[0]] + EventsIn(world[1..], from, to)
    ensures world != [] && !(from <= world[0].ledger < to) ==> EventsIn(world, from, to) == EventsIn(world[1..], from, to)
  {
  }

  lemma Regrouped(e: Event, a: seq<Event>, b: seq<Event>)
    ensures [e] + (a + b) == ([e] + a) + b
  {
  }

  lemma {:induction false} NothingBefore(world: seq<Event>, a: int, b: int)
    requires forall i | 0 <= i < |world| :: world[i].ledger >= b
    ensures EventsIn(world, a, b) == []
  {
    if world != [] { NothingBefore(world[1..], a, b); }
  }

  lemma {:induction false} EventsInRange(world: seq<Event>, a: int, b: int)
    ensures forall e :: e in EventsIn(world, a, b) <==> e in world && a <= e.ledger < b
  {
    if world != [] { EventsInRange(world[1..], a, b); }
  }

  function Clip(ledger: int, latest: int): int {
    if ledger <= latest + 1 then ledger else latest + 1
  }

  /** Up to which ledger a window answers for its events: a page for all the cursor passed,
      a skipped stretch only for those the cycle meant to sync. */
  function Reach(w: Window, latest: int): int {
    if w.answered then w.to else Clip(w.to, latest)
  }

  function Reached(log: seq<Window>, latest: int, from: int): int {
    if log == [] then from else Reach(log[|log| - 1], latest)
  }

  /** A window misses and repeats nothing: it handed over exactly its ledgers' events. */
  ghost predicate Whole(w: Window, world: seq<Event>, latest: int) {
    w.got == EventsIn(world, w.from, Reach(w, latest))
  }

  ghost predicate AllWhole(log: seq<Window>, world: seq<Event>, latest: int) {
    forall i | 0 <= i < |log| :: Whole(log[i], world, latest)
  }

  /** What is handed over by any moment stays below the cursor. */
  lemma {:induction false} HandedBelow(log: seq<Window>, node: Node, latest: int, from: int, to: int)
    requires CycleLog(log, node, latest, from, to)
    requires forall c: int :: PageInRange(node.page(c), c)
    ensures from <= to && forall e | e in Handed(log) :: from <= e.ledger < to
  {
    if log != [] {
      var w := log[|log| - 1];
      HandedBelow(log[..|log| - 1], node, latest, from, w.from);
      assert WindowOk(w, node, latest) && PageInRange(node.page(w.from), w.from);
    }
  }

  lemma ReachedBefore(log: seq<Window>, node: Node, latest: int, from: int, to: int)
    requires CycleLog(log, node, latest, from, to) && to <= latest + 1
    ensures Reached(log, latest, from) == to
  {
  }

  lemma WindowGoesOn(w: Window, node: Node, latest: int)
    requires WindowOk(w, node, latest) && PageInRange(node.page(w.from), w.from) && w.from <= latest
    ensures w.from < Reach(w, latest) <= w.to && (w.to > latest ==> Reach(w, latest) > latest)
    ensures forall e | e in w.got :: e.ledger >= w.from
  {
  }

  /** At every moment of a cycle, the ledgers reached have been handed over exactly once and in order
      if and only if every window so far was whole. */
  lemma {:induction false} CoverageIff(log: seq<Window>, node: Node, world: seq<Event>, latest: int, from: int, to: int)
    requires Sorted(world) && CycleLog(log, node, latest, from, to) && from <= latest + 1
    requires forall c: int :: PageInRange(node.page(c), c)
    ensures Handed(log) == EventsIn(world, from, Reached(log, latest, from)) <==> AllWhole(log, world, latest)
  {
    hide EventsIn, Sorted, PageInRange, Reach, WindowOk;
    if log == [] {
      NothingBetween(world, from);
    } else {
      var before, w := log[..|log| - 1], log[|log| - 1];
      assert log == before + [w];
      CoverageIff(before, node, world, latest, from, w.from);
      HandedBelow(before, node, latest, from, w.from);
      ReachedBefore(before, node, latest, from, w.from);
      WindowGoesOn(w, node, latest);
      var to := Reach(w, latest);
      EventsSplit(world, from, w.from, to);
      EventsInRange(world, from, w.from);
      EventsInRange(world, w.from, to);
      SplitAtLedger(Handed(before), w.got, EventsIn(world, from, w.from), EventsIn(world, w.from, to), w.from);
    }
  }

  lemma {:induction false} NothingBetween(world: seq<Event>, a: int)
    ensures EventsIn(world, a, a) == []
  {
    if world != [] { NothingBetween(world[1..], a); }
  }

  /** Two lists cut at the same ledger are equal exactly when both parts are. */
  lemma SplitAtLedger(a: seq<Event>, b: seq<Event>, c: seq<Event>, d: seq<Event>, ledger: int)
    requires (forall e | e in a + c :: e.ledger < ledger) && (forall e | e in b + d :: e.ledger >= ledger)
    ensures a + b == c + d <==> a == c && b == d
  {
    CutAtLedger(a, b, ledger) by {
      assert forall e | e in a :: e in a + c;
      assert forall e | e in b :: e in b + d;
    }
    CutAtLedger(c, d, ledger) by {
      assert forall e | e in c :: e in a + c;
      assert forall e | e in d :: e in b + d;
    }
    if a + b == c + d {
      var i := if |a| < |c| then |a| else |c|;
      assert i < |a + b| ==> (a + b)[i] == (c + d)[i];
      assert a == (a + b)[..|a|] && b == (a + b)[|a|..] && c == (c + d)[..|c|] && d == (c + d)[|c|..];
    }
  }

  lemma CutAtLedger(a: seq<Event>, b: seq<Event>, ledger: int)
    requires (forall e | e in a :: e.ledger < ledger) && (forall e | e in b :: e.ledger >= ledger)
    ensures forall i | 0 <= i < |a + b| :: (a + b)[i].ledger < ledger <==> i < |a|
  {
    forall i | 0 <= i < |a + b| ensures (a + b)[i].ledger < ledger <==> i < |a| {
      if i < |a| { assert (a + b)[i] in a; } else { assert (a + b)[i] in b; }
    }
  }

  // ---------------------------------------------------------------------------------------------
  // The page limit.

  /** A node that answers with the first `limit` events from the cursor to the last ledger closed when it is asked. */
  function LimitedPage(world: seq<Event>, cursor: int, head: int, limit: nat): seq<Event> {
    var rest := EventsIn(world, cursor, head + 1);
    if |rest| <= limit then rest else rest[..limit]
  }

  /** The limit falls between two ledgers, or is not reached. */
  predicate LimitSparesLedgers(world: seq<Event>, cursor: int, head: int, limit: nat)
    requires limit > 0
  {
    var rest := EventsIn(world, cursor, head + 1);
    |rest| <= limit || rest[limit - 1].ledger != rest[limit].ledger
  }

  lemma {:induction false} EventsAreSorted(world: seq<Event>, a: int, b: int)
    requires Sorted(world)
    ensures Sorted(EventsIn(world, a, b))
  {
    if world != [] {
      EventsAreSorted(world[1..], a, b);
      EventsInRange(world[1..], a, b);
      var tail := EventsIn(world[1..], a, b);
      forall i | 0 <= i < |tail| ensures world[0].ledger <= tail[i].ledger {
        assert tail[i] in tail;
      }
    }
  }

  /** A page is whole exactly when the limit does not cut a ledger in two; otherwise the cut events are never
      asked for again. */
  lemma LimitedPageIsWholeIff(world: seq<Event>, cursor: int, latest: int, head: int, limit: nat)
    requires Sorted(world) && limit > 0 && cursor <= latest <= head
    ensures
      var page := LimitedPage(world, cursor, head, limit);
      page == EventsIn(world, cursor, NextCursor(page, latest)) <==> LimitSparesLedgers(world, cursor, head, limit)
  {
    hide EventsIn, Sorted;
    var rest := EventsIn(world, cursor, head + 1);
    if rest == [] {
      EventsSplit(world, cursor, latest + 1, head + 1);
    } else {
      var page := LimitedPage(world, cursor, head, limit);
      var n := |page|;
      var next := rest[n - 1].ledger + 1;
      assert page == rest[..n] && NextCursor(page, latest) == next;
      EventsAreSorted(world, cursor, head + 1);
      SplitAt(world, cursor, next, head, n);
      assert page == EventsIn(world, cursor, next) <==> n == |EventsIn(world, cursor, next)| by {
        assert rest[..|EventsIn(world, cursor, next)|] == EventsIn(world, cursor, next);
      }
    }
  }

  lemma SplitAt(world: seq<Event>, cursor: int, next: int, latest: int, n: nat)
    requires Sorted(world) && Sorted(EventsIn(world, cursor, latest + 1)) && 0 < n <= |EventsIn(world, cursor, latest + 1)|
    requires next == EventsIn(world, cursor, latest + 1)[n - 1].ledger + 1
    ensures
      var rest, head := EventsIn(world, cursor, latest + 1), EventsIn(world, cursor, next);
      && |head| <= |rest| && rest[..|head|] == head
      && (n == |head| <==> n == |rest| || rest[n - 1].ledger != rest[n].ledger)
  {
    hide EventsIn, Sorted;
    var rest := EventsIn(world, cursor, latest + 1);
    EventsInRange(world, cursor, latest + 1);
    assert rest[n - 1] in rest;
    EventsSplit(world, cursor, next, latest + 1);
    EventsInRange(world, cursor, next);
    EventsInRange(world, next, latest + 1);
    PrefixThroughLedger(rest, EventsIn(world, cursor, next), EventsIn(world, next, latest + 1), n);
  }

  /** The events up to the ledger of the `n`-th are the first `n` exactly when the next one is of a later ledger. */
  lemma PrefixThroughLedger(rest: seq<Event>, head: seq<Event>, tail: seq<Event>, n: nat)
    requires rest == head + tail && Sorted(rest) && 0 < n <= |rest|
    requires forall e | e in head :: e.ledger < rest[n - 1].ledger + 1
    requires forall e | e in tail :: e.ledger >= rest[n - 1].ledger + 1
    ensures n == |head| <==> n == |rest| || rest[n - 1].ledger != rest[n].ledger
  {
    CutAtLedger(head, tail, rest[n - 1].ledger + 1);
    assert n - 1 < |head|;
    assert n < |rest| ==> (rest[n].ledger < rest[n - 1].ledger + 1 <==> n < |head|);
  }

  lemma LimitedPagesAreInRange(world: seq<Event>, cursor: int, head: int, limit: nat)
    requires Sorted(world)
    ensures PageInRange(LimitedPage(world, cursor, head, limit), cursor)
  {
    var rest := EventsIn(world, cursor, head + 1);
    EventsAreSorted(world, cursor, head + 1);
    EventsInRange(world, cursor, head + 1);
    assert forall i | 0 <= i < |rest| :: rest[i] in rest;
  }

  /** With pages of at most 200 events, cut at whatever ledger is the last one when they are asked for, a cycle hands
      over the ledgers it reached exactly once and in order if and only if no page stopped inside a ledger and no
      stretch skipped for a refused job held an event. */
  lemma CycleCoversIff(log: seq<Window>, node: Node, heads: int -> int, world: seq<Event>, latest: int, from: int, to: int)
    requires Sorted(world) && CycleLog(log, node, latest, from, to) && from <= latest
    requires forall c: int :: heads(c) >= latest && node.page(c) == LimitedPage(world, c, heads(c), BATCH_SIZE)
    ensures Handed(log) == EventsIn(world, from, Reached(log, latest, from)) <==>
      forall i | 0 <= i < |log| ::
        if log[i].answered then LimitSparesLedgers(world, log[i].from, heads(log[i].from), BATCH_SIZE)
        else EventsIn(world, log[i].from, Clip(log[i].to, latest)) == []
  {
    hide EventsIn, Sorted, LimitSparesLedgers;
    forall c: int ensures PageInRange(node.page(c), c) { LimitedPagesAreInRange(world, c, heads(c), BATCH_SIZE); }
    CoverageIff(log, node, world, latest, from, to);
    forall i | 0 <= i < |log|
      ensures Whole(log[i], world, latest) <==>
        if log[i].answered then LimitSparesLedgers(world, log[i].from, heads(log[i].from), BATCH_SIZE)
        else EventsIn(world, log[i].from, Clip(log[i].to, latest)) == []
    {
      assert WindowOk(log[i], node, latest);
      LimitedPageIsWholeIff(world, log[i].from, latest, heads(log[i].from), BATCH_SIZE);
    }
  }

  /** A cycle whose windows are all answered by a node that spares ledgers hands over every event of the ledgers it reached,
      among them all up to the latest, once and in order. */
  lemma AnsweredCycleHandsAll(log: seq<Window>, node: Node, heads: int -> int, world: seq<Event>, latest: int, from: int, to: int)
    requires Sorted(world) && CycleLog(log, node, latest, from, to) && from <= latest < to
    requires forall c: int :: heads(c) >= latest && node.page(c) == LimitedPage(world, c, heads(c), BATCH_SIZE)
    requires forall i | 0 <= i < |log| :: log[i].answered && LimitSparesLedgers(world, log[i].from, heads(log[i].from), BATCH_SIZE)
    ensures Handed(log) == EventsIn(world, from, to)
    ensures forall e | e in world && from <= e.ledger <= latest :: e in Handed(log)
  {
    hide EventsIn, Sorted, LimitSparesLedgers, Covers;
    CycleCoversIff(log, node, heads, world, latest, from, to);
    LastReaches(log, node, latest, from, to);
    EventsInRange(world, from, to);
  }

  lemma LastReaches(log: seq<Window>, node: Node, latest: int, from: int, to: int)
    requires CycleLog(log, node, latest, from, to) && forall i | 0 <= i < |log| :: log[i].answered
    ensures Reached(log, latest, from) == to
  {
  }

  // ---------------------------------------------------------------------------------------------
  // Chained cycles.

  /** One cycle as it went: its windows, where its cursor stood at the end, how much of the next page it handed over
      when it died in the middle of it, and whether it came to save. */
  datatype Cycle = Cycle(node: Node, latest: int, log: seq<Window>, to: int, partial: seq<Event>, saves: bool)

  predicate Idle(c: Cycle, start: int) {
    start > c.latest
  }

  ghost predicate IsCycle(c: Cycle, start: int) {
    !Idle(c, start) ==>
      && CycleLog(c.log, c.node, c.latest, start, c.to) && (c.saves ==> c.to > c.latest)
      && (c.partial != [] ==> !c.saves && c.to <= c.latest && c.partial <= c.node.page(c.to))
      && forall k: int :: PageInRange(c.node.page(k), k)
  }

  function Step(p: Progress, syncStart: int, c: Cycle): Progress {
    if Idle(c, StartLedger(p.saved, syncStart)) then p
    else Progress(if c.saves then c.latest else p.saved, p.handed + (Handed(c.log) + c.partial))
  }

  function RunCycles(syncStart: int, cycles: seq<Cycle>): Progress {
    if cycles == [] then Progress(0, []) else Step(RunCycles(syncStart, cycles[..|cycles| - 1]), syncStart, cycles[|cycles| - 1])
  }

  /** Each cycle starts where the saved cursor of the cycles before it says. */
  ghost predicate IsHistory(syncStart: int, cycles: seq<Cycle>) {
    cycles == [] ||
    (IsHistory(syncStart, cycles[..|cycles| - 1])
      && IsCycle(cycles[|cycles| - 1], StartLedger(RunCycles(syncStart, cycles[..|cycles| - 1]).saved, syncStart)))
  }

  /** Every page the cycle was given, also the one it died in, is whole. */
  ghost predicate CycleWhole(world: seq<Event>, c: Cycle) {
    && AllWhole(c.log, world, c.latest)
    && (c.partial != [] ==> c.node.page(c.to) == EventsIn(world, c.to, NextCursor(c.node.page(c.to), c.latest)))
  }

  ghost predicate WholePages(world: seq<Event>, cycles: seq<Cycle>) {
    forall i | 0 <= i < |cycles| :: CycleWhole(world, cycles[i])
  }

  /** What a cycle handed over and a later one will ask for again: the ledgers past its latest one,
      or all it did, its last page perhaps in part, when it died before saving. */
  function Overrun(world: seq<Event>, c: Cycle, start: int): seq<Event> {
    if Idle(c, start) then []
    else EventsIn(world, if c.saves then c.latest + 1 else start, Reached(c.log, c.latest, start)) + c.partial
  }

  function Overruns(world: seq<Event>, syncStart: int, cycles: seq<Cycle>): seq<Event> {
    if cycles == [] then []
    else
      var before := cycles[..|cycles| - 1];
      Overruns(world, syncStart, before)
      + Overrun(world, cycles[|cycles| - 1], StartLedger(RunCycles(syncStart, before).saved, syncStart))
  }

  /** The events a correct history has handed over once it saved `saved`. */
  function Due(world: seq<Event>, syncStart: int, saved: int): seq<Event> {
    EventsIn(world, syncStart + 1, StartLedger(saved, syncStart))
  }

  lemma CycleHands(world: seq<Event>, c: Cycle, start: int)
    requires Sorted(world) && IsCycle(c, start) && !Idle(c, start) && CycleWhole(world, c)
    ensures Reached(c.log, c.latest, start) >= start
    ensures c.saves ==> Reached(c.log, c.latest, start) > c.latest
    ensures Handed(c.log) == EventsIn(world, start, Reached(c.log, c.latest, start))
  {
    hide EventsIn, Sorted, PageInRange, WindowOk;
    CoverageIff(c.log, c.node, world, c.latest, start, c.to);
    if c.log != [] {
      var w := c.log[|c.log| - 1];
      HandedBelow(c.log[..|c.log| - 1], c.node, c.latest, start, w.from);
      WindowGoesOn(w, c.node, c.latest);
    }
  }

  lemma {:induction false} SavedIsAtLeastZero(syncStart: int, cycles: seq<Cycle>)
    requires syncStart >= 0
    ensures RunCycles(syncStart, cycles).saved >= 0
    ensures StartLedger(RunCycles(syncStart, cycles).saved, syncStart) >= syncStart + 1
  {
    if cycles != [] { SavedIsAtLeastZero(syncStart, cycles[..|cycles| - 1]); }
  }

  /** A cycle adds what is newly due and its overrun. */
  lemma CycleAdds(world: seq<Event>, syncStart: nat, saved: int, c: Cycle)
    requires Sorted(world) && IsCycle(c, StartLedger(saved, syncStart)) && CycleWhole(world, c)
    requires !Idle(c, StartLedger(saved, syncStart))
    ensures
      var start := StartLedger(saved, syncStart);
      var extra := Overrun(world, c, start);
      && Due(world, syncStart, if c.saves then c.latest else saved) == Due(world, syncStart, saved) + (if c.saves then EventsIn(world, start, c.latest + 1) else [])
      && Handed(c.log) + c.partial == (if c.saves then EventsIn(world, start, c.latest + 1) else []) + extra
  {
    hide EventsIn, Sorted, CycleWhole;
    var start := StartLedger(saved, syncStart);
    CycleHands(world, c, start);
    if c.saves {
      EventsSplit(world, start, c.latest + 1, Reached(c.log, c.latest, start));
      EventsSplit(world, syncStart + 1, start, c.latest + 1);
    }
  }

  lemma Regroup(h: seq<Event>, d: seq<Event>, x: seq<Event>, n: seq<Event>, e: seq<Event>)
    requires multiset(h) == multiset(d) + multiset(x)
    ensures multiset(h + (n + e)) == multiset(d + n) + multiset(x + e)
  {
  }

  /** However cycles follow one another, overrun their latest ledger, or die anywhere before saving: with whole pages, what is
      handed over is everything due, once, and the overruns again. */
  lemma {:induction false} HandedIsDueAndOverruns(world: seq<Event>, syncStart: nat, cycles: seq<Cycle>)
    requires Sorted(world) && IsHistory(syncStart, cycles) && WholePages(world, cycles)
    ensures
      var p := RunCycles(syncStart, cycles);
      multiset(p.handed) == multiset(Due(world, syncStart, p.saved)) + multiset(Overruns(world, syncStart, cycles))
  {
    hide EventsIn, Sorted, Handed, IsCycle, Overrun, CycleWhole;
    if cycles == [] {
      NothingBetween(world, syncStart + 1);
    } else {
      var n := |cycles| - 1;
      var before, c := cycles[..n], cycles[n];
      HandedIsDueAndOverruns(world, syncStart, before);
      SavedIsAtLeastZero(syncStart, before);
      var p := RunCycles(syncStart, before);
      var start := StartLedger(p.saved, syncStart);
      if Idle(c, start) {
        assert Overrun(world, c, start) == [] by { IdleOverrunsNothing(world, c, start); }
      } else {
        CycleAdds(world, syncStart, p.saved, c);
        Regroup(p.handed, Due(world, syncStart, p.saved), Overruns(world, syncStart, before),
                if c.saves then EventsIn(world, start, c.latest + 1) else [], Overrun(world, c, start));
      }
    }
  }

  lemma IdleOverrunsNothing(world: seq<Event>, c: Cycle, start: int)
    requires Idle(c, start)
    ensures Overrun(world, c, start) == []
  {
  }

  /** A completed cycle overruns nothing exactly when its cursor stopped right behind its latest ledger. */
  lemma OverrunsNothingIff(world: seq<Event>, c: Cycle, start: int)
    requires Sorted(world) && IsCycle(c, start) && !Idle(c, start) && c.saves && CycleWhole(world, c)
    ensures Overrun(world, c, start) == [] <==> Reached(c.log, c.latest, start) == c.latest + 1
  {
    hide EventsIn, Sorted, PageInRange;
    CycleHands(world, c, start);
    var to := Reached(c.log, c.latest, start);
    if to == c.latest + 1 {
      NothingBetween(world, c.latest + 1);
    } else {
      var w := c.log[|c.log| - 1];
      assert WindowOk(w, c.node, c.latest) && Whole(w, world, c.latest);
      var e := w.got[|w.got| - 1];
      assert e in w.got && e.ledger == to - 1;
      EventsInRange(world, w.from, to);
      EventsInRange(world, c.latest + 1, to);
      assert e in Overrun(world, c, start);
    }
  }

  lemma {:induction false} NoOverrunsInOrder(world: seq<Event>, syncStart: nat, cycles: seq<Cycle>)
    requires Sorted(world) && IsHistory(syncStart, cycles) && WholePages(world, cycles)
    requires Overruns(world, syncStart, cycles) == []
    ensures RunCycles(syncStart, cycles).handed == Due(world, syncStart, RunCycles(syncStart, cycles).saved)
  {
    hide EventsIn, Sorted, Handed, IsCycle, Overrun, CycleWhole;
    if cycles == [] {
      NothingBetween(world, syncStart + 1);
    } else {
      var n := |cycles| - 1;
      var before, c := cycles[..n], cycles[n];
      NoOverrunsInOrder(world, syncStart, before);
      SavedIsAtLeastZero(syncStart, before);
      var p := RunCycles(syncStart, before);
      if !Idle(c, StartLedger(p.saved, syncStart)) { CycleAdds(world, syncStart, p.saved, c); }
    }
  }

  /** With whole pages, the cycles together hand over what is due exactly once and in chain order if and only if
      none of them overran its latest ledger and none died after handing something over. */
  lemma ChainedCyclesHandOverOnceIff(world: seq<Event>, syncStart: nat, cycles: seq<Cycle>)
    requires Sorted(world) && IsHistory(syncStart, cycles) && WholePages(world, cycles)
    ensures
      var p := RunCycles(syncStart, cycles);
      p.handed == Due(world, syncStart, p.saved) <==> Overruns(world, syncStart, cycles) == []
  {
    HandedIsDueAndOverruns(world, syncStart, cycles);
    var p, x := RunCycles(syncStart, cycles), Overruns(world, syncStart, cycles);
    assert |multiset(p.handed)| == |p.handed| && |multiset(x)| == |x|;
    assert |multiset(Due(world, syncStart, p.saved))| == |Due(world, syncStart, p.saved)|;
    if x == [] { NoOverrunsInOrder(world, syncStart, cycles); }
  }

  lemma {:induction false} EventsCounted(world: seq<Event>, a: int, b: int, e: Event)
    ensures multiset(EventsIn(world, a, b))[e] == if a <= e.ledger < b then multiset(world)[e] else 0
  {
    if world != [] {
      var h, t := world[0], EventsIn(world[1..], a, b);
      EventsCounted(world[1..], a, b, e);
      assert world == [h] + world[1..];
      assert multiset([h] + t) == multiset{h} + multiset(t) && multiset(world) == multiset{h} + multiset(world[1..]);
      EventsStep(world, a, b);
    }
  }

  lemma OverrunIsEvent(world: seq<Event>, c: Cycle, start: int, e: Event)
    requires IsCycle(c, start) && CycleWhole(world, c) && e in Overrun(world, c, start)
    ensures e in world && e.ledger >= start
  {
    hide EventsIn, AllWhole, Covers;
    EventsInRange(world, if c.saves then c.latest + 1 else start, Reached(c.log, c.latest, start));
    if e in c.partial {
      HandedBelow(c.log, c.node, c.latest, start, c.to);
      var page := c.node.page(c.to);
      var i :| 0 <= i < |c.partial| && c.partial[i] == e;
      assert page[i] == e && e in page;
      EventsInRange(world, c.to, NextCursor(page, c.latest));
    }
  }

  lemma {:induction false} OverrunsAreEvents(world: seq<Event>, syncStart: nat, cycles: seq<Cycle>, e: Event)
    requires IsHistory(syncStart, cycles) && WholePages(world, cycles) && e in Overruns(world, syncStart, cycles)
    ensures e in world && e.ledger > syncStart
  {
    hide EventsIn, IsCycle, CycleWhole, Overrun;
    var n := |cycles| - 1;
    var before, start := cycles[..n], StartLedger(RunCycles(syncStart, cycles[..n]).saved, syncStart);
    SavedIsAtLeastZero(syncStart, before);
    if e in Overruns(world, syncStart, before) {
      OverrunsAreEvents(world, syncStart, before, e);
    } else {
      OverrunIsEvent(world, cycles[n], start, e);
    }
  }

  /** Each event behind the saved cursor was handed over once, and once more for every overrun it was in. */
  lemma HandedCount(world: seq<Event>, syncStart: nat, cycles: seq<Cycle>, e: Event)
    requires Sorted(world) && IsHistory(syncStart, cycles) && WholePages(world, cycles)
    requires multiset(world)[e] == 1 && syncStart < e.ledger <= RunCycles(syncStart, cycles).saved
    ensures multiset(RunCycles(syncStart, cycles).handed)[e] == 1 + multiset(Overruns(world, syncStart, cycles))[e]
  {
    hide EventsIn, Sorted, RunCycles, Overruns, IsHistory, WholePages;
    var p := RunCycles(syncStart, cycles);
    HandedIsDueAndOverruns(world, syncStart, cycles);
    EventsCounted(world, syncStart + 1, StartLedger(p.saved, syncStart), e);
    CountSum(multiset(p.handed), multiset(Due(world, syncStart, p.saved)), multiset(Overruns(world, syncStart, cycles)), e);
  }

  lemma CountSum(h: multiset<Event>, d: multiset<Event>, x: multiset<Event>, e: Event)
    requires h == d + x
    ensures h[e] == d[e] + x[e]
  {
  }

  /** Every event behind the saved cursor was handed over exactly once if and only if none of them was overrun. */
  lemma EachEventOnceIff(world: seq<Event>, syncStart: nat, cycles: seq<Cycle>)
    requires Sorted(world) && IsHistory(syncStart, cycles) && WholePages(world, cycles)
    requires forall e | e in world :: multiset(world)[e] == 1
    ensures
      var p := RunCycles(syncStart, cycles);
      (forall e | e in world && syncStart < e.ledger <= p.saved :: multiset(p.handed)[e] == 1)
      <==> (forall e | e in Overruns(world, syncStart, cycles) :: e.ledger > p.saved)
  {
    hide EventsIn, Sorted, IsHistory, WholePages;
    var p, x := RunCycles(syncStart, cycles), Overruns(world, syncStart, cycles);
    forall e | e in world && syncStart < e.ledger <= p.saved ensures multiset(p.handed)[e] == 1 + multiset(x)[e] {
      HandedCount(world, syncStart, cycles, e);
    }
    forall e | e in x ensures e in world && e.ledger > syncStart && multiset(x)[e] > 0 {
      OverrunsAreEvents(world, syncStart, cycles, e);
    }
    forall e | multiset(x)[e] > 0 ensures e in x {}
  }

  /** With whole pages no event behind the saved cursor is ever missed, whatever cycles die or overrun. */
  lemma NothingIsMissed(world: seq<Event>, syncStart: nat, cycles: seq<Cycle>)
    requires Sorted(world) && IsHistory(syncStart, cycles) && WholePages(world, cycles)
    ensures forall e | e in world && syncStart < e.ledger <= RunCycles(syncStart, cycles).saved ::
              e in RunCycles(syncStart, cycles).handed
  {
    hide EventsIn, Sorted, IsHistory, WholePages;
    var p := RunCycles(syncStart, cycles);
    HandedIsDueAndOverruns(world, syncStart, cycles);
    EventsInRange(world, syncStart + 1, StartLedger(p.saved, syncStart));
    forall e | e in Due(world, syncStart, p.saved) ensures e in p.handed {
      assert multiset(Due(world, syncStart, p.saved))[e] > 0;
      assert multiset(p.handed)[e] > 0;
    }
  }

  /** The saved cursor only grows, and grows to the latest ledger exactly when a cycle that completes has anything to do. */
  lemma SavedCursorGrows(syncStart: nat, cycles: seq<Cycle>, c: Cycle)
    ensures
      var p, q := RunCycles(syncStart, cycles), RunCycles(syncStart, cycles + [c]);
      && p.saved <= q.saved && p.handed <= q.handed
      && (p.saved < q.saved <==> c.saves && !Idle(c, StartLedger(p.saved, syncStart)))
      && (p.saved < q.saved ==> q.saved == c.latest)
  {
    assert (cycles + [c])[..|cycles|] == cycles;
    SavedIsAtLeastZero(syncStart, cycles);
  }

  /** A ledger that closes while a cycle runs is handed over twice: by that cycle's last page, and again by the next
      cycle, which starts behind the latest ledger of the first. */
  lemma OverrunIsHandedAgain(world: seq<Event>, first: Cycle, second: Cycle, start: int, e: Event)
    requires Sorted(world) && IsCycle(first, start) && !Idle(first, start) && first.saves && CycleWhole(world, first)
    requires IsCycle(second, first.latest + 1) && !Idle(second, first.latest + 1) && CycleWhole(world, second)
    requires e in Overrun(world, first, start) && e.ledger < Reached(second.log, second.latest, first.latest + 1)
    ensures e in Handed(first.log) && e in Handed(second.log)
  {
    hide EventsIn, Sorted, AllWhole, CycleLog;
    CycleHands(world, first, start);
    CycleHands(world, second, first.latest + 1);
    EventsInRange(world, first.latest + 1, Reached(first.log, first.latest, start));
    EventsInRange(world, start, Reached(first.log, first.latest, start));
    EventsInRange(world, first.latest + 1, Reached(second.log, second.latest, first.latest + 1));
  }

  lemma OneWindow(w: Window, node: Node, latest: int, from: int)
    requires WindowOk(w, node, latest) && w.from == from <= latest && from < w.to
    ensures CycleLog([w], node, latest, from, w.to) && Handed([w]) == w.got && Reached([w], latest, from) == Reach(w, latest)
  {
    assert [w][..0] == [];
  }

  /** A queue that refuses jobs makes the syncer skip ledgers for good: the event of ledger 1 is lost. */
  lemma ShutdownLosesEvents()
    ensures
      var world := [Event(1, 7)];
      var node := Node((c: int) => 0, (c: int) => EventsIn(world, c, 2));
      var c := Cycle(node, 1, [Window(1, 201, [], false, 0)], 201, [], true);
      && IsHistory(0, [c]) && RunCycles(0, [c]) == Progress(1, []) && Due(world, 0, 1) == world
  {
    var world := [Event(1, 7)];
    var node := Node((c: int) => 0, (c: int) => EventsIn(world, c, 2));
    forall k: int ensures PageInRange(node.page(k), k) {
      EventsAreSorted(world, k, 2);
      EventsInRange(world, k, 2);
      forall i | 0 <= i < |node.page(k)| ensures k <= node.page(k)[i].ledger { assert node.page(k)[i] in node.page(k); }
    }
    var w := Window(1, 201, [], false, 0);
    OneWindow(w, node, 1, 1);
    var c := Cycle(node, 1, [w], 201, [], true);
    OneCycle(0, c);
    assert world[1..] == [] && EventsIn(world[1..], 1, 2) == [];
  }

  lemma OneCycle(syncStart: int, c: Cycle)
    requires IsCycle(c, StartLedger(0, syncStart))
    ensures IsHistory(syncStart, [c]) && RunCycles(syncStart, [c]) == Step(Progress(0, []), syncStart, c)
  {
    hide IsCycle, Step;
    assert [c][..0] == [] && IsHistory(syncStart, []) && RunCycles(syncStart, []) == Progress(0, []);
  }
}
