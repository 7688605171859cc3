/** The audit logger's bounded write queue and its flushes, which may overlap. */
module AuditQueue {
  import opened RedactionPatterns
  import opened RedactionStages
  import opened RedactionEngine
  import opened RedactionMeaning
  import opened JsonRedaction

  datatype Option<T> = None | Some(value: T)

  /** The texts of an entry that are written to the database. */
  datatype Content = Content(message: string, context: Json, error: Option<string>, stack: Option<string>)

  /** Entries are numbered in the order they were offered. */
  datatype Entry = Entry(number: nat, content: Content)

  datatype Config = Config(max: nat, redacts: bool, policy: Policy)

  function RedactOptional(text: Option<string>): Option<string> {
    match text case None => None case Some(s) => Some(RedactText(s))
  }

  function Redacted(c: Config, x: Content): Content {
    if c.redacts then
      Content(RedactText(x.message), Redact(c.policy, x.context), RedactOptional(x.error), RedactOptional(x.stack))
    else x
  }

  ghost predicate OptionRedacted(x: Option<string>, y: Option<string>) {
    if x.None? then y.None? else y.Some? && IsRedacted(x.value, y.value)
  }

  /** What is stored of an entry, given the names of the sensitive fields: with redaction on, each text and the context
      redacted and in its own place; without it, the entry as it is. */
  ghost predicate IsStored(c: Config, names: seq<string>, x: Content, y: Content) {
    if c.redacts then
      && IsRedacted(x.message, y.message) && ComesOut(c.policy.lower, names, x.context, y.context)
      && OptionRedacted(x.error, y.error) && OptionRedacted(x.stack, y.stack)
    else y == x
  }

  lemma RedactedIsStored(c: Config, names: seq<string>, x: Content)
    requires HidesNamed(c.policy, names)
    ensures IsStored(c, names, x, Redacted(c, x))
  {
    hide IsRedacted, RedactText, HidesNamed, ComesOut;
    RedactTextIs(x.message, RedactText(x.message));
    RedactComesOut(c.policy, names, x.context);
    if x.error.Some? { RedactTextIs(x.error.value, RedactText(x.error.value)); }
    if x.stack.Some? { RedactTextIs(x.stack.value, RedactText(x.stack.value)); }
  }

  /** `offered` is everything ever logged; `lost` are batches whose rollback itself failed. */
  datatype Log = Log(queue: seq<Entry>, flights: seq<seq<Entry>>, persisted: seq<Entry>, dropped: seq<Entry>,
                     lost: seq<Entry>, offered: seq<Entry>)

  const EMPTY := Log([], [], [], [], [], [])

  /** `Attach` sets the error texts of an entry that is queued already. */
  datatype Step =
    | Offer(content: Content)
    | Attach(at: nat, error: Option<string>, stack: Option<string>)
    | FlushStart
    | Commit(flight: nat)
    | Rollback(flight: nat)
    | RollbackFails(flight: nat)

  predicate Enabled(s: Log, step: Step) {
    match step
    case Offer(_) => true
    case Attach(k, _, _) => k < |s.queue|
    case FlushStart => s.queue != []
    case Commit(i) => i < |s.flights|
    case Rollback(i) => i < |s.flights|
    case RollbackFails(i) => i < |s.flights|
  }

  function Remove<T>(xs: seq<T>, i: nat): seq<T>
    requires i < |xs|
  {
    xs[..i] + xs[i + 1..]
  }

  function Excess(xs: seq<Entry>, max: nat): nat {
    if |xs| > max then |xs| - max else 0
  }

  function Attached(e: Entry, error: Option<string>, stack: Option<string>): Entry {
    e.(content := e.content.(error := error, stack := stack))
  }

  function Apply(s: Log, c: Config, step: Step): Log
    requires Enabled(s, step)
  {
    match step
    case Attach(k, error, stack) =>
      var e := Attached(s.queue[k], error, stack);
      s.(queue := s.queue[k := e], offered := if e.number < |s.offered| then s.offered[e.number := e] else s.offered)
    case Offer(content) =>
      var e := Entry(|s.offered|, Redacted(c, content));
      var n := s.(offered := s.offered + [e]);
      if |s.queue| < c.max then n.(queue := s.queue + [e]) else n.(dropped := s.dropped + [e])
    case FlushStart => s.(queue := [], flights := s.flights + [s.queue])
    case Commit(i) => s.(flights := Remove(s.flights, i), persisted := s.persisted + s.flights[i])
    case Rollback(i) =>
      var back := s.flights[i] + s.queue;
      var n := Excess(back, c.max);
      s.(flights := Remove(s.flights, i), queue := back[n..], dropped := s.dropped + back[..n])
    case RollbackFails(i) => s.(flights := Remove(s.flights, i), lost := s.lost + s.flights[i])
  }

  function Flat(flights: seq<seq<Entry>>): seq<Entry> {
    if flights == [] then [] else flights[0] + Flat(flights[1..])
  }

  /** Everything offered is in exactly one place. */
  ghost predicate Conserved(s: Log) {
    multiset(s.offered)
    == multiset(s.persisted) + multiset(Flat(s.flights)) + multiset(s.queue) + multiset(s.dropped) + multiset(s.lost)
  }

  ghost predicate Inv(s: Log, c: Config) {
    && |s.queue| <= c.max && Conserved(s)
    && Nonempty(s.flights) && Numbered(s.offered)
  }

  lemma {:induction false} FlatAppend(flights: seq<seq<Entry>>, batch: seq<Entry>)
    ensures Flat(flights + [batch]) == Flat(flights) + batch
  {
    if flights == [] {
      assert [batch][1..] == [] && flights + [batch] == [batch];
    } else {
      FlatAppend(flights[1..], batch);
      assert (flights + [batch])[1..] == flights[1..] + [batch];
    }
  }

  lemma {:induction false} FlatRemove(flights: seq<seq<Entry>>, i: nat)
    requires i < |flights|
    ensures multiset(Flat(flights)) == multiset(flights[i]) + multiset(Flat(Remove(flights, i)))
  {
    if i == 0 {
      assert Remove(flights, 0) == flights[1..];
    } else {
      FlatRemove(flights[1..], i - 1);
      assert Remove(flights, i) == [flights[0]] + Remove(flights[1..], i - 1);
    }
  }

  /** Moving `a` out of flight, with `x` dropped and `y` queued in place of `a` and `q`, keeps the total. */
  lemma Moved(o: multiset<Entry>, p: multiset<Entry>, f: multiset<Entry>, q: multiset<Entry>, d: multiset<Entry>,
              l: multiset<Entry>, a: multiset<Entry>, g: multiset<Entry>, x: multiset<Entry>, y: multiset<Entry>)
    requires o == p + f + q + d + l && f == a + g && a + q == x + y
    ensures o == p + g + y + (d + x) + l
    ensures o == (p + a) + g + q + d + l && o == p + g + q + d + (l + a)
  {
    forall e: Entry ensures o[e] == (p + g + y + (d + x) + l)[e] { assert (a + q)[e] == (x + y)[e]; }
  }

  lemma LandingConserves(s: Log, i: nat, x: seq<Entry>, y: seq<Entry>)
    requires Conserved(s) && i < |s.flights| && s.flights[i] + s.queue == x + y
    ensures
      var g := Remove(s.flights, i);
      && Conserved(s.(flights := g, queue := y, dropped := s.dropped + x))
      && Conserved(s.(flights := g, persisted := s.persisted + s.flights[i]))
      && Conserved(s.(flights := g, lost := s.lost + s.flights[i]))
  {
    hide Flat;
    FlatRemove(s.flights, i);
    assert multiset(s.flights[i] + s.queue) == multiset(x + y);
    Moved(multiset(s.offered), multiset(s.persisted), multiset(Flat(s.flights)), multiset(s.queue), multiset(s.dropped),
          multiset(s.lost), multiset(s.flights[i]), multiset(Flat(Remove(s.flights, i))), multiset(x), multiset(y));
  }

  lemma FlightLandsConserved(s: Log, c: Config, i: nat)
    requires Conserved(s) && i < |s.flights|
    ensures Conserved(Apply(s, c, Commit(i))) && Conserved(Apply(s, c, RollbackFails(i)))
    ensures Conserved(Apply(s, c, Rollback(i)))
  {
    hide Conserved, Remove;
    var back := s.flights[i] + s.queue;
    var n := Excess(back, c.max);
    assert back[..n] + back[n..] == back;
    LandingConserves(s, i, back[..n], back[n..]);
  }

  lemma TakeOffConserves(s: Log, c: Config)
    requires Conserved(s) && s.queue != []
    ensures Conserved(Apply(s, c, FlushStart))
  {
    FlatAppend(s.flights, s.queue);
  }

  lemma OfferConserves(s: Log, c: Config, content: Content)
    requires Conserved(s)
    ensures Conserved(Apply(s, c, Offer(content)))
  {
    hide Redacted;
    var t := Apply(s, c, Offer(content));
    var e := t.offered[|s.offered|];
    assert multiset(t.offered) == multiset(s.offered) + multiset{e};
  }

  lemma QueuedIsOffered(s: Log, k: nat)
    requires Conserved(s) && Numbered(s.offered) && k < |s.queue|
    ensures s.queue[k].number < |s.offered| && s.offered[s.queue[k].number] == s.queue[k]
  {
    assert s.queue[k] in multiset(s.queue);
    assert s.queue[k] in multiset(s.offered);
    var i :| 0 <= i < |s.offered| && s.offered[i] == s.queue[k];
  }

  lemma Exchanged(o: multiset<Entry>, p: multiset<Entry>, f: multiset<Entry>, q: multiset<Entry>, d: multiset<Entry>,
                  l: multiset<Entry>, e: Entry, x: Entry)
    requires o == p + f + q + d + l && e in q
    ensures o - multiset{e} + multiset{x} == p + f + (q - multiset{e} + multiset{x}) + d + l
  {
  }

  lemma ReplacedOne(xs: seq<Entry>, i: nat, x: Entry)
    requires i < |xs|
    ensures multiset(xs[i := x]) == multiset(xs) - multiset{xs[i]} + multiset{x}
  {
  }

  lemma AttachConserves(s: Log, c: Config, k: nat, error: Option<string>, stack: Option<string>)
    requires Conserved(s) && Numbered(s.offered) && k < |s.queue|
    ensures Conserved(Apply(s, c, Attach(k, error, stack))) && Numbered(Apply(s, c, Attach(k, error, stack)).offered)
  {
    hide Flat, Conserved;
    QueuedIsOffered(s, k);
    var e, f := s.queue[k], Attached(s.queue[k], error, stack);
    ReplacementConserves(s, k, e.number, f);
    StaysNumbered(s.offered, e.number, f);
  }

  lemma StaysNumbered(offered: seq<Entry>, i: nat, x: Entry)
    requires Numbered(offered) && i < |offered| && x.number == i
    ensures Numbered(offered[i := x])
  {
  }

  lemma ReplacementConserves(s: Log, k: nat, i: nat, x: Entry)
    requires Conserved(s) && k < |s.queue| && i < |s.offered| && s.offered[i] == s.queue[k]
    ensures Conserved(s.(queue := s.queue[k := x], offered := s.offered[i := x]))
  {
    hide Flat;
    assert s.queue[k] in multiset(s.queue);
    Exchanged(multiset(s.offered), multiset(s.persisted), multiset(Flat(s.flights)), multiset(s.queue), multiset(s.dropped),
              multiset(s.lost), s.queue[k], x);
    ReplacedOne(s.queue, k, x);
    ReplacedOne(s.offered, i, x);
  }

  ghost predicate Nonempty(flights: seq<seq<Entry>>) {
    forall i | 0 <= i < |flights| :: flights[i] != []
  }

  ghost predicate Numbered(offered: seq<Entry>) {
    forall i | 0 <= i < |offered| :: offered[i].number == i
  }

  lemma StepKeepsInv(s: Log, c: Config, step: Step)
    requires Inv(s, c) && Enabled(s, step)
    ensures Inv(Apply(s, c, step), c)
  {
    hide Redacted, Conserved, Flat, Nonempty, Numbered;
    match step
    case Offer(content) =>
      OfferConserves(s, c, content);
      OneMoreNumbered(s.offered, Redacted(c, content));
    case Attach(k, error, stack) => AttachConserves(s, c, k, error, stack);
    case FlushStart =>
      TakeOffConserves(s, c);
      OneMoreNonempty(s.flights, s.queue);
    case Commit(i) =>
      FlightLandsConserved(s, c, i);
      OneLessNonempty(s.flights, i);
    case Rollback(i) =>
      FlightLandsConserved(s, c, i);
      OneLessNonempty(s.flights, i);
    case RollbackFails(i) =>
      FlightLandsConserved(s, c, i);
      OneLessNonempty(s.flights, i);
  }

  lemma OneMoreNumbered(offered: seq<Entry>, content: Content)
    requires Numbered(offered)
    ensures Numbered(offered + [Entry(|offered|, content)])
  {
  }

  lemma OneMoreNonempty(flights: seq<seq<Entry>>, batch: seq<Entry>)
    requires Nonempty(flights) && batch != []
    ensures Nonempty(flights + [batch])
  {
  }

  lemma OneLessNonempty(flights: seq<seq<Entry>>, i: nat)
    requires Nonempty(flights) && i < |flights|
    ensures Nonempty(Remove(flights, i))
  {
  }

  ghost predicate Runs(s: Log, c: Config, steps: seq<Step>, t: Log)
    decreases |steps|
  {
    if steps == [] then s == t
    else Enabled(s, steps[0]) && Runs(Apply(s, c, steps[0]), c, steps[1..], t)
  }

  /** Over every interleaving of logging, overlapping flushes, commits and rollbacks, the queue keeps its bound and
      everything offered is persisted, in flight, queued, dropped or lost, each entry exactly once. */
  lemma {:induction false} NothingVanishes(s: Log, c: Config, steps: seq<Step>, t: Log)
    requires Inv(s, c) && Runs(s, c, steps, t)
    ensures Inv(t, c)
    decreases |steps|
  {
    if steps != [] {
      StepKeepsInv(s, c, steps[0]);
      NothingVanishes(Apply(s, c, steps[0]), c, steps[1..], t);
    }
  }

  lemma {:induction false} OfferedOnce(offered: seq<Entry>, e: Entry)
    requires Numbered(offered)
    ensures multiset(offered)[e] <= 1
  {
    if offered != [] {
      var n := |offered| - 1;
      OfferedOnce(offered[..n], e);
      assert offered == offered[..n] + [offered[n]];
      if offered[n] == e { assert forall i | 0 <= i < n :: offered[..n][i] == offered[i] != e; }
    }
  }

  lemma Twice(xs: seq<Entry>, i: nat, j: nat)
    requires i < j < |xs| && xs[i] == xs[j]
    ensures multiset(xs)[xs[i]] >= 2
  {
    var u, v := xs[..i + 1], xs[i + 1..];
    assert xs == u + v && u[i] == xs[i] && v[j - i - 1] == xs[i];
  }

  /** No entry is written to the database twice. */
  lemma PersistedOnce(c: Config, steps: seq<Step>, t: Log, i: nat, j: nat)
    requires Runs(EMPTY, c, steps, t) && i < j < |t.persisted|
    ensures t.persisted[i] != t.persisted[j]
  {
    hide Runs;
    NothingVanishes(EMPTY, c, steps, t);
    OfferedOnce(t.offered, t.persisted[i]);
    if t.persisted[i] == t.persisted[j] { Twice(t.persisted, i, j); }
  }

  // ---------------------------------------------------------------------------------------------
  // Order.

  ghost predicate Increasing(xs: seq<Entry>) {
    forall i, j | 0 <= i < j < |xs| :: xs[i].number < xs[j].number
  }

  function Pending(s: Log): seq<Entry> {
    s.persisted + Flat(s.flights) + s.queue
  }

  /** One flush at a time, and what is written, in flight and queued is in the order of offering. */
  ghost predicate InOrder(s: Log) {
    && |s.flights| <= 1 && Increasing(Pending(s))
    && forall e | e in Pending(s) :: e.number < |s.offered|
  }

  lemma FlatOne(flights: seq<seq<Entry>>)
    ensures |flights| == 1 ==> Flat(flights) == flights[0]
    ensures flights == [] ==> Flat(flights) == []
  {
  }

  lemma ThinnedStaysIncreasing(a: seq<Entry>, b: seq<Entry>, c: seq<Entry>)
    requires Increasing(a + b + c)
    ensures Increasing(a + c)
  {
    var u, v := a + b + c, a + c;
    forall i, j | 0 <= i < j < |v| ensures v[i].number < v[j].number {
      var k, m := if i < |a| then i else i + |b|, if j < |a| then j else j + |b|;
      assert u[k] == v[i] && u[m] == v[j];
    }
  }

  lemma OrderedOffer(s: Log, c: Config, content: Content)
    requires InOrder(s)
    ensures InOrder(Apply(s, c, Offer(content)))
  {
    hide Redacted, Flat;
    var t := Apply(s, c, Offer(content));
    assert Pending(t) == Pending(s) || Pending(t) == Pending(s) + [Entry(|s.offered|, Redacted(c, content))];
  }

  lemma OrderedAttach(s: Log, c: Config, k: nat, error: Option<string>, stack: Option<string>)
    requires InOrder(s) && k < |s.queue|
    ensures InOrder(Apply(s, c, Attach(k, error, stack)))
  {
    hide Flat;
    var t := Apply(s, c, Attach(k, error, stack));
    var i, f := |s.persisted + Flat(s.flights)| + k, Attached(s.queue[k], error, stack);
    assert Pending(s)[i] == s.queue[k];
    assert Pending(t) == Pending(s)[i := f];
    forall e | e in Pending(t) ensures e.number < |t.offered| {
      if e != f { assert e in Pending(s); }
      assert Pending(s)[i] in Pending(s);
    }
  }

  lemma OrderedLanding(s: Log, c: Config, keep: seq<Entry>, gone: seq<Entry>, rest: seq<Entry>, t: Log)
    requires InOrder(s) && Pending(s) == keep + gone + rest && Pending(t) == keep + rest
    requires t.flights == [] && |t.offered| == |s.offered|
    ensures InOrder(t)
  {
    hide Pending;
    ThinnedStaysIncreasing(keep, gone, rest);
    assert forall e | e in keep + rest :: e in keep + gone + rest;
  }

  lemma OrderedRollback(s: Log, c: Config)
    requires InOrder(s) && |s.flights| == 1
    ensures InOrder(Apply(s, c, Rollback(0)))
  {
    var t := Apply(s, c, Rollback(0));
    FlatOne(s.flights);
    FlatOne(t.flights);
    var back := s.flights[0] + s.queue;
    var n := Excess(back, c.max);
    assert back == back[..n] + back[n..];
    OrderedLanding(s, c, s.persisted, back[..n], back[n..], t);
  }

  lemma OrderedStep(s: Log, c: Config, step: Step)
    requires InOrder(s) && Enabled(s, step) && (step.FlushStart? ==> s.flights == [])
    ensures InOrder(Apply(s, c, step))
  {
    hide Redacted, InOrder, Increasing, Flat;
    OneFlight(s);
    FlatOne(s.flights);
    var t := Apply(s, c, step);
    FlatOne(t.flights);
    match step
    case Offer(content) => OrderedOffer(s, c, content);
    case Attach(k, error, stack) => OrderedAttach(s, c, k, error, stack);
    case FlushStart =>
      assert Pending(t) == Pending(s);
      SamePending(s, t);
    case Commit(i) =>
      OrderedLanding(s, c, t.persisted, [], s.queue, t);
    case Rollback(i) => OrderedRollback(s, c);
    case RollbackFails(i) =>
      OrderedLanding(s, c, s.persisted, s.flights[i], s.queue, t);
  }

  lemma OneFlight(s: Log)
    requires InOrder(s)
    ensures |s.flights| <= 1
  {
  }

  lemma SamePending(s: Log, t: Log)
    requires InOrder(s) && Pending(t) == Pending(s) && |t.flights| <= 1 && |t.offered| == |s.offered|
    ensures InOrder(t)
  {
  }

  ghost predicate OneFlushAtATime(s: Log, c: Config, steps: seq<Step>, t: Log)
    decreases |steps|
  {
    if steps == [] then s == t
    else
      Enabled(s, steps[0]) && (steps[0].FlushStart? ==> s.flights == [])
      && OneFlushAtATime(Apply(s, c, steps[0]), c, steps[1..], t)
  }

  /** With one flush in flight at a time, entries are written in the order they were logged. */
  lemma {:induction false} PersistedInOrder(s: Log, c: Config, steps: seq<Step>, t: Log)
    requires InOrder(s) && OneFlushAtATime(s, c, steps, t)
    ensures InOrder(t) && Increasing(t.persisted)
    decreases |steps|
  {
    if steps == [] {
      assert forall i | 0 <= i < |t.persisted| :: Pending(t)[i] == t.persisted[i];
    } else {
      OrderedStep(s, c, steps[0]);
      PersistedInOrder(Apply(s, c, steps[0]), c, steps[1..], t);
    }
  }

  /** A rollback keeps the newest `max` entries of the batch and the queue, and drops only older ones. */
  lemma RollbackKeepsNewest(s: Log, c: Config)
    requires InOrder(s) && |s.flights| == 1
    ensures
      var t := Apply(s, c, Rollback(0));
      var back := s.flights[0] + s.queue;
      && s.dropped <= t.dropped && t.dropped[|s.dropped|..] + t.queue == back
      && |t.queue| == (if |back| <= c.max then |back| else c.max)
      && forall d, q | d in t.dropped[|s.dropped|..] && q in t.queue :: d.number < q.number
  {
    hide Flat, Increasing;
    var t := Apply(s, c, Rollback(0));
    var back := s.flights[0] + s.queue;
    var n := Excess(back, c.max);
    FlatOne(s.flights);
    assert t.dropped[|s.dropped|..] == back[..n] && back[..n] + back[n..] == back;
    assert Pending(s) == s.persisted + back;
    LaterIsNewer(s.persisted, back, n);
  }

  lemma LaterIsNewer(before: seq<Entry>, back: seq<Entry>, n: nat)
    requires Increasing(before + back) && n <= |back|
    ensures forall d, q | d in back[..n] && q in back[n..] :: d.number < q.number
  {
    forall d, q | d in back[..n] && q in back[n..] ensures d.number < q.number {
      var i :| 0 <= i < n && back[..n][i] == d;
      var j :| 0 <= j < |back[n..]| && back[n..][j] == q;
      assert (before + back)[|before| + i] == d && (before + back)[|before| + n + j] == q;
    }
  }

  /** Whichever of the batches in flight commit first, what is written stays in order. */
  ghost predicate AnyCommitOrder(s: Log, c: Config) {
    forall i | 0 <= i < |s.flights| ::
      var t := Apply(s, c, Commit(i));
      Increasing(t.persisted) && forall j | 0 <= j < |t.flights| :: Increasing(Apply(t, c, Commit(j)).persisted)
  }

  /** From an orderly state, a new flush is sure to keep the order exactly when no other is in flight. */
  lemma SecondFlushReordersIff(s: Log, c: Config)
    requires InOrder(s) && Inv(s, c) && s.queue != []
    ensures AnyCommitOrder(Apply(s, c, FlushStart), c) <==> s.flights == []
  {
    var t := Apply(s, c, FlushStart);
    FlatOne(s.flights);
    if s.flights == [] {
      assert t.flights == [s.queue] && Remove(t.flights, 0) == [];
      assert Pending(s) == s.persisted + s.queue;
    } else {
      var elder, young := s.flights[0], s.queue;
      assert t.flights == [elder, young];
      var u := Apply(t, c, Commit(1));
      assert u.flights == [elder];
      var w := Apply(u, c, Commit(0)).persisted;
      assert w == s.persisted + young + elder;
      assert w[|s.persisted|] == young[0] && w[|s.persisted| + |young|] == elder[0];
      assert Pending(s)[|s.persisted|] == elder[0] && Pending(s)[|s.persisted| + |elder|] == young[0];
    }
  }

  // ---------------------------------------------------------------------------------------------
  // What reaches the database.

  ghost predicate NoToken(text: Option<string>) {
    text.Some? ==> !Occurs(Jwt, text.value) && !Occurs(Bearer, text.value)
  }

  /** No text of the entry holds a token, and no sensitive field of its context a value. */
  ghost predicate TokenFree(c: Config, x: Content) {
    NoToken(Some(x.message)) && Safe(c.policy, x.context, false) && NoToken(x.error) && NoToken(x.stack)
  }

  ghost predicate AllTokenFree(c: Config, xs: seq<Entry>) {
    forall i | 0 <= i < |xs| :: TokenFree(c, xs[i].content)
  }

  lemma RedactedIsTokenFree(c: Config, x: Content)
    requires c.redacts
    ensures TokenFree(c, Redacted(c, x))
  {
    hide Occurs, RedactText, Redact, Safe;
    RedactedTextIsClean(x.message);
    RedactedIsSafe(c.policy, x.context);
    if x.error.Some? { RedactedTextIsClean(x.error.value); }
    if x.stack.Some? { RedactedTextIsClean(x.stack.value); }
  }

  /** The error texts that are attached late are free of tokens by themselves. */
  ghost predicate AttachesNoToken(steps: seq<Step>) {
    forall i | 0 <= i < |steps| && steps[i].Attach? :: NoToken(steps[i].error) && NoToken(steps[i].stack)
  }

  lemma StepStaysTokenFree(s: Log, c: Config, step: Step)
    requires c.redacts && Inv(s, c) && AllTokenFree(c, s.offered) && Enabled(s, step)
    requires step.Attach? ==> NoToken(step.error) && NoToken(step.stack)
    ensures AllTokenFree(c, Apply(s, c, step).offered)
  {
    hide Occurs, Redacted, Safe, Flat;
    if step.Offer? { RedactedIsTokenFree(c, step.content); }
    if step.Attach? { QueuedIsOffered(s, step.at); }
  }

  /** With redaction on, and no token in the error texts attached after queueing, nothing ever offered carries a token by
      the time it can be written. */
  lemma {:induction false} NoTokenIsQueued(s: Log, c: Config, steps: seq<Step>, t: Log)
    requires c.redacts && Inv(s, c) && AllTokenFree(c, s.offered) && AttachesNoToken(steps) && Runs(s, c, steps, t)
    ensures AllTokenFree(c, t.offered)
    decreases |steps|
  {
    hide AllTokenFree, Inv, NoToken, Apply;
    if steps != [] {
      assert forall i | 0 <= i < |steps[1..]| :: steps[1..][i] == steps[i + 1];
      StepKeepsInv(s, c, steps[0]);
      StepStaysTokenFree(s, c, steps[0]);
      NoTokenIsQueued(Apply(s, c, steps[0]), c, steps[1..], t);
    }
  }

  lemma EmptyIsInv(c: Config)
    ensures Inv(EMPTY, c)
  {
  }

  lemma NoTokenIsPersisted(c: Config, steps: seq<Step>, t: Log, k: nat)
    requires c.redacts && AttachesNoToken(steps) && Runs(EMPTY, c, steps, t) && k < |t.persisted|
    ensures TokenFree(c, t.persisted[k].content)
  {
    hide TokenFree, Runs, NoToken;
    EmptyIsInv(c);
    NoTokenIsQueued(EMPTY, c, steps, t);
    NothingVanishes(EMPTY, c, steps, t);
    assert t.persisted[k] in multiset(t.persisted);
    assert t.persisted[k] in multiset(t.offered);
    var i :| 0 <= i < |t.offered| && t.offered[i] == t.persisted[k];
  }

  /** A token in an error text that is attached to the queued entry is written as it is. */
  lemma AttachedTokenIsPersisted(c: Config, x: Content, token: string)
    requires c.max >= 1
    ensures
      var s1 := Apply(EMPTY, c, Offer(x));
      var s2 := Apply(s1, c, Attach(0, Some(token), None));
      var s4 := Apply(Apply(s2, c, FlushStart), c, Commit(0));
      |s4.persisted| == 1 && s4.persisted[0].content.error == Some(token)
  {
    hide Redacted;
  }

  /** However it goes on, if only no further error text with a token is set late, no row with a token is written. */
  ghost predicate NeverWritesToken(s: Log, c: Config) {
    forall steps, t | AttachesNoToken(steps) && Runs(s, c, steps, t) :: AllTokenFree(c, t.persisted)
  }

  lemma PersistedIsOffered(s: Log, c: Config)
    requires Inv(s, c) && AllTokenFree(c, s.offered)
    ensures AllTokenFree(c, s.persisted)
  {
    hide TokenFree;
    forall i | 0 <= i < |s.persisted| ensures TokenFree(c, s.persisted[i].content) {
      assert s.persisted[i] in multiset(s.persisted);
      assert s.persisted[i] in multiset(s.offered);
      var j :| 0 <= j < |s.offered| && s.offered[j] == s.persisted[i];
    }
  }

  lemma CleanNeverWritesToken(s: Log, c: Config)
    requires c.redacts && Inv(s, c) && AllTokenFree(c, s.offered)
    ensures NeverWritesToken(s, c)
  {
    hide AllTokenFree, Inv, Runs, AttachesNoToken;
    forall steps, t | AttachesNoToken(steps) && Runs(s, c, steps, t) ensures AllTokenFree(c, t.persisted) {
      NoTokenIsQueued(s, c, steps, t);
      NothingVanishes(s, c, steps, t);
      PersistedIsOffered(t, c);
    }
  }

  /** What is queued can be written by a flush and its commit. */
  lemma QueuedIsWritten(s: Log, c: Config, k: nat)
    requires k < |s.queue|
    ensures
      var t := Apply(Apply(s, c, FlushStart), c, Commit(|s.flights|));
      Runs(s, c, [FlushStart, Commit(|s.flights|)], t) && t.persisted == s.persisted + s.queue
  {
    var a, b := FlushStart, Commit(|s.flights|);
    assert [a, b][1..] == [b] && [b][1..] == [];
    var u := Apply(s, c, a);
    assert Runs(u, c, [b], Apply(u, c, b));
  }

  /** Setting error texts on a queued entry lets no token into the database, whatever follows, if and only if they hold none. */
  lemma AttachIsHarmlessIff(s: Log, c: Config, k: nat, error: Option<string>, stack: Option<string>)
    requires c.redacts && Inv(s, c) && AllTokenFree(c, s.offered) && k < |s.queue|
    ensures NeverWritesToken(Apply(s, c, Attach(k, error, stack)), c) <==> NoToken(error) && NoToken(stack)
  {
    hide Inv, Runs, Occurs, Safe, AttachesNoToken;
    var step := Attach(k, error, stack);
    var n := Apply(s, c, step);
    if NoToken(error) && NoToken(stack) {
      StepKeepsInv(s, c, step);
      StepStaysTokenFree(s, c, step);
      CleanNeverWritesToken(n, c);
    } else {
      QueuedIsWritten(n, c, k);
      var t := Apply(Apply(n, c, FlushStart), c, Commit(|n.flights|));
      assert t.persisted[|n.persisted| + k] == n.queue[k];
      assert AttachesNoToken([FlushStart, Commit(|n.flights|)]) by { FlushAttachesNothing(|n.flights|); }
    }
  }

  lemma FlushAttachesNothing(i: nat)
    ensures AttachesNoToken([FlushStart, Commit(i)])
  {
  }
}
