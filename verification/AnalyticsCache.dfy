/** The process-wide cache, the analytics answers read through it, and the writers of the
    stream table that invalidate them. */
module AnalyticsCache {

  datatype Option<T> = None | Some(value: T)

  datatype Item<V> = Item(value: V, expiry: int)

  predicate StartsWith(s: string, prefix: string) {
    |prefix| <= |s| && s[..|prefix|] == prefix
  }

  function Found<V>(cache: map<string, Item<V>>, key: string, now: int): Option<V> {
    if key in cache && now <= cache[key].expiry then Some(cache[key].value) else None
  }

  function Got<V>(cache: map<string, Item<V>>, key: string, now: int): map<string, Item<V>> {
    if key in cache && now > cache[key].expiry then cache - {key} else cache
  }

  function Unprefixed<V>(cache: map<string, Item<V>>, prefix: string): map<string, Item<V>> {
    map key | key in cache && !StartsWith(key, prefix) :: cache[key]
  }

  class SimpleCache<V(==)> {
    var items: map<string, Item<V>>

    constructor ()
      ensures items == map[]
    {
      items := map[];
    }

    method Set(key: string, value: V, ttl: nat, now: int)
      modifies this
      ensures items == old(items)[key := Item(value, now + ttl)]
    {
      items := items[key := Item(value, now + ttl)];
    }

    method Get(key: string, now: int) returns (r: Option<V>)
      modifies this
      ensures r == Found(old(items), key, now) && items == Got(old(items), key, now)
      ensures r == if key in old(items) && now <= old(items)[key].expiry then Some(old(items)[key].value) else None
      ensures items == if key in old(items) && now > old(items)[key].expiry then old(items) - {key} else old(items)
    {
      if key !in items { return None; }
      if now > items[key].expiry {
        items := items - {key};
        return None;
      }
      r := Some(items[key].value);
    }

    method Del(key: string)
      modifies this
      ensures items == old(items) - {key}
    {
      items := items - {key};
    }

    method InvalidateByPrefix(prefix: string)
      modifies this
      ensures items == Unprefixed(old(items), prefix)
      ensures forall key :: key in items <==> key in old(items) && !(|prefix| <= |key| && key[..|prefix|] == prefix)
      ensures forall key | key in items :: items[key] == old(items)[key]
    {
      var left := items.Keys;
      while left != {}
        invariant left <= old(items).Keys
        invariant items == map key | key in old(items) && (key in left || !StartsWith(key, prefix)) :: old(items)[key]
        decreases |left|
      {
        var key :| key in left;
        if StartsWith(key, prefix) { items := items - {key}; }
        left := left - {key};
      }
    }
  }

  /** What callers do to the cache; reading removes what has expired. */
  datatype Use<V> = Sets(key: string, value: V, ttl: nat, at: int) | Gets(key: string, at: int) | Deletes(key: string) | Invalidates(prefix: string)

  function Used<V>(cache: map<string, Item<V>>, u: Use<V>): map<string, Item<V>> {
    match u
    case Sets(key, value, ttl, at) => cache[key := Item(value, at + ttl)]
    case Gets(key, at) => Got(cache, key, at)
    case Deletes(key) => cache - {key}
    case Invalidates(prefix) => Unprefixed(cache, prefix)
  }

  function UsedAll<V>(cache: map<string, Item<V>>, uses: seq<Use<V>>): map<string, Item<V>> {
    if uses == [] then cache else Used(UsedAll(cache, uses[..|uses| - 1]), uses[|uses| - 1])
  }

  /** The use neither sets nor removes the key, except that it may find it expired, at a time up to `later`. */
  predicate Spares<V>(u: Use<V>, key: string, later: int) {
    match u
    case Sets(k, _, _, _) => k != key
    case Gets(_, at) => at <= later
    case Deletes(k) => k != key
    case Invalidates(prefix) => !StartsWith(key, prefix)
  }

  /** A value that was set is read back at any later time, whatever is done to other keys and however often it is read in
      between, if and only if its lifetime is not over. */
  lemma {:induction false} SetIsReadBackIff<V>(cache: map<string, Item<V>>, key: string, value: V, ttl: nat, at: int,
                                               uses: seq<Use<V>>, later: int)
    requires forall i | 0 <= i < |uses| :: Spares(uses[i], key, later)
    ensures
      var c := UsedAll(Used(cache, Sets(key, value, ttl, at)), uses);
      && Found(c, key, later) == (if later <= at + ttl then Some(value) else None)
      && (key in c ==> c[key] == Item(value, at + ttl))
  {
    if uses != [] {
      assert forall i | 0 <= i < |uses| - 1 :: uses[..|uses| - 1][i] == uses[i];
      SetIsReadBackIff(cache, key, value, ttl, at, uses[..|uses| - 1], later);
    }
  }

  // ---------------------------------------------------------------------------------------------
  // Questions and their keys.

  /** The stream table, as far as the answers look into it. */
  datatype Table = Table(streams: seq<string>)

  /** An empty address asks for everybody's trends. */
  datatype Question = Summary | Trends(address: string, weekly: bool)

  const SUMMARY := "analytics:summary"
  const TRENDS := "analytics:trends:"

  function Granularity(weekly: bool): string {
    if weekly then ":weekly" else ":daily"
  }

  function Key(q: Question): string {
    match q
    case Summary => SUMMARY
    case Trends(address, weekly) => TRENDS + (if address == "" then "all" else address) + Granularity(weekly)
  }

  /** The keys, spelt out. */
  lemma KeysAre(address: string, weekly: bool)
    ensures Key(Summary) == "analytics:summary"
    ensures Key(Trends(address, weekly))
         == "analytics:trends:" + (if address == "" then "all" else address) + if weekly then ":weekly" else ":daily"
  {
  }

  lemma KeyShape(q: Question)
    ensures q.Trends? ==> StartsWith(Key(q), TRENDS) && Key(q)[10] == 't'
    ensures q.Summary? ==> Key(q)[10] == 's'
    ensures q.Trends? ==> Key(q)[|Key(q)| - 3] == if q.weekly then 'k' else 'i'
  {
    if q.Trends? {
      assert Key(q)[..|TRENDS|] == TRENDS;
      assert Key(q)[10] == TRENDS[10];
    }
  }

  lemma Middle(a: string, m: string, n: string, z: string)
    requires a + m + z == a + n + z
    ensures m == n
  {
    assert |a + m + z| == |a| + |m| + |z| && |a + n + z| == |a| + |n| + |z|;
    assert m == (a + m + z)[|a|..|a| + |m|] && n == (a + n + z)[|a|..|a| + |n|];
  }

  /** Two questions share a key exactly when they are the same, or one asks about everybody
      and the other about an address spelt "all". */
  lemma KeysCollideIff(p: Question, q: Question)
    ensures Key(p) == Key(q) <==>
            p == q || (p.Trends? && q.Trends? && p.weekly == q.weekly && p.address in ["", "all"] && q.address in ["", "all"])
  {
    KeyShape(p);
    KeyShape(q);
    if p.Trends? && q.Trends? && p.weekly == q.weekly && Key(p) == Key(q) {
      Middle(TRENDS, if p.address == "" then "all" else p.address, if q.address == "" then "all" else q.address,
             Granularity(p.weekly));
    }
  }

  // ---------------------------------------------------------------------------------------------
  // Requests one at a time.

  const TTL: nat := 300_000

  type Answer = (Table, Question) -> string

  datatype Site = Site(table: Table, cache: map<string, Item<string>>, now: int)

  /** A question, a committed change to the stream table, a withdrawal, or another handler filling a key of its own. */
  datatype Event =
    | Ask(wait: nat, q: Question)
    | Write(wait: nat, table: Table)
    | Withdraw(wait: nat)
    | Other(wait: nat, key: string, value: string, ttl: nat)

  predicate Foreign(key: string) {
    key != SUMMARY && !StartsWith(key, TRENDS)
  }

  function Invalidated(cache: map<string, Item<string>>): map<string, Item<string>> {
    Unprefixed(cache - {SUMMARY}, TRENDS)
  }

  function Reply(s: Site, q: Question, answer: Answer): string {
    match Found(s.cache, Key(q), s.now) case Some(v) => v case None => answer(s.table, q)
  }

  function Asked(s: Site, q: Question, answer: Answer): Site {
    var cache := Got(s.cache, Key(q), s.now);
    if Found(s.cache, Key(q), s.now).Some? then s.(cache := cache)
    else s.(cache := cache[Key(q) := Item(answer(s.table, q), s.now + TTL)])
  }

  function Do(s: Site, e: Event, answer: Answer): Site {
    var t := s.(now := s.now + e.wait);
    match e
    case Ask(_, q) => Asked(t, q, answer)
    case Write(_, table) => Site(table, Invalidated(t.cache), t.now)
    case Withdraw(_) => t.(cache := t.cache - {SUMMARY})
    case Other(_, key, value, ttl) => if Foreign(key) then t.(cache := t.cache[key := Item(value, t.now + ttl)]) else t
  }

  function Run(s: Site, events: seq<Event>, answer: Answer): Site {
    if events == [] then s else Do(Run(s, events[..|events| - 1], answer), events[|events| - 1], answer)
  }

  /** A run takes its events one after the other, also when it is cut in two. */
  lemma {:induction false} RunGoesOn(s: Site, events: seq<Event>, more: seq<Event>, e: Event, answer: Answer)
    ensures Run(s, [e], answer) == Do(s, e, answer)
    ensures Run(s, events + more, answer) == Run(Run(s, events, answer), more, answer)
    decreases |more|
  {
    hide Do;
    assert [e][..0] == [] && Run(s, [], answer) == s;
    if more == [] {
      assert events + more == events;
    } else {
      var n := |more| - 1;
      RunGoesOn(s, events, more[..n], e, answer);
      assert (events + more)[..|events + more| - 1] == events + more[..n];
    }
  }

  predicate SpeltAll(q: Question) {
    q.Trends? && q.address == "all"
  }

  lemma InvalidatedHoldsNoAnswer(cache: map<string, Item<string>>, q: Question)
    ensures Key(q) !in Invalidated(cache)
    ensures forall key | Foreign(key) && key in cache :: key in Invalidated(cache)
  {
    KeyShape(q);
  }

  lemma AnswersAreNotForeign(q: Question)
    ensures !Foreign(Key(q))
  {
    KeyShape(q);
  }

  /** Every cached answer is what the query would give on the current table. */
  ghost predicate Current(s: Site, answer: Answer) {
    forall q | !SpeltAll(q) && Key(q) in s.cache :: s.cache[Key(q)].value == answer(s.table, q)
  }

  lemma StepKeepsCurrent(s: Site, e: Event, answer: Answer)
    requires Current(s, answer) && (e.Ask? ==> !SpeltAll(e.q))
    ensures Current(Do(s, e, answer), answer)
  {
    var t := Do(s, e, answer);
    forall q | !SpeltAll(q) && Key(q) in t.cache ensures t.cache[Key(q)].value == answer(t.table, q) {
      match e
      case Ask(_, p) => KeysCollideIff(p, q);
      case Write(_, _) => InvalidatedHoldsNoAnswer(s.cache, q);
      case Withdraw(_) =>
      case Other(_, key, _, _) => AnswersAreNotForeign(q);
    }
  }

  /** In a run of requests handled one at a time, in which nobody asks for an address spelt "all", every cached
      answer, and so every reply, is what the query gives on the current table. */
  lemma {:induction false} SerialRunsAgree(s: Site, events: seq<Event>, answer: Answer)
    requires s.cache == map[]
    requires forall i | 0 <= i < |events| && events[i].Ask? :: !(events[i].q.Trends? && events[i].q.address == "all")
    ensures Current(Run(s, events, answer), answer)
    ensures forall q: Question | !(q.Trends? && q.address == "all") :: Reply(Run(s, events, answer), q, answer) == answer(Run(s, events, answer).table, q)
  {
    if events != [] {
      SerialRunsAgree(s, events[..|events| - 1], answer);
      StepKeepsCurrent(Run(s, events[..|events| - 1], answer), events[|events| - 1], answer);
    }
  }

  ghost predicate AnswersKey(value: string, key: string, table: Table, answer: Answer) {
    exists p :: Key(p) == key && value == answer(table, p)
  }

  /** With such requests a cached answer may instead be the one to the other question under its key. */
  ghost predicate AlmostCurrent(s: Site, answer: Answer) {
    forall q | Key(q) in s.cache :: AnswersKey(s.cache[Key(q)].value, Key(q), s.table, answer)
  }

  lemma StepKeepsAlmostCurrent(s: Site, e: Event, answer: Answer)
    requires AlmostCurrent(s, answer)
    ensures AlmostCurrent(Do(s, e, answer), answer)
  {
    hide Key, Foreign, Invalidated, AnswersKey;
    var t := Do(s, e, answer);
    forall q | Key(q) in t.cache ensures AnswersKey(t.cache[Key(q)].value, Key(q), t.table, answer) {
      match e
      case Ask(_, p) => AnswerAnswersKey(s.table, p, answer);
      case Write(_, _) => InvalidatedHoldsNoAnswer(s.cache, q);
      case Withdraw(_) =>
      case Other(_, key, _, _) => AnswersAreNotForeign(q);
    }
  }

  lemma AnswerAnswersKey(table: Table, p: Question, answer: Answer)
    ensures AnswersKey(answer(table, p), Key(p), table, answer)
  {
  }

  lemma OnlyAnswer(value: string, q: Question, table: Table, answer: Answer)
    requires AnswersKey(value, Key(q), table, answer) && (q.Summary? || q.address !in ["", "all"])
    ensures value == answer(table, q)
  {
    var p :| Key(p) == Key(q) && value == answer(table, p);
    KeysCollideIff(p, q);
  }

  /** In any serial run, every reply is current except that the totals for everybody and the trends of an
      address spelt "all" may be served in place of each other. */
  lemma {:induction false} SerialRunsAlmostAgree(s: Site, events: seq<Event>, answer: Answer)
    requires s.cache == map[]
    ensures AlmostCurrent(Run(s, events, answer), answer)
    ensures forall q: Question | q.Summary? || q.address !in ["", "all"] ::
      Reply(Run(s, events, answer), q, answer) == answer(Run(s, events, answer).table, q)
  {
    hide Key, Do, AnswersKey;
    if events != [] {
      SerialRunsAlmostAgree(s, events[..|events| - 1], answer);
      StepKeepsAlmostCurrent(Run(s, events[..|events| - 1], answer), events[|events| - 1], answer);
    }
    var t := Run(s, events, answer);
    forall q: Question | (q.Summary? || q.address !in ["", "all"]) ensures Reply(t, q, answer) == answer(t.table, q) {
      if Key(q) in t.cache { OnlyAnswer(t.cache[Key(q)].value, q, t.table, answer); }
    }
  }

  /** Asking for an address spelt "all" makes the next caller's totals for everybody those of that address;
      they are right exactly when the two happen to be equal. */
  lemma SpeltAllReplacesTotals(s: Site, weekly: bool, wait: nat, answer: Answer)
    requires s.cache == map[] && wait <= TTL
    ensures
      var t := Do(s, Ask(0, Trends("all", weekly)), answer);
      && Reply(t.(now := t.now + wait), Trends("", weekly), answer) == answer(s.table, Trends("all", weekly))
      && t.table == s.table
  {
    KeysCollideIff(Trends("all", weekly), Trends("", weekly));
  }

  class Analytics {
    const answer: Answer
    const cache: SimpleCache<string>
    var table: Table

    constructor (answer: Answer, table: Table)
      ensures this.answer == answer && this.table == table && fresh(cache) && cache.items == map[]
    {
      this.answer, this.table := answer, table;
      cache := new SimpleCache();
    }

    ghost function State(now: int): Site
      reads this, cache
    {
      Site(table, cache.items, now)
    }

    method Handle(q: Question, now: int) returns (reply: string)
      modifies cache
      ensures reply == Reply(old(State(now)), q, answer) && State(now) == Asked(old(State(now)), q, answer)
      ensures
        var key, before := Key(q), old(cache.items);
        var hit := key in before && now <= before[key].expiry;
        && reply == (if hit then before[key].value else answer(table, q))
        && cache.items == if hit then before else before[key := Item(reply, now + 300_000)]
    {
      var cached := cache.Get(Key(q), now);
      match cached
      case Some(value) => reply := value;
      case None =>
        reply := answer(table, q);
        cache.Set(Key(q), reply, TTL, now);
    }

    method WriteStreams(changed: Table, now: int)
      modifies this, cache
      ensures State(now) == Do(old(State(now)), Write(0, changed), answer)
      ensures table == changed
      ensures forall key :: key in cache.items <==>
        key in old(cache.items) && key != "analytics:summary" && !("analytics:trends:" <= key)
    {
      table := changed;
      cache.Del(SUMMARY);
      cache.InvalidateByPrefix(TRENDS);
    }
  }

  // ---------------------------------------------------------------------------------------------
  // Requests, queries, writes and invalidations interleaved in any way, other processes' writes included.

  /** A cached answer, with the number of the table version it was computed on. */
  datatype Answered = Answered(q: Question, version: nat)

  /** A request that missed: it started at some time and may have read the table since. */
  datatype Flight = Flight(q: Question, started: int, read: Option<nat>)

  datatype Version = Version(table: Table, since: int)

  datatype Busy = Busy(versions: seq<Version>, cache: map<string, Item<Answered>>, flights: map<nat, Flight>, now: int)

  datatype Step =
    | Tick(wait: nat)
    | Start(id: nat, q: Question)
    | Read(id: nat)
    | Finish(id: nat)
    | Commit(table: Table)
    | Drop(keys: set<string>)

  predicate Ready(s: Busy, e: Step) {
    match e
    case Start(id, q) => id !in s.flights
    case Read(id) => id in s.flights && s.flights[id].read.None?
    case Finish(id) => id in s.flights && s.flights[id].read.Some?
    case _ => true
  }

  /** No request takes longer than `latency` from its start to the caching of its answer. */
  predicate Enabled(s: Busy, e: Step, latency: nat) {
    Ready(s, e) && (e.Finish? ==> s.now <= s.flights[e.id].started + latency)
  }

  function Take(s: Busy, e: Step): Busy
    requires s.versions != [] && Ready(s, e)
  {
    match e
    case Tick(wait) => s.(now := s.now + wait)
    case Start(id, q) =>
      if Found(s.cache, Key(q), s.now).Some? then s
      else s.(cache := Got(s.cache, Key(q), s.now), flights := s.flights[id := Flight(q, s.now, None)])
    case Read(id) => s.(flights := s.flights[id := s.flights[id].(read := Some(|s.versions| - 1))])
    case Finish(id) =>
      var f := s.flights[id];
      s.(cache := s.cache[Key(f.q) := Item(Answered(f.q, f.read.value), s.now + TTL)], flights := s.flights - {id})
    case Commit(table) => s.(versions := s.versions + [Version(table, s.now)])
    case Drop(keys) => s.(cache := s.cache - keys)
  }

  /** The version was still the table's content at some moment not before `time`. */
  predicate HeldUntil(versions: seq<Version>, v: nat, time: int) {
    v < |versions| && (v + 1 < |versions| ==> versions[v + 1].since >= time)
  }

  ghost predicate Inv(s: Busy, latency: nat) {
    && s.versions != []
    && (forall id | id in s.flights && s.flights[id].read.Some? ::
         HeldUntil(s.versions, s.flights[id].read.value, s.flights[id].started))
    && (forall id | id in s.flights :: s.flights[id].started <= s.now)
    && (forall key | key in s.cache ::
         && Key(s.cache[key].value.q) == key && s.cache[key].expiry <= s.now + TTL
         && HeldUntil(s.versions, s.cache[key].value.version, s.cache[key].expiry - TTL - latency))
  }

  lemma StepKeepsInv(s: Busy, e: Step, latency: nat)
    requires Inv(s, latency) && Enabled(s, e, latency)
    ensures Inv(Take(s, e), latency)
  {
    hide StartsWith, Key;
  }

  ghost predicate EnabledRun(s: Busy, steps: seq<Step>, latency: nat)
    requires s.versions != []
    decreases |steps|
  {
    steps == [] || (Enabled(s, steps[0], latency) && EnabledRun(Take(s, steps[0]), steps[1..], latency))
  }

  ghost function After(s: Busy, steps: seq<Step>, latency: nat): Busy
    requires s.versions != [] && EnabledRun(s, steps, latency)
    decreases |steps|
  {
    if steps == [] then s else After(Take(s, steps[0]), steps[1..], latency)
  }

  lemma {:induction false} RunKeepsInv(s: Busy, steps: seq<Step>, latency: nat)
    requires Inv(s, latency) && EnabledRun(s, steps, latency)
    ensures Inv(After(s, steps, latency), latency)
    decreases |steps|
  {
    hide Take;
    if steps != [] {
      StepKeepsInv(s, steps[0], latency);
      RunKeepsInv(Take(s, steps[0]), steps[1..], latency);
    }
  }

  /** However requests, writes and invalidations interleave, a hit is the answer, to a question with the same key, on a
      version of the table that was still current at most one lifetime plus one query's latency ago. */
  lemma HitIsBoundedlyStale(table: Table, steps: seq<Step>, latency: nat, q: Question)
    requires EnabledRun(Busy([Version(table, 0)], map[], map[], 0), steps, latency)
    requires Found(After(Busy([Version(table, 0)], map[], map[], 0), steps, latency).cache, Key(q),
                   After(Busy([Version(table, 0)], map[], map[], 0), steps, latency).now).Some?
    ensures
      var t := After(Busy([Version(table, 0)], map[], map[], 0), steps, latency);
      var hit := t.cache[Key(q)].value;
      && Key(hit.q) == Key(q) && hit.version < |t.versions|
      && (hit.version + 1 < |t.versions| ==> t.versions[hit.version + 1].since >= t.now - 300_000 - latency)
  {
    RunKeepsInv(Busy([Version(table, 0)], map[], map[], 0), steps, latency);
  }

  /** A write and its invalidation that fall between a query and its caching leave the old answer in the cache
      for its whole lifetime, so the bound cannot do without the lifetime. */
  lemma OutdatedAnswerIsCached(before: Table, later: Table, q: Question)
    ensures
      var s := Busy([Version(before, 0)], map[], map[], 0);
      var steps := [Start(0, q), Read(0), Commit(later), Drop({Key(q)}), Finish(0), Tick(TTL)];
      && EnabledRun(s, steps, 0)
      && var t := After(s, steps, 0);
         Found(t.cache, Key(q), t.now) == Some(Answered(q, 0)) && |t.versions| == 2 && t.versions[1].since == t.now - TTL
  {
    var s0 := Busy([Version(before, 0)], map[], map[], 0);
    var s1 := Take(s0, Start(0, q));
    var s2 := Take(s1, Read(0));
    var s3 := Take(s2, Commit(later));
    var s4 := Take(s3, Drop({Key(q)}));
    var s5 := Take(s4, Finish(0));
    AfterOne(s5, Tick(TTL), [], 0);
    AfterOne(s4, Finish(0), [Tick(TTL)], 0);
    AfterOne(s3, Drop({Key(q)}), [Finish(0), Tick(TTL)], 0);
    AfterOne(s2, Commit(later), [Drop({Key(q)}), Finish(0), Tick(TTL)], 0);
    AfterOne(s1, Read(0), [Commit(later), Drop({Key(q)}), Finish(0), Tick(TTL)], 0);
    AfterOne(s0, Start(0, q), [Read(0), Commit(later), Drop({Key(q)}), Finish(0), Tick(TTL)], 0);
  }

  lemma AfterOne(s: Busy, e: Step, rest: seq<Step>, latency: nat)
    requires s.versions != [] && Enabled(s, e, latency) && EnabledRun(Take(s, e), rest, latency)
    ensures EnabledRun(s, [e] + rest, latency)
    ensures After(s, [e] + rest, latency) == After(Take(s, e), rest, latency)
  {
    assert ([e] + rest)[1..] == rest;
  }
}
