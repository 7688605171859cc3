/** The allocator of account sequence numbers, with a pool of returned numbers. */
module NonceManager {
  import opened Sorting

  datatype Option<T> = None | Some(value: T)

  type Caller = int

  /** The account's number at the last initialisation, the last new one since, the pool, and who holds which number how
      often, also from before. */
  datatype Books = Books(base: int, current: int, pool: seq<int>, held: map<int, multiset<Caller>>)

  function Holders(held: map<int, multiset<Caller>>, n: int): multiset<Caller> {
    if n in held then held[n] else multiset{}
  }

  predicate Distinct(pool: seq<int>) {
    forall i, j | 0 <= i < j < |pool| :: pool[i] != pool[j]
  }

  /** How often a number is out or pooled. */
  function Uses(b: Books, n: int): nat {
    |Holders(b.held, n)| + if n in b.pool then 1 else 0
  }

  /** Every number above `base` up to `current` has one holder or waits in the pool, never both, and none beyond has either.
      A number from before the last initialisation has one holder or waits in the pool at most. */
  ghost predicate Exact(b: Books) {
    && b.base <= b.current && Distinct(b.pool)
    && forall n: int :: Uses(b, n) <= 1 && (n > b.base ==> Uses(b, n) == if n <= b.current then 1 else 0)
  }

  /** What a request hands out: the lowest returned number, else the next new one. */
  function Grant(b: Books): int {
    if b.pool != [] then SortAscending(b.pool)[0] else b.current + 1
  }

  function AfterGrant(b: Books, caller: Caller): Books {
    var n := Grant(b);
    var held := b.held[n := Holders(b.held, n) + multiset{caller}];
    if b.pool != [] then Books(b.base, b.current, SortAscending(b.pool)[1..], held)
    else Books(b.base, b.current + 1, [], held)
  }

  /** Anyone can return any number; only its holder has it afterwards no more. */
  function AfterRelease(b: Books, caller: Caller, n: int): Books {
    b.(pool := if n in b.pool then b.pool else b.pool + [n], held := b.held[n := Holders(b.held, n) - multiset{caller}])
  }

  predicate IsSmallestFree(n: int, base: int, held: map<int, multiset<Caller>>) {
    base < n && Holders(held, n) == multiset{} && forall k | base < k < n :: Holders(held, k) != multiset{}
  }

  lemma {:induction false} DistinctCounts(xs: seq<int>, x: int)
    requires Distinct(xs)
    ensures multiset(xs)[x] <= 1
  {
    if xs != [] {
      DistinctCounts(xs[1..], x);
      assert xs == [xs[0]] + xs[1..];
      assert forall i | 0 <= i < |xs[1..]| :: xs[1..][i] == xs[i + 1] != xs[0];
    }
  }

  lemma CountsTwice(xs: seq<int>, i: nat, j: nat)
    requires i < j < |xs| && xs[i] == xs[j]
    ensures multiset(xs)[xs[i]] >= 2
  {
    var u, v := xs[..i + 1], xs[i + 1..];
    assert xs == u + v && u[i] == xs[i] && v[j - i - 1] == xs[i];
  }

  lemma SortKeepsDistinct(pool: seq<int>)
    requires Distinct(pool)
    ensures Distinct(SortAscending(pool))
  {
    hide SortAscending;
    var s := SortAscending(pool);
    SortSorts(pool);
    forall i, j | 0 <= i < j < |s| ensures s[i] != s[j] {
      DistinctCounts(pool, s[i]);
      if s[i] == s[j] { CountsTwice(s, i, j); }
    }
  }

  /** Taking the least number out of a pool without repetitions. */
  lemma TakeLeast(pool: seq<int>)
    requires pool != [] && Distinct(pool)
    ensures
      var s := SortAscending(pool);
      && s[0] in pool && Distinct(s[1..])
      && (forall n :: n in s[1..] <==> n in pool && n != s[0])
      && (forall n | n in pool :: s[0] <= n)
  {
    hide SortAscending;
    var s := SortAscending(pool);
    SortSorts(pool);
    SortKeepsDistinct(pool);
    forall n ensures n in s <==> n in pool { SortMembers(pool, n); }
    assert s[0] in s;
    var rest := s[1..];
    assert forall i | 0 <= i < |rest| :: rest[i] == s[i + 1];
    forall n | n in pool && n != s[0] ensures n in rest {
      var i :| 0 <= i < |s| && s[i] == n;
      assert rest[i - 1] == n;
    }
  }

  lemma LeastFirst(pool: seq<int>)
    requires pool != []
    ensures
      var s := SortAscending(pool);
      s != [] && s[0] in pool && (forall n | n in pool :: s[0] <= n) && multiset(s[1..]) == multiset(pool) - multiset{s[0]}
  {
    hide SortAscending;
    var s := SortAscending(pool);
    SortSorts(pool);
    assert |s| == |multiset(s)| == |multiset(pool)| == |pool|;
    assert s == [s[0]] + s[1..];
    assert multiset(s) == multiset{s[0]} + multiset(s[1..]);
    assert s[0] in multiset(s);
    forall n | n in pool ensures s[0] <= n {
      assert n in multiset(pool) && n in multiset(s);
      var i :| 0 <= i < |s| && s[i] == n;
    }
  }

  /** A grant is held by nobody else, and keeps the books exact. It is the smallest number above the base that nobody holds,
      unless a number from before the last initialisation, which the network has used up, was returned. */
  lemma GrantIsSmallestFree(b: Books, caller: Caller)
    requires Exact(b)
    ensures Holders(b.held, Grant(b)) == multiset{} && Exact(AfterGrant(b, caller))
    ensures Holders(AfterGrant(b, caller).held, Grant(b)) == multiset{caller}
    ensures IsSmallestFree(Grant(b), b.base, b.held) <==> Grant(b) > b.base
    ensures Grant(b) > b.base <==> forall n | n in b.pool :: n > b.base
  {
    hide SortAscending;
    var n, a := Grant(b), AfterGrant(b, caller);
    if b.pool != [] { TakeLeast(b.pool); }
    assert Uses(b, n) <= 1;
    assert |Holders(b.held, n)| == 0;
    if n > b.base { BelowIsHeld(b, n); }
    forall k: int ensures Uses(a, k) == if k == n then 1 else Uses(b, k) {
      assert Uses(b, k) <= 1;
    }
  }

  lemma BelowIsHeld(b: Books, n: int)
    requires Exact(b) && n <= b.current + 1 && forall k | k in b.pool :: n <= k
    ensures forall k | b.base < k < n :: Holders(b.held, k) != multiset{}
  {
    forall k | b.base < k < n ensures Holders(b.held, k) != multiset{} {
      assert Uses(b, k) == 1;
      assert k !in b.pool;
    }
  }

  /** The caller holds the number, or it is in the pool already, or it is from before the last initialisation and nobody's. */
  predicate MayRelease(b: Books, caller: Caller, n: int) {
    caller in Holders(b.held, n) || n in b.pool || (n <= b.base && Holders(b.held, n) == multiset{})
  }

  lemma PoolGrows(pool: seq<int>, n: int)
    requires Distinct(pool)
    ensures var p := if n in pool then pool else pool + [n]; Distinct(p) && forall k :: k in p <==> k in pool || k == n
  {
  }

  /** A release keeps the books exact if and only if its caller may return the number. */
  lemma ReleaseKeepsExactIff(b: Books, caller: Caller, n: int)
    requires Exact(b)
    ensures Exact(AfterRelease(b, caller, n)) <==> MayRelease(b, caller, n)
  {
    var a := AfterRelease(b, caller, n);
    PoolGrows(b.pool, n);
    var h := Holders(b.held, n);
    assert Uses(b, n) <= 1;
    assert Holders(a.held, n) == h - multiset{caller};
    OneLess(h, caller);
    assert forall k | k != n :: Uses(a, k) == Uses(b, k);
    assert Uses(a, n) == |h - multiset{caller}| + 1;
    if MayRelease(b, caller, n) {
      assert Uses(a, n) == 1;
    } else {
      assert Uses(a, n) == |h| + 1;
      assert Uses(a, n) > 1 || n > a.current;
    }
  }

  lemma OneLess(h: multiset<Caller>, caller: Caller)
    ensures |h - multiset{caller}| == |h| - if caller in h then 1 else 0
  {
    if caller !in h { assert h - multiset{caller} == h; }
  }

  /** Whoever holds a number, it is not above the account's. */
  predicate NoneHeldAbove(held: map<int, multiset<Caller>>, account: int) {
    forall n | n in held :: n <= account || held[n] == multiset{}
  }

  ghost predicate OneHolder(held: map<int, multiset<Caller>>) {
    forall n: int :: |Holders(held, n)| <= 1
  }

  /** An initialisation keeps the books exact if and only if no number above the account's is held. */
  lemma InitialiseKeepsExactIff(held: map<int, multiset<Caller>>, account: int)
    requires OneHolder(held)
    ensures Exact(Books(account, account, [], held)) <==> NoneHeldAbove(held, account)
  {
    var b := Books(account, account, [], held);
    assert forall n: int :: Uses(b, n) == |Holders(held, n)|;
    if n :| n in held && n > account && held[n] != multiset{} {
      assert Uses(b, n) > 0;
    }
  }

  // ---------------------------------------------------------------------------------------------
  // Runs.

  datatype Step = Initialise(account: int) | Get(caller: Caller) | Release(caller: Caller, nonce: int)

  function Do(b: Books, s: Step): Books {
    match s
    case Initialise(account) => Books(account, account, [], b.held)
    case Get(caller) => AfterGrant(b, caller)
    case Release(caller, n) => AfterRelease(b, caller, n)
  }

  function Run(b: Books, steps: seq<Step>): Books {
    if steps == [] then b else Do(Run(b, steps[..|steps| - 1]), steps[|steps| - 1])
  }

  predicate IsProper(b: Books, s: Step) {
    match s
    case Initialise(account) => NoneHeldAbove(b.held, account)
    case Get(_) => true
    case Release(caller, n) => MayRelease(b, caller, n)
  }

  /** Returns are by those who may, and initialisations find nobody holding a number above the account's. */
  ghost predicate AllProper(b: Books, steps: seq<Step>) {
    forall i | 0 <= i < |steps| :: IsProper(Run(b, steps[..i]), steps[i])
  }

  ghost predicate AlwaysExact(b: Books, steps: seq<Step>) {
    forall i | 0 <= i <= |steps| :: Exact(Run(b, steps[..i]))
  }

  lemma DoKeepsExactIff(b: Books, s: Step)
    requires Exact(b)
    ensures Exact(Do(b, s)) <==> IsProper(b, s)
  {
    match s
    case Initialise(account) =>
      ExactHasOneHolder(b);
      InitialiseKeepsExactIff(b.held, account);
    case Get(caller) => GrantIsSmallestFree(b, caller);
    case Release(caller, n) => ReleaseKeepsExactIff(b, caller, n);
  }

  lemma ExactHasOneHolder(b: Books)
    requires Exact(b)
    ensures OneHolder(b.held)
  {
    forall n: int ensures |Holders(b.held, n)| <= 1 { assert Uses(b, n) <= 1; }
  }

  /** Throughout a run of requests, returns and initialisations, held and pooled numbers are exactly those since the base,
      each once and with one holder, and older ones at most that, if and only if every step was proper. */
  lemma {:induction false} RunIsExactIff(b: Books, steps: seq<Step>)
    requires Exact(b)
    ensures AlwaysExact(b, steps) <==> AllProper(b, steps)
  {
    hide Exact, Do, IsProper, AlwaysExact, AllProper;
    if steps == [] {
      NoStepYet(b);
    } else {
      var n := |steps| - 1;
      RunIsExactIff(b, steps[..n]);
      OneStepMore(b, steps);
      if AlwaysExact(b, steps[..n]) { DoKeepsExactIff(Run(b, steps[..n]), steps[n]); }
    }
  }

  lemma NoStepYet(b: Books)
    requires Exact(b)
    ensures AlwaysExact(b, []) && AllProper(b, [])
  {
    hide Exact;
  }

  lemma OneStepMore(b: Books, steps: seq<Step>)
    requires steps != []
    ensures
      var n := |steps| - 1;
      && (AlwaysExact(b, steps) <==> AlwaysExact(b, steps[..n]) && Exact(Run(b, steps)))
      && (AllProper(b, steps) <==> AllProper(b, steps[..n]) && IsProper(Run(b, steps[..n]), steps[n]))
      && (AlwaysExact(b, steps[..n]) ==> Exact(Run(b, steps[..n])))
  {
    hide Exact, Do, IsProper, Run, AlwaysExact, AllProper;
    StillExact(b, steps);
    StillProper(b, steps);
  }

  lemma StillExact(b: Books, steps: seq<Step>)
    requires steps != []
    ensures AlwaysExact(b, steps) <==> AlwaysExact(b, steps[..|steps| - 1]) && Exact(Run(b, steps))
    ensures AlwaysExact(b, steps[..|steps| - 1]) ==> Exact(Run(b, steps[..|steps| - 1]))
  {
    hide Exact, Do, Run;
    var n := |steps| - 1;
    var before := steps[..n];
    assert steps[..|steps|] == steps && before[..n] == before;
    forall i | 0 <= i <= n ensures before[..i] == steps[..i] {}
    if AlwaysExact(b, steps) {
      forall i | 0 <= i <= n ensures Exact(Run(b, before[..i])) { assert Exact(Run(b, steps[..i])); }
    }
  }

  lemma StillProper(b: Books, steps: seq<Step>)
    requires steps != []
    ensures AllProper(b, steps) <==>
      AllProper(b, steps[..|steps| - 1]) && IsProper(Run(b, steps[..|steps| - 1]), steps[|steps| - 1])
  {
    hide IsProper, Do, Run;
    var n := |steps| - 1;
    var before := steps[..n];
    forall i | 0 <= i < n ensures before[..i] == steps[..i] && before[i] == steps[i] {}
  }

  /** While every step is proper, no number ever has two holders. */
  lemma OneHolderEach(b: Books, steps: seq<Step>, n: int)
    requires Exact(b) && AllProper(b, steps)
    ensures |Holders(Run(b, steps).held, n)| <= 1
  {
    hide Do, AllProper, Exact;
    RunIsExactIff(b, steps);
    assert steps[..|steps|] == steps;
    assert Exact(Run(b, steps));
    ExactHasOneHolder(Run(b, steps));
  }

  function Requests(n: nat): seq<Step> {
    if n == 0 then [] else Requests(n - 1) + [Get(0)]
  }

  /** With an empty pool, requests hand out the next numbers one after the other. */
  lemma {:induction false} RequestsGoOn(b: Books, n: nat)
    requires b.pool == []
    ensures
      var r := Run(b, Requests(n));
      && r.current == b.current + n && r.pool == [] && AllProper(b, Requests(n))
      && forall k: int :: Holders(r.held, k) == Holders(b.held, k) + if b.current < k <= b.current + n then multiset{0} else multiset{}
  {
    hide Holders;
    if n == 0 {
      assert forall k: int :: Holders(b.held, k) == Holders(b.held, k) + multiset{};
    } else {
      RequestsGoOn(b, n - 1);
      var before, steps := Requests(n - 1), Requests(n);
      assert steps[..|steps| - 1] == before;
      assert forall i | 0 <= i <= |before| :: before[..i] == steps[..i];
      NextRequest(b, Run(b, before), n);
    }
  }

  lemma NextRequest(b: Books, r: Books, n: nat)
    requires n > 0 && r.pool == [] && r.current == b.current + n - 1
    requires forall k: int :: Holders(r.held, k) == Holders(b.held, k) + if b.current < k < b.current + n then multiset{0} else multiset{}
    ensures
      var t := Do(r, Get(0));
      && t.current == b.current + n && t.pool == []
      && forall k: int :: Holders(t.held, k) == Holders(b.held, k) + if b.current < k <= b.current + n then multiset{0} else multiset{}
  {
    var t := Do(r, Get(0));
    forall k: int ensures Holders(t.held, k) == Holders(b.held, k) + if b.current < k <= b.current + n then multiset{0} else multiset{} {
      if k == b.current + n {
        assert Holders(r.held, k) == Holders(b.held, k) + multiset{};
      }
    }
  }

  /** Whatever follows, as long as it is proper, no number has two holders. */
  ghost predicate AlwaysOneHolder(b: Books) {
    forall steps | AllProper(b, steps) :: OneHolder(Run(b, steps).held)
  }

  /** An initialisation leaves one holder to each number, in all futures with proper steps, if and only if the account's number
      is at least every number that is still held. */
  lemma InitialiseIsSafeIff(b: Books, account: int)
    requires Exact(b)
    ensures AlwaysOneHolder(Do(b, Initialise(account))) <==> NoneHeldAbove(b.held, account)
  {
    hide Exact, Run, AllProper;
    var r := Do(b, Initialise(account));
    ExactHasOneHolder(b);
    InitialiseKeepsExactIff(b.held, account);
    if NoneHeldAbove(b.held, account) {
      forall steps | AllProper(r, steps) ensures OneHolder(Run(r, steps).held) {
        forall n: int ensures |Holders(Run(r, steps).held, n)| <= 1 { OneHolderEach(r, steps, n); }
      }
    } else {
      var n :| n in b.held && n > account && b.held[n] != multiset{};
      var steps := Requests(n - account);
      RequestsGoOn(r, n - account);
      assert Holders(Run(r, steps).held, n) == b.held[n] + multiset{0};
      assert |b.held[n]| > 0;
    }
  }

  /** The part of the books that concerns one number. */
  predicate Shows(b: Books, current: int, pool: seq<int>, n: int, holders: multiset<Caller>) {
    b.current == current && b.pool == pool && Holders(b.held, n) == holders
  }

  lemma GetNew(b: Books, n: int, holders: multiset<Caller>, caller: Caller)
    requires Shows(b, n - 1, [], n, holders)
    ensures Shows(Do(b, Get(caller)), n, [], n, holders + multiset{caller})
  {
  }

  lemma GetReturned(b: Books, current: int, n: int, holders: multiset<Caller>, caller: Caller)
    requires Shows(b, current, [n], n, holders)
    ensures Shows(Do(b, Get(caller)), current, [], n, holders + multiset{caller})
  {
    assert [n][1..] == [] && SortAscending([n]) == [n];
  }

  lemma ReturnOne(b: Books, current: int, n: int, holders: multiset<Caller>, caller: Caller)
    requires Shows(b, current, [], n, holders)
    ensures Shows(Do(b, Release(caller, n)), current, [n], n, holders - multiset{caller})
  {
    assert [] + [n] == [n];
  }

  lemma NextIsUnheld(b: Books)
    requires Exact(b) && b.pool == []
    ensures Shows(b, b.current, [], b.current + 1, multiset{})
  {
    assert Uses(b, b.current + 1) == 0;
  }

  /** A caller that returns its number twice, the second time after it was handed on, makes the allocator
      hand it out again: two callers hold it then. */
  lemma DoubleReturnDoublesNonce(b: Books, first: Caller, second: Caller, third: Caller)
    requires Exact(b) && b.pool == [] && first != second
    ensures
      var n := b.current + 1;
      var handedOn := Do(Do(Do(b, Get(first)), Release(first, n)), Get(second));
      Shows(Do(Do(handedOn, Release(first, n)), Get(third)), n, [], n, multiset{second, third})
  {
    hide Exact, Do, Shows;
    var n := b.current + 1;
    NextIsUnheld(b);
    assert multiset{} + multiset{first} == multiset{first} && multiset{} + multiset{second} == multiset{second};
    GetNew(b, n, multiset{}, first);
    var b1 := Do(b, Get(first));
    assert multiset{first} - multiset{first} == multiset{};
    ReturnOne(b1, n, n, multiset{first}, first);
    var b2 := Do(b1, Release(first, n));
    GetReturned(b2, n, n, multiset{}, second);
    var b3 := Do(b2, Get(second));
    ReturnOne(b3, n, n, multiset{second}, first);
    assert multiset{second} - multiset{first} == multiset{second};
    assert multiset{second} + multiset{third} == multiset{second, third};
    GetReturned(Do(b3, Release(first, n)), n, n, multiset{second}, third);
  }

  /** Returning the number that comes next makes the allocator hand it out twice in a row. */
  lemma EarlyReturnDoublesNonce(b: Books, stranger: Caller, first: Caller, second: Caller)
    requires Exact(b) && b.pool == []
    ensures
      var n := b.current + 1;
      Shows(Do(Do(Do(b, Release(stranger, n)), Get(first)), Get(second)), n, [], n, multiset{first, second})
  {
    hide Exact, Do, Shows;
    var n := b.current + 1;
    NextIsUnheld(b);
    assert multiset{} - multiset{stranger} == multiset{} && multiset{} + multiset{first} == multiset{first};
    ReturnOne(b, n - 1, n, multiset{}, stranger);
    GetReturned(Do(b, Release(stranger, n)), n - 1, n, multiset{}, first);
    assert multiset{first} + multiset{second} == multiset{first, second};
    GetNew(Do(Do(b, Release(stranger, n)), Get(first)), n, multiset{first}, second);
  }

  // ---------------------------------------------------------------------------------------------

  class NonceManager {
    var currentSequence: Option<int>
    var availableNonces: seq<int>
    var isInitialized: bool
    ghost var base: int
    ghost var held: map<int, multiset<Caller>>

    ghost function State(): Books
      reads this
      requires currentSequence.Some?
    {
      Books(base, currentSequence.value, availableNonces, held)
    }

    constructor ()
      ensures currentSequence == None && availableNonces == [] && !isInitialized
    {
      currentSequence, availableNonces, isInitialized := None, [], false;
      base, held := 0, map[];
    }

    /** `account` is the network's answer, None when it failed or timed out. */
    method Initialize(account: Option<int>) returns (ok: bool)
      modifies this
      ensures ok == account.Some? == isInitialized
      ensures ok ==> currentSequence.Some? && State() == Books(account.value, account.value, [], old(held))
      ensures ok && OneHolder(held) ==> (Exact(State()) <==> NoneHeldAbove(held, account.value))
      ensures !ok ==> currentSequence == old(currentSequence) && availableNonces == old(availableNonces)
      ensures !ok ==> held == old(held) && base == old(base)
    {
      if account.None? {
        isInitialized := false;
        return false;
      }
      currentSequence, availableNonces, isInitialized := account, [], true;
      base := account.value;
      if OneHolder(held) { InitialiseKeepsExactIff(held, account.value); }
      return true;
    }

    /** Hands out a number; on the first call it initialises, and fails when that fails. While the books are
        exact nobody else holds it, and it is the smallest such number above the base or one from before. */
    method GetNonce(ghost caller: Caller, account: Option<int>) returns (nonce: Option<int>)
      modifies this
      ensures nonce.None? <==> old(currentSequence).None? && account.None?
      ensures nonce.None? ==> currentSequence == None && availableNonces == old(availableNonces)
      ensures nonce.Some? ==> currentSequence.Some?
      ensures nonce.Some? ==>
        var start := if old(currentSequence).Some? then old(State()) else Books(account.value, account.value, [], old(held));
        && nonce == Some(Grant(start)) && State() == Do(start, Get(caller))
        && (Exact(start) ==> Exact(State()) && Holders(start.held, nonce.value) == multiset{})
        && (if start.pool == [] then nonce.value == start.current + 1 && currentSequence == nonce && availableNonces == []
            else
              && currentSequence == Some(start.current) && nonce.value in start.pool && (forall n | n in start.pool :: nonce.value <= n)
              && multiset(availableNonces) == multiset(start.pool) - multiset{nonce.value})
        && (Exact(start) && nonce.value > base ==> IsSmallestFree(nonce.value, base, start.held))
    {
      hide SortAscending, Exact, IsSmallestFree, Holders;
      if currentSequence.None? {
        var ok := Initialize(account);
        if !ok { return None; }
      }
      ghost var start := State();
      if Exact(start) { GrantIsSmallestFree(start, caller); }
      held := held[Grant(start) := Holders(held, Grant(start)) + multiset{caller}];
      if |availableNonces| > 0 {
        LeastFirst(availableNonces);
        availableNonces := SortAscending(availableNonces);
        var recovered := availableNonces[0];
        availableNonces := availableNonces[1..];
        return Some(recovered);
      }
      currentSequence := Some(currentSequence.value + 1);
      return currentSequence;
    }

    /** Takes back any number from anyone. The books stay exact if and only if the caller may return it;
        before the first initialisation, which empties the pool, there are no books yet. */
    method ReleaseNonce(ghost caller: Caller, nonce: int)
      modifies this
      ensures currentSequence == old(currentSequence) && isInitialized == old(isInitialized) && base == old(base)
      ensures availableNonces == if nonce in old(availableNonces) then old(availableNonces) else old(availableNonces) + [nonce]
      ensures currentSequence.Some? ==>
        && State() == Do(old(State()), Release(caller, nonce))
        && (old(Exact(State())) ==> (Exact(State()) <==> old(MayRelease(State(), caller, nonce))))
    {
      hide Exact, MayRelease, Holders;
      if currentSequence.Some? && Exact(State()) { ReleaseKeepsExactIff(State(), caller, nonce); }
      held := held[nonce := Holders(held, nonce) - multiset{caller}];
      if nonce !in availableNonces {
        availableNonces := availableNonces + [nonce];
      }
    }
  }
}
