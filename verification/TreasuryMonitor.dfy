/** The treasury monitor: how fast an employer's streams draw on its balance, how long the
    balance lasts, and when that calls for an alert. Amounts and days are real numbers. */
module TreasuryMonitor {

  datatype Option<T> = None | Some(value: T)

  /** Amounts in stroops, the end in seconds. */
  datatype Stream = Stream(total: real, withdrawn: real, end: int)

  const SECONDS_PER_DAY := 86400.0

  function Remaining(s: Stream): real {
    s.total - s.withdrawn
  }

  /** Only unpaid streams that have not ended enter the rate. */
  predicate Counted(s: Stream, now: int) {
    Remaining(s) > 0.0 && s.end > now
  }

  function DaysLeft(s: Stream, now: int): real
    requires s.end > now
  {
    (s.end - now) as real / SECONDS_PER_DAY
  }

  function Rate(s: Stream, now: int): real {
    if Counted(s, now) then Remaining(s) / DaysLeft(s, now) else 0.0
  }

  function Burn(streams: seq<Stream>, now: int): real {
    if streams == [] then 0.0 else Burn(streams[..|streams| - 1], now) + Rate(streams[|streams| - 1], now)
  }

  function Runway(balance: real, burn: real): Option<real> {
    if burn <= 0.0 then None else Some(balance / burn)
  }

  predicate Alert(runway: Option<real>, threshold: real) {
    runway.Some? && runway.value < threshold
  }

  /** What the counted streams still have to pay. */
  function Owed(streams: seq<Stream>, now: int): real {
    if streams == [] then 0.0
    else
      var last := streams[|streams| - 1];
      Owed(streams[..|streams| - 1], now) + if Counted(last, now) then Remaining(last) else 0.0
  }

  /** What one stream pays in the next `days`, paying evenly until its end. */
  function PaidBy(s: Stream, now: int, days: real): real {
    if !Counted(s, now) then 0.0 else if days < DaysLeft(s, now) then Rate(s, now) * days else Remaining(s)
  }

  function Paid(streams: seq<Stream>, now: int, days: real): real {
    if streams == [] then 0.0
    else Paid(streams[..|streams| - 1], now, days) + PaidBy(streams[|streams| - 1], now, days)
  }

  // ---------------------------------------------------------------------------------------------

  lemma DivideThenMultiply(a: real, b: real)
    requires b > 0.0
    ensures (a / b) * b == a
  {
  }

  lemma PositiveRatio(a: real, b: real)
    requires a > 0.0 && b > 0.0
    ensures a / b > 0.0
  {
    DivideThenMultiply(a, b);
  }

  lemma RateIsPositiveIff(s: Stream, now: int)
    ensures Rate(s, now) >= 0.0
    ensures Rate(s, now) > 0.0 <==> Counted(s, now)
    ensures Counted(s, now) ==> DaysLeft(s, now) > 0.0 && Rate(s, now) * DaysLeft(s, now) == Remaining(s)
  {
    if Counted(s, now) {
      PositiveRatio((s.end - now) as real, SECONDS_PER_DAY);
      PositiveRatio(Remaining(s), DaysLeft(s, now));
      DivideThenMultiply(Remaining(s), DaysLeft(s, now));
    }
  }

  /** The burn rate is never negative, and zero exactly when no stream is counted. */
  lemma {:induction false} BurnIsZeroIff(streams: seq<Stream>, now: int)
    ensures Burn(streams, now) >= 0.0
    ensures Burn(streams, now) == 0.0 <==> forall i | 0 <= i < |streams| :: !Counted(streams[i], now)
  {
    if streams != [] {
      var n := |streams| - 1;
      BurnIsZeroIff(streams[..n], now);
      RateIsPositiveIff(streams[n], now);
      assert forall i | 0 <= i < n :: streams[..n][i] == streams[i];
    }
  }

  /** The burn rate of two lists together is the sum of theirs. */
  lemma {:induction false} BurnAdds(a: seq<Stream>, b: seq<Stream>, now: int)
    ensures Burn(a + b, now) == Burn(a, now) + Burn(b, now)
  {
    if b == [] {
      assert a + b == a;
    } else {
      var n := |b| - 1;
      assert (a + b)[..|a + b| - 1] == a + b[..n];
      BurnAdds(a, b[..n], now);
    }
  }

  lemma TimesRate(rate: real, days: real, left: real)
    requires rate >= 0.0
    ensures days <= left ==> rate * days <= rate * left
    ensures rate > 0.0 && days < left ==> rate * days < rate * left
  {
    if days < left {
      assert rate * (left - days) >= 0.0;
      if rate > 0.0 { assert rate * (left - days) > 0.0; }
    }
  }

  lemma PaidByAtMost(s: Stream, now: int, days: real)
    ensures PaidBy(s, now, days) <= Rate(s, now) * days
    ensures PaidBy(s, now, days) == Rate(s, now) * days <==> Counted(s, now) ==> days <= DaysLeft(s, now)
  {
    RateIsPositiveIff(s, now);
    if Counted(s, now) {
      TimesRate(Rate(s, now), DaysLeft(s, now), days);
    }
  }

  ghost predicate AllOutlast(streams: seq<Stream>, now: int, days: real) {
    forall i | 0 <= i < |streams| && Counted(streams[i], now) :: days <= DaysLeft(streams[i], now)
  }

  ghost predicate AllEndWithin(streams: seq<Stream>, now: int, days: real) {
    forall i | 0 <= i < |streams| && Counted(streams[i], now) :: DaysLeft(streams[i], now) <= days
  }

  lemma Distribute(a: real, b: real, c: real)
    ensures (a + b) * c == a * c + b * c
  {
  }

  /** In any time the streams pay at most the burn rate times that time, and exactly that
      if and only if none of them ends before. */
  lemma {:induction false} PaidAtMostBurn(streams: seq<Stream>, now: int, days: real)
    ensures Paid(streams, now, days) <= Burn(streams, now) * days
    ensures Paid(streams, now, days) == Burn(streams, now) * days <==> AllOutlast(streams, now, days)
  {
    hide Rate, PaidBy, DaysLeft, AllOutlast, Remaining;
    if streams == [] {
      assert AllOutlast(streams, now, days) by { NoneOutlasts(now, days); }
    } else {
      var n := |streams| - 1;
      PaidAtMostBurn(streams[..n], now, days);
      PaidByAtMost(streams[n], now, days);
      Distribute(Burn(streams[..n], now), Rate(streams[n], now), days);
      LastOutlasts(streams, now, days);
    }
  }

  lemma NoneOutlasts(now: int, days: real)
    ensures AllOutlast([], now, days)
  {
  }

  lemma LastOutlasts(streams: seq<Stream>, now: int, days: real)
    requires streams != []
    ensures
      var n := |streams| - 1;
      AllOutlast(streams, now, days)
      <==> AllOutlast(streams[..n], now, days) && (Counted(streams[n], now) ==> days <= DaysLeft(streams[n], now))
  {
    var n := |streams| - 1;
    assert forall i | 0 <= i < n :: streams[..n][i] == streams[i];
  }

  /** By the time all counted streams have ended they have paid all they owed. */
  lemma {:induction false} AllIsPaidInTheEnd(streams: seq<Stream>, now: int, days: real)
    requires AllEndWithin(streams, now, days)
    ensures Paid(streams, now, days) == Owed(streams, now)
  {
    if streams != [] {
      var n := |streams| - 1;
      assert forall i | 0 <= i < n :: streams[..n][i] == streams[i];
      AllIsPaidInTheEnd(streams[..n], now, days);
    }
  }

  lemma RunwayTimesBurn(balance: real, burn: real)
    requires burn > 0.0
    ensures Runway(balance, burn) == Some(balance / burn) && burn * Runway(balance, burn).value == balance
  {
    DivideThenMultiply(balance, burn);
  }

  /** The balance pays all streams at every moment up to the runway, and it is used up at the
      runway exactly when no stream ends before it. */
  lemma FundsLastForRunway(streams: seq<Stream>, now: int, balance: real, days: real)
    requires Runway(balance, Burn(streams, now)).Some?
    ensures
      var runway := Runway(balance, Burn(streams, now)).value;
      && (days <= runway ==> Paid(streams, now, days) <= balance)
      && (Paid(streams, now, runway) == balance <==> AllOutlast(streams, now, runway))
  {
    hide Burn, Paid, AllOutlast;
    var burn := Burn(streams, now);
    RunwayTimesBurn(balance, burn);
    var runway := Runway(balance, burn).value;
    PaidAtMostBurn(streams, now, days);
    TimesRate(burn, days, runway);
    PaidAtMostBurn(streams, now, runway);
  }

  /** A time by which a counted stream ends lies ahead. */
  lemma EndsLieAhead(streams: seq<Stream>, now: int, days: real)
    requires Burn(streams, now) > 0.0 && AllEndWithin(streams, now, days)
    ensures days > 0.0
  {
    BurnIsZeroIff(streams, now);
    var i :| 0 <= i < |streams| && Counted(streams[i], now);
    RateIsPositiveIff(streams[i], now);
  }

  /** When the runway reaches past the end of every counted stream, the balance covers all they owe if and only
      if it is not overdrawn; it can be overdrawn then only if no stream is counted. */
  lemma RunwayIsSound(streams: seq<Stream>, now: int, balance: real)
    requires Runway(balance, Burn(streams, now)).Some? ==> AllEndWithin(streams, now, Runway(balance, Burn(streams, now)).value)
    ensures Owed(streams, now) <= balance <==> balance >= 0.0
    ensures balance < 0.0 ==> Burn(streams, now) == 0.0 && Owed(streams, now) == 0.0
  {
    hide Owed, Paid, AllEndWithin;
    var burn := Burn(streams, now);
    BurnIsZeroIff(streams, now);
    if burn > 0.0 {
      RunwayTimesBurn(balance, burn);
      var runway := Runway(balance, burn).value;
      EndsLieAhead(streams, now, runway);
      TimesRate(burn, 0.0, runway);
      FundsLastForRunway(streams, now, balance, runway);
      AllIsPaidInTheEnd(streams, now, runway);
    } else {
      NothingCountedNothingOwed(streams, now);
    }
  }

  lemma {:induction false} NothingCountedNothingOwed(streams: seq<Stream>, now: int)
    requires forall i | 0 <= i < |streams| :: !Counted(streams[i], now)
    ensures Owed(streams, now) == 0.0
  {
    if streams != [] { NothingCountedNothingOwed(streams[..|streams| - 1], now); }
  }

  /** When all counted streams end within the alert threshold and there is no alert, the balance covers
      them if and only if it is not overdrawn. */
  lemma NoAlertMeansCoverIff(streams: seq<Stream>, now: int, balance: real, threshold: real)
    requires AllEndWithin(streams, now, threshold)
    requires !Alert(Runway(balance, Burn(streams, now)), threshold)
    ensures Owed(streams, now) <= balance <==> balance >= 0.0
  {
    RunwayIsSound(streams, now, balance);
  }

  /** An employer that is overdrawn and has no counted stream gets no alert. */
  lemma OverdrawnRaisesNoAlert(threshold: real)
    ensures !Alert(Runway(-500.0, Burn([], 0)), threshold) && Owed([], 0) > -500.0
  {
  }

  /** For streams that all end together the runway decides exactly whether they are covered. */
  lemma CoverIff(streams: seq<Stream>, now: int, balance: real, days: real)
    requires Burn(streams, now) > 0.0
    requires AllEndWithin(streams, now, days) && AllOutlast(streams, now, days)
    ensures Owed(streams, now) <= balance <==> !Alert(Runway(balance, Burn(streams, now)), days)
  {
    hide Burn, Paid, AllOutlast, AllEndWithin, Owed;
    var burn := Burn(streams, now);
    RunwayTimesBurn(balance, burn);
    AllIsPaidInTheEnd(streams, now, days);
    PaidAtMostBurn(streams, now, days);
    TimesRate(burn, Runway(balance, burn).value, days);
    TimesRate(burn, days, Runway(balance, burn).value);
  }

  /** What all streams still have to pay, and the part of it whose time is over. */
  function Outstanding(streams: seq<Stream>): real {
    if streams == [] then 0.0
    else
      var last := streams[|streams| - 1];
      Outstanding(streams[..|streams| - 1]) + if Remaining(last) > 0.0 then Remaining(last) else 0.0
  }

  function Overdue(streams: seq<Stream>, now: int): real {
    if streams == [] then 0.0
    else
      var last := streams[|streams| - 1];
      Overdue(streams[..|streams| - 1], now) + if Remaining(last) > 0.0 && last.end <= now then Remaining(last) else 0.0
  }

  lemma {:induction false} OverdueIsNotCounted(streams: seq<Stream>, now: int)
    ensures Outstanding(streams) == Owed(streams, now) + Overdue(streams, now)
  {
    if streams != [] { OverdueIsNotCounted(streams[..|streams| - 1], now); }
  }

  /** Without an alert, a balance that is not overdrawn covers everything outstanding except what is overdue;
      the overdue part is in no rate, so it can grow by any amount without an alert. */
  lemma NoAlertMissesOverdue(streams: seq<Stream>, now: int, balance: real, threshold: real, missing: real)
    requires AllEndWithin(streams, now, threshold) && missing > 0.0
    requires !Alert(Runway(balance, Burn(streams, now)), threshold)
    ensures Outstanding(streams) - Overdue(streams, now) <= balance <==> balance >= 0.0
    ensures
      var more := streams + [Stream(missing, 0.0, now)];
      !Alert(Runway(balance, Burn(more, now)), threshold) && Outstanding(more) == Outstanding(streams) + missing
  {
    NoAlertMeansCoverIff(streams, now, balance, threshold);
    OverdueIsNotCounted(streams, now);
    var more := streams + [Stream(missing, 0.0, now)];
    assert more[..|more| - 1] == streams;
  }

  /** The monitor looks at the first thousand streams of an employer. */
  const PAGE := 1000

  function Page(streams: seq<Stream>): seq<Stream> {
    if |streams| <= PAGE then streams else streams[..PAGE]
  }

  /** The page's rate is the full rate exactly when no stream behind the page is counted; otherwise it is too low. */
  lemma PageIsCompleteIff(streams: seq<Stream>, now: int)
    ensures Burn(Page(streams), now) <= Burn(streams, now)
    ensures Burn(Page(streams), now) == Burn(streams, now)
            <==> forall i | PAGE <= i < |streams| :: !Counted(streams[i], now)
  {
    if |streams| > PAGE {
      var rest := streams[PAGE..];
      BurnAdds(streams[..PAGE], rest, now);
      assert streams[..PAGE] + rest == streams;
      BurnIsZeroIff(rest, now);
      assert forall i | 0 <= i < |rest| :: rest[i] == streams[PAGE + i];
      assert forall i | PAGE <= i < |streams| :: streams[i] == rest[i - PAGE];
    }
  }

  // ---------------------------------------------------------------------------------------------
  // The monitoring cycle.

  /** `exhaustion` counts days from today; the date arithmetic drops the fraction of a day. */
  datatype Status = Status(employer: string, balance: real, liabilities: real, burn: real, runway: Option<real>,
                           exhaustion: Option<int>, alertSent: bool)

  function Truncate(x: real): int {
    if x >= 0.0 then x.Floor else -((-x).Floor)
  }

  function ExhaustionDay(runway: Option<real>, dayOfMonth: int): Option<int> {
    match runway case None => None case Some(days) => Some(Truncate(dayOfMonth as real + days) - dayOfMonth)
  }

  lemma TruncateIs(x: real)
    requires x >= 0.0
    ensures Truncate(x) as real <= x < (Truncate(x) + 1) as real
  {
  }

  /** On every day up to the one announced the balance still pays all streams, and the day after the
      announced one is past the runway. */
  lemma ExhaustionDayIsCovered(streams: seq<Stream>, now: int, dayOfMonth: int, balance: real, day: int)
    requires balance >= 0.0 && dayOfMonth >= 1 && Burn(streams, now) > 0.0
    ensures
      var runway := Runway(balance, Burn(streams, now));
      var last := ExhaustionDay(runway, dayOfMonth).value;
      && (day <= last ==> Paid(streams, now, day as real) <= balance)
      && runway.value < (last + 1) as real
  {
    hide Paid, Burn, Truncate;
    var burn := Burn(streams, now);
    RunwayTimesBurn(balance, burn);
    TimesRate(burn, Runway(balance, burn).value, 0.0);
    TruncateIs(dayOfMonth as real + Runway(balance, burn).value);
    FundsLastForRunway(streams, now, balance, day as real);
  }

  /** The announced date of an overdrawn employer is never after today. */
  lemma OverdrawnIsExhausted(balance: real, burn: real, dayOfMonth: int)
    requires balance < 0.0 && burn > 0.0 && dayOfMonth >= 1
    ensures ExhaustionDay(Runway(balance, burn), dayOfMonth).value <= 0
  {
    RunwayTimesBurn(balance, burn);
    TimesRate(burn, 0.0, Runway(balance, burn).value);
  }

  /** What the database shows the monitor: amounts by employer, each employer's active streams, and the time. */
  datatype Snapshot = Snapshot(balances: map<string, real>, liabilities: map<string, real>,
                               streams: string -> seq<Stream>, now: int, dayOfMonth: int)

  function AmountOf(amounts: map<string, real>, employer: string): real {
    if employer in amounts then amounts[employer] else 0.0
  }

  /** The status of one employer after a cycle. */
  function StatusOf(employer: string, v: Snapshot): Status {
    var burn := Burn(Page(v.streams(employer)), v.now);
    var balance := AmountOf(v.balances, employer);
    var runway := Runway(balance, burn);
    Status(employer, balance, AmountOf(v.liabilities, employer), burn, runway, ExhaustionDay(runway, v.dayOfMonth), false)
  }

  /** What an employer's streams pay a day: what is left of each unpaid stream that has not ended, over its remaining days. */
  function PayADay(streams: seq<Stream>, now: int): real {
    if streams == [] then 0.0
    else
      var s := streams[0];
      (if s.total > s.withdrawn && s.end > now then (s.total - s.withdrawn) * 86400.0 / (s.end - now) as real else 0.0)
      + PayADay(streams[1..], now)
  }

  lemma OverDays(a: real, b: real)
    requires b > 0.0
    ensures a / (b / 86400.0) == a * 86400.0 / b
  {
    var c := b / 86400.0;
    DivideThenMultiply(b, 86400.0);
    DivideThenMultiply(a, c);
    DivideThenMultiply(a * 86400.0, b);
    Cancel(a / c, a * 86400.0 / b, b);
  }

  lemma Cancel(x: real, y: real, b: real)
    requires b > 0.0 && x * b == y * b
    ensures x == y
  {
    assert (x - y) * b == 0.0;
  }

  lemma RateIsPay(s: Stream, now: int)
    ensures Rate(s, now) == PayADay([s], now)
  {
    assert [s][1..] == [];
    if Counted(s, now) { OverDays(s.total - s.withdrawn, (s.end - now) as real); }
  }

  lemma {:induction false} BurnIsPay(streams: seq<Stream>, now: int)
    ensures Burn(streams, now) == PayADay(streams, now)
  {
    hide Rate;
    if streams != [] {
      BurnAdds([streams[0]], streams[1..], now);
      assert [streams[0]] + streams[1..] == streams && [streams[0]][..0] == [];
      assert Burn([streams[0]], now) == Burn([], now) + Rate(streams[0], now);
      RateIsPay(streams[0], now);
      assert [streams[0]][1..] == [];
      BurnIsPay(streams[1..], now);
    }
  }

  /** The status of an employer, from the amounts in the tables: the runway is the balance over the daily pay of the first
      thousand streams, and the announced day is its whole number of days, towards today when it lies in the past month. */
  ghost predicate IsStatus(s: Status, employer: string, v: Snapshot) {
    var streams := v.streams(employer);
    && s.employer == employer
    && s.balance == (if employer in v.balances then v.balances[employer] else 0.0)
    && s.liabilities == (if employer in v.liabilities then v.liabilities[employer] else 0.0)
    && s.burn == PayADay(if |streams| <= 1000 then streams else streams[..1000], v.now)
    && (s.burn <= 0.0 ==> s.runway.None? && s.exhaustion.None?)
    && (s.burn > 0.0 ==>
         && s.runway.Some? && s.runway.value * s.burn == s.balance && s.exhaustion.Some?
         && var days, day := s.runway.value, s.exhaustion.value as real;
            if v.dayOfMonth as real + days >= 0.0 then day <= days < day + 1.0 else day - 1.0 < days <= day)
  }

  lemma StatusIs(employer: string, v: Snapshot)
    ensures IsStatus(StatusOf(employer, v), employer, v) && !StatusOf(employer, v).alertSent
  {
    hide Burn, PayADay;
    var streams := v.streams(employer);
    BurnIsPay(Page(streams), v.now);
    var burn, balance := Burn(Page(streams), v.now), AmountOf(v.balances, employer);
    if burn > 0.0 { DivideThenMultiply(balance, burn); }
  }

  ghost predicate OneStatusEach(statuses: seq<Status>, employers: set<string>) {
    && (forall i | 0 <= i < |statuses| :: statuses[i].employer in employers)
    && (forall e | e in employers :: exists i | 0 <= i < |statuses| :: statuses[i].employer == e)
    && (forall i, j | 0 <= i < j < |statuses| :: statuses[i].employer != statuses[j].employer)
  }

  ghost predicate AreStatuses(statuses: seq<Status>, v: Snapshot) {
    forall i | 0 <= i < |statuses| :: statuses[i] == StatusOf(statuses[i].employer, v)
  }

  class TreasuryMonitor {
    const threshold: real
    var statuses: seq<Status>
    var alerts: seq<string>

    constructor (threshold: real)
      ensures this.threshold == threshold && statuses == [] && alerts == []
    {
      this.threshold, statuses, alerts := threshold, [], [];
    }

    method CalculateDailyBurnRate(streams: seq<Stream>, now: int) returns (burn: real)
      ensures burn == Burn(streams, now) && burn == PayADay(streams, now)
    {
      BurnIsPay(streams, now);
      burn := 0.0;
      for i := 0 to |streams|
        invariant burn == Burn(streams[..i], now)
      {
        assert streams[..i + 1][..i] == streams[..i];
        var remaining := streams[i].total - streams[i].withdrawn;
        if remaining > 0.0 {
          var seconds := if streams[i].end > now then streams[i].end - now else 0;
          if seconds != 0 {
            PositiveRatio(seconds as real, SECONDS_PER_DAY);
            burn := burn + remaining / (seconds as real / SECONDS_PER_DAY);
          }
        }
      }
      assert streams[..|streams|] == streams;
    }

    method EmployerStatus(employer: string, v: Snapshot) returns (s: Status)
      ensures s == StatusOf(employer, v) && s.employer == employer
    {
      var burn := CalculateDailyBurnRate(Page(v.streams(employer)), v.now);
      var balance := AmountOf(v.balances, employer);
      var runway := Runway(balance, burn);
      s := Status(employer, balance, AmountOf(v.liabilities, employer), burn, runway, ExhaustionDay(runway, v.dayOfMonth), false);
    }

    /** One status for every employer with a balance or liabilities. */
    method ComputeTreasuryStatus(v: Snapshot) returns (found: seq<Status>)
      ensures OneStatusEach(found, v.balances.Keys + v.liabilities.Keys) && AreStatuses(found, v)
      ensures forall i | 0 <= i < |found| :: IsStatus(found[i], found[i].employer, v) && !found[i].alertSent
    {
      hide StatusOf, OneStatusEach, AreStatuses, IsStatus;
      var employers := v.balances.Keys + v.liabilities.Keys;
      var left := employers;
      ghost var done: set<string> := {};
      found := [];
      NoStatusYet(v);
      while left != {}
        invariant left + done == employers && left !! done
        invariant OneStatusEach(found, done) && AreStatuses(found, v)
        decreases |left|
      {
        SomeMember(left);
        var e :| e in left;
        var s := EmployerStatus(e, v);
        OneMoreStatus(found, done, s, v);
        found := found + [s];
        left, done := left - {e}, done + {e};
      }
      assert done == employers;
      AllStatusesAre(found, v);
    }

    /** Every employer whose runway is below the threshold is alerted, nobody else; a status says so
        exactly when the alert was delivered. */
    method RunCycle(v: Snapshot, delivered: string -> bool)
      modifies this
      ensures OneStatusEach(statuses, v.balances.Keys + v.liabilities.Keys)
      ensures forall i | 0 <= i < |statuses| ::
        var s := statuses[i];
        && IsStatus(s, s.employer, v)
        && (s.alertSent <==> s.runway.Some? && s.runway.value < threshold && delivered(s.employer))
      ensures alerts == old(alerts) + Alerted(statuses)
    {
      hide StatusOf, OneStatusEach, Alert, IsStatus, AreStatuses;
      statuses := ComputeTreasuryStatus(v);
      ghost var plain := statuses;
      NoneAlerted(plain);
      for i := 0 to |statuses|
        invariant |statuses| == |plain|
        invariant forall k | 0 <= k < i ::
          statuses[k] == plain[k].(alertSent := Alert(plain[k].runway, threshold) && delivered(plain[k].employer))
        invariant forall k | i <= k < |plain| :: statuses[k] == plain[k]
        invariant alerts == old(alerts) + Alerted(statuses[..i])
      {
        var s := statuses[i];
        ghost var before := statuses[..i];
        if Alert(s.runway, threshold) && delivered(s.employer) {
          statuses := statuses[i := s.(alertSent := true)];
          alerts := alerts + [s.employer];
        }
        assert statuses[..i + 1][..i] == before;
      }
      assert statuses[..|statuses|] == statuses;
      SameEmployers(plain, statuses, v.balances.Keys + v.liabilities.Keys);
      MarkedStatuses(plain, statuses, v, threshold, delivered);
    }
  }

  lemma AllStatusesAre(statuses: seq<Status>, v: Snapshot)
    requires AreStatuses(statuses, v)
    ensures forall i | 0 <= i < |statuses| :: IsStatus(statuses[i], statuses[i].employer, v) && !statuses[i].alertSent
  {
    hide StatusOf, IsStatus;
    forall i | 0 <= i < |statuses| ensures IsStatus(statuses[i], statuses[i].employer, v) && !statuses[i].alertSent {
      StatusIs(statuses[i].employer, v);
    }
  }

  lemma NoStatusYet(v: Snapshot)
    ensures OneStatusEach([], {}) && AreStatuses([], v)
  {
  }

  /** The employers whose status says that an alert was sent. */
  function Alerted(statuses: seq<Status>): seq<string> {
    if statuses == [] then []
    else
      var last := statuses[|statuses| - 1];
      Alerted(statuses[..|statuses| - 1]) + if last.alertSent then [last.employer] else []
  }

  lemma {:induction false} NoneAlerted(statuses: seq<Status>)
    requires forall i | 0 <= i < |statuses| :: !statuses[i].alertSent
    ensures Alerted(statuses) == []
  {
    if statuses != [] { NoneAlerted(statuses[..|statuses| - 1]); }
  }

  lemma MarkedStatuses(plain: seq<Status>, statuses: seq<Status>, v: Snapshot, threshold: real, delivered: string -> bool)
    requires |statuses| == |plain|
    requires forall i | 0 <= i < |plain| :: IsStatus(plain[i], plain[i].employer, v)
    requires forall i | 0 <= i < |plain| ::
      statuses[i] == plain[i].(alertSent := Alert(plain[i].runway, threshold) && delivered(plain[i].employer))
    ensures forall i | 0 <= i < |statuses| ::
      var s := statuses[i];
      && IsStatus(s, s.employer, v)
      && (s.alertSent <==> s.runway.Some? && s.runway.value < threshold && delivered(s.employer))
  {
    hide PayADay;
    forall i | 0 <= i < |statuses| ensures IsStatus(statuses[i], statuses[i].employer, v) {
      assert IsStatus(plain[i], plain[i].employer, v);
    }
  }

  lemma SameEmployers(a: seq<Status>, b: seq<Status>, employers: set<string>)
    requires OneStatusEach(a, employers) && |a| == |b| && forall i | 0 <= i < |a| :: a[i].employer == b[i].employer
    ensures OneStatusEach(b, employers)
  {
    forall e | e in employers ensures exists i | 0 <= i < |b| :: b[i].employer == e {
      var i :| 0 <= i < |a| && a[i].employer == e;
      assert b[i].employer == e;
    }
  }

  lemma SomeMember(names: set<string>)
    requires names != {}
    ensures exists name :: name in names
  {
    if forall name :: name !in names {}
  }

  lemma OneMoreStatus(statuses: seq<Status>, employers: set<string>, s: Status, v: Snapshot)
    requires OneStatusEach(statuses, employers) && s.employer !in employers
    requires AreStatuses(statuses, v) && s == StatusOf(s.employer, v)
    ensures OneStatusEach(statuses + [s], employers + {s.employer}) && AreStatuses(statuses + [s], v)
  {
    var r := statuses + [s];
    forall e | e in employers + {s.employer} ensures exists i | 0 <= i < |r| :: r[i].employer == e {
      if e in employers {
        var i :| 0 <= i < |statuses| && statuses[i].employer == e;
        assert r[i].employer == e;
      } else {
        assert r[|statuses|].employer == e;
      }
    }
  }
}
