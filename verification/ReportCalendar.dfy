/** When payroll reports are sent: date arithmetic on the proleptic Gregorian calendar
    and the daily midnight run that sends what is due. */
module ReportCalendar {

  /** Months count from 0, as the date library counts them. */
  datatype Date = Date(year: int, month: int, day: int)

  predicate Leap(year: int) {
    year % 4 == 0 && (year % 100 != 0 || year % 400 == 0)
  }

  function DaysInMonth(year: int, month: int): int {
    if month == 1 then (if Leap(year) then 29 else 28)
    else if month == 3 || month == 5 || month == 8 || month == 10 then 30 else 31
  }

  predicate Valid(d: Date) {
    0 <= d.month < 12 && 1 <= d.day <= DaysInMonth(d.year, d.month)
  }

  function NextDay(d: Date): Date {
    if d.day < DaysInMonth(d.year, d.month) then d.(day := d.day + 1)
    else if d.month < 11 then Date(d.year, d.month + 1, 1) else Date(d.year + 1, 0, 1)
  }

  function PreviousDay(d: Date): Date {
    if d.day > 1 then d.(day := d.day - 1)
    else if d.month > 0 then Date(d.year, d.month - 1, DaysInMonth(d.year, d.month - 1)) else Date(d.year - 1, 11, 31)
  }

  /** setDate(getDate() + n): day by day over month and year ends. */
  function AddDays(d: Date, n: int): Date
    decreases if n < 0 then -n else n
  {
    if n == 0 then d else if n > 0 then AddDays(NextDay(d), n - 1) else AddDays(PreviousDay(d), n + 1)
  }

  function DaysBeforeYear(year: int): int {
    365 * year + (year - 1) / 4 - (year - 1) / 100 + (year - 1) / 400
  }

  function DaysBeforeMonth(year: int, month: int): int
    requires 0 <= month <= 12
  {
    [0, 31, 59, 90, 120, 151, 181, 212, 243, 273, 304, 334, 365][month] + if month > 1 && Leap(year) then 1 else 0
  }

  /** Days counted from a fixed origin. */
  function DayNumber(d: Date): int
    requires 0 <= d.month < 12
  {
    DaysBeforeYear(d.year) + DaysBeforeMonth(d.year, d.month) + d.day
  }

  /** 0 is Sunday. */
  function Weekday(d: Date): int
    requires 0 <= d.month < 12
  {
    (DayNumber(d) + 6) % 7
  }

  /** 1 January 1970 was a Thursday, 29 February 2000 a Tuesday. */
  lemma KnownWeekdays()
    ensures Weekday(Date(1970, 0, 1)) == 4 && Weekday(Date(2000, 1, 29)) == 2
  {
  }

  lemma Multiples(year: int)
    ensures year / 4 == (year - 1) / 4 + (if year % 4 == 0 then 1 else 0)
    ensures year / 100 == (year - 1) / 100 + (if year % 100 == 0 then 1 else 0)
    ensures year / 400 == (year - 1) / 400 + (if year % 400 == 0 then 1 else 0)
  {
  }

  lemma MultiplesNest(year: int)
    ensures year % 100 == 0 ==> year % 4 == 0
    ensures year % 400 == 0 ==> year % 100 == 0
  {
    if year % 100 == 0 { HundredsAreFours(year / 100); }
    if year % 400 == 0 { FourHundredsAreHundreds(year / 400); }
  }

  lemma HundredsAreFours(k: int)
    ensures (100 * k) % 4 == 0
  {
  }

  lemma FourHundredsAreHundreds(k: int)
    ensures (400 * k) % 100 == 0
  {
  }

  lemma YearLength(year: int)
    ensures DaysBeforeYear(year + 1) == DaysBeforeYear(year) + (if Leap(year) then 366 else 365)
  {
    Multiples(year);
    MultiplesNest(year);
  }

  lemma MonthLengths(year: int, month: int)
    requires 0 <= month < 12
    ensures DaysBeforeMonth(year, month + 1) == DaysBeforeMonth(year, month) + DaysInMonth(year, month)
    ensures DaysBeforeMonth(year, 0) == 0 && DaysBeforeMonth(year, 12) == if Leap(year) then 366 else 365
  {
    hide Leap;
  }

  /** The next day is one day later, and a real date. */
  lemma NextDayIsNext(d: Date)
    requires Valid(d)
    ensures Valid(NextDay(d)) && DayNumber(NextDay(d)) == DayNumber(d) + 1
  {
    hide DaysBeforeYear, DaysBeforeMonth, Leap;
    YearLength(d.year);
    MonthLengths(d.year, d.month);
    MonthLengths(d.year + 1, 0);
  }

  lemma PreviousDayIsPrevious(d: Date)
    requires Valid(d)
    ensures Valid(PreviousDay(d)) && DayNumber(PreviousDay(d)) == DayNumber(d) - 1
  {
    hide DaysBeforeYear, DaysBeforeMonth, Leap;
    YearLength(d.year - 1);
    if d.month > 0 { MonthLengths(d.year, d.month - 1); }
    MonthLengths(d.year, 0);
    MonthLengths(d.year - 1, 11);
  }

  lemma {:induction false} AddDaysAdds(d: Date, n: int)
    requires Valid(d)
    ensures Valid(AddDays(d, n)) && DayNumber(AddDays(d, n)) == DayNumber(d) + n
    decreases if n < 0 then -n else n
  {
    if n > 0 {
      NextDayIsNext(d);
      AddDaysAdds(NextDay(d), n - 1);
    } else if n < 0 {
      PreviousDayIsPrevious(d);
      AddDaysAdds(PreviousDay(d), n + 1);
    }
  }

  function MonthIndex(d: Date): int {
    12 * d.year + d.month
  }

  /** The date constructor with a month that may run past December. */
  function OnMonth(index: int, day: int): Date {
    Date(index / 12, index % 12, day)
  }

  lemma OnMonthHasIndex(index: int, day: int)
    ensures MonthIndex(OnMonth(index, day)) == index && 0 <= OnMonth(index, day).month < 12
    ensures 1 <= day <= 28 ==> Valid(OnMonth(index, day))
  {
  }

  lemma MonthFollows(index: int)
    ensures DayNumber(OnMonth(index + 1, 1))
      == DayNumber(OnMonth(index, 1)) + DaysInMonth(OnMonth(index, 1).year, OnMonth(index, 1).month)
  {
    hide DaysBeforeYear, DaysBeforeMonth, Leap;
    var d := OnMonth(index, 1);
    YearLength(d.year);
    MonthLengths(d.year, d.month);
    MonthLengths(d.year + 1, 0);
    if d.month < 11 {
      assert OnMonth(index + 1, 1) == Date(d.year, d.month + 1, 1);
    } else {
      assert OnMonth(index + 1, 1) == Date(d.year + 1, 0, 1);
    }
  }

  /** Any day of a later month is later. */
  lemma {:induction false} LaterMonthIsLater(d: Date, e: Date)
    requires Valid(d) && Valid(e) && MonthIndex(d) < MonthIndex(e)
    ensures DayNumber(d) < DayNumber(e)
    decreases MonthIndex(e) - MonthIndex(d)
  {
    hide DaysBeforeYear, DaysBeforeMonth, DaysInMonth;
    MonthFollows(MonthIndex(d));
    OnMonthHasIndex(MonthIndex(d), 1);
    var n := OnMonth(MonthIndex(d) + 1, 1);
    OnMonthHasIndex(MonthIndex(d) + 1, 1);
    if MonthIndex(d) + 1 < MonthIndex(e) { LaterMonthIsLater(n, e); }
  }

  // ---------------------------------------------------------------------------------------------

  datatype Option<T> = None | Some(value: T)

  /** Any frequency other than weekly and quarterly is treated as monthly. */
  datatype Frequency = Weekly | Monthly | Quarterly

  /** The remainder operator, whose sign follows the dividend. */
  function Remainder(a: int, b: int): int
    requires b > 0
  {
    if a >= 0 then a % b else -((-a) % b)
  }

  function TargetWeekday(dayOfWeek: Option<int>): int {
    match dayOfWeek case None => 1 case Some(d) => d
  }

  function DaysAhead(target: int, current: int): int {
    var r := Remainder(target - current + 7, 7);
    if r == 0 then 7 else r
  }

  /** The day of the month, clamped to 1..28. */
  function TargetDay(dayOfMonth: Option<int>): int {
    match dayOfMonth
    case None => 1
    case Some(d) => if d < 1 then 1 else if d > 28 then 28 else d
  }

  function NextSendDate(frequency: Frequency, dayOfMonth: Option<int>, dayOfWeek: Option<int>, from: Date): Date
    requires 0 <= from.month < 12
  {
    match frequency
    case Weekly => AddDays(from, DaysAhead(TargetWeekday(dayOfWeek), Weekday(from)))
    case Quarterly => OnMonth(MonthIndex(from) + 3, TargetDay(dayOfMonth))
    case Monthly => OnMonth(MonthIndex(from) + 1, TargetDay(dayOfMonth))
  }

  /** A weekly date always falls on the target weekday, counted modulo 7. It lies 1 to 7 days ahead exactly when
      the target is no more than a week before the current weekday, or the same day; otherwise it lies in the past. */
  lemma WeeklyDateIsOnTarget(dayOfWeek: Option<int>, dayOfMonth: Option<int>, from: Date)
    requires Valid(from)
    ensures
      var next := NextSendDate(Weekly, dayOfMonth, dayOfWeek, from);
      var target := if dayOfWeek.Some? then dayOfWeek.value else 1;
      && Valid(next) && Weekday(next) == target % 7
      && (1 <= DayNumber(next) - DayNumber(from) <= 7 <==> target >= Weekday(from) - 7 || (target - Weekday(from)) % 7 == 0)
      && (DayNumber(next) <= DayNumber(from) <==> !(target >= Weekday(from) - 7 || (target - Weekday(from)) % 7 == 0))
  {
    var target := TargetWeekday(dayOfWeek);
    AddDaysAdds(from, DaysAhead(target, Weekday(from)));
    DaysAheadModSeven(target, Weekday(from), DayNumber(from) + 6);
  }

  lemma DaysAheadModSeven(target: int, current: int, number: int)
    requires current == number % 7
    ensures (number + DaysAhead(target, current)) % 7 == target % 7
    ensures 1 <= DaysAhead(target, current) <= 7 <==> target >= current - 7 || (target - current) % 7 == 0
    ensures DaysAhead(target, current) <= 0 <==> !(target >= current - 7 || (target - current) % 7 == 0)
  {
  }

  /** Monthly and quarterly dates are strictly later, in the month exactly one or three on, on the clamped day. */
  lemma MonthlyDateIsOnTarget(frequency: Frequency, dayOfMonth: Option<int>, dayOfWeek: Option<int>, from: Date)
    requires Valid(from) && frequency != Weekly
    ensures
      var next := NextSendDate(frequency, dayOfMonth, dayOfWeek, from);
      && Valid(next) && next.day == TargetDay(dayOfMonth) && 1 <= next.day <= 28
      && (dayOfMonth.None? ==> next.day == 1)
      && (dayOfMonth.Some? ==>
           && (1 <= dayOfMonth.value <= 28 ==> next.day == dayOfMonth.value)
           && (dayOfMonth.value < 1 ==> next.day == 1) && (dayOfMonth.value > 28 ==> next.day == 28))
      && 12 * next.year + next.month == 12 * from.year + from.month + (if frequency == Quarterly then 3 else 1)
      && DayNumber(next) > DayNumber(from)
  {
    var next := NextSendDate(frequency, dayOfMonth, dayOfWeek, from);
    OnMonthHasIndex(MonthIndex(next), next.day);
    LaterMonthIsLater(from, next);
  }

  // ---------------------------------------------------------------------------------------------
  // The midnight run. A report due on a day at nine is found at the following midnight.

  predicate ValidIfAny(next: Option<Date>) {
    next.Some? ==> Valid(next.value)
  }

  /** A schedule without a stored date is due at once; otherwise nine o'clock of that date is not after midnight of `today`. */
  predicate Due(next: Option<Date>, today: Date)
    requires ValidIfAny(next) && Valid(today)
  {
    next.None? || DayNumber(next.value) < DayNumber(today)
  }

  /** How a night goes for a due report: it is not sent; it is sent but recording that fails; or both work. */
  datatype Night = Undelivered | Unstored | Done

  /** A report that left, counted from the first one planned. */
  datatype Mail = Mail(report: nat, day: Date, stored: bool)

  /** The stored date, all dates stored so far, the days of sends that were recorded, and all mails. */
  datatype Plan = Plan(next: Option<Date>, planned: seq<Date>, sends: seq<Date>, mails: seq<Mail>)

  /** When and on which day a schedule sends. */
  datatype Rhythm = Rhythm(frequency: Frequency, dayOfMonth: Option<int>, dayOfWeek: Option<int>)

  function NextDate(r: Rhythm, from: Date): (d: Date)
    requires Valid(from)
    ensures Valid(d)
  {
    if r.frequency == Weekly then
      AddDaysAdds(from, DaysAhead(TargetWeekday(r.dayOfWeek), Weekday(from)));
      NextSendDate(r.frequency, r.dayOfMonth, r.dayOfWeek, from)
    else
      MonthlyDateIsOnTarget(r.frequency, r.dayOfMonth, r.dayOfWeek, from);
      NextSendDate(r.frequency, r.dayOfMonth, r.dayOfWeek, from)
  }

  /** One midnight: a due report is sent if delivery works, and only one whose sending is recorded moves the stored date. */
  function Midnight(p: Plan, r: Rhythm, today: Date, night: Night): Plan
    requires ValidIfAny(p.next) && Valid(today)
  {
    if night.Undelivered? || !Due(p.next, today) then p
    else
      var mails := p.mails + [Mail(|p.sends|, today, night.Done?)];
      if night.Unstored? then p.(mails := mails)
      else Plan(Some(NextDate(r, today)), p.planned + [NextDate(r, today)], p.sends + [today], mails)
  }

  const MAX_RETRIES := 3

  class ReportScheduler {
    const rhythm: Rhythm
    var nextSendAt: Option<Date>
    ghost var planned: seq<Date>
    var sends: seq<Date>
    ghost var mails: seq<Mail>

    ghost function State(): Plan
      reads this
    {
      Plan(nextSendAt, planned, sends, mails)
    }

    /** A schedule is stored with the date it was given, or else the next one from today. */
    constructor (rhythm: Rhythm, given: Option<Date>, today: Date)
      requires Valid(today) && ValidIfAny(given)
      ensures this.rhythm == rhythm
      ensures var first := if given.Some? then given.value else NextDate(rhythm, today); State() == Plan(Some(first), [first], [], [])
    {
      this.rhythm := rhythm;
      nextSendAt := if given.Some? then given else Some(NextDate(rhythm, today));
      planned, sends, mails := [if given.Some? then given.value else NextDate(rhythm, today)], [], [];
    }

    /** Up to three delivery attempts; `outcomes` says which would succeed. */
    method Deliver(outcomes: nat -> bool) returns (sent: bool, attempts: nat)
      ensures sent <==> outcomes(0) || outcomes(1) || outcomes(2)
      ensures 1 <= attempts <= 3 && (sent ==> outcomes(attempts - 1)) && (!sent ==> attempts == 3)
      ensures 1 <= attempts <= MAX_RETRIES && (sent ==> outcomes(attempts - 1))
      ensures forall k | 0 <= k < attempts - 1 :: !outcomes(k)
    {
      sent, attempts := false, 0;
      while attempts < MAX_RETRIES && !sent
        invariant attempts <= MAX_RETRIES && (sent ==> attempts > 0 && outcomes(attempts - 1))
        invariant forall k | 0 <= k < attempts :: outcomes(k) ==> sent && k == attempts - 1
      {
        sent := outcomes(attempts);
        attempts := attempts + 1;
      }
    }

    /** `stores` is whether recording the outcome and storing the next date work. */
    method RunMidnight(today: Date, outcomes: nat -> bool, stores: bool)
      requires Valid(today) && ValidIfAny(nextSendAt)
      modifies this
      ensures
        var sent := outcomes(0) || outcomes(1) || outcomes(2);
        && State() == Midnight(old(State()), rhythm, today, if !sent then Undelivered else if stores then Done else Unstored)
        && var mailed := sent && (old(nextSendAt).None? || DayNumber(old(nextSendAt).value) < DayNumber(today));
           && |mails| == |old(mails)| + (if mailed then 1 else 0)
           && sends == old(sends) + (if mailed && stores then [today] else [])
           && nextSendAt == if mailed && stores then Some(NextSendDate(rhythm.frequency, rhythm.dayOfMonth, rhythm.dayOfWeek, today))
                            else old(nextSendAt)
    {
      if Due(nextSendAt, today) {
        var sent, attempts := Deliver(outcomes);
        if sent { mails := mails + [Mail(|sends|, today, stores)]; }
        if sent && stores {
          nextSendAt := Some(NextDate(rhythm, today));
          planned := planned + [nextSendAt.value];
          sends := sends + [today];
        }
      }
    }
  }

  /** A schedule created on `day`, after `n` midnights of which `nights` says how they go. */
  function AfterMidnights(r: Rhythm, day: Date, nights: nat -> Night, n: nat): (p: Plan)
    requires Valid(day)
    ensures p.next.Some? && ValidIfAny(p.next)
  {
    if n == 0 then Plan(Some(NextDate(r, day)), [NextDate(r, day)], [], [])
    else
      AddDaysAdds(day, n);
      Midnight(AfterMidnights(r, day, nights, n - 1), r, AddDays(day, n), nights(n))
  }

  /** Weekdays count from 0 or from 1; the routes admit 0 to 6. */
  predicate InRange(r: Rhythm) {
    r.frequency == Weekly ==> 0 <= TargetWeekday(r.dayOfWeek) <= 7
  }

  lemma NextDateIsLater(r: Rhythm, from: Date)
    requires Valid(from) && InRange(r)
    ensures DayNumber(NextDate(r, from)) > DayNumber(from)
    ensures r.frequency != Weekly ==>
      && NextDate(r, from).day == TargetDay(r.dayOfMonth)
      && MonthIndex(NextDate(r, from)) == MonthIndex(from) + StepOf(r)
  {
    hide DayNumber, AddDays, Weekday;
    if r.frequency == Weekly {
      WeeklyDateIsOnTarget(r.dayOfWeek, r.dayOfMonth, from);
      WeekdayIsSmall(from);
    } else {
      MonthlyDateIsOnTarget(r.frequency, r.dayOfMonth, r.dayOfWeek, from);
    }
  }

  lemma WeekdayIsSmall(d: Date)
    requires Valid(d)
    ensures 0 <= Weekday(d) <= 6
  {
  }

  function StepOf(r: Rhythm): int {
    if r.frequency == Quarterly then 3 else 1
  }

  /** Every recorded send is for the date planned last, on the first later midnight that goes well, and plans the next. */
  ghost predicate SendsFollowPlans(p: Plan, r: Rhythm, day: Date, nights: nat -> Night, n: nat)
    requires Valid(day)
  {
    && |p.planned| == |p.sends| + 1 && p.planned[0] == NextDate(r, day) && p.next == Some(p.planned[|p.sends|])
    && (forall i | 0 <= i < |p.planned| :: Valid(p.planned[i]))
    && (forall i | 0 <= i < |p.sends| :: SendFollowsPlan(p, i, r, day, nights, n))
    && NoneWorks(p.planned[|p.sends|], DayNumber(day) + n + 1, day, nights)
  }

  ghost predicate SendFollowsPlan(p: Plan, i: nat, r: Rhythm, day: Date, nights: nat -> Night, n: nat)
    requires Valid(day) && i < |p.sends| && |p.planned| == |p.sends| + 1 && Valid(p.planned[i])
  {
    && Valid(p.sends[i]) && p.planned[i + 1] == NextDate(r, p.sends[i])
    && DayNumber(p.planned[i]) < DayNumber(p.sends[i]) <= DayNumber(day) + n
    && NoneWorks(p.planned[i], DayNumber(p.sends[i]), day, nights)
  }

  /** No midnight after the date and before `end` goes well. */
  ghost predicate NoneWorks(after: Date, end: int, day: Date, nights: nat -> Night)
    requires Valid(after) && Valid(day)
  {
    forall k: nat | k > 0 && DayNumber(after) < DayNumber(day) + k < end :: !nights(k).Done?
  }

  lemma {:induction false} MidnightsFollowPlans(r: Rhythm, day: Date, nights: nat -> Night, n: nat)
    requires Valid(day) && InRange(r)
    ensures SendsFollowPlans(AfterMidnights(r, day, nights, n), r, day, nights, n)
  {
    hide DayNumber, NextDate, AddDays;
    if n == 0 {
      NextDateIsLater(r, day);
    } else {
      MidnightsFollowPlans(r, day, nights, n - 1);
      AddDaysAdds(day, n);
      MidnightFollowsPlan(AfterMidnights(r, day, nights, n - 1), r, day, nights, n, AddDays(day, n));
    }
  }

  lemma MidnightFollowsPlan(p: Plan, r: Rhythm, day: Date, nights: nat -> Night, n: nat, today: Date)
    requires n > 0 && Valid(day) && InRange(r) && SendsFollowPlans(p, r, day, nights, n - 1)
    requires Valid(today) && DayNumber(today) == DayNumber(day) + n
    ensures SendsFollowPlans(Midnight(p, r, today, nights(n)), r, day, nights, n)
  {
    hide DayNumber, NextDate;
    var q := Midnight(p, r, today, nights(n));
    NextDateIsLater(r, today);
    forall i | 0 <= i < |p.sends| ensures SendFollowsPlan(q, i, r, day, nights, n) {
      assert SendFollowsPlan(p, i, r, day, nights, n - 1);
    }
  }

  ghost predicate NoMonthSkipped(p: Plan, step: int) {
    forall i | 0 <= i < |p.planned| - 1 :: MonthIndex(p.planned[i + 1]) == MonthIndex(p.planned[i]) + step
  }

  ghost predicate SentInTheirMonth(p: Plan) {
    forall i | 0 <= i < |p.sends| && i < |p.planned| :: MonthIndex(p.sends[i]) == MonthIndex(p.planned[i])
  }

  /** A monthly or quarterly date stored after a send lies one or three months behind the month of the sending, whenever
      that came; so over a whole run no month is skipped, and none repeated, if and only if every report is sent and
      recorded in the month in which it fell due. */
  lemma NoMonthIsSkippedIff(r: Rhythm, day: Date, nights: nat -> Night, n: nat)
    requires Valid(day) && r.frequency != Weekly
    ensures
      var p := AfterMidnights(r, day, nights, n);
      && |p.planned| == |p.sends| + 1
      && (forall i | 0 <= i < |p.sends| ::
           MonthIndex(p.planned[i + 1]) == MonthIndex(p.sends[i]) + StepOf(r) && MonthIndex(p.planned[i]) <= MonthIndex(p.sends[i]))
      && (NoMonthSkipped(p, StepOf(r)) <==> SentInTheirMonth(p))
  {
    hide DayNumber, NextDate, AfterMidnights, NoneWorks, MonthIndex;
    MidnightsFollowPlans(r, day, nights, n);
    var p := AfterMidnights(r, day, nights, n);
    forall i | 0 <= i < |p.sends| ensures
      MonthIndex(p.planned[i + 1]) == MonthIndex(p.sends[i]) + StepOf(r) && MonthIndex(p.planned[i]) <= MonthIndex(p.sends[i])
    {
      assert SendFollowsPlan(p, i, r, day, nights, n);
      NextDateIsLater(r, p.sends[i]);
      if MonthIndex(p.sends[i]) < MonthIndex(p.planned[i]) { LaterMonthIsLater(p.sends[i], p.planned[i]); }
    }
    if NoMonthSkipped(p, StepOf(r)) {
      forall i | 0 <= i < |p.sends| ensures MonthIndex(p.sends[i]) == MonthIndex(p.planned[i]) {
        assert MonthIndex(p.planned[i + 1]) == MonthIndex(p.planned[i]) + StepOf(r);
      }
    }
  }

  /** Each mail repeats the report of the one before exactly when that one was not recorded. */
  ghost predicate MailsFollow(p: Plan) {
    && (forall i | 0 <= i < |p.mails| - 1 :: p.mails[i + 1].report == p.mails[i].report + if p.mails[i].stored then 1 else 0)
    && (p.mails != [] ==> |p.sends| == p.mails[|p.mails| - 1].report + if p.mails[|p.mails| - 1].stored then 1 else 0)
  }

  /** No report was mailed twice. */
  ghost predicate MailedOnce(p: Plan) {
    forall i, j | 0 <= i < j < |p.mails| :: p.mails[i].report != p.mails[j].report
  }

  lemma {:induction false} MailsKeepFollowing(r: Rhythm, day: Date, nights: nat -> Night, n: nat)
    requires Valid(day)
    ensures MailsFollow(AfterMidnights(r, day, nights, n))
  {
    hide NextDate, DayNumber, AddDays;
    if n > 0 {
      MailsKeepFollowing(r, day, nights, n - 1);
      AddDaysAdds(day, n);
    }
  }

  /** A report was due on the `k`-th night, and its delivery worked. */
  ghost predicate IsMailed(r: Rhythm, day: Date, nights: nat -> Night, k: nat)
    requires Valid(day)
  {
    k > 0 && !nights(k).Undelivered? && Valid(AddDays(day, k)) && Due(AfterMidnights(r, day, nights, k - 1).next, AddDays(day, k))
  }

  /** The mail went out on one of the first `n` nights, which tells whether it was recorded. */
  ghost predicate MailIsOf(m: Mail, r: Rhythm, day: Date, nights: nat -> Night, n: nat)
    requires Valid(day)
  {
    exists k: nat :: k <= n && IsMailed(r, day, nights, k) && m.day == AddDays(day, k) && m.stored == nights(k).Done?
  }

  lemma {:induction false} MailsAreOfNights(r: Rhythm, day: Date, nights: nat -> Night, n: nat)
    requires Valid(day)
    ensures forall m | m in AfterMidnights(r, day, nights, n).mails :: MailIsOf(m, r, day, nights, n)
  {
    hide NextDate, DayNumber, AddDays, Due;
    if n > 0 {
      MailsAreOfNights(r, day, nights, n - 1);
      AddDaysAdds(day, n);
      var before := AfterMidnights(r, day, nights, n - 1);
      forall m | m in AfterMidnights(r, day, nights, n).mails ensures MailIsOf(m, r, day, nights, n) {
        if m in before.mails { assert MailIsOf(m, r, day, nights, n - 1); }
      }
    }
  }

  lemma {:induction false} NightsAreMailed(r: Rhythm, day: Date, nights: nat -> Night, n: nat, k: nat)
    requires Valid(day) && k <= n && IsMailed(r, day, nights, k)
    ensures exists m | m in AfterMidnights(r, day, nights, n).mails :: m.day == AddDays(day, k) && m.stored == nights(k).Done?
  {
    hide NextDate, DayNumber, AddDays, Due;
    AddDaysAdds(day, n);
    var p, before := AfterMidnights(r, day, nights, n), AfterMidnights(r, day, nights, n - 1);
    if k < n {
      NightsAreMailed(r, day, nights, n - 1, k);
      var m :| m in before.mails && m.day == AddDays(day, k) && m.stored == nights(k).Done?;
      assert m in p.mails;
    } else {
      assert p.mails[|before.mails|] in p.mails;
    }
  }

  lemma {:induction false} ReportsGrow(p: Plan, i: nat, j: nat)
    requires MailsFollow(p) && i < j < |p.mails|
    ensures p.mails[i].report + (if p.mails[i].stored then 1 else 0) <= p.mails[j].report
    decreases j
  {
    if i < j - 1 { ReportsGrow(p, i, j - 1); }
  }

  /** Over any run of nights no report is mailed twice if and only if every mail but the last was recorded; the mails are
      those of the nights on which delivery worked for a due report. */
  lemma NoReportTwiceIff(r: Rhythm, day: Date, nights: nat -> Night, n: nat)
    requires Valid(day)
    ensures
      var p := AfterMidnights(r, day, nights, n);
      && (MailedOnce(p) <==> forall i | 0 <= i < |p.mails| - 1 :: p.mails[i].stored)
      && (forall m | m in p.mails :: MailIsOf(m, r, day, nights, n))
      && (forall k | 0 < k <= n && IsMailed(r, day, nights, k) ::
           exists m | m in p.mails :: m.day == AddDays(day, k) && m.stored == nights(k).Done?)
  {
    hide AfterMidnights, MailIsOf, IsMailed;
    MailsKeepFollowing(r, day, nights, n);
    MailsAreOfNights(r, day, nights, n);
    forall k | 0 < k <= n && IsMailed(r, day, nights, k)
      ensures exists m | m in AfterMidnights(r, day, nights, n).mails :: m.day == AddDays(day, k) && m.stored == nights(k).Done?
    {
      NightsAreMailed(r, day, nights, n, k);
    }
    var p := AfterMidnights(r, day, nights, n);
    if forall i | 0 <= i < |p.mails| - 1 :: p.mails[i].stored {
      forall i, j | 0 <= i < j < |p.mails| ensures p.mails[i].report != p.mails[j].report { ReportsGrow(p, i, j); }
    } else {
      var i :| 0 <= i < |p.mails| - 1 && !p.mails[i].stored;
      assert p.mails[i + 1].report == p.mails[i].report;
    }
  }

  /** A report that is sent on the day after it fell due is sent in the same month exactly when
      it did not fall due on the last day of its month. */
  lemma MonthIsSkippedIff(due: Date)
    requires Valid(due)
    ensures MonthIndex(NextDay(due)) == MonthIndex(due) <==> due.day < DaysInMonth(due.year, due.month)
    ensures MonthIndex(NextDay(due)) == MonthIndex(due) + 1 <==> due.day == DaysInMonth(due.year, due.month)
  {
  }

  /** When every night goes well, each report is sent on the day after it fell due. */
  lemma SentTheNextDay(r: Rhythm, day: Date, n: nat, i: nat)
    requires Valid(day) && InRange(r) && i < |AfterMidnights(r, day, (k: nat) => Done, n).sends|
    ensures
      var p := AfterMidnights(r, day, (k: nat) => Done, n);
      |p.planned| == |p.sends| + 1 && Valid(p.planned[i]) && p.sends[i] == NextDay(p.planned[i])
      && DayNumber(p.planned[i]) > DayNumber(day)
  {
    hide DayNumber, NextDate, AfterMidnights, NextDay;
    var nights := (k: nat) => Done;
    MidnightsFollowPlans(r, day, nights, n);
    var p := AfterMidnights(r, day, nights, n);
    assert SendFollowsPlan(p, i, r, day, nights, n);
    if i == 0 {
      NextDateIsLater(r, day);
    } else {
      assert SendFollowsPlan(p, i - 1, r, day, nights, n);
      SentTheNextDay(r, day, n, i - 1);
      NextDateIsLater(r, p.sends[i - 1]);
    }
    var k: nat := DayNumber(p.planned[i]) + 1 - DayNumber(day);
    assert nights(k).Done?;
    NextDayIsNext(p.planned[i]);
    SameDayNumber(p.sends[i], NextDay(p.planned[i]));
  }

  /** With nights that all go well and a day of at most 27, a monthly schedule sends once in each month on the
      day after its target: no month is skipped, none repeated. */
  lemma {:induction false} MonthlySendsAreConsecutive(dayOfMonth: Option<int>, day: Date, n: nat, i: nat)
    requires Valid(day) && TargetDay(dayOfMonth) <= 27
    requires i < |AfterMidnights(Rhythm(Monthly, dayOfMonth, None), day, (k: nat) => Done, n).sends|
    ensures AfterMidnights(Rhythm(Monthly, dayOfMonth, None), day, (k: nat) => Done, n).sends[i]
         == OnMonth(MonthIndex(day) + 1 + i, TargetDay(dayOfMonth) + 1)
  {
    hide DayNumber, NextDate, AfterMidnights;
    var r, nights := Rhythm(Monthly, dayOfMonth, None), (k: nat) => Done;
    var p := AfterMidnights(r, day, nights, n);
    MidnightsFollowPlans(r, day, nights, n);
    SentTheNextDay(r, day, n, i);
    if i == 0 {
      NextDateIsLater(r, day);
    } else {
      MonthlySendsAreConsecutive(dayOfMonth, day, n, i - 1);
      assert SendFollowsPlan(p, i - 1, r, day, nights, n);
      NextDateIsLater(r, p.sends[i - 1]);
    }
    OnMonthHasIndex(MonthIndex(day) + 1 + i, TargetDay(dayOfMonth));
    assert p.planned[i].day == TargetDay(dayOfMonth) && MonthIndex(p.planned[i]) == MonthIndex(day) + 1 + i;
  }

  /** Day 28 is allowed, yet a report due on 28 February 2025 is followed by one due on 28 April. */
  lemma MarchIsSkipped()
    ensures NextSendDate(Monthly, Some(28), None, Date(2025, 0, 20)) == Date(2025, 1, 28)
    ensures NextSendDate(Monthly, Some(28), None, NextDay(Date(2025, 1, 28))) == Date(2025, 3, 28)
  {
  }

  /** Sends of a weekly schedule that is run on the day after it falls due are seven days apart. */
  lemma WeeklySendsKeepTheirDay(dayOfWeek: Option<int>, due: Date, today: Date)
    requires Valid(due) && Valid(today) && DayNumber(today) == DayNumber(due) + 1
    requires 0 <= TargetWeekday(dayOfWeek) <= 7 && Weekday(due) == TargetWeekday(dayOfWeek) % 7
    ensures
      var next := NextSendDate(Weekly, None, dayOfWeek, today);
      Valid(next) && DayNumber(next) == DayNumber(due) + 7
  {
    hide DayNumber, AddDays, DaysAhead;
    var target := TargetWeekday(dayOfWeek);
    AddDaysAdds(today, DaysAhead(target, Weekday(today)));
    SixDaysAhead(target, DayNumber(due) + 6);
  }

  lemma SixDaysAhead(target: int, number: int)
    requires 0 <= target <= 7 && number % 7 == target % 7
    ensures DaysAhead(target, (number + 1) % 7) == 6
  {
  }

  lemma SameDayNumber(d: Date, e: Date)
    requires Valid(d) && Valid(e) && DayNumber(d) == DayNumber(e)
    ensures d == e
  {
    hide DaysBeforeYear, DaysBeforeMonth;
    if MonthIndex(d) < MonthIndex(e) { LaterMonthIsLater(d, e); }
    if MonthIndex(e) < MonthIndex(d) { LaterMonthIsLater(e, d); }
    assert d.year == e.year && d.month == e.month;
  }
}
