/** The civil calendar, and the instants at which a disabled key comes back. Day 0 is 1 January of year 1. */
module Calendar {
  import opened Base
  import opened Policy

  const DAY: int := 86_400 * SECOND

  predicate IsLeap(year: int) {
    year % 4 == 0 && (year % 100 != 0 || year % 400 == 0)
  }

  /** Months are counted from January of year 1. */
  function DaysIn(month: nat): (days: nat)
    ensures 28 <= days <= 31
  {
    var m := month % 12;
    if m == 1 then (if IsLeap(1 + month / 12) then 29 else 28)
    else if m == 3 || m == 5 || m == 8 || m == 10 then 30
    else 31
  }

  function MonthStart(month: nat): nat {
    if month == 0 then 0 else MonthStart(month - 1) + DaysIn(month - 1)
  }

  /** The month a day falls in, searched from a month that starts no later. */
  function MonthFrom(month: nat, day: nat): (m: nat)
    requires MonthStart(month) <= day
    ensures MonthStart(m) <= day < MonthStart(m + 1)
    decreases day - MonthStart(month)
  {
    if day < MonthStart(month + 1) then month else MonthFrom(month + 1, day)
  }

  function MonthOf(day: nat): nat {
    MonthFrom(0, day)
  }

  function DayOfMonth(day: nat): int {
    day - MonthStart(MonthOf(day)) + 1
  }

  /** `time.Date`: a day beyond the end of the month runs on into the next one. */
  function Date(month: nat, dayOfMonth: nat): nat
    requires dayOfMonth >= 1
  {
    MonthStart(month) + dayOfMonth - 1
  }

  function AddMonths(day: nat, months: nat): nat {
    Date(MonthOf(day) + months, DayOfMonth(day))
  }

  function Today(now: nat): nat {
    now / DAY
  }

  function Midnight(day: nat): nat {
    day * DAY
  }

  /** The next midnight, UTC, with that day of the month - unless the month is too short. */
  function FallbackReset(now: nat, resetDay: nat): nat
    requires 1 <= resetDay <= 31
  {
    var t := Date(MonthOf(Today(now)), resetDay);
    if !(Midnight(t) > now) then Midnight(AddMonths(t, 1)) else Midnight(t)
  }

  /** The same date a year later, at the same time of day. */
  function AddYear(now: nat): nat {
    Midnight(AddMonths(Today(now), 12)) + now % DAY
  }

  // ---- Calendar facts ----

  lemma {:induction false} MonthStartsGrow(a: nat, b: nat)
    requires a <= b
    ensures MonthStart(a) + 28 * (b - a) <= MonthStart(b) <= MonthStart(a) + 31 * (b - a)
    decreases b
  {
    if a < b {
      MonthStartsGrow(a, b - 1);
    }
  }

  lemma MonthIsUnique(day: nat, month: nat)
    requires MonthStart(month) <= day < MonthStart(month + 1)
    ensures MonthOf(day) == month
  {
    var m := MonthOf(day);
    if m < month {
      MonthStartsGrow(m + 1, month);
    } else if month < m {
      MonthStartsGrow(month + 1, m);
    }
  }

  function LeapDay(year: int): int {
    if IsLeap(year) then 1 else 0
  }

  lemma DaysAYearApart(month: nat)
    ensures DaysIn(month + 12) - DaysIn(month) ==
            if month % 12 == 1 then LeapDay(2 + month / 12) - LeapDay(1 + month / 12) else 0
  {
    assert (month + 12) % 12 == month % 12 && (month + 12) / 12 == month / 12 + 1;
  }

  /** The year of the first February in the twelve months from `month` on. */
  function FebruaryFrom(month: nat): int {
    1 + month / 12 + if month % 12 <= 1 then 0 else 1
  }

  lemma FebruaryMoves(month: nat)
    ensures FebruaryFrom(month + 1) == FebruaryFrom(month) + if month % 12 == 1 then 1 else 0
    ensures month % 12 == 1 ==> FebruaryFrom(month) == 1 + month / 12
  {}

  lemma {:induction false} YearLength(month: nat)
    ensures MonthStart(month + 12) - MonthStart(month) == 365 + LeapDay(FebruaryFrom(month))
  {
    if month == 0 {
      FirstYear();
    } else {
      YearLength(month - 1);
      DaysAYearApart(month - 1);
      FebruaryMoves(month - 1);
    }
  }

  lemma FirstYear()
    ensures MonthStart(12) == 365
  {
    assert MonthStart(6) == 181;
  }

  /** The days before month `m` of a common year. */
  const DAYS_BEFORE: seq<int> := [0, 31, 59, 90, 120, 151, 181, 212, 243, 273, 304, 334]

  /** The leap days of the first `years` years. */
  function LeapDays(years: nat): int {
    years / 4 - years / 100 + years / 400
  }

  lemma LeapDaysGrow(year: nat)
    requires year > 0
    ensures LeapDays(year) == LeapDays(year - 1) + LeapDay(year)
  {
    FourthsGrow(year);
    HundredthsGrow(year);
    FourHundredthsGrow(year);
    CenturiesAreFourths(year);
    FourHundredthsAreCenturies(year);
  }

  lemma FourthsGrow(year: nat)
    requires year > 0
    ensures year / 4 == (year - 1) / 4 + if year % 4 == 0 then 1 else 0
  {}

  lemma HundredthsGrow(year: nat)
    requires year > 0
    ensures year / 100 == (year - 1) / 100 + if year % 100 == 0 then 1 else 0
  {}

  lemma FourHundredthsGrow(year: nat)
    requires year > 0
    ensures year / 400 == (year - 1) / 400 + if year % 400 == 0 then 1 else 0
  {}

  /** A year divisible by 100 is divisible by 4, and one divisible by 400 by 100. */
  lemma CenturiesAreFourths(year: nat)
    ensures year % 100 == 0 ==> year % 4 == 0
  {
    var q := year / 100;
    assert year == 100 * q + year % 100;
    if year % 100 == 0 {
      var m := 25 * q;
      assert year == 4 * m;
    }
  }

  lemma FourHundredthsAreCenturies(year: nat)
    ensures year % 400 == 0 ==> year % 100 == 0
  {
    var q := year / 400;
    assert year == 400 * q + year % 400;
    if year % 400 == 0 {
      var m := 4 * q;
      assert year == 100 * m;
    }
  }

  /** A year starts 365 days after the one before, and a day later after a leap year. */
  lemma {:induction false} YearStart(years: nat)
    ensures MonthStart(12 * years) == 365 * years + LeapDays(years)
  {
    if years > 0 {
      YearStart(years - 1);
      YearLength(12 * (years - 1));
      LeapDaysGrow(years);
      assert 12 * (years - 1) + 12 == 12 * years;
      assert 12 * (years - 1) % 12 == 0 && 12 * (years - 1) / 12 == years - 1;
    }
  }

  /** The Gregorian calendar in closed form: every date is its year's start, its month's days, and its day. */
  lemma {:induction false} DateIsGregorian(years: nat, m: nat, dayOfMonth: nat)
    requires m < 12 && dayOfMonth >= 1
    ensures Date(12 * years + m, dayOfMonth) ==
            365 * years + years / 4 - years / 100 + years / 400
            + DAYS_BEFORE[m] + (if m >= 2 then LeapDay(years + 1) else 0) + dayOfMonth - 1
    decreases m
  {
    if m == 0 {
      YearStart(years);
    } else {
      DateIsGregorian(years, m - 1, dayOfMonth);
      assert (12 * years + m - 1) % 12 == m - 1 && (12 * years + m - 1) / 12 == years;
    }
  }

  // ---- The fallback reset ----

  /** The month the reset is aimed at: this one, or the next if the day has come. */
  function TargetMonth(today: nat, resetDay: nat): nat
    requires 1 <= resetDay <= 31
  {
    if Date(MonthOf(today), resetDay) > today then MonthOf(today) else MonthOf(today) + 1
  }

  function FallbackDay(now: nat, resetDay: nat): nat
    requires 1 <= resetDay <= 31
  {
    Date(TargetMonth(Today(now), resetDay), resetDay)
  }

  lemma MidnightsGrow(a: nat, b: nat)
    requires a <= b
    ensures Midnight(a) <= Midnight(b)
  {}

  lemma MidnightAfter(now: nat, day: nat)
    ensures Midnight(day) > now <==> day > Today(now)
    ensures day <= Today(now) + 31 ==> Midnight(day) <= now + 31 * DAY
  {
    if day <= Today(now) {
      assert Midnight(day) <= Midnight(Today(now)) <= now;
    } else {
      assert Midnight(day) >= Midnight(Today(now) + 1) > now;
    }
  }

  /** The reset is the midnight of the reset day counted from the start of the month it is aimed at. */
  lemma FallbackIsDate(now: nat, resetDay: nat)
    requires 1 <= resetDay <= 31
    ensures FallbackReset(now, resetDay) == Midnight(FallbackDay(now, resetDay))
  {
    var month := MonthOf(Today(now));
    var t := Date(month, resetDay);
    MidnightAfter(now, t);
    if t <= Today(now) {
      MonthIsUnique(t, month);
    }
  }

  /** For every instant and reset day: strictly later, and by at most 31 days. */
  lemma FallbackResetBound(now: nat, resetDay: nat)
    requires 1 <= resetDay <= 31
    ensures now < FallbackReset(now, resetDay) <= now + 31 * DAY
  {
    FallbackIsDate(now, resetDay);
    MidnightAfter(now, FallbackDay(now, resetDay));
  }

  lemma TargetHitsResetDay(today: nat, resetDay: nat)
    requires 1 <= resetDay <= 31
    ensures DayOfMonth(Date(TargetMonth(today, resetDay), resetDay)) == resetDay <==>
            resetDay <= DaysIn(TargetMonth(today, resetDay))
  {
    var target := TargetMonth(today, resetDay);
    var reset := Date(target, resetDay);
    if resetDay <= DaysIn(target) {
      MonthIsUnique(reset, target);
    } else {
      assert DaysIn(target + 1) >= 28;
      MonthIsUnique(reset, target + 1);
    }
  }

  lemma TargetIsEarliest(today: nat, resetDay: nat, day: nat)
    requires 1 <= resetDay <= 31
    requires day > today && DayOfMonth(day) == resetDay
    ensures Date(TargetMonth(today, resetDay), resetDay) <= day
  {
    var month, m := MonthOf(today), MonthOf(day);
    if m < month {
      MonthStartsGrow(m + 1, month);
    } else {
      MonthStartsGrow(TargetMonth(today, resetDay), m);
    }
  }

  /** `t` is the next occurrence of the reset day: the earliest midnight after `now` that falls on it. */
  ghost predicate IsNextReset(now: nat, resetDay: nat, t: nat) {
    && (exists day :: IsResetAfter(now, resetDay, day) && t == Midnight(day))
    && (forall day :: IsResetAfter(now, resetDay, day) ==> t <= Midnight(day))
  }

  ghost predicate IsResetAfter(now: nat, resetDay: nat, day: nat) {
    Midnight(day) > now && DayOfMonth(day) == resetDay
  }

  /** The fallback is the next occurrence of the reset day exactly when the month it is aimed at has that day. */
  lemma FallbackIsNextExactly(now: nat, resetDay: nat)
    requires 1 <= resetDay <= 31
    ensures IsNextReset(now, resetDay, FallbackReset(now, resetDay)) <==>
            resetDay <= DaysIn(TargetMonth(Today(now), resetDay))
  {
    var reset := FallbackDay(now, resetDay);
    FallbackIsDate(now, resetDay);
    FallbackResetBound(now, resetDay);
    TargetHitsResetDay(Today(now), resetDay);
    if resetDay <= DaysIn(TargetMonth(Today(now), resetDay)) {
      assert IsResetAfter(now, resetDay, reset);
      forall day | IsResetAfter(now, resetDay, day)
        ensures Midnight(reset) <= Midnight(day)
      {
        MidnightAfter(now, day);
        TargetIsEarliest(Today(now), resetDay, day);
        MidnightsGrow(reset, day);
      }
    }
  }

  /** Up to day 28 every month has the day, so it always is. */
  lemma FallbackResetIsEarliest(now: nat, resetDay: nat)
    requires 1 <= resetDay <= 28
    ensures IsNextReset(now, resetDay, FallbackReset(now, resetDay))
  {
    FallbackIsNextExactly(now, resetDay);
  }

  /** On 31 January, reset day 31 leads to 3 March. */
  lemma ResetDay31RollsOver()
    ensures FallbackReset(Midnight(30), 31) == Midnight(Date(2, 3)) && DayOfMonth(Date(2, 3)) == 3
    ensures !IsNextReset(Midnight(30), 31, FallbackReset(Midnight(30), 31))
  {
    assert MonthStart(1) == 31 && MonthStart(2) == 59;
    MonthIsUnique(30, 0);
    assert Today(Midnight(30)) == 30;
    FallbackIsDate(Midnight(30), 31);
    MonthIsUnique(Date(2, 3), 2);
    FallbackIsNextExactly(Midnight(30), 31);
  }

  // ---- The instant stored with a disabled key ----

  /** What a provider's usage endpoint reported. */
  datatype Usage = Usage(remaining: int64, periodEnd: Option<nat>, ok: bool)

  predicate HasPeriodEnd(p: Provider) {
    p == Firecrawl || p == Apify
  }

  /** The period end when the provider reports one within the year, the fallback otherwise. */
  function ResetInstant(p: Provider, now: nat, resetDay: nat, usage: Usage): nat
    requires 1 <= resetDay <= 31
  {
    if HasPeriodEnd(p) && usage.ok && usage.periodEnd.Some?
       && !(usage.periodEnd.value < now) && !(usage.periodEnd.value > AddYear(now))
    then usage.periodEnd.value
    else FallbackReset(now, resetDay)
  }

  /** A year later is 365 days later, or 366 when a leap day lies between. */
  lemma AddYearIsAYear(now: nat)
    ensures AddYear(now) == now + (365 + LeapDay(FebruaryFrom(MonthOf(Today(now))))) * DAY
  {
    YearLength(MonthOf(Today(now)));
  }

  /** Whatever the provider reports, a disabled key's instant lies between now and a year from now. */
  lemma ResetInstantBound(p: Provider, now: nat, resetDay: nat, usage: Usage)
    requires 1 <= resetDay <= 31
    ensures now <= ResetInstant(p, now, resetDay, usage) <= AddYear(now) <= now + 366 * DAY
  {
    FallbackResetBound(now, resetDay);
    AddYearIsAYear(now);
  }

  /** Firecrawl and apify report when their billing period ends: that instant is taken exactly when the fetch succeeds
      and it lies within the year. In every other case, and for every other provider, it is the fallback. */
  lemma ReportedEndIsTaken(p: Provider, now: nat, resetDay: nat, usage: Usage)
    requires 1 <= resetDay <= 31
    ensures ResetInstant(p, now, resetDay, usage) ==
            if p !in {Tavily, Exa, Fmp, AlphaVantage, Marketaux} && usage.ok && usage.periodEnd.Some?
               && now <= usage.periodEnd.value
               && usage.periodEnd.value <= now + (365 + LeapDay(FebruaryFrom(MonthOf(Today(now))))) * 86_400 * SECOND
            then usage.periodEnd.value
            else FallbackReset(now, resetDay)
  {
    AddYearIsAYear(now);
  }
}
