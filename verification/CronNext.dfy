/** Expr.Next (internal/cron/cron.go): the search for the next fire time. */
module CronNext {
  import opened Wrappers
  import opened CronField
  import opened Calendar

  // An instant is a number of nanoseconds since 1 January of year 1, UTC; a fire
  // time is a whole minute, given by its number.  The zone is a fixed offset of
  // whole minutes.

  const MINUTE := 60_000_000_000
  const WINDOW := 366 * 1440 * MINUTE

  /** The expression matches a day and a minute of that day. */
  predicate FiresAt(e: Expr, day: int, clock: int)
  {
    var date := Civil(day);
    && date.month in e.months && date.day in e.doms && Weekday(day) in e.dows
    && clock / 60 in e.hours && clock % 60 in e.minutes
  }

  /** The expression matches the wall clock of minute `m`. */
  predicate Fires(e: Expr, zone: int, m: int)
  {
    FiresAt(e, (m + zone) / 1440, (m + zone) % 1440)
  }

  /** After `from` and before the search gives up. */
  predicate InWindow(from: int, m: int) { from < m * MINUTE < from + WINDOW }

  /** The first matching minute from `m` on. */
  function Search(e: Expr, zone: int, m: int, limit: int): Option<int>
    decreases limit - m * MINUTE
  {
    if m * MINUTE >= limit then None
    else if Fires(e, zone, m) then Some(m)
    else Search(e, zone, m + 1, limit)
  }

  function FirstMinuteAfter(from: int): int { from / MINUTE + 1 }

  function NextFire(e: Expr, zone: int, from: int): Option<int>
  {
    Search(e, zone, FirstMinuteAfter(from), from + WINDOW)
  }

  lemma {:induction false} SearchIsFirst(e: Expr, zone: int, m: int, limit: int)
    ensures var r := Search(e, zone, m, limit);
            && (r.Some? ==> m <= r.value && r.value * MINUTE < limit && Fires(e, zone, r.value))
            && (forall k :: m <= k && k * MINUTE < limit && (r.Some? ==> k < r.value) ==> !Fires(e, zone, k))
    decreases limit - m * MINUTE
  {
    if m * MINUTE < limit && !Fires(e, zone, m) {
      SearchIsFirst(e, zone, m + 1, limit);
    }
  }

  /** Next is the least matching whole minute after `from` within 366 days, and
      nothing iff there is none. */
  lemma NextIsLeast(e: Expr, zone: int, from: int)
    ensures var r := NextFire(e, zone, from);
            && (r.Some? ==> InWindow(from, r.value) && Fires(e, zone, r.value)
                            && forall k :: InWindow(from, k) && Fires(e, zone, k) ==> r.value <= k)
            && (r.None? <==> forall k :: InWindow(from, k) ==> !Fires(e, zone, k))
  {
    SearchIsFirst(e, zone, FirstMinuteAfter(from), from + WINDOW);
    forall k ensures from < k * MINUTE <==> FirstMinuteAfter(from) <= k {}
  }

  /** The loop. */
  method Next(e: Expr, zone: int, from: int) returns (r: Option<int>)
    ensures r == NextFire(e, zone, from)
  {
    var t := FirstMinuteAfter(from);
    var limit := from + WINDOW;
    while t * MINUTE < limit
      invariant NextFire(e, zone, from) == Search(e, zone, t, limit)
      decreases limit - t * MINUTE
    {
      if Fires(e, zone, t) {
        return Some(t);
      }
      t := t + 1;
    }
    r := None;
  }

  // ------------------------------------------------------- never nothing

  predicate EveryWeekday(e: Expr) { forall d :: 0 <= d < 7 ==> d in e.dows }

  /** A date and a time of day, in whatever year. */
  datatype Moment = Moment(month: int, day: int, hour: int, minute: int)

  /** The expression names a moment that some years have; 29 February counts. */
  predicate Names(e: Expr, w: Moment)
  {
    && 1 <= w.month <= 12 && 1 <= w.day <= MonthLength(4, w.month) && 0 <= w.hour < 24 && 0 <= w.minute < 60
    && w.month in e.months && w.day in e.doms && w.hour in e.hours && w.minute in e.minutes
  }

  /** Every year has it. */
  predicate Annual(w: Moment) { EveryYear(w.month, w.day) }

  /** The minute of a moment of a year. */
  function MinuteOf(zone: int, w: Moment, y: int): int
    requires IsDate(Date(y, w.month, w.day))
  {
    DayNumber(Date(y, w.month, w.day)) * 1440 + w.hour * 60 + w.minute - zone
  }

  /** The wall clock of a minute. */
  function MomentAt(zone: int, m: int): Moment
  {
    var d, clock := Civil((m + zone) / 1440), (m + zone) % 1440;
    Moment(d.month, d.day, clock / 60, clock % 60)
  }

  function YearAt(zone: int, m: int): int { Civil((m + zone) / 1440).year }

  lemma ClockParts(n: int, hour: int, minute: int)
    requires 0 <= hour < 24 && 0 <= minute < 60
    ensures var t := n * 1440 + hour * 60 + minute;
            t / 1440 == n && t % 1440 == hour * 60 + minute && t % 1440 / 60 == hour && t % 1440 % 60 == minute
  {
  }

  /** An expression fires on a date and time of day iff it names the month, the day,
      the weekday, the hour and the minute. */
  lemma FiresOnDate(e: Expr, zone: int, d: Date, hour: int, minute: int)
    requires IsDate(d) && 0 <= hour < 24 && 0 <= minute < 60
    ensures Fires(e, zone, DayNumber(d) * 1440 + hour * 60 + minute - zone) <==>
            && d.month in e.months && d.day in e.doms && Weekday(DayNumber(d)) in e.dows
            && hour in e.hours && minute in e.minutes
  {
    ClockParts(DayNumber(d), hour, minute);
    CivilOfDayNumber(d);
  }

  /** The minute of a moment, taken apart again, */
  lemma MomentOfMinute(e: Expr, zone: int, w: Moment, y: int)
    requires Names(e, w) && IsDate(Date(y, w.month, w.day))
    ensures MomentAt(zone, MinuteOf(zone, w, y)) == w && YearAt(zone, MinuteOf(zone, w, y)) == y
  {
    ClockParts(DayNumber(Date(y, w.month, w.day)), w.hour, w.minute);
    CivilOfDayNumber(Date(y, w.month, w.day));
  }

  /** and put together again. */
  lemma MinuteOfMoment(zone: int, m: int)
    ensures var w, y := MomentAt(zone, m), YearAt(zone, m);
            IsDate(Date(y, w.month, w.day)) && MinuteOf(zone, w, y) == m
            && 1 <= w.day <= MonthLength(4, w.month) && 0 <= w.hour < 24 && 0 <= w.minute < 60
  {
    var d, clock := Civil((m + zone) / 1440), (m + zone) % 1440;
    assert Date(d.year, d.month, d.day) == d;
    assert clock == clock / 60 * 60 + clock % 60;
  }

  /** With every weekday allowed, the minutes that fire are those of the moments named. */
  lemma FiresIffNamed(e: Expr, zone: int, m: int)
    requires EveryWeekday(e)
    ensures Fires(e, zone, m) <==> Names(e, MomentAt(zone, m))
  {
    MinuteOfMoment(zone, m);
  }

  lemma FiresOnNamed(e: Expr, zone: int, w: Moment, y: int)
    requires EveryWeekday(e) && Names(e, w) && IsDate(Date(y, w.month, w.day))
    ensures Fires(e, zone, MinuteOf(zone, w, y))
  {
    MomentOfMinute(e, zone, w, y);
    FiresIffNamed(e, zone, MinuteOf(zone, w, y));
  }

  /** An annual moment comes round within any 366 days' worth of minutes. */
  lemma AnnualWithin366Days(zone: int, w: Moment, first: int) returns (y: int)
    requires Annual(w) && 0 <= w.hour < 24 && 0 <= w.minute < 60
    ensures IsDate(Date(y, w.month, w.day)) && first <= MinuteOf(zone, w, y) < first + 366 * 1440
  {
    var today, clock := (first + zone) / 1440, (first + zone) % 1440;
    var n := if w.hour * 60 + w.minute >= clock then today else today + 1;
    y := AnniversaryWithin366(w.month, w.day, n);
  }

  lemma FoundIfFires(e: Expr, zone: int, from: int, m: int)
    requires InWindow(from, m) && Fires(e, zone, m)
    ensures NextFire(e, zone, from).Some?
  {
    NextIsLeast(e, zone, from);
  }

  /** The first whole minute from an instant on, and 366 days' worth of minutes. */
  lemma WindowFromMinute(from: int, first: int, m: int)
    requires first == if from % MINUTE != 0 then from / MINUTE + 1 else from / MINUTE
    requires first <= m < first + 366 * 1440
    ensures InWindow(from, m) || (from % MINUTE == 0 && m == from / MINUTE)
  {
  }

  /** With every weekday allowed and an annual moment named, an instant that is not
      exactly on a minute always has a next fire time.  Exactly on a minute it has
      one too, unless that minute itself matches. */
  lemma NeverNothing(e: Expr, zone: int, from: int, w: Moment)
    requires EveryWeekday(e) && Names(e, w) && Annual(w)
    requires from % MINUTE != 0 || !Fires(e, zone, from / MINUTE)
    ensures NextFire(e, zone, from).Some?
  {
    var first := if from % MINUTE != 0 then from / MINUTE + 1 else from / MINUTE;
    var y := AnnualWithin366Days(zone, w, first);
    var m := MinuteOf(zone, w, y);
    FiresOnNamed(e, zone, w, y);
    WindowFromMinute(from, first, m);
    FoundIfFires(e, zone, from, m);
  }

  // ------------------------------------- the instants for which it is nothing

  /** The moment falls on a minute after m and less than 366 days on. */
  ghost predicate FallsInWindow(zone: int, w: Moment, m: int)
  {
    exists y :: IsDate(Date(y, w.month, w.day)) && m < MinuteOf(zone, w, y) < m + 366 * 1440
  }

  /** Another annual moment falls within the window after that of minute m. */
  lemma OtherAnnualFalls(e: Expr, zone: int, w: Moment, m: int)
    requires Names(e, w) && Annual(w) && w != MomentAt(zone, m)
    ensures FallsInWindow(zone, w, m)
  {
    var y := AnnualWithin366Days(zone, w, m);
    MomentOfMinute(e, zone, w, y);
  }

  /** A leap day lies before the next anniversary. */
  predicate LeapDayAhead(month: int, year: int) { IsLeap(if month <= 2 then year else year + 1) }

  lemma LeapDayBetween(y: int, month: int, day: int)
    requires EveryYear(month, day) && LeapDayAhead(month, y)
    ensures var z := if month <= 2 then y else y + 1;
            && IsDate(Date(z, 2, 29)) && IsDate(Date(y, month, day)) && IsDate(Date(y + 1, month, day))
            && DayNumber(Date(y, month, day)) < DayNumber(Date(z, 2, 29)) < DayNumber(Date(y + 1, month, day))
  {
    AnniversaryGap(y, month, day);
    YearStartNext(y);
    MonthStartByTable(y, month);
    MonthStartByTable(y + 1, month);
    MonthStartByTable(y, 2);
    MonthStartByTable(y + 1, 2);
  }

  /** And so does 29 February, if there is one before the next anniversary. */
  lemma LeapDayFalls(zone: int, w: Moment, m: int)
    requires w.month == 2 && w.day == 29 && 0 <= w.hour < 24 && 0 <= w.minute < 60
    requires Annual(MomentAt(zone, m)) && LeapDayAhead(MomentAt(zone, m).month, YearAt(zone, m))
    ensures FallsInWindow(zone, w, m)
  {
    var v, y := MomentAt(zone, m), YearAt(zone, m);
    var z := if v.month <= 2 then y else y + 1;
    MinuteOfMoment(zone, m);
    LeapDayBetween(y, v.month, v.day);
    AnniversaryGap(y, v.month, v.day);
    assert m < MinuteOf(zone, w, z) < m + 366 * 1440;
  }

  lemma NamedIsAnnualOrLeapDay(e: Expr, w: Moment)
    requires Names(e, w)
    ensures Annual(w) || (w.month == 2 && w.day == 29)
  {
  }

  lemma {:induction false} AnniversariesAscend(y: int, z: int, month: int, day: int)
    requires EveryYear(month, day) && y <= z
    ensures IsDate(Date(y, month, day)) && IsDate(Date(z, month, day))
    ensures DayNumber(Date(y, month, day)) <= DayNumber(Date(z, month, day))
    decreases z - y
  {
    if y < z {
      AnniversaryGap(z - 1, month, day);
      AnniversariesAscend(y, z - 1, month, day);
    } else {
      AnniversaryGap(y, month, day);
    }
  }

  /** No anniversary falls between two successive ones. */
  lemma NoneBetween(y: int, z: int, month: int, day: int)
    requires EveryYear(month, day)
    ensures IsDate(Date(y, month, day)) && IsDate(Date(y + 1, month, day)) && IsDate(Date(z, month, day))
    ensures || DayNumber(Date(z, month, day)) <= DayNumber(Date(y, month, day))
            || DayNumber(Date(y + 1, month, day)) <= DayNumber(Date(z, month, day))
  {
    AnniversaryGap(y, month, day);
    if z <= y {
      AnniversariesAscend(z, y, month, day);
    } else {
      AnniversariesAscend(y + 1, z, month, day);
    }
  }

  /** The moment of a minute falls again within the window iff no leap day lies
      before its anniversary: 366 days on is just out of reach. */
  lemma SameMomentFallsIff(zone: int, m: int)
    requires Annual(MomentAt(zone, m))
    ensures FallsInWindow(zone, MomentAt(zone, m), m) <==> !LeapDayAhead(MomentAt(zone, m).month, YearAt(zone, m))
  {
    var w, y := MomentAt(zone, m), YearAt(zone, m);
    MinuteOfMoment(zone, m);
    AnniversaryGap(y, w.month, w.day);
    if !LeapDayAhead(w.month, y) {
      assert m < MinuteOf(zone, w, y + 1) < m + 366 * 1440;
    } else if z :| IsDate(Date(z, w.month, w.day)) && m < MinuteOf(zone, w, z) < m + 366 * 1440 {
      NoneBetween(y, z, w.month, w.day);
    }
  }

  lemma WindowInMinutes(m: int, k: int)
    ensures InWindow(m * MINUTE, k) <==> m < k < m + 366 * 1440
  {
  }

  lemma FallingIsFound(e: Expr, zone: int, w: Moment, m: int)
    requires EveryWeekday(e) && Names(e, w) && FallsInWindow(zone, w, m)
    ensures NextFire(e, zone, m * MINUTE).Some?
  {
    var y :| IsDate(Date(y, w.month, w.day)) && m < MinuteOf(zone, w, y) < m + 366 * 1440;
    FiresOnNamed(e, zone, w, y);
    WindowInMinutes(m, MinuteOf(zone, w, y));
    FoundIfFires(e, zone, m * MINUTE, MinuteOf(zone, w, y));
  }

  lemma FoundFalls(e: Expr, zone: int, m: int)
    requires EveryWeekday(e) && NextFire(e, zone, m * MINUTE).Some?
    ensures var w := MomentAt(zone, NextFire(e, zone, m * MINUTE).value); Names(e, w) && FallsInWindow(zone, w, m)
  {
    var k := NextFire(e, zone, m * MINUTE).value;
    NextIsLeast(e, zone, m * MINUTE);
    WindowInMinutes(m, k);
    FiresIffNamed(e, zone, k);
    MinuteOfMoment(zone, k);
  }

  /** There is a next fire time iff some moment named falls within the window. */
  lemma NextIffSomeFalls(e: Expr, zone: int, m: int)
    requires EveryWeekday(e)
    ensures NextFire(e, zone, m * MINUTE).Some? <==> exists w :: Names(e, w) && FallsInWindow(zone, w, m)
  {
    if w :| Names(e, w) && FallsInWindow(zone, w, m) {
      FallingIsFound(e, zone, w, m);
    }
    if NextFire(e, zone, m * MINUTE).Some? {
      FoundFalls(e, zone, m);
    }
  }

  lemma OthersFall(e: Expr, zone: int, m: int)
    requires Annual(MomentAt(zone, m)) && LeapDayAhead(MomentAt(zone, m).month, YearAt(zone, m))
    ensures forall w :: Names(e, w) && w != MomentAt(zone, m) ==> FallsInWindow(zone, w, m)
  {
    forall w | Names(e, w) && w != MomentAt(zone, m) ensures FallsInWindow(zone, w, m) {
      NamedIsAnnualOrLeapDay(e, w);
      if Annual(w) {
        OtherAnnualFalls(e, zone, w, m);
      } else {
        LeapDayFalls(zone, w, m);
      }
    }
  }

  /** The main result.  With every weekday allowed and an annual moment named,
      nothing is found iff the search starts exactly on a minute that fires, a leap
      day lies before its anniversary, and no other moment is named, not even one
      on 29 February. */
  lemma NothingIff(e: Expr, zone: int, from: int, annual: Moment)
    requires EveryWeekday(e) && Names(e, annual) && Annual(annual)
    ensures NextFire(e, zone, from).None? <==>
            && from % MINUTE == 0 && Fires(e, zone, from / MINUTE)
            && LeapDayAhead(MomentAt(zone, from / MINUTE).month, YearAt(zone, from / MINUTE))
            && forall w :: Names(e, w) ==> w == MomentAt(zone, from / MINUTE)
  {
    var m := from / MINUTE;
    if from % MINUTE != 0 || !Fires(e, zone, m) {
      NeverNothing(e, zone, from, annual);
    } else {
      assert from == m * MINUTE;
      NextIffSomeFalls(e, zone, m);
      FiresIffNamed(e, zone, m);
      if annual != MomentAt(zone, m) {
        OtherAnnualFalls(e, zone, annual, m);
      } else {
        SameMomentFallsIff(zone, m);
        if LeapDayAhead(MomentAt(zone, m).month, YearAt(zone, m)) {
          OthersFall(e, zone, m);
        }
      }
    }
  }
}
