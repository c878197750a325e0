/** The festival clock: which watch (prahar) is active at an instant, how much
    of it is left, and whether a watch accepts uploads. The clock reading is an
    explicit `Instant` and the configuration an explicit value. */
module FestivalClock {
  import opened Wrappers
  import Arith

  /** `FESTIVAL_CONFIG`. */
  datatype FestivalConfig = FestivalConfig(
    allowedDates: seq<string>,
    praharStartHour: int,
    praharDurationHours: int,
    totalPrahars: int,
    year: int,
    devMode: bool)

  /** The configuration as shipped; `devMode` holds in a development build. */
  function ShippedConfig(devMode: bool): FestivalConfig {
    FestivalConfig(["2026-01-31", "2026-02-01", "2026-02-02"], 6, 3, 8, 2026, devMode)
  }

  /** A watch lasts at least an hour; the code divides by this duration. */
  predicate ValidConfig(c: FestivalConfig) {
    c.praharDurationHours > 0
  }

  /** One reading of the clock: the UTC calendar date as `toISOString()`
      spells it, and the local hour, minute and second. */
  datatype Instant = Instant(isoDate: string, hour: int, minute: int, second: int)

  predicate ValidInstant(t: Instant) {
    0 <= t.hour < 24 && 0 <= t.minute < 60 && 0 <= t.second < 60
  }

  /** Whether the festival runs on this date at all. */
  predicate DateOpen(c: FestivalConfig, isoDate: string) {
    c.devMode || isoDate in c.allowedDates
  }

  /** The first hour of watch `k`; watch `k` ends where watch `k + 1` starts. */
  function WatchStart(c: FestivalConfig, k: int): int {
    c.praharStartHour + (k - 1) * c.praharDurationHours
  }

  /** `getCurrentPrahar()`: the active watch, or null. */
  function CurrentPrahar(c: FestivalConfig, t: Instant): (r: Option<int>)
    requires ValidConfig(c)
    ensures r.Some? ==> 1 <= r.value <= c.totalPrahars
    ensures !DateOpen(c, t.isoDate) ==> r.None?
    ensures t.hour < c.praharStartHour ==> r.None?
  {
    if !c.devMode && t.isoDate !in c.allowedDates then None
    else if t.hour < c.praharStartHour then None
    else
      var prahar := (t.hour - c.praharStartHour) / c.praharDurationHours + 1;
      if prahar > c.totalPrahars then None else Some(prahar)
  }

  /** Watch `k` is active exactly during the half-open hour interval
      [WatchStart(k), WatchStart(k + 1)) of an open date. */
  lemma CurrentPraharIsHalfOpenInterval(c: FestivalConfig, t: Instant, k: int)
    requires ValidConfig(c)
    ensures CurrentPrahar(c, t) == Some(k) <==>
              DateOpen(c, t.isoDate) && 1 <= k <= c.totalPrahars &&
              WatchStart(c, k) <= t.hour < WatchStart(c, k + 1)
  {
    var d := c.praharDurationHours;
    var a := t.hour - c.praharStartHour;
    if CurrentPrahar(c, t) == Some(k) {
      assert a == d * (a / d) + a % d;
      assert WatchStart(c, k) == c.praharStartHour + (a / d) * d;
      assert WatchStart(c, k + 1) == WatchStart(c, k) + d;
    } else if DateOpen(c, t.isoDate) && 1 <= k <= c.totalPrahars &&
              WatchStart(c, k) <= t.hour < WatchStart(c, k + 1) {
      assert WatchStart(c, k + 1) == WatchStart(c, k) + d;
      Arith.DivModUnique(a, d, k - 1, a - (k - 1) * d);
      assert false;
    }
  }

  /** The boundary hours: watch `k` starts at its first hour, and at the
      first hour of watch `k + 1` the clock has moved on. */
  lemma WatchBoundaries(c: FestivalConfig, t: Instant, k: int)
    requires ValidConfig(c) && DateOpen(c, t.isoDate) && 1 <= k <= c.totalPrahars
    ensures t.hour == WatchStart(c, k) ==> CurrentPrahar(c, t) == Some(k)
    ensures t.hour == WatchStart(c, k + 1) && k < c.totalPrahars ==> CurrentPrahar(c, t) == Some(k + 1)
  {
    CurrentPraharIsHalfOpenInterval(c, t, k);
    CurrentPraharIsHalfOpenInterval(c, t, k + 1);
    assert WatchStart(c, k + 2) == WatchStart(c, k + 1) + c.praharDurationHours;
  }

  /** Later hours of the same date never give an earlier watch. */
  lemma CurrentPraharMonotone(c: FestivalConfig, t1: Instant, t2: Instant)
    requires ValidConfig(c) && t1.isoDate == t2.isoDate && t1.hour <= t2.hour
    requires CurrentPrahar(c, t1).Some? && CurrentPrahar(c, t2).Some?
    ensures CurrentPrahar(c, t1).value <= CurrentPrahar(c, t2).value
  {
    Arith.DivMonotone(t1.hour - c.praharStartHour, t2.hour - c.praharStartHour, c.praharDurationHours);
  }

  /** With the shipped configuration, on a festival date, hours 0-5 have no
      watch and hours 6-23 fall in watches 1-6, three hours each. */
  lemma ShippedWatches(devMode: bool, t: Instant)
    requires ValidInstant(t) && DateOpen(ShippedConfig(devMode), t.isoDate)
    ensures t.hour < 6 ==> CurrentPrahar(ShippedConfig(devMode), t) == None
    ensures t.hour >= 6 ==> CurrentPrahar(ShippedConfig(devMode), t) == Some((t.hour - 6) / 3 + 1)
    ensures t.hour >= 6 ==> 1 <= (t.hour - 6) / 3 + 1 <= 6
  {
  }

  /** With the shipped configuration watches 7 and 8 are never active: the
      "past the last watch" test never fires and the hours they stand for
      (0-5) are rejected as "before the first watch" instead. */
  lemma ShippedNeverLateWatches(devMode: bool, t: Instant)
    requires ValidInstant(t)
    ensures CurrentPrahar(ShippedConfig(devMode), t) != Some(7)
    ensures CurrentPrahar(ShippedConfig(devMode), t) != Some(8)
    ensures t.hour >= 6 ==> (t.hour - 6) / 3 + 1 <= 8
  {
    var c := ShippedConfig(devMode);
    if CurrentPrahar(c, t).Some? {
      CurrentPraharIsHalfOpenInterval(c, t, CurrentPrahar(c, t).value);
    }
  }

  /** `isUploadAllowed(praharNumber)`: the watch is the active one. */
  predicate IsUploadAllowed(c: FestivalConfig, t: Instant, praharNumber: int)
    requires ValidConfig(c)
    ensures IsUploadAllowed(c, t, praharNumber) ==>
              DateOpen(c, t.isoDate) && 1 <= praharNumber <= c.totalPrahars &&
              WatchStart(c, praharNumber) <= t.hour < WatchStart(c, praharNumber + 1)
  {
    CurrentPrahar(c, t) == Some(praharNumber)
  }

  /** At most one watch accepts uploads at an instant, and none when no watch is active. */
  lemma UploadAllowedForAtMostOneWatch(c: FestivalConfig, t: Instant, m: int, n: int)
    requires ValidConfig(c)
    ensures IsUploadAllowed(c, t, m) && IsUploadAllowed(c, t, n) ==> m == n
    ensures CurrentPrahar(c, t).None? ==> !IsUploadAllowed(c, t, n)
  {
  }

  /** Hours, minutes and seconds, as the countdown reports them. */
  datatype Remaining = Remaining(hours: int, minutes: int, seconds: int)

  function TotalSeconds(r: Remaining): int {
    r.hours * 3600 + r.minutes * 60 + r.seconds
  }

  /** Splits a number of seconds into whole hours and the minutes and seconds left over. */
  function Decompose(total: nat): (r: Remaining)
    ensures TotalSeconds(r) == total
    ensures r.hours >= 0 && 0 <= r.minutes < 60 && 0 <= r.seconds < 60
  {
    Remaining(total / 3600, total % 3600 / 60, total % 60)
  }

  function SecondOfDay(t: Instant): int {
    t.hour * 3600 + t.minute * 60 + t.second
  }

  /** What the countdown shows: the distance from `t` to the end of the
      active watch, less one second, or null when no watch is active. */
  function RemainingInPrahar(c: FestivalConfig, t: Instant): (r: Option<Remaining>)
    requires ValidConfig(c) && ValidInstant(t)
    ensures r.None? <==> CurrentPrahar(c, t).None?
    ensures r.Some? ==> r.value.hours >= 0 && 0 <= r.value.minutes < 60 && 0 <= r.value.seconds < 60
    ensures r.Some? ==>
              TotalSeconds(r.value) == WatchStart(c, CurrentPrahar(c, t).value + 1) * 3600 - SecondOfDay(t) - 1
  {
    match CurrentPrahar(c, t)
    case None => None
    case Some(k) =>
      CurrentPraharIsHalfOpenInterval(c, t, k);
      Some(Decompose(WatchStart(c, k + 1) * 3600 - SecondOfDay(t) - 1))
  }

  /** `getTimeRemainingInPrahar()`, with its borrow steps. The borrows never
      happen and the final null test never fires: the result is null exactly
      when no watch is active. */
  method TimeRemainingInPrahar(c: FestivalConfig, t: Instant) returns (r: Option<Remaining>)
    requires ValidConfig(c) && ValidInstant(t)
    ensures r == RemainingInPrahar(c, t)
  {
    var currentPrahar := CurrentPrahar(c, t);
    if currentPrahar.None? || currentPrahar.value == 0 {
      return None;
    }
    var praharEndHour := c.praharStartHour + currentPrahar.value * c.praharDurationHours;

    var remainingHours := praharEndHour - t.hour - 1;
    var remainingMinutes := 59 - t.minute;
    var remainingSeconds := 59 - t.second;

    if remainingSeconds < 0 {
      remainingSeconds := remainingSeconds + 60;
      remainingMinutes := remainingMinutes - 1;
    }
    if remainingMinutes < 0 {
      remainingMinutes := remainingMinutes + 60;
      remainingHours := remainingHours - 1;
    }

    CurrentPraharIsHalfOpenInterval(c, t, currentPrahar.value);
    assert praharEndHour == WatchStart(c, currentPrahar.value + 1);
    if remainingHours < 0 {
      return None;
    }
    var total := praharEndHour * 3600 - SecondOfDay(t) - 1;
    assert total == remainingHours * 3600 + remainingMinutes * 60 + remainingSeconds;
    Arith.DivModUnique(total, 3600, remainingHours, remainingMinutes * 60 + remainingSeconds);
    Arith.DivModUnique(total % 3600, 60, remainingMinutes, remainingSeconds);
    Arith.DivModUnique(total, 60, remainingHours * 60 + remainingMinutes, remainingSeconds);
    r := Some(Remaining(remainingHours, remainingMinutes, remainingSeconds));
  }

  /** The countdown is one second short: at the first second of watch `k` it
      shows (duration - 1):59:59, and at the last second 00:00:00. */
  lemma CountdownAtWatchEdges(c: FestivalConfig, t: Instant, k: int)
    requires ValidConfig(c) && ValidInstant(t) && CurrentPrahar(c, t) == Some(k)
    ensures t.hour == WatchStart(c, k) && t.minute == 0 && t.second == 0 ==>
              RemainingInPrahar(c, t) == Some(Remaining(c.praharDurationHours - 1, 59, 59))
    ensures t.hour == WatchStart(c, k + 1) - 1 && t.minute == 59 && t.second == 59 ==>
              RemainingInPrahar(c, t) == Some(Remaining(0, 0, 0))
  {
    var d := c.praharDurationHours;
    assert WatchStart(c, k + 1) == WatchStart(c, k) + d;
    var r := RemainingInPrahar(c, t).value;
    if t.hour == WatchStart(c, k) && t.minute == 0 && t.second == 0 {
      assert TotalSeconds(r) == d * 3600 - 1;
      RemainingUnique(r, Remaining(d - 1, 59, 59));
    }
    if t.hour == WatchStart(c, k + 1) - 1 && t.minute == 59 && t.second == 59 {
      RemainingUnique(r, Remaining(0, 0, 0));
    }
  }

  /** Two readings in clock range that add up to the same number of seconds
      are the same reading. */
  lemma RemainingUnique(a: Remaining, b: Remaining)
    requires a.hours >= 0 && 0 <= a.minutes < 60 && 0 <= a.seconds < 60
    requires b.hours >= 0 && 0 <= b.minutes < 60 && 0 <= b.seconds < 60
    requires TotalSeconds(a) == TotalSeconds(b)
    ensures a == b
  {
    var total := TotalSeconds(a);
    Arith.DivModUnique(total, 3600, a.hours, a.minutes * 60 + a.seconds);
    Arith.DivModUnique(total, 3600, b.hours, b.minutes * 60 + b.seconds);
    Arith.DivModUnique(total % 3600, 60, a.minutes, a.seconds);
    Arith.DivModUnique(total % 3600, 60, b.minutes, b.seconds);
  }

  // Corrected behaviour. The watch table names watch 7 "12:00 AM - 3:00 AM"
  // and watch 8 "3:00 AM - 6:00 AM", and the comment on the final
  // `prahar > totalPrahars` check says watch 8 ends at 6 AM the next day;
  // the hour arithmetic above does not wrap past midnight, so those two
  // watches never open. The definitions below measure hours since the start
  // of the cycle modulo 24.

  /** Hours since the first watch began, on a 24-hour ring. */
  function HoursIntoCycle(c: FestivalConfig, t: Instant): (h: int)
    ensures 0 <= h < 24
  {
    (t.hour - c.praharStartHour) % 24
  }

  /** The active watch when watches may run past midnight. */
  function CurrentPraharWrapped(c: FestivalConfig, t: Instant): (r: Option<int>)
    requires ValidConfig(c)
    ensures r.Some? ==> 1 <= r.value <= c.totalPrahars
    ensures !DateOpen(c, t.isoDate) ==> r.None?
  {
    if !DateOpen(c, t.isoDate) then None
    else
      var prahar := HoursIntoCycle(c, t) / c.praharDurationHours + 1;
      if prahar > c.totalPrahars then None else Some(prahar)
  }

  /** Where the original arithmetic gives a watch, the corrected one gives the same watch. */
  lemma WrappedAgreesWithinDay(c: FestivalConfig, t: Instant)
    requires ValidConfig(c) && ValidInstant(t) && 0 <= c.praharStartHour
    requires CurrentPrahar(c, t).Some?
    ensures CurrentPraharWrapped(c, t) == CurrentPrahar(c, t)
  {
    Arith.ModSmall(t.hour - c.praharStartHour, 24);
  }

  /** With the shipped configuration every hour of a festival date falls in
      exactly the watch the watch table names, all eight watches included. */
  lemma ShippedWrappedWatches(devMode: bool, t: Instant)
    requires ValidInstant(t) && DateOpen(ShippedConfig(devMode), t.isoDate)
    ensures CurrentPraharWrapped(ShippedConfig(devMode), t) == Some((t.hour + 18) % 24 / 3 + 1)
    ensures 0 <= t.hour < 3 ==> CurrentPraharWrapped(ShippedConfig(devMode), t) == Some(7)
    ensures 3 <= t.hour < 6 ==> CurrentPraharWrapped(ShippedConfig(devMode), t) == Some(8)
  {
    Arith.ModSmall(t.hour + 18, 24);
    Arith.ModSmall(t.hour - 6 + 24, 24);
    if t.hour >= 6 {
      assert (t.hour - 6) % 24 == t.hour - 6;
    } else {
      assert (t.hour - 6) % 24 == t.hour + 18 by {
        Arith.DivModUnique(t.hour - 6, 24, -1, t.hour + 18);
      }
    }
  }

  /** The input that shows the gap: at 03:00 on a festival date, which the
      watch table places in watch 8, the original arithmetic reports no watch. */
  lemma NoWatchEightAtThreeAm()
    ensures CurrentPrahar(ShippedConfig(false), Instant("2026-02-01", 3, 0, 0)) == None
    ensures CurrentPraharWrapped(ShippedConfig(false), Instant("2026-02-01", 3, 0, 0)) == Some(8)
  {
    ShippedWrappedWatches(false, Instant("2026-02-01", 3, 0, 0));
  }

  /** The distance from the start of second `t` to the end of the active
      (wrapped) watch: the time left, rounded up to a whole second. */
  function ExactRemainingInPrahar(c: FestivalConfig, t: Instant): (r: Option<Remaining>)
    requires ValidConfig(c) && ValidInstant(t)
    ensures r.None? <==> CurrentPraharWrapped(c, t).None?
    ensures r.Some? ==> 0 <= r.value.minutes < 60 && 0 <= r.value.seconds < 60
    ensures r.Some? ==>
              TotalSeconds(r.value) + HoursIntoCycle(c, t) * 3600 + t.minute * 60 + t.second ==
              CurrentPraharWrapped(c, t).value * c.praharDurationHours * 3600
  {
    match CurrentPraharWrapped(c, t)
    case None => None
    case Some(k) =>
      var h := HoursIntoCycle(c, t);
      var d := c.praharDurationHours;
      assert h == d * (h / d) + h % d;
      assert k * d == (h / d) * d + d;
      Some(Decompose(k * d * 3600 - (h * 3600 + t.minute * 60 + t.second)))
  }

  /** One second before a watch ends the corrected countdown shows 00:00:01,
      and at the first second of a watch it shows the whole watch. */
  lemma ExactCountdownAtWatchEdges(c: FestivalConfig, t: Instant, k: int)
    requires ValidConfig(c) && ValidInstant(t) && CurrentPraharWrapped(c, t) == Some(k)
    ensures HoursIntoCycle(c, t) == k * c.praharDurationHours - 1 && t.minute == 59 && t.second == 59 ==>
              ExactRemainingInPrahar(c, t) == Some(Remaining(0, 0, 1))
    ensures HoursIntoCycle(c, t) == (k - 1) * c.praharDurationHours && t.minute == 0 && t.second == 0 ==>
              ExactRemainingInPrahar(c, t) == Some(Remaining(c.praharDurationHours, 0, 0))
  {
    var d := c.praharDurationHours;
    var r := ExactRemainingInPrahar(c, t).value;
    if HoursIntoCycle(c, t) == (k - 1) * d && t.minute == 0 && t.second == 0 {
      assert TotalSeconds(r) == d * 3600;
      assert r.hours >= 0 by {
        Arith.DivModUnique(TotalSeconds(r), 3600, r.hours, r.minutes * 60 + r.seconds);
        Arith.DivModUnique(TotalSeconds(r), 3600, d, 0);
      }
      RemainingUnique(r, Remaining(d, 0, 0));
    }
    if HoursIntoCycle(c, t) == k * d - 1 && t.minute == 59 && t.second == 59 {
      assert TotalSeconds(r) == 1;
      assert r.hours >= 0 by {
        Arith.DivModUnique(1, 3600, r.hours, r.minutes * 60 + r.seconds);
      }
      RemainingUnique(r, Remaining(0, 0, 1));
    }
  }

  /** The input that shows the shortfall: at 08:59:59, in the last second of
      watch 1, the original countdown already shows 00:00:00 ... */
  lemma CountdownShortAtEightFiftyNine()
    ensures RemainingInPrahar(ShippedConfig(true), Instant("", 8, 59, 59)) == Some(Remaining(0, 0, 0))
  {
    var c, t := ShippedConfig(true), Instant("", 8, 59, 59);
    assert CurrentPrahar(c, t) == Some(1);
    CountdownAtWatchEdges(c, t, 1);
  }

  /** ... where the corrected countdown still shows 00:00:01. */
  lemma ExactCountdownAtEightFiftyNine()
    ensures ExactRemainingInPrahar(ShippedConfig(true), Instant("", 8, 59, 59)) == Some(Remaining(0, 0, 1))
  {
    var c, t := ShippedConfig(true), Instant("", 8, 59, 59);
    ShippedWrappedWatches(true, t);
    assert CurrentPraharWrapped(c, t) == Some(1);
    assert HoursIntoCycle(c, t) == 2;
    ExactCountdownAtWatchEdges(c, t, 1);
  }
}
