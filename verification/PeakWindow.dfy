/**
 The weekday window of peak hours. Instants are local times in nanoseconds since 1970-01-01 00:00,
 under a fixed offset from UTC, so every day has 24 hours.
 */
module PeakWindow {
  const HOUR := 3_600_000_000_000
  const DAY := 86_400_000_000_000

  /** Nothing in the source restricts the two hours, so here they are any integers. */
  datatype Config = Config(startHour: int, endHour: int)

  function DayOf(t: int): int {
    t / DAY
  }

  function HourOf(t: int): int {
    t % DAY / HOUR
  }

  /** A calendar day and an hour, which may lie outside the day, as an instant. */
  function Instant(day: int, hour: int): int {
    day * DAY + hour * HOUR
  }

  /** Sunday is 0; day 0 was a Thursday. */
  function Weekday(day: int): int {
    (day + 4) % 7
  }

  predicate Weekend(day: int) {
    Weekday(day) == 0 || Weekday(day) == 6
  }

  predicate IsPeakAt(t: int, cfg: Config) {
    !Weekend(DayOf(t)) && cfg.startHour <= HourOf(t) < cfg.endHour
  }

  /** Whether any weekday has a peak hour at all. */
  predicate HasWindow(cfg: Config) {
    cfg.startHour < cfg.endHour && cfg.startHour < 24 && cfg.endHour > 0
  }

  ghost predicate NoPeak(from: int, to: int, cfg: Config) {
    forall u :: from <= u < to ==> !IsPeakAt(u, cfg)
  }

  ghost predicate AllPeak(from: int, to: int, cfg: Config) {
    forall u :: from <= u < to ==> IsPeakAt(u, cfg)
  }

  ghost predicate WeekendDays(from: int, to: int) {
    forall day :: from <= day < to ==> Weekend(day)
  }

  /** `d` is the least wait from `t` until a peak instant. */
  ghost predicate WaitsForPeak(t: int, d: int, cfg: Config) {
    d >= 0 && IsPeakAt(t + d, cfg) && NoPeak(t, t + d, cfg)
  }

  /** `d` is the least wait from `t` until an instant off peak. */
  ghost predicate WaitsForEnd(t: int, d: int, cfg: Config) {
    d >= 0 && !IsPeakAt(t + d, cfg) && AllPeak(t, t + d, cfg)
  }

  // ---- Calendar arithmetic ----

  lemma InstantSplits(t: int)
    ensures 0 <= HourOf(t) < 24
    ensures Instant(DayOf(t), HourOf(t)) <= t < Instant(DayOf(t), HourOf(t) + 1)
  {
    assert t == t / 86_400_000_000_000 * 86_400_000_000_000 + t % 86_400_000_000_000;
  }

  /** An instant lies in one day only, and its hour is at least `h` exactly from that hour on. */
  lemma WithinDay(t: int, day: int, h: int)
    requires Instant(day, 0) <= t < Instant(day + 1, 0)
    ensures DayOf(t) == day
    ensures HourOf(t) >= h <==> t >= Instant(day, h)
  {
    InstantSplits(t);
    assert DAY == 24 * HOUR;
    assert Instant(DayOf(t), 0) <= t < Instant(DayOf(t) + 1, 0);
    assert HourOf(t) >= h ==> HourOf(t) * HOUR >= h * HOUR;
    assert HourOf(t) < h ==> (HourOf(t) + 1) * HOUR <= h * HOUR;
  }

  /** Peak instants of one day are those of a weekday between the two hours. */
  lemma PeakWithinDay(t: int, day: int, cfg: Config)
    requires Instant(day, 0) <= t < Instant(day + 1, 0)
    ensures IsPeakAt(t, cfg) <==> !Weekend(day) && Instant(day, cfg.startHour) <= t < Instant(day, cfg.endHour)
  {
    WithinDay(t, day, cfg.startHour);
    WithinDay(t, day, cfg.endHour);
  }

  lemma PeakOfDay(day: int, cfg: Config)
    ensures forall u :: Instant(day, 0) <= u < Instant(day + 1, 0) ==>
              (IsPeakAt(u, cfg) <==> !Weekend(day) && Instant(day, cfg.startHour) <= u < Instant(day, cfg.endHour))
  {
    forall u | Instant(day, 0) <= u < Instant(day + 1, 0)
      ensures IsPeakAt(u, cfg) <==> !Weekend(day) && Instant(day, cfg.startHour) <= u < Instant(day, cfg.endHour)
    {
      PeakWithinDay(u, day, cfg);
    }
  }

  lemma PeakNeedsWindow(t: int, cfg: Config)
    requires IsPeakAt(t, cfg)
    ensures HasWindow(cfg)
  {
    InstantSplits(t);
  }

  // ---- The wait for the next window ----

  /**
   The walk over at most eight days. Its answer is the least wait until a peak instant, for every
   instant and every configuration, exactly when there is a window and it does not open at midnight
   or the instant is already in it.
   */
  method TimeUntilPeakStart(t: int, cfg: Config) returns (d: int)
    ensures WaitsForPeak(t, d, cfg) <==> HasWindow(cfg) && (cfg.startHour >= 1 || IsPeakAt(t, cfg))
    ensures cfg.startHour <= 0 ==> d == 0
  {
    if IsPeakAt(t, cfg) {
      PeakNeedsWindow(t, cfg);
      return 0;
    }
    InstantSplits(t);
    var candidate := t;
    for i := 0 to 8
      invariant t <= candidate && DayOf(candidate) == DayOf(t) + i
      invariant candidate == if i == 0 then t else Instant(DayOf(t) + i, 0)
      invariant HasWindow(cfg) && cfg.startHour >= 1 ==>
                  NoPeak(t, candidate, cfg) && WeekendDays(DayOf(t) + 1, DayOf(t) + i)
    {
      hide DayOf, HourOf, IsPeakAt, NoPeak, WaitsForPeak;
      var day := DayOf(candidate);
      InstantSplits(candidate);
      if !Weekend(day) {
        var start := Instant(day, cfg.startHour);
        if start > candidate {
          WaitEndsAt(t, candidate, day, cfg);
          return start - t;
        }
      }
      if HasWindow(cfg) && cfg.startHour >= 1 {
        RestOfDayIsOffPeak(t, candidate, day, cfg);
      }
      candidate := Instant(day + 1, 0);
      WithinDay(candidate, day + 1, 0);
    }
    assert HasWindow(cfg) && cfg.startHour >= 1 ==>
        Weekend(DayOf(t) + 1) && Weekend(DayOf(t) + 2) && Weekend(DayOf(t) + 3);
    return 0;
  }

  lemma RestOfDayIsOffPeak(t: int, candidate: int, day: int, cfg: Config)
    requires t <= candidate && Instant(day, 0) <= candidate < Instant(day + 1, 0)
    requires NoPeak(t, candidate, cfg) && !IsPeakAt(t, cfg)
    requires candidate == t || candidate == Instant(day, 0)
    requires cfg.startHour >= 1 && (Weekend(day) || Instant(day, cfg.startHour) <= candidate)
    ensures NoPeak(t, Instant(day + 1, 0), cfg)
    ensures candidate == t || Weekend(day)
  {
    PeakOfDay(day, cfg);
  }

  lemma WaitEndsAt(t: int, candidate: int, day: int, cfg: Config)
    requires t <= candidate && Instant(day, 0) <= candidate < Instant(day + 1, 0) && !Weekend(day)
    requires Instant(day, cfg.startHour) > candidate
    requires HasWindow(cfg) && cfg.startHour >= 1 ==> NoPeak(t, candidate, cfg)
    ensures cfg.startHour >= 1
    ensures WaitsForPeak(t, Instant(day, cfg.startHour) - t, cfg) <==> HasWindow(cfg)
  {
    var start := Instant(day, cfg.startHour);
    if HasWindow(cfg) {
      PeakOfDay(day, cfg);
      assert start < Instant(day + 1, 0);
      assert IsPeakAt(start, cfg);
      assert NoPeak(candidate, start, cfg);
    } else if IsPeakAt(start, cfg) {
      PeakNeedsWindow(start, cfg);
    }
  }

  /** A window that opens at midnight: on a Saturday noon the walk answers 0, far off peak. */
  lemma MidnightStartIsMissed()
    ensures var t := Instant(2, 12); var cfg := Config(0, 11);
            HasWindow(cfg) && Weekday(DayOf(t)) == 6 && !IsPeakAt(t, cfg) && !WaitsForPeak(t, 0, cfg)
            && WaitsForPeak(t, Instant(4, 0) - t, cfg)
  {
    var t := Instant(2, 12);
    var cfg := Config(0, 11);
    PeakOfDay(2, cfg);
    PeakOfDay(3, cfg);
    PeakOfDay(4, cfg);
    WithinDay(t, 2, 12);
  }

  // ---- The wait for the end of the window ----

  function TimeUntilPeakEnd(t: int, cfg: Config): (d: int)
    ensures d >= 0
  {
    InstantSplits(t);
    if !IsPeakAt(t, cfg) then 0 else Instant(DayOf(t), cfg.endHour) - t
  }

  /** Where the peak period around `t` really ends. */
  function PeriodEnd(t: int, cfg: Config): int {
    var day := DayOf(t);
    if cfg.endHour < 24 then Instant(day, cfg.endHour)
    else if cfg.startHour > 0 then Instant(day + 1, 0)
    else Instant(day + (6 - Weekday(day)), 0)
  }

  lemma WholeDaysArePeak(from: int, to: int, cfg: Config)
    requires cfg.startHour <= 0 && cfg.endHour >= 24
    requires forall day :: from <= day < to ==> !Weekend(day)
    ensures AllPeak(Instant(from, 0), Instant(to, 0), cfg)
  {
    forall u | Instant(from, 0) <= u < Instant(to, 0)
      ensures IsPeakAt(u, cfg)
    {
      InstantSplits(u);
    }
  }

  lemma PeriodEndsInDay(t: int, cfg: Config)
    requires IsPeakAt(t, cfg) && (cfg.endHour < 24 || cfg.startHour > 0)
    ensures WaitsForEnd(t, PeriodEnd(t, cfg) - t, cfg)
  {
    var day := DayOf(t);
    InstantSplits(t);
    PeakOfDay(day, cfg);
    PeakOfDay(day + 1, cfg);
    hide DayOf, HourOf, IsPeakAt, Weekend;
  }

  lemma PeriodEndsOnSaturday(t: int, cfg: Config)
    requires IsPeakAt(t, cfg) && cfg.endHour >= 24 && cfg.startHour <= 0
    ensures WaitsForEnd(t, PeriodEnd(t, cfg) - t, cfg)
  {
    var day := DayOf(t);
    var saturday := day + (6 - Weekday(day));
    InstantSplits(t);
    PeakOfDay(saturday, cfg);
    WholeDaysArePeak(day, saturday, cfg);
  }

  /**
   Inside a window the answer is the distance to the first instant off peak exactly when the window
   closes before midnight, or closes at a midnight that another window does not continue.
   */
  lemma PeakEndIsFirstOffPeak(t: int, cfg: Config)
    requires IsPeakAt(t, cfg)
    ensures WaitsForEnd(t, TimeUntilPeakEnd(t, cfg), cfg)
            <==> (cfg.endHour < 24 || cfg.endHour == 24 * (if cfg.startHour > 0 then 1 else 6 - Weekday(DayOf(t))))
  {
    if cfg.endHour < 24 || cfg.startHour > 0 {
      PeriodEndsInDay(t, cfg);
    } else {
      PeriodEndsOnSaturday(t, cfg);
    }
    var d, e := TimeUntilPeakEnd(t, cfg), PeriodEnd(t, cfg) - t;
    if WaitsForEnd(t, d, cfg) {
      assert !(d < e) && !(e < d) by {
        assert d < e ==> IsPeakAt(t + d, cfg);
        assert e < d ==> IsPeakAt(t + e, cfg);
      }
    }
  }

  /** Peak all week: at noon on a Monday the answer is that day's midnight, still in peak. */
  lemma ContinuedMidnightIsMissed()
    ensures var t := Instant(4, 12); var cfg := Config(0, 24); var d := TimeUntilPeakEnd(t, cfg);
            && Weekday(DayOf(t)) == 1 && IsPeakAt(t, cfg)
            && d == Instant(5, 0) - t && IsPeakAt(t + d, cfg) && !WaitsForEnd(t, d, cfg)
            && WaitsForEnd(t, Instant(9, 0) - t, cfg)
  {
    var t := Instant(4, 12);
    var cfg := Config(0, 24);
    WithinDay(t, 4, 12);
    PeakOfDay(4, cfg);
    PeakOfDay(5, cfg);
    PeriodEndsOnSaturday(t, cfg);
  }
}
