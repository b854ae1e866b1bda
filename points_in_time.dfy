/**
 * Rows of the test table of points in time around the end of DST, checked
 * against one-transition zones on the emulated platform: converting the
 * instant `ts` into `SystemTZ` gives the wall clock `tt` with the expected
 * fold, and that wall clock reports offset, abbreviation and DST amount and
 * maps back to `ts`.
 */
module PointsInTime {
  import opened Wrappers
  import opened Calendar
  import opened SystemTz
  import opened Emulation
  import opened SyntheticZone

  /**
   * What a row shows of one aware datetime `u` in `tz`: `fromutc(u)` gives the
   * wall clock `tt` with the expected fold and `u`'s microseconds, and that
   * local datetime has timestamp `ts` and the expected offset, abbreviation
   * and DST amount.
   */
  predicate ShowsInstant(os: Platform, tz: SystemTZ, u: DateTime, ts: int, tt: Fields,
                         off: int, dst: int, name: string, fold: int)
  {
    var local := DateTime(tz.dateTimeCls, tt, u.microsecond, Some(System(tz)), fold);
    && tz.FromUtc(os, u) == Ok(local)
    && tz.MkTime(os, local).Ok? && tz.MkTime(os, local).value.secs == ts
    && tz.UtcOffset(os, Some(local)) == Ok(off)
    && tz.TzName(os, Some(local)) == Ok(name)
    && tz.Dst(os, Some(local)) == Ok(Some(dst))
  }

  /** A UTC wall clock's instant is its day's midnight plus the seconds since midnight. */
  lemma InstantOf(f: Fields, midnight: int)
    requires Timegm(f.(hour := 0, minute := 0, second := 0)) == midnight
    ensures Timegm(f) == midnight + f.hour * 3600 + f.minute * 60 + f.second
  {
  }

  /** The UTC wall clock of an instant is the valid one that `timegm` maps to it. */
  lemma WallClockOf(secs: int, f: Fields, midnight: int)
    requires ValidFields(f) && Timegm(f.(hour := 0, minute := 0, second := 0)) == midnight
    requires secs == midnight + f.hour * 3600 + f.minute * 60 + f.second
    ensures Civil(secs) == f
  {
    InstantOf(f, midnight);
    CivilOfTimegm(f);
  }

  /** Midnight (UTC) of a day in 2023, the year all rows fall in. */
  lemma Midnight2023(m: int, d: int)
    requires 1 <= m <= 12
    ensures Timegm(Fields(2023, m, d, 0, 0, 0)) == (19357 + DaysBeforeMonth(2023, m) + d) * 86400
  {
    assert DaysBeforeYear(2023) == 738520;
  }

  /**
   * On a platform that follows a one-transition zone, an aware datetime in
   * `tz` converts to the wall clock, offset, abbreviation, DST amount and fold
   * of the period in force at its instant.
   */
  lemma Instant(os: Platform, t: int, before: Period, after: Period, tz: SystemTZ, u: DateTime)
    requires FollowsOneTransition(os, t, before, after)
    requires tz.Owns(u) && tz.dateTimeCls.hasFold
    ensures var i := Timegm(u.fields);
            var p := PeriodAt(t, before, after, i);
            ShowsInstant(os, tz, u, i, Civil(i + p.utcoff), p.utcoff, p.dst, p.name,
                         if t <= i < t + (before.utcoff - after.utcoff) then 1 else 0)
  {
    FoldOnSecondOccurrence(os, t, before, after, tz, u);
    RoundTripOneTransition(os, t, before, after, tz, u);
    DescribeOneTransition(os, t, before, after, tz, u);
  }

  /** What `Instant` shows of `u`, restated with the row's instant, period, wall clock and fold. */
  lemma InstantOfRow(os: Platform, t: int, before: Period, after: Period,
                     tz: SystemTZ, u: DateTime, ts: int, tt: Fields, p: Period, fold: int)
    requires var i := Timegm(u.fields);
             var q := PeriodAt(t, before, after, i);
             ShowsInstant(os, tz, u, i, Civil(i + q.utcoff), q.utcoff, q.dst, q.name,
                          if t <= i < t + (before.utcoff - after.utcoff) then 1 else 0)
    requires Timegm(u.fields) == ts && PeriodAt(t, before, after, ts) == p && Civil(ts + p.utcoff) == tt
    requires fold == if t <= ts < t + (before.utcoff - after.utcoff) then 1 else 0
    ensures ShowsInstant(os, tz, u, ts, tt, p.utcoff, p.dst, p.name, fold)
  {
  }

  /**
   * What a row of the table needs: the zone falls back at `t`, the UTC clock `utc` reads the instant
   * `ts`, the period in force then is `p`, the local clock reads `tt` and `fold` marks the repeated span.
   */
  predicate RowFacts(t: int, before: Period, after: Period, timezone: int, altzone: int,
                     utc: Fields, ts: int, tt: Fields, p: Period, fold: int)
  {
    && BackwardTransition(before, after, timezone, altzone)
    && Timegm(utc) == ts && PeriodAt(t, before, after, ts) == p && Civil(ts + p.utcoff) == tt
    && fold == if t <= ts < t + (before.utcoff - after.utcoff) then 1 else 0
  }

  /**
   * A row of the table holds for every aware datetime in `tz` at the UTC wall
   * clock `utc`, on the emulated platform of the row's zone.
   */
  lemma Row(key: string, t: int, before: Period, after: Period, timezone: int, altzone: int, tz: SystemTZ,
            utc: Fields, ts: int, tt: Fields, p: Period, fold: int)
    requires RowFacts(t, before, after, timezone, altzone, utc, ts, tt, p, fold) && tz.dateTimeCls.hasFold
    ensures forall u :: tz.Owns(u) && u.fields == utc ==>
              ShowsInstant(EmulatedPlatform(OneTransition(key, t, before, after), timezone, altzone, 0),
                           tz, u, ts, tt, p.utcoff, p.dst, p.name, fold)
  {
    var os := EmulatedPlatform(OneTransition(key, t, before, after), timezone, altzone, 0);
    EmulatedFollowsOneTransition(key, t, before, after, timezone, altzone, 0);
    forall u | tz.Owns(u) && u.fields == utc
      ensures ShowsInstant(EmulatedPlatform(OneTransition(key, t, before, after), timezone, altzone, 0),
                           tz, u, ts, tt, p.utcoff, p.dst, p.name, fold)
    {
      Instant(os, t, before, after, tz, u);
      InstantOfRow(os, t, before, after, tz, u, ts, tt, p, fold);
    }
  }

  /** America/St_Johns, 2023-11-05: NDT (-2:30, DST) falls back to NST (-3:30) at 01:00 local. */
  const StJohnsEnd: int := 1699158600
  const NDT: Period := Period(-9000, 3600, "NDT")
  const NST: Period := Period(-12600, 0, "NST")

  /** Sampled from a day before the transition, the St John's zone yields the platform's values. */
  lemma StJohnsWinkle()
    ensures WinkleSpec(OneTransition("America/St_Johns", StJohnsEnd, NDT, NST), StJohnsEnd - 86400,
                       12600, 9000, 1, Some("NST"), Some("NDT"))
  {
    var zi := OneTransition("America/St_Johns", StJohnsEnd, NDT, NST);
    var now := StJohnsEnd - 86400;
    assert Sample(zi, now, 0) == NDT;
    assert Sample(zi, now, 1) == NST;
    assert First(zi, now, StdName, 1) == 1;
  }

  /** America/New_York, 2023-11-05: EDT (-4:00, DST) falls back to EST (-5:00) at 02:00 local. */
  const NewYorkEnd: int := 1699164000
  const EDT: Period := Period(-14400, 3600, "EDT")
  const EST: Period := Period(-18000, 0, "EST")

  /** Sampled from a day before the transition, the New York zone yields `(18000, 14400, 1, ('EST', 'EDT'))`. */
  lemma NewYorkWinkle()
    ensures WinkleSpec(OneTransition("America/New_York", NewYorkEnd, EDT, EST), NewYorkEnd - 86400,
                       18000, 14400, 1, Some("EST"), Some("EDT"))
  {
    var zi := OneTransition("America/New_York", NewYorkEnd, EDT, EST);
    var now := NewYorkEnd - 86400;
    assert Sample(zi, now, 0) == EDT;
    assert Sample(zi, now, 1) == EST;
    assert First(zi, now, StdName, 1) == 1;
  }

  /** The instant and both wall clocks of the America/St_Johns row at the first instant of the repeated hour, first occurrence. */
  lemma StJohnsEarlierStartClocks()
    ensures Timegm(Fields(2023, 11, 5, 3, 30, 0)) == 1699155000
    ensures Civil(1699155000 + NDT.utcoff) == Fields(2023, 11, 5, 1, 0, 0)
    ensures BackwardTransition(NDT, NST, 12600, 9000)
  {
    Midnight2023(11, 5);
    InstantOf(Fields(2023, 11, 5, 3, 30, 0), 1699142400);
    WallClockOf(1699155000 + NDT.utcoff, Fields(2023, 11, 5, 1, 0, 0), 1699142400);
    assert BackwardTransition(NDT, NST, 12600, 9000);
  }

  /** The precondition of `Row` for the same row. */
  lemma StJohnsEarlierStartFacts()
    ensures RowFacts(StJohnsEnd, NDT, NST, 12600, 9000, Fields(2023, 11, 5, 3, 30, 0), 1699155000, Fields(2023, 11, 5, 1, 0, 0), NDT, 0)
  {
    StJohnsEarlierStartClocks();
  }

  /** America/St_Johns, the first instant of the repeated hour, first occurrence. */
  lemma StJohnsEarlierStart(tz: SystemTZ)
    requires tz.dateTimeCls.hasFold
    ensures forall u :: tz.Owns(u) && u.fields == Fields(2023, 11, 5, 3, 30, 0) ==>
              ShowsInstant(EmulatedPlatform(OneTransition("America/St_Johns", StJohnsEnd, NDT, NST), 12600, 9000, 0),
                           tz, u, 1699155000, Fields(2023, 11, 5, 1, 0, 0), -9000, 3600, "NDT", 0)
  {
    StJohnsEarlierStartFacts();
    Row("America/St_Johns", StJohnsEnd, NDT, NST, 12600, 9000, tz, Fields(2023, 11, 5, 3, 30, 0), 1699155000, Fields(2023, 11, 5, 1, 0, 0), NDT, 0);
  }

  /** The instant and both wall clocks of the America/St_Johns row at the last second of the repeated hour, first occurrence. */
  lemma StJohnsEarlierEndClocks()
    ensures Timegm(Fields(2023, 11, 5, 4, 29, 59)) == 1699158599
    ensures Civil(1699158599 + NDT.utcoff) == Fields(2023, 11, 5, 1, 59, 59)
    ensures BackwardTransition(NDT, NST, 12600, 9000)
  {
    Midnight2023(11, 5);
    InstantOf(Fields(2023, 11, 5, 4, 29, 59), 1699142400);
    WallClockOf(1699158599 + NDT.utcoff, Fields(2023, 11, 5, 1, 59, 59), 1699142400);
    assert BackwardTransition(NDT, NST, 12600, 9000);
  }

  /** The precondition of `Row` for the same row. */
  lemma StJohnsEarlierEndFacts()
    ensures RowFacts(StJohnsEnd, NDT, NST, 12600, 9000, Fields(2023, 11, 5, 4, 29, 59), 1699158599, Fields(2023, 11, 5, 1, 59, 59), NDT, 0)
  {
    StJohnsEarlierEndClocks();
  }

  /** America/St_Johns, the last second of the repeated hour, first occurrence. */
  lemma StJohnsEarlierEnd(tz: SystemTZ)
    requires tz.dateTimeCls.hasFold
    ensures forall u :: tz.Owns(u) && u.fields == Fields(2023, 11, 5, 4, 29, 59) ==>
              ShowsInstant(EmulatedPlatform(OneTransition("America/St_Johns", StJohnsEnd, NDT, NST), 12600, 9000, 0),
                           tz, u, 1699158599, Fields(2023, 11, 5, 1, 59, 59), -9000, 3600, "NDT", 0)
  {
    StJohnsEarlierEndFacts();
    Row("America/St_Johns", StJohnsEnd, NDT, NST, 12600, 9000, tz, Fields(2023, 11, 5, 4, 29, 59), 1699158599, Fields(2023, 11, 5, 1, 59, 59), NDT, 0);
  }

  /** The instant and both wall clocks of the America/St_Johns row at the first instant of the repeated hour, second occurrence (fold 1). */
  lemma StJohnsLaterStartClocks()
    ensures Timegm(Fields(2023, 11, 5, 4, 30, 0)) == 1699158600
    ensures Civil(1699158600 + NST.utcoff) == Fields(2023, 11, 5, 1, 0, 0)
    ensures BackwardTransition(NDT, NST, 12600, 9000)
  {
    Midnight2023(11, 5);
    InstantOf(Fields(2023, 11, 5, 4, 30, 0), 1699142400);
    WallClockOf(1699158600 + NST.utcoff, Fields(2023, 11, 5, 1, 0, 0), 1699142400);
    assert BackwardTransition(NDT, NST, 12600, 9000);
  }

  /** The precondition of `Row` for the same row. */
  lemma StJohnsLaterStartFacts()
    ensures RowFacts(StJohnsEnd, NDT, NST, 12600, 9000, Fields(2023, 11, 5, 4, 30, 0), 1699158600, Fields(2023, 11, 5, 1, 0, 0), NST, 1)
  {
    StJohnsLaterStartClocks();
  }

  /** America/St_Johns, the first instant of the repeated hour, second occurrence (fold 1). */
  lemma StJohnsLaterStart(tz: SystemTZ)
    requires tz.dateTimeCls.hasFold
    ensures forall u :: tz.Owns(u) && u.fields == Fields(2023, 11, 5, 4, 30, 0) ==>
              ShowsInstant(EmulatedPlatform(OneTransition("America/St_Johns", StJohnsEnd, NDT, NST), 12600, 9000, 0),
                           tz, u, 1699158600, Fields(2023, 11, 5, 1, 0, 0), -12600, 0, "NST", 1)
  {
    StJohnsLaterStartFacts();
    Row("America/St_Johns", StJohnsEnd, NDT, NST, 12600, 9000, tz, Fields(2023, 11, 5, 4, 30, 0), 1699158600, Fields(2023, 11, 5, 1, 0, 0), NST, 1);
  }

  /** The instant and both wall clocks of the America/St_Johns row at the last second of the repeated hour, second occurrence (fold 1). */
  lemma StJohnsLaterEndClocks()
    ensures Timegm(Fields(2023, 11, 5, 5, 29, 59)) == 1699162199
    ensures Civil(1699162199 + NST.utcoff) == Fields(2023, 11, 5, 1, 59, 59)
    ensures BackwardTransition(NDT, NST, 12600, 9000)
  {
    Midnight2023(11, 5);
    InstantOf(Fields(2023, 11, 5, 5, 29, 59), 1699142400);
    WallClockOf(1699162199 + NST.utcoff, Fields(2023, 11, 5, 1, 59, 59), 1699142400);
    assert BackwardTransition(NDT, NST, 12600, 9000);
  }

  /** The precondition of `Row` for the same row. */
  lemma StJohnsLaterEndFacts()
    ensures RowFacts(StJohnsEnd, NDT, NST, 12600, 9000, Fields(2023, 11, 5, 5, 29, 59), 1699162199, Fields(2023, 11, 5, 1, 59, 59), NST, 1)
  {
    StJohnsLaterEndClocks();
  }

  /** America/St_Johns, the last second of the repeated hour, second occurrence (fold 1). */
  lemma StJohnsLaterEnd(tz: SystemTZ)
    requires tz.dateTimeCls.hasFold
    ensures forall u :: tz.Owns(u) && u.fields == Fields(2023, 11, 5, 5, 29, 59) ==>
              ShowsInstant(EmulatedPlatform(OneTransition("America/St_Johns", StJohnsEnd, NDT, NST), 12600, 9000, 0),
                           tz, u, 1699162199, Fields(2023, 11, 5, 1, 59, 59), -12600, 0, "NST", 1)
  {
    StJohnsLaterEndFacts();
    Row("America/St_Johns", StJohnsEnd, NDT, NST, 12600, 9000, tz, Fields(2023, 11, 5, 5, 29, 59), 1699162199, Fields(2023, 11, 5, 1, 59, 59), NST, 1);
  }

  /** The instant and both wall clocks of the America/St_Johns row at the first instant after the repeated hour. */
  lemma StJohnsAfterClocks()
    ensures Timegm(Fields(2023, 11, 5, 5, 30, 0)) == 1699162200
    ensures Civil(1699162200 + NST.utcoff) == Fields(2023, 11, 5, 2, 0, 0)
    ensures BackwardTransition(NDT, NST, 12600, 9000)
  {
    Midnight2023(11, 5);
    InstantOf(Fields(2023, 11, 5, 5, 30, 0), 1699142400);
    WallClockOf(1699162200 + NST.utcoff, Fields(2023, 11, 5, 2, 0, 0), 1699142400);
    assert BackwardTransition(NDT, NST, 12600, 9000);
  }

  /** The precondition of `Row` for the same row. */
  lemma StJohnsAfterFacts()
    ensures RowFacts(StJohnsEnd, NDT, NST, 12600, 9000, Fields(2023, 11, 5, 5, 30, 0), 1699162200, Fields(2023, 11, 5, 2, 0, 0), NST, 0)
  {
    StJohnsAfterClocks();
  }

  /** America/St_Johns, the first instant after the repeated hour. */
  lemma StJohnsAfter(tz: SystemTZ)
    requires tz.dateTimeCls.hasFold
    ensures forall u :: tz.Owns(u) && u.fields == Fields(2023, 11, 5, 5, 30, 0) ==>
              ShowsInstant(EmulatedPlatform(OneTransition("America/St_Johns", StJohnsEnd, NDT, NST), 12600, 9000, 0),
                           tz, u, 1699162200, Fields(2023, 11, 5, 2, 0, 0), -12600, 0, "NST", 0)
  {
    StJohnsAfterFacts();
    Row("America/St_Johns", StJohnsEnd, NDT, NST, 12600, 9000, tz, Fields(2023, 11, 5, 5, 30, 0), 1699162200, Fields(2023, 11, 5, 2, 0, 0), NST, 0);
  }

  /** The America/St_Johns rows around the transition, including both occurrences of the repeated span. */
  lemma StJohnsFallBack(tz: SystemTZ)
    requires tz.dateTimeCls.hasFold
    ensures forall u :: tz.Owns(u) && u.fields == Fields(2023, 11, 5, 3, 30, 0) ==>
              ShowsInstant(EmulatedPlatform(OneTransition("America/St_Johns", StJohnsEnd, NDT, NST), 12600, 9000, 0),
                           tz, u, 1699155000, Fields(2023, 11, 5, 1, 0, 0), -9000, 3600, "NDT", 0)
    ensures forall u :: tz.Owns(u) && u.fields == Fields(2023, 11, 5, 4, 29, 59) ==>
              ShowsInstant(EmulatedPlatform(OneTransition("America/St_Johns", StJohnsEnd, NDT, NST), 12600, 9000, 0),
                           tz, u, 1699158599, Fields(2023, 11, 5, 1, 59, 59), -9000, 3600, "NDT", 0)
    ensures forall u :: tz.Owns(u) && u.fields == Fields(2023, 11, 5, 4, 30, 0) ==>
              ShowsInstant(EmulatedPlatform(OneTransition("America/St_Johns", StJohnsEnd, NDT, NST), 12600, 9000, 0),
                           tz, u, 1699158600, Fields(2023, 11, 5, 1, 0, 0), -12600, 0, "NST", 1)
    ensures forall u :: tz.Owns(u) && u.fields == Fields(2023, 11, 5, 5, 29, 59) ==>
              ShowsInstant(EmulatedPlatform(OneTransition("America/St_Johns", StJohnsEnd, NDT, NST), 12600, 9000, 0),
                           tz, u, 1699162199, Fields(2023, 11, 5, 1, 59, 59), -12600, 0, "NST", 1)
    ensures forall u :: tz.Owns(u) && u.fields == Fields(2023, 11, 5, 5, 30, 0) ==>
              ShowsInstant(EmulatedPlatform(OneTransition("America/St_Johns", StJohnsEnd, NDT, NST), 12600, 9000, 0),
                           tz, u, 1699162200, Fields(2023, 11, 5, 2, 0, 0), -12600, 0, "NST", 0)
  {
    StJohnsEarlierStart(tz);
    StJohnsEarlierEnd(tz);
    StJohnsLaterStart(tz);
    StJohnsLaterEnd(tz);
    StJohnsAfter(tz);
  }

  /** Europe/Dublin, 2023-10-29: IST (+1:00, standard time) falls back to GMT, whose DST amount is negative. */
  const DublinEnd: int := 1698541200
  const IST: Period := Period(3600, 0, "IST")
  const GMT: Period := Period(0, -3600, "GMT")

  /** The instant and both wall clocks of the Europe/Dublin row at the first instant of the repeated hour, first occurrence. */
  lemma DublinEarlierStartClocks()
    ensures Timegm(Fields(2023, 10, 29, 0, 0, 0)) == 1698537600
    ensures Civil(1698537600 + IST.utcoff) == Fields(2023, 10, 29, 1, 0, 0)
    ensures BackwardTransition(IST, GMT, -3600, 0)
  {
    Midnight2023(10, 29);
    InstantOf(Fields(2023, 10, 29, 0, 0, 0), 1698537600);
    WallClockOf(1698537600 + IST.utcoff, Fields(2023, 10, 29, 1, 0, 0), 1698537600);
    assert BackwardTransition(IST, GMT, -3600, 0);
  }

  /** The precondition of `Row` for the same row. */
  lemma DublinEarlierStartFacts()
    ensures RowFacts(DublinEnd, IST, GMT, -3600, 0, Fields(2023, 10, 29, 0, 0, 0), 1698537600, Fields(2023, 10, 29, 1, 0, 0), IST, 0)
  {
    DublinEarlierStartClocks();
  }

  /** Europe/Dublin, the first instant of the repeated hour, first occurrence. */
  lemma DublinEarlierStart(tz: SystemTZ)
    requires tz.dateTimeCls.hasFold
    ensures forall u :: tz.Owns(u) && u.fields == Fields(2023, 10, 29, 0, 0, 0) ==>
              ShowsInstant(EmulatedPlatform(OneTransition("Europe/Dublin", DublinEnd, IST, GMT), -3600, 0, 0),
                           tz, u, 1698537600, Fields(2023, 10, 29, 1, 0, 0), 3600, 0, "IST", 0)
  {
    DublinEarlierStartFacts();
    Row("Europe/Dublin", DublinEnd, IST, GMT, -3600, 0, tz, Fields(2023, 10, 29, 0, 0, 0), 1698537600, Fields(2023, 10, 29, 1, 0, 0), IST, 0);
  }

  /** The instant and both wall clocks of the Europe/Dublin row at the last second of the repeated hour, first occurrence. */
  lemma DublinEarlierEndClocks()
    ensures Timegm(Fields(2023, 10, 29, 0, 59, 59)) == 1698541199
    ensures Civil(1698541199 + IST.utcoff) == Fields(2023, 10, 29, 1, 59, 59)
    ensures BackwardTransition(IST, GMT, -3600, 0)
  {
    Midnight2023(10, 29);
    InstantOf(Fields(2023, 10, 29, 0, 59, 59), 1698537600);
    WallClockOf(1698541199 + IST.utcoff, Fields(2023, 10, 29, 1, 59, 59), 1698537600);
    assert BackwardTransition(IST, GMT, -3600, 0);
  }

  /** The precondition of `Row` for the same row. */
  lemma DublinEarlierEndFacts()
    ensures RowFacts(DublinEnd, IST, GMT, -3600, 0, Fields(2023, 10, 29, 0, 59, 59), 1698541199, Fields(2023, 10, 29, 1, 59, 59), IST, 0)
  {
    DublinEarlierEndClocks();
  }

  /** Europe/Dublin, the last second of the repeated hour, first occurrence. */
  lemma DublinEarlierEnd(tz: SystemTZ)
    requires tz.dateTimeCls.hasFold
    ensures forall u :: tz.Owns(u) && u.fields == Fields(2023, 10, 29, 0, 59, 59) ==>
              ShowsInstant(EmulatedPlatform(OneTransition("Europe/Dublin", DublinEnd, IST, GMT), -3600, 0, 0),
                           tz, u, 1698541199, Fields(2023, 10, 29, 1, 59, 59), 3600, 0, "IST", 0)
  {
    DublinEarlierEndFacts();
    Row("Europe/Dublin", DublinEnd, IST, GMT, -3600, 0, tz, Fields(2023, 10, 29, 0, 59, 59), 1698541199, Fields(2023, 10, 29, 1, 59, 59), IST, 0);
  }

  /** The instant and both wall clocks of the Europe/Dublin row at the first instant of the repeated hour, second occurrence (fold 1). */
  lemma DublinLaterStartClocks()
    ensures Timegm(Fields(2023, 10, 29, 1, 0, 0)) == 1698541200
    ensures Civil(1698541200 + GMT.utcoff) == Fields(2023, 10, 29, 1, 0, 0)
    ensures BackwardTransition(IST, GMT, -3600, 0)
  {
    Midnight2023(10, 29);
    InstantOf(Fields(2023, 10, 29, 1, 0, 0), 1698537600);
    WallClockOf(1698541200 + GMT.utcoff, Fields(2023, 10, 29, 1, 0, 0), 1698537600);
    assert BackwardTransition(IST, GMT, -3600, 0);
  }

  /** The precondition of `Row` for the same row. */
  lemma DublinLaterStartFacts()
    ensures RowFacts(DublinEnd, IST, GMT, -3600, 0, Fields(2023, 10, 29, 1, 0, 0), 1698541200, Fields(2023, 10, 29, 1, 0, 0), GMT, 1)
  {
    DublinLaterStartClocks();
  }

  /** Europe/Dublin, the first instant of the repeated hour, second occurrence (fold 1). */
  lemma DublinLaterStart(tz: SystemTZ)
    requires tz.dateTimeCls.hasFold
    ensures forall u :: tz.Owns(u) && u.fields == Fields(2023, 10, 29, 1, 0, 0) ==>
              ShowsInstant(EmulatedPlatform(OneTransition("Europe/Dublin", DublinEnd, IST, GMT), -3600, 0, 0),
                           tz, u, 1698541200, Fields(2023, 10, 29, 1, 0, 0), 0, -3600, "GMT", 1)
  {
    DublinLaterStartFacts();
    Row("Europe/Dublin", DublinEnd, IST, GMT, -3600, 0, tz, Fields(2023, 10, 29, 1, 0, 0), 1698541200, Fields(2023, 10, 29, 1, 0, 0), GMT, 1);
  }

  /** The instant and both wall clocks of the Europe/Dublin row at the last second of the repeated hour, second occurrence (fold 1). */
  lemma DublinLaterEndClocks()
    ensures Timegm(Fields(2023, 10, 29, 1, 59, 59)) == 1698544799
    ensures Civil(1698544799 + GMT.utcoff) == Fields(2023, 10, 29, 1, 59, 59)
    ensures BackwardTransition(IST, GMT, -3600, 0)
  {
    Midnight2023(10, 29);
    InstantOf(Fields(2023, 10, 29, 1, 59, 59), 1698537600);
    WallClockOf(1698544799 + GMT.utcoff, Fields(2023, 10, 29, 1, 59, 59), 1698537600);
    assert BackwardTransition(IST, GMT, -3600, 0);
  }

  /** The precondition of `Row` for the same row. */
  lemma DublinLaterEndFacts()
    ensures RowFacts(DublinEnd, IST, GMT, -3600, 0, Fields(2023, 10, 29, 1, 59, 59), 1698544799, Fields(2023, 10, 29, 1, 59, 59), GMT, 1)
  {
    DublinLaterEndClocks();
  }

  /** Europe/Dublin, the last second of the repeated hour, second occurrence (fold 1). */
  lemma DublinLaterEnd(tz: SystemTZ)
    requires tz.dateTimeCls.hasFold
    ensures forall u :: tz.Owns(u) && u.fields == Fields(2023, 10, 29, 1, 59, 59) ==>
              ShowsInstant(EmulatedPlatform(OneTransition("Europe/Dublin", DublinEnd, IST, GMT), -3600, 0, 0),
                           tz, u, 1698544799, Fields(2023, 10, 29, 1, 59, 59), 0, -3600, "GMT", 1)
  {
    DublinLaterEndFacts();
    Row("Europe/Dublin", DublinEnd, IST, GMT, -3600, 0, tz, Fields(2023, 10, 29, 1, 59, 59), 1698544799, Fields(2023, 10, 29, 1, 59, 59), GMT, 1);
  }

  /** The instant and both wall clocks of the Europe/Dublin row at the first instant after the repeated hour. */
  lemma DublinAfterClocks()
    ensures Timegm(Fields(2023, 10, 29, 2, 0, 0)) == 1698544800
    ensures Civil(1698544800 + GMT.utcoff) == Fields(2023, 10, 29, 2, 0, 0)
    ensures BackwardTransition(IST, GMT, -3600, 0)
  {
    Midnight2023(10, 29);
    InstantOf(Fields(2023, 10, 29, 2, 0, 0), 1698537600);
    WallClockOf(1698544800 + GMT.utcoff, Fields(2023, 10, 29, 2, 0, 0), 1698537600);
    assert BackwardTransition(IST, GMT, -3600, 0);
  }

  /** The precondition of `Row` for the same row. */
  lemma DublinAfterFacts()
    ensures RowFacts(DublinEnd, IST, GMT, -3600, 0, Fields(2023, 10, 29, 2, 0, 0), 1698544800, Fields(2023, 10, 29, 2, 0, 0), GMT, 0)
  {
    DublinAfterClocks();
  }

  /** Europe/Dublin, the first instant after the repeated hour. */
  lemma DublinAfter(tz: SystemTZ)
    requires tz.dateTimeCls.hasFold
    ensures forall u :: tz.Owns(u) && u.fields == Fields(2023, 10, 29, 2, 0, 0) ==>
              ShowsInstant(EmulatedPlatform(OneTransition("Europe/Dublin", DublinEnd, IST, GMT), -3600, 0, 0),
                           tz, u, 1698544800, Fields(2023, 10, 29, 2, 0, 0), 0, -3600, "GMT", 0)
  {
    DublinAfterFacts();
    Row("Europe/Dublin", DublinEnd, IST, GMT, -3600, 0, tz, Fields(2023, 10, 29, 2, 0, 0), 1698544800, Fields(2023, 10, 29, 2, 0, 0), GMT, 0);
  }

  /** The Europe/Dublin rows around the transition, including both occurrences of the repeated span. */
  lemma DublinFallBack(tz: SystemTZ)
    requires tz.dateTimeCls.hasFold
    ensures forall u :: tz.Owns(u) && u.fields == Fields(2023, 10, 29, 0, 0, 0) ==>
              ShowsInstant(EmulatedPlatform(OneTransition("Europe/Dublin", DublinEnd, IST, GMT), -3600, 0, 0),
                           tz, u, 1698537600, Fields(2023, 10, 29, 1, 0, 0), 3600, 0, "IST", 0)
    ensures forall u :: tz.Owns(u) && u.fields == Fields(2023, 10, 29, 0, 59, 59) ==>
              ShowsInstant(EmulatedPlatform(OneTransition("Europe/Dublin", DublinEnd, IST, GMT), -3600, 0, 0),
                           tz, u, 1698541199, Fields(2023, 10, 29, 1, 59, 59), 3600, 0, "IST", 0)
    ensures forall u :: tz.Owns(u) && u.fields == Fields(2023, 10, 29, 1, 0, 0) ==>
              ShowsInstant(EmulatedPlatform(OneTransition("Europe/Dublin", DublinEnd, IST, GMT), -3600, 0, 0),
                           tz, u, 1698541200, Fields(2023, 10, 29, 1, 0, 0), 0, -3600, "GMT", 1)
    ensures forall u :: tz.Owns(u) && u.fields == Fields(2023, 10, 29, 1, 59, 59) ==>
              ShowsInstant(EmulatedPlatform(OneTransition("Europe/Dublin", DublinEnd, IST, GMT), -3600, 0, 0),
                           tz, u, 1698544799, Fields(2023, 10, 29, 1, 59, 59), 0, -3600, "GMT", 1)
    ensures forall u :: tz.Owns(u) && u.fields == Fields(2023, 10, 29, 2, 0, 0) ==>
              ShowsInstant(EmulatedPlatform(OneTransition("Europe/Dublin", DublinEnd, IST, GMT), -3600, 0, 0),
                           tz, u, 1698544800, Fields(2023, 10, 29, 2, 0, 0), 0, -3600, "GMT", 0)
  {
    DublinEarlierStart(tz);
    DublinEarlierEnd(tz);
    DublinLaterStart(tz);
    DublinLaterEnd(tz);
    DublinAfter(tz);
  }

  /** Africa/El_Aaiun, 2023-03-19: +01 (standard time) falls back to +00, negative DST for Ramadan. */
  const ElAaiunStart: int := 1679191200
  const Plus01: Period := Period(3600, 0, "+01")
  const Plus00Ramadan: Period := Period(0, -3600, "+00")

  /** The instant and both wall clocks of the Africa/El_Aaiun row at the first instant of the repeated hour, first occurrence. */
  lemma ElAaiunEarlierStartClocks()
    ensures Timegm(Fields(2023, 3, 19, 1, 0, 0)) == 1679187600
    ensures Civil(1679187600 + Plus01.utcoff) == Fields(2023, 3, 19, 2, 0, 0)
    ensures BackwardTransition(Plus01, Plus00Ramadan, -3600, 0)
  {
    Midnight2023(3, 19);
    InstantOf(Fields(2023, 3, 19, 1, 0, 0), 1679184000);
    WallClockOf(1679187600 + Plus01.utcoff, Fields(2023, 3, 19, 2, 0, 0), 1679184000);
    assert BackwardTransition(Plus01, Plus00Ramadan, -3600, 0);
  }

  /** The precondition of `Row` for the same row. */
  lemma ElAaiunEarlierStartFacts()
    ensures RowFacts(ElAaiunStart, Plus01, Plus00Ramadan, -3600, 0, Fields(2023, 3, 19, 1, 0, 0), 1679187600, Fields(2023, 3, 19, 2, 0, 0), Plus01, 0)
  {
    ElAaiunEarlierStartClocks();
  }

  /** Africa/El_Aaiun, the first instant of the repeated hour, first occurrence. */
  lemma ElAaiunEarlierStart(tz: SystemTZ)
    requires tz.dateTimeCls.hasFold
    ensures forall u :: tz.Owns(u) && u.fields == Fields(2023, 3, 19, 1, 0, 0) ==>
              ShowsInstant(EmulatedPlatform(OneTransition("Africa/El_Aaiun", ElAaiunStart, Plus01, Plus00Ramadan), -3600, 0, 0),
                           tz, u, 1679187600, Fields(2023, 3, 19, 2, 0, 0), 3600, 0, "+01", 0)
  {
    ElAaiunEarlierStartFacts();
    Row("Africa/El_Aaiun", ElAaiunStart, Plus01, Plus00Ramadan, -3600, 0, tz, Fields(2023, 3, 19, 1, 0, 0), 1679187600, Fields(2023, 3, 19, 2, 0, 0), Plus01, 0);
  }

  /** The instant and both wall clocks of the Africa/El_Aaiun row at the last second of the repeated hour, first occurrence. */
  lemma ElAaiunEarlierEndClocks()
    ensures Timegm(Fields(2023, 3, 19, 1, 59, 59)) == 1679191199
    ensures Civil(1679191199 + Plus01.utcoff) == Fields(2023, 3, 19, 2, 59, 59)
    ensures BackwardTransition(Plus01, Plus00Ramadan, -3600, 0)
  {
    Midnight2023(3, 19);
    InstantOf(Fields(2023, 3, 19, 1, 59, 59), 1679184000);
    WallClockOf(1679191199 + Plus01.utcoff, Fields(2023, 3, 19, 2, 59, 59), 1679184000);
    assert BackwardTransition(Plus01, Plus00Ramadan, -3600, 0);
  }

  /** The precondition of `Row` for the same row. */
  lemma ElAaiunEarlierEndFacts()
    ensures RowFacts(ElAaiunStart, Plus01, Plus00Ramadan, -3600, 0, Fields(2023, 3, 19, 1, 59, 59), 1679191199, Fields(2023, 3, 19, 2, 59, 59), Plus01, 0)
  {
    ElAaiunEarlierEndClocks();
  }

  /** Africa/El_Aaiun, the last second of the repeated hour, first occurrence. */
  lemma ElAaiunEarlierEnd(tz: SystemTZ)
    requires tz.dateTimeCls.hasFold
    ensures forall u :: tz.Owns(u) && u.fields == Fields(2023, 3, 19, 1, 59, 59) ==>
              ShowsInstant(EmulatedPlatform(OneTransition("Africa/El_Aaiun", ElAaiunStart, Plus01, Plus00Ramadan), -3600, 0, 0),
                           tz, u, 1679191199, Fields(2023, 3, 19, 2, 59, 59), 3600, 0, "+01", 0)
  {
    ElAaiunEarlierEndFacts();
    Row("Africa/El_Aaiun", ElAaiunStart, Plus01, Plus00Ramadan, -3600, 0, tz, Fields(2023, 3, 19, 1, 59, 59), 1679191199, Fields(2023, 3, 19, 2, 59, 59), Plus01, 0);
  }

  /** The instant and both wall clocks of the Africa/El_Aaiun row at the first instant of the repeated hour, second occurrence (fold 1). */
  lemma ElAaiunLaterStartClocks()
    ensures Timegm(Fields(2023, 3, 19, 2, 0, 0)) == 1679191200
    ensures Civil(1679191200 + Plus00Ramadan.utcoff) == Fields(2023, 3, 19, 2, 0, 0)
    ensures BackwardTransition(Plus01, Plus00Ramadan, -3600, 0)
  {
    Midnight2023(3, 19);
    InstantOf(Fields(2023, 3, 19, 2, 0, 0), 1679184000);
    WallClockOf(1679191200 + Plus00Ramadan.utcoff, Fields(2023, 3, 19, 2, 0, 0), 1679184000);
    assert BackwardTransition(Plus01, Plus00Ramadan, -3600, 0);
  }

  /** The precondition of `Row` for the same row. */
  lemma ElAaiunLaterStartFacts()
    ensures RowFacts(ElAaiunStart, Plus01, Plus00Ramadan, -3600, 0, Fields(2023, 3, 19, 2, 0, 0), 1679191200, Fields(2023, 3, 19, 2, 0, 0), Plus00Ramadan, 1)
  {
    ElAaiunLaterStartClocks();
  }

  /** Africa/El_Aaiun, the first instant of the repeated hour, second occurrence (fold 1). */
  lemma ElAaiunLaterStart(tz: SystemTZ)
    requires tz.dateTimeCls.hasFold
    ensures forall u :: tz.Owns(u) && u.fields == Fields(2023, 3, 19, 2, 0, 0) ==>
              ShowsInstant(EmulatedPlatform(OneTransition("Africa/El_Aaiun", ElAaiunStart, Plus01, Plus00Ramadan), -3600, 0, 0),
                           tz, u, 1679191200, Fields(2023, 3, 19, 2, 0, 0), 0, -3600, "+00", 1)
  {
    ElAaiunLaterStartFacts();
    Row("Africa/El_Aaiun", ElAaiunStart, Plus01, Plus00Ramadan, -3600, 0, tz, Fields(2023, 3, 19, 2, 0, 0), 1679191200, Fields(2023, 3, 19, 2, 0, 0), Plus00Ramadan, 1);
  }

  /** The instant and both wall clocks of the Africa/El_Aaiun row at the last second of the repeated hour, second occurrence (fold 1). */
  lemma ElAaiunLaterEndClocks()
    ensures Timegm(Fields(2023, 3, 19, 2, 59, 59)) == 1679194799
    ensures Civil(1679194799 + Plus00Ramadan.utcoff) == Fields(2023, 3, 19, 2, 59, 59)
    ensures BackwardTransition(Plus01, Plus00Ramadan, -3600, 0)
  {
    Midnight2023(3, 19);
    InstantOf(Fields(2023, 3, 19, 2, 59, 59), 1679184000);
    WallClockOf(1679194799 + Plus00Ramadan.utcoff, Fields(2023, 3, 19, 2, 59, 59), 1679184000);
    assert BackwardTransition(Plus01, Plus00Ramadan, -3600, 0);
  }

  /** The precondition of `Row` for the same row. */
  lemma ElAaiunLaterEndFacts()
    ensures RowFacts(ElAaiunStart, Plus01, Plus00Ramadan, -3600, 0, Fields(2023, 3, 19, 2, 59, 59), 1679194799, Fields(2023, 3, 19, 2, 59, 59), Plus00Ramadan, 1)
  {
    ElAaiunLaterEndClocks();
  }

  /** Africa/El_Aaiun, the last second of the repeated hour, second occurrence (fold 1). */
  lemma ElAaiunLaterEnd(tz: SystemTZ)
    requires tz.dateTimeCls.hasFold
    ensures forall u :: tz.Owns(u) && u.fields == Fields(2023, 3, 19, 2, 59, 59) ==>
              ShowsInstant(EmulatedPlatform(OneTransition("Africa/El_Aaiun", ElAaiunStart, Plus01, Plus00Ramadan), -3600, 0, 0),
                           tz, u, 1679194799, Fields(2023, 3, 19, 2, 59, 59), 0, -3600, "+00", 1)
  {
    ElAaiunLaterEndFacts();
    Row("Africa/El_Aaiun", ElAaiunStart, Plus01, Plus00Ramadan, -3600, 0, tz, Fields(2023, 3, 19, 2, 59, 59), 1679194799, Fields(2023, 3, 19, 2, 59, 59), Plus00Ramadan, 1);
  }

  /** The instant and both wall clocks of the Africa/El_Aaiun row at the first instant after the repeated hour. */
  lemma ElAaiunAfterClocks()
    ensures Timegm(Fields(2023, 3, 19, 3, 0, 0)) == 1679194800
    ensures Civil(1679194800 + Plus00Ramadan.utcoff) == Fields(2023, 3, 19, 3, 0, 0)
    ensures BackwardTransition(Plus01, Plus00Ramadan, -3600, 0)
  {
    Midnight2023(3, 19);
    InstantOf(Fields(2023, 3, 19, 3, 0, 0), 1679184000);
    WallClockOf(1679194800 + Plus00Ramadan.utcoff, Fields(2023, 3, 19, 3, 0, 0), 1679184000);
    assert BackwardTransition(Plus01, Plus00Ramadan, -3600, 0);
  }

  /** The precondition of `Row` for the same row. */
  lemma ElAaiunAfterFacts()
    ensures RowFacts(ElAaiunStart, Plus01, Plus00Ramadan, -3600, 0, Fields(2023, 3, 19, 3, 0, 0), 1679194800, Fields(2023, 3, 19, 3, 0, 0), Plus00Ramadan, 0)
  {
    ElAaiunAfterClocks();
  }

  /** Africa/El_Aaiun, the first instant after the repeated hour. */
  lemma ElAaiunAfter(tz: SystemTZ)
    requires tz.dateTimeCls.hasFold
    ensures forall u :: tz.Owns(u) && u.fields == Fields(2023, 3, 19, 3, 0, 0) ==>
              ShowsInstant(EmulatedPlatform(OneTransition("Africa/El_Aaiun", ElAaiunStart, Plus01, Plus00Ramadan), -3600, 0, 0),
                           tz, u, 1679194800, Fields(2023, 3, 19, 3, 0, 0), 0, -3600, "+00", 0)
  {
    ElAaiunAfterFacts();
    Row("Africa/El_Aaiun", ElAaiunStart, Plus01, Plus00Ramadan, -3600, 0, tz, Fields(2023, 3, 19, 3, 0, 0), 1679194800, Fields(2023, 3, 19, 3, 0, 0), Plus00Ramadan, 0);
  }

  /** The Africa/El_Aaiun rows around the transition, including both occurrences of the repeated span. */
  lemma ElAaiunFallBack(tz: SystemTZ)
    requires tz.dateTimeCls.hasFold
    ensures forall u :: tz.Owns(u) && u.fields == Fields(2023, 3, 19, 1, 0, 0) ==>
              ShowsInstant(EmulatedPlatform(OneTransition("Africa/El_Aaiun", ElAaiunStart, Plus01, Plus00Ramadan), -3600, 0, 0),
                           tz, u, 1679187600, Fields(2023, 3, 19, 2, 0, 0), 3600, 0, "+01", 0)
    ensures forall u :: tz.Owns(u) && u.fields == Fields(2023, 3, 19, 1, 59, 59) ==>
              ShowsInstant(EmulatedPlatform(OneTransition("Africa/El_Aaiun", ElAaiunStart, Plus01, Plus00Ramadan), -3600, 0, 0),
                           tz, u, 1679191199, Fields(2023, 3, 19, 2, 59, 59), 3600, 0, "+01", 0)
    ensures forall u :: tz.Owns(u) && u.fields == Fields(2023, 3, 19, 2, 0, 0) ==>
              ShowsInstant(EmulatedPlatform(OneTransition("Africa/El_Aaiun", ElAaiunStart, Plus01, Plus00Ramadan), -3600, 0, 0),
                           tz, u, 1679191200, Fields(2023, 3, 19, 2, 0, 0), 0, -3600, "+00", 1)
    ensures forall u :: tz.Owns(u) && u.fields == Fields(2023, 3, 19, 2, 59, 59) ==>
              ShowsInstant(EmulatedPlatform(OneTransition("Africa/El_Aaiun", ElAaiunStart, Plus01, Plus00Ramadan), -3600, 0, 0),
                           tz, u, 1679194799, Fields(2023, 3, 19, 2, 59, 59), 0, -3600, "+00", 1)
    ensures forall u :: tz.Owns(u) && u.fields == Fields(2023, 3, 19, 3, 0, 0) ==>
              ShowsInstant(EmulatedPlatform(OneTransition("Africa/El_Aaiun", ElAaiunStart, Plus01, Plus00Ramadan), -3600, 0, 0),
                           tz, u, 1679194800, Fields(2023, 3, 19, 3, 0, 0), 0, -3600, "+00", 0)
  {
    ElAaiunEarlierStart(tz);
    ElAaiunEarlierEnd(tz);
    ElAaiunLaterStart(tz);
    ElAaiunLaterEnd(tz);
    ElAaiunAfter(tz);
  }

  /** Australia/Lord_Howe, 2023-04-02: +11 (half an hour of DST) falls back to +1030. */
  const LordHoweEnd: int := 1680361200
  const Plus11: Period := Period(39600, 1800, "+11")
  const Plus1030: Period := Period(37800, 0, "+1030")

  /** The instant and both wall clocks of the Australia/Lord_Howe row at the first instant of the repeated hour, first occurrence. */
  lemma LordHoweEarlierStartClocks()
    ensures Timegm(Fields(2023, 4, 1, 14, 30, 0)) == 1680359400
    ensures Civil(1680359400 + Plus11.utcoff) == Fields(2023, 4, 2, 1, 30, 0)
    ensures BackwardTransition(Plus11, Plus1030, -37800, -39600)
  {
    Midnight2023(4, 1);
    Midnight2023(4, 2);
    InstantOf(Fields(2023, 4, 1, 14, 30, 0), 1680307200);
    WallClockOf(1680359400 + Plus11.utcoff, Fields(2023, 4, 2, 1, 30, 0), 1680393600);
    assert BackwardTransition(Plus11, Plus1030, -37800, -39600);
  }

  /** The precondition of `Row` for the same row. */
  lemma LordHoweEarlierStartFacts()
    ensures RowFacts(LordHoweEnd, Plus11, Plus1030, -37800, -39600, Fields(2023, 4, 1, 14, 30, 0), 1680359400, Fields(2023, 4, 2, 1, 30, 0), Plus11, 0)
  {
    LordHoweEarlierStartClocks();
  }

  /** Australia/Lord_Howe, the first instant of the repeated hour, first occurrence. */
  lemma LordHoweEarlierStart(tz: SystemTZ)
    requires tz.dateTimeCls.hasFold
    ensures forall u :: tz.Owns(u) && u.fields == Fields(2023, 4, 1, 14, 30, 0) ==>
              ShowsInstant(EmulatedPlatform(OneTransition("Australia/Lord_Howe", LordHoweEnd, Plus11, Plus1030), -37800, -39600, 0),
                           tz, u, 1680359400, Fields(2023, 4, 2, 1, 30, 0), 39600, 1800, "+11", 0)
  {
    LordHoweEarlierStartFacts();
    Row("Australia/Lord_Howe", LordHoweEnd, Plus11, Plus1030, -37800, -39600, tz, Fields(2023, 4, 1, 14, 30, 0), 1680359400, Fields(2023, 4, 2, 1, 30, 0), Plus11, 0);
  }

  /** The instant and both wall clocks of the Australia/Lord_Howe row at the last second of the repeated hour, first occurrence. */
  lemma LordHoweEarlierEndClocks()
    ensures Timegm(Fields(2023, 4, 1, 14, 59, 59)) == 1680361199
    ensures Civil(1680361199 + Plus11.utcoff) == Fields(2023, 4, 2, 1, 59, 59)
    ensures BackwardTransition(Plus11, Plus1030, -37800, -39600)
  {
    Midnight2023(4, 1);
    Midnight2023(4, 2);
    InstantOf(Fields(2023, 4, 1, 14, 59, 59), 1680307200);
    WallClockOf(1680361199 + Plus11.utcoff, Fields(2023, 4, 2, 1, 59, 59), 1680393600);
    assert BackwardTransition(Plus11, Plus1030, -37800, -39600);
  }

  /** The precondition of `Row` for the same row. */
  lemma LordHoweEarlierEndFacts()
    ensures RowFacts(LordHoweEnd, Plus11, Plus1030, -37800, -39600, Fields(2023, 4, 1, 14, 59, 59), 1680361199, Fields(2023, 4, 2, 1, 59, 59), Plus11, 0)
  {
    LordHoweEarlierEndClocks();
  }

  /** Australia/Lord_Howe, the last second of the repeated hour, first occurrence. */
  lemma LordHoweEarlierEnd(tz: SystemTZ)
    requires tz.dateTimeCls.hasFold
    ensures forall u :: tz.Owns(u) && u.fields == Fields(2023, 4, 1, 14, 59, 59) ==>
              ShowsInstant(EmulatedPlatform(OneTransition("Australia/Lord_Howe", LordHoweEnd, Plus11, Plus1030), -37800, -39600, 0),
                           tz, u, 1680361199, Fields(2023, 4, 2, 1, 59, 59), 39600, 1800, "+11", 0)
  {
    LordHoweEarlierEndFacts();
    Row("Australia/Lord_Howe", LordHoweEnd, Plus11, Plus1030, -37800, -39600, tz, Fields(2023, 4, 1, 14, 59, 59), 1680361199, Fields(2023, 4, 2, 1, 59, 59), Plus11, 0);
  }

  /** The instant and both wall clocks of the Australia/Lord_Howe row at the first instant of the repeated hour, second occurrence (fold 1). */
  lemma LordHoweLaterStartClocks()
    ensures Timegm(Fields(2023, 4, 1, 15, 0, 0)) == 1680361200
    ensures Civil(1680361200 + Plus1030.utcoff) == Fields(2023, 4, 2, 1, 30, 0)
    ensures BackwardTransition(Plus11, Plus1030, -37800, -39600)
  {
    Midnight2023(4, 1);
    Midnight2023(4, 2);
    InstantOf(Fields(2023, 4, 1, 15, 0, 0), 1680307200);
    WallClockOf(1680361200 + Plus1030.utcoff, Fields(2023, 4, 2, 1, 30, 0), 1680393600);
    assert BackwardTransition(Plus11, Plus1030, -37800, -39600);
  }

  /** The precondition of `Row` for the same row. */
  lemma LordHoweLaterStartFacts()
    ensures RowFacts(LordHoweEnd, Plus11, Plus1030, -37800, -39600, Fields(2023, 4, 1, 15, 0, 0), 1680361200, Fields(2023, 4, 2, 1, 30, 0), Plus1030, 1)
  {
    LordHoweLaterStartClocks();
  }

  /** Australia/Lord_Howe, the first instant of the repeated hour, second occurrence (fold 1). */
  lemma LordHoweLaterStart(tz: SystemTZ)
    requires tz.dateTimeCls.hasFold
    ensures forall u :: tz.Owns(u) && u.fields == Fields(2023, 4, 1, 15, 0, 0) ==>
              ShowsInstant(EmulatedPlatform(OneTransition("Australia/Lord_Howe", LordHoweEnd, Plus11, Plus1030), -37800, -39600, 0),
                           tz, u, 1680361200, Fields(2023, 4, 2, 1, 30, 0), 37800, 0, "+1030", 1)
  {
    LordHoweLaterStartFacts();
    Row("Australia/Lord_Howe", LordHoweEnd, Plus11, Plus1030, -37800, -39600, tz, Fields(2023, 4, 1, 15, 0, 0), 1680361200, Fields(2023, 4, 2, 1, 30, 0), Plus1030, 1);
  }

  /** The instant and both wall clocks of the Australia/Lord_Howe row at the last second of the repeated hour, second occurrence (fold 1). */
  lemma LordHoweLaterEndClocks()
    ensures Timegm(Fields(2023, 4, 1, 15, 29, 59)) == 1680362999
    ensures Civil(1680362999 + Plus1030.utcoff) == Fields(2023, 4, 2, 1, 59, 59)
    ensures BackwardTransition(Plus11, Plus1030, -37800, -39600)
  {
    Midnight2023(4, 1);
    Midnight2023(4, 2);
    InstantOf(Fields(2023, 4, 1, 15, 29, 59), 1680307200);
    WallClockOf(1680362999 + Plus1030.utcoff, Fields(2023, 4, 2, 1, 59, 59), 1680393600);
    assert BackwardTransition(Plus11, Plus1030, -37800, -39600);
  }

  /** The precondition of `Row` for the same row. */
  lemma LordHoweLaterEndFacts()
    ensures RowFacts(LordHoweEnd, Plus11, Plus1030, -37800, -39600, Fields(2023, 4, 1, 15, 29, 59), 1680362999, Fields(2023, 4, 2, 1, 59, 59), Plus1030, 1)
  {
    LordHoweLaterEndClocks();
  }

  /** Australia/Lord_Howe, the last second of the repeated hour, second occurrence (fold 1). */
  lemma LordHoweLaterEnd(tz: SystemTZ)
    requires tz.dateTimeCls.hasFold
    ensures forall u :: tz.Owns(u) && u.fields == Fields(2023, 4, 1, 15, 29, 59) ==>
              ShowsInstant(EmulatedPlatform(OneTransition("Australia/Lord_Howe", LordHoweEnd, Plus11, Plus1030), -37800, -39600, 0),
                           tz, u, 1680362999, Fields(2023, 4, 2, 1, 59, 59), 37800, 0, "+1030", 1)
  {
    LordHoweLaterEndFacts();
    Row("Australia/Lord_Howe", LordHoweEnd, Plus11, Plus1030, -37800, -39600, tz, Fields(2023, 4, 1, 15, 29, 59), 1680362999, Fields(2023, 4, 2, 1, 59, 59), Plus1030, 1);
  }

  /** The instant and both wall clocks of the Australia/Lord_Howe row at the first instant after the repeated hour. */
  lemma LordHoweAfterClocks()
    ensures Timegm(Fields(2023, 4, 1, 15, 30, 0)) == 1680363000
    ensures Civil(1680363000 + Plus1030.utcoff) == Fields(2023, 4, 2, 2, 0, 0)
    ensures BackwardTransition(Plus11, Plus1030, -37800, -39600)
  {
    Midnight2023(4, 1);
    Midnight2023(4, 2);
    InstantOf(Fields(2023, 4, 1, 15, 30, 0), 1680307200);
    WallClockOf(1680363000 + Plus1030.utcoff, Fields(2023, 4, 2, 2, 0, 0), 1680393600);
    assert BackwardTransition(Plus11, Plus1030, -37800, -39600);
  }

  /** The precondition of `Row` for the same row. */
  lemma LordHoweAfterFacts()
    ensures RowFacts(LordHoweEnd, Plus11, Plus1030, -37800, -39600, Fields(2023, 4, 1, 15, 30, 0), 1680363000, Fields(2023, 4, 2, 2, 0, 0), Plus1030, 0)
  {
    LordHoweAfterClocks();
  }

  /** Australia/Lord_Howe, the first instant after the repeated hour. */
  lemma LordHoweAfter(tz: SystemTZ)
    requires tz.dateTimeCls.hasFold
    ensures forall u :: tz.Owns(u) && u.fields == Fields(2023, 4, 1, 15, 30, 0) ==>
              ShowsInstant(EmulatedPlatform(OneTransition("Australia/Lord_Howe", LordHoweEnd, Plus11, Plus1030), -37800, -39600, 0),
                           tz, u, 1680363000, Fields(2023, 4, 2, 2, 0, 0), 37800, 0, "+1030", 0)
  {
    LordHoweAfterFacts();
    Row("Australia/Lord_Howe", LordHoweEnd, Plus11, Plus1030, -37800, -39600, tz, Fields(2023, 4, 1, 15, 30, 0), 1680363000, Fields(2023, 4, 2, 2, 0, 0), Plus1030, 0);
  }

  /** The Australia/Lord_Howe rows around the transition, including both occurrences of the repeated span. */
  lemma LordHoweFallBack(tz: SystemTZ)
    requires tz.dateTimeCls.hasFold
    ensures forall u :: tz.Owns(u) && u.fields == Fields(2023, 4, 1, 14, 30, 0) ==>
              ShowsInstant(EmulatedPlatform(OneTransition("Australia/Lord_Howe", LordHoweEnd, Plus11, Plus1030), -37800, -39600, 0),
                           tz, u, 1680359400, Fields(2023, 4, 2, 1, 30, 0), 39600, 1800, "+11", 0)
    ensures forall u :: tz.Owns(u) && u.fields == Fields(2023, 4, 1, 14, 59, 59) ==>
              ShowsInstant(EmulatedPlatform(OneTransition("Australia/Lord_Howe", LordHoweEnd, Plus11, Plus1030), -37800, -39600, 0),
                           tz, u, 1680361199, Fields(2023, 4, 2, 1, 59, 59), 39600, 1800, "+11", 0)
    ensures forall u :: tz.Owns(u) && u.fields == Fields(2023, 4, 1, 15, 0, 0) ==>
              ShowsInstant(EmulatedPlatform(OneTransition("Australia/Lord_Howe", LordHoweEnd, Plus11, Plus1030), -37800, -39600, 0),
                           tz, u, 1680361200, Fields(2023, 4, 2, 1, 30, 0), 37800, 0, "+1030", 1)
    ensures forall u :: tz.Owns(u) && u.fields == Fields(2023, 4, 1, 15, 29, 59) ==>
              ShowsInstant(EmulatedPlatform(OneTransition("Australia/Lord_Howe", LordHoweEnd, Plus11, Plus1030), -37800, -39600, 0),
                           tz, u, 1680362999, Fields(2023, 4, 2, 1, 59, 59), 37800, 0, "+1030", 1)
    ensures forall u :: tz.Owns(u) && u.fields == Fields(2023, 4, 1, 15, 30, 0) ==>
              ShowsInstant(EmulatedPlatform(OneTransition("Australia/Lord_Howe", LordHoweEnd, Plus11, Plus1030), -37800, -39600, 0),
                           tz, u, 1680363000, Fields(2023, 4, 2, 2, 0, 0), 37800, 0, "+1030", 0)
  {
    LordHoweEarlierStart(tz);
    LordHoweEarlierEnd(tz);
    LordHoweLaterStart(tz);
    LordHoweLaterEnd(tz);
    LordHoweAfter(tz);
  }

  /** Antarctica/Troll, 2023-10-29: +02 (two hours of DST) falls back to +00. */
  const TrollEnd: int := 1698541200
  const Plus02: Period := Period(7200, 7200, "+02")
  const Plus00: Period := Period(0, 0, "+00")

  /** The instant and both wall clocks of the Antarctica/Troll row at the first instant of the repeated hour, first occurrence. */
  lemma TrollEarlierStartClocks()
    ensures Timegm(Fields(2023, 10, 28, 23, 0, 0)) == 1698534000
    ensures Civil(1698534000 + Plus02.utcoff) == Fields(2023, 10, 29, 1, 0, 0)
    ensures BackwardTransition(Plus02, Plus00, 0, -7200)
  {
    Midnight2023(10, 28);
    Midnight2023(10, 29);
    InstantOf(Fields(2023, 10, 28, 23, 0, 0), 1698451200);
    WallClockOf(1698534000 + Plus02.utcoff, Fields(2023, 10, 29, 1, 0, 0), 1698537600);
    assert BackwardTransition(Plus02, Plus00, 0, -7200);
  }

  /** The precondition of `Row` for the same row. */
  lemma TrollEarlierStartFacts()
    ensures RowFacts(TrollEnd, Plus02, Plus00, 0, -7200, Fields(2023, 10, 28, 23, 0, 0), 1698534000, Fields(2023, 10, 29, 1, 0, 0), Plus02, 0)
  {
    TrollEarlierStartClocks();
  }

  /** Antarctica/Troll, the first instant of the repeated hour, first occurrence. */
  lemma TrollEarlierStart(tz: SystemTZ)
    requires tz.dateTimeCls.hasFold
    ensures forall u :: tz.Owns(u) && u.fields == Fields(2023, 10, 28, 23, 0, 0) ==>
              ShowsInstant(EmulatedPlatform(OneTransition("Antarctica/Troll", TrollEnd, Plus02, Plus00), 0, -7200, 0),
                           tz, u, 1698534000, Fields(2023, 10, 29, 1, 0, 0), 7200, 7200, "+02", 0)
  {
    TrollEarlierStartFacts();
    Row("Antarctica/Troll", TrollEnd, Plus02, Plus00, 0, -7200, tz, Fields(2023, 10, 28, 23, 0, 0), 1698534000, Fields(2023, 10, 29, 1, 0, 0), Plus02, 0);
  }

  /** The instant and both wall clocks of the Antarctica/Troll row at the last second of the repeated hour, first occurrence. */
  lemma TrollEarlierEndClocks()
    ensures Timegm(Fields(2023, 10, 29, 0, 59, 59)) == 1698541199
    ensures Civil(1698541199 + Plus02.utcoff) == Fields(2023, 10, 29, 2, 59, 59)
    ensures BackwardTransition(Plus02, Plus00, 0, -7200)
  {
    Midnight2023(10, 29);
    InstantOf(Fields(2023, 10, 29, 0, 59, 59), 1698537600);
    WallClockOf(1698541199 + Plus02.utcoff, Fields(2023, 10, 29, 2, 59, 59), 1698537600);
    assert BackwardTransition(Plus02, Plus00, 0, -7200);
  }

  /** The precondition of `Row` for the same row. */
  lemma TrollEarlierEndFacts()
    ensures RowFacts(TrollEnd, Plus02, Plus00, 0, -7200, Fields(2023, 10, 29, 0, 59, 59), 1698541199, Fields(2023, 10, 29, 2, 59, 59), Plus02, 0)
  {
    TrollEarlierEndClocks();
  }

  /** Antarctica/Troll, the last second of the repeated hour, first occurrence. */
  lemma TrollEarlierEnd(tz: SystemTZ)
    requires tz.dateTimeCls.hasFold
    ensures forall u :: tz.Owns(u) && u.fields == Fields(2023, 10, 29, 0, 59, 59) ==>
              ShowsInstant(EmulatedPlatform(OneTransition("Antarctica/Troll", TrollEnd, Plus02, Plus00), 0, -7200, 0),
                           tz, u, 1698541199, Fields(2023, 10, 29, 2, 59, 59), 7200, 7200, "+02", 0)
  {
    TrollEarlierEndFacts();
    Row("Antarctica/Troll", TrollEnd, Plus02, Plus00, 0, -7200, tz, Fields(2023, 10, 29, 0, 59, 59), 1698541199, Fields(2023, 10, 29, 2, 59, 59), Plus02, 0);
  }

  /** The instant and both wall clocks of the Antarctica/Troll row at the first instant of the repeated hour, second occurrence (fold 1). */
  lemma TrollLaterStartClocks()
    ensures Timegm(Fields(2023, 10, 29, 1, 0, 0)) == 1698541200
    ensures Civil(1698541200 + Plus00.utcoff) == Fields(2023, 10, 29, 1, 0, 0)
    ensures BackwardTransition(Plus02, Plus00, 0, -7200)
  {
    Midnight2023(10, 29);
    InstantOf(Fields(2023, 10, 29, 1, 0, 0), 1698537600);
    WallClockOf(1698541200 + Plus00.utcoff, Fields(2023, 10, 29, 1, 0, 0), 1698537600);
    assert BackwardTransition(Plus02, Plus00, 0, -7200);
  }

  /** The precondition of `Row` for the same row. */
  lemma TrollLaterStartFacts()
    ensures RowFacts(TrollEnd, Plus02, Plus00, 0, -7200, Fields(2023, 10, 29, 1, 0, 0), 1698541200, Fields(2023, 10, 29, 1, 0, 0), Plus00, 1)
  {
    TrollLaterStartClocks();
  }

  /** Antarctica/Troll, the first instant of the repeated hour, second occurrence (fold 1). */
  lemma TrollLaterStart(tz: SystemTZ)
    requires tz.dateTimeCls.hasFold
    ensures forall u :: tz.Owns(u) && u.fields == Fields(2023, 10, 29, 1, 0, 0) ==>
              ShowsInstant(EmulatedPlatform(OneTransition("Antarctica/Troll", TrollEnd, Plus02, Plus00), 0, -7200, 0),
                           tz, u, 1698541200, Fields(2023, 10, 29, 1, 0, 0), 0, 0, "+00", 1)
  {
    TrollLaterStartFacts();
    Row("Antarctica/Troll", TrollEnd, Plus02, Plus00, 0, -7200, tz, Fields(2023, 10, 29, 1, 0, 0), 1698541200, Fields(2023, 10, 29, 1, 0, 0), Plus00, 1);
  }

  /** The instant and both wall clocks of the Antarctica/Troll row at the last second of the repeated hour, second occurrence (fold 1). */
  lemma TrollLaterEndClocks()
    ensures Timegm(Fields(2023, 10, 29, 2, 59, 59)) == 1698548399
    ensures Civil(1698548399 + Plus00.utcoff) == Fields(2023, 10, 29, 2, 59, 59)
    ensures BackwardTransition(Plus02, Plus00, 0, -7200)
  {
    Midnight2023(10, 29);
    InstantOf(Fields(2023, 10, 29, 2, 59, 59), 1698537600);
    WallClockOf(1698548399 + Plus00.utcoff, Fields(2023, 10, 29, 2, 59, 59), 1698537600);
    assert BackwardTransition(Plus02, Plus00, 0, -7200);
  }

  /** The precondition of `Row` for the same row. */
  lemma TrollLaterEndFacts()
    ensures RowFacts(TrollEnd, Plus02, Plus00, 0, -7200, Fields(2023, 10, 29, 2, 59, 59), 1698548399, Fields(2023, 10, 29, 2, 59, 59), Plus00, 1)
  {
    TrollLaterEndClocks();
  }

  /** Antarctica/Troll, the last second of the repeated hour, second occurrence (fold 1). */
  lemma TrollLaterEnd(tz: SystemTZ)
    requires tz.dateTimeCls.hasFold
    ensures forall u :: tz.Owns(u) && u.fields == Fields(2023, 10, 29, 2, 59, 59) ==>
              ShowsInstant(EmulatedPlatform(OneTransition("Antarctica/Troll", TrollEnd, Plus02, Plus00), 0, -7200, 0),
                           tz, u, 1698548399, Fields(2023, 10, 29, 2, 59, 59), 0, 0, "+00", 1)
  {
    TrollLaterEndFacts();
    Row("Antarctica/Troll", TrollEnd, Plus02, Plus00, 0, -7200, tz, Fields(2023, 10, 29, 2, 59, 59), 1698548399, Fields(2023, 10, 29, 2, 59, 59), Plus00, 1);
  }

  /** The instant and both wall clocks of the Antarctica/Troll row at the first instant after the repeated hour. */
  lemma TrollAfterClocks()
    ensures Timegm(Fields(2023, 10, 29, 3, 0, 0)) == 1698548400
    ensures Civil(1698548400 + Plus00.utcoff) == Fields(2023, 10, 29, 3, 0, 0)
    ensures BackwardTransition(Plus02, Plus00, 0, -7200)
  {
    Midnight2023(10, 29);
    InstantOf(Fields(2023, 10, 29, 3, 0, 0), 1698537600);
    WallClockOf(1698548400 + Plus00.utcoff, Fields(2023, 10, 29, 3, 0, 0), 1698537600);
    assert BackwardTransition(Plus02, Plus00, 0, -7200);
  }

  /** The precondition of `Row` for the same row. */
  lemma TrollAfterFacts()
    ensures RowFacts(TrollEnd, Plus02, Plus00, 0, -7200, Fields(2023, 10, 29, 3, 0, 0), 1698548400, Fields(2023, 10, 29, 3, 0, 0), Plus00, 0)
  {
    TrollAfterClocks();
  }

  /** Antarctica/Troll, the first instant after the repeated hour. */
  lemma TrollAfter(tz: SystemTZ)
    requires tz.dateTimeCls.hasFold
    ensures forall u :: tz.Owns(u) && u.fields == Fields(2023, 10, 29, 3, 0, 0) ==>
              ShowsInstant(EmulatedPlatform(OneTransition("Antarctica/Troll", TrollEnd, Plus02, Plus00), 0, -7200, 0),
                           tz, u, 1698548400, Fields(2023, 10, 29, 3, 0, 0), 0, 0, "+00", 0)
  {
    TrollAfterFacts();
    Row("Antarctica/Troll", TrollEnd, Plus02, Plus00, 0, -7200, tz, Fields(2023, 10, 29, 3, 0, 0), 1698548400, Fields(2023, 10, 29, 3, 0, 0), Plus00, 0);
  }

  /** The Antarctica/Troll rows around the transition, including both occurrences of the repeated span. */
  lemma TrollFallBack(tz: SystemTZ)
    requires tz.dateTimeCls.hasFold
    ensures forall u :: tz.Owns(u) && u.fields == Fields(2023, 10, 28, 23, 0, 0) ==>
              ShowsInstant(EmulatedPlatform(OneTransition("Antarctica/Troll", TrollEnd, Plus02, Plus00), 0, -7200, 0),
                           tz, u, 1698534000, Fields(2023, 10, 29, 1, 0, 0), 7200, 7200, "+02", 0)
    ensures forall u :: tz.Owns(u) && u.fields == Fields(2023, 10, 29, 0, 59, 59) ==>
              ShowsInstant(EmulatedPlatform(OneTransition("Antarctica/Troll", TrollEnd, Plus02, Plus00), 0, -7200, 0),
                           tz, u, 1698541199, Fields(2023, 10, 29, 2, 59, 59), 7200, 7200, "+02", 0)
    ensures forall u :: tz.Owns(u) && u.fields == Fields(2023, 10, 29, 1, 0, 0) ==>
              ShowsInstant(EmulatedPlatform(OneTransition("Antarctica/Troll", TrollEnd, Plus02, Plus00), 0, -7200, 0),
                           tz, u, 1698541200, Fields(2023, 10, 29, 1, 0, 0), 0, 0, "+00", 1)
    ensures forall u :: tz.Owns(u) && u.fields == Fields(2023, 10, 29, 2, 59, 59) ==>
              ShowsInstant(EmulatedPlatform(OneTransition("Antarctica/Troll", TrollEnd, Plus02, Plus00), 0, -7200, 0),
                           tz, u, 1698548399, Fields(2023, 10, 29, 2, 59, 59), 0, 0, "+00", 1)
    ensures forall u :: tz.Owns(u) && u.fields == Fields(2023, 10, 29, 3, 0, 0) ==>
              ShowsInstant(EmulatedPlatform(OneTransition("Antarctica/Troll", TrollEnd, Plus02, Plus00), 0, -7200, 0),
                           tz, u, 1698548400, Fields(2023, 10, 29, 3, 0, 0), 0, 0, "+00", 0)
  {
    TrollEarlierStart(tz);
    TrollEarlierEnd(tz);
    TrollLaterStart(tz);
    TrollLaterEnd(tz);
    TrollAfter(tz);
  }
}
