/**
 * The test suite's stand-in for the platform's time calls: `localtime`,
 * `mktime` and the `time.timezone` / `time.altzone` / `time.daylight` /
 * `time.tzname` values, all derived from a `zoneinfo.ZoneInfo`.
 */
module Emulation {
  import opened Wrappers
  import opened Calendar
  import opened SystemTz

  /** One period of a zone: total UTC offset, DST amount and abbreviation, in seconds. */
  datatype Period = Period(utcoff: int, dst: int, name: string)

  /**
   * What the emulation asks of a `ZoneInfo`: the period in force at a UTC
   * instant (as `fromtimestamp(secs, tz=zi)` sees it), and the period a
   * wall clock `w` (seconds of `calendar.timegm` of its fields) with a given
   * `fold` resolves to (as `datetime(*fields, tzinfo=zi, fold=fold)` sees it).
   */
  datatype ZoneInfo = ZoneInfo(key: string, at: int -> Period, atWall: (int, int) -> Period)

  /** Python truthiness of an optional string: present and non-empty. */
  predicate Truthy(s: Option<string>) {
    s.Some? && s.value != ""
  }

  /** `emulated_localtime(zi, secs)`: the broken-down local time of `secs` in zone `zi`. */
  function EmulatedLocaltime(zi: ZoneInfo, secs: int): (t: StructTime)
    ensures t.tuple.fields == Civil(secs + zi.at(secs).utcoff)
    ensures t.gmtoff == zi.at(secs).utcoff
    ensures t.zone == zi.at(secs).name
    ensures t.tuple.isdst == (if zi.at(secs).dst != 0 then 1 else 0)
    ensures t.tuple == LocalTuple(secs + zi.at(secs).utcoff, if zi.at(secs).dst != 0 then 1 else 0)
  {
    var p := zi.at(secs);
    StructTime(LocalTuple(secs + p.utcoff, if p.dst != 0 then 1 else 0), p.utcoff, p.name)
  }

  /** The broken-down form of the local clock reading `x` (seconds of `calendar.timegm`), with its DST flag. */
  function LocalTuple(x: int, isdst: int): (tt: TimeTuple)
    ensures tt.fields == Civil(x) && tt.isdst == isdst
    ensures ValidFields(tt.fields) && Timegm(tt.fields) == x
    ensures CountsDays(tt)
  {
    TimegmOfCivil(x);
    var f := Civil(x);
    DaysCounted(f, isdst);
    TimeTuple(f, Weekday(f.year, f.month, f.day), DayOfYear(f), isdst)
  }

  /** The weekday and day of the year that `LocalTuple` fills in agree with the date. */
  lemma DaysCounted(f: Fields, isdst: int)
    requires ValidFields(f)
    ensures CountsDays(TimeTuple(f, Weekday(f.year, f.month, f.day), DayOfYear(f), isdst))
  {
    assert DaysBeforeMonth(f.year, 1) == 0;
  }

  /**
   * A tuple's `tm_wday` and `tm_yday` agree with its date: the weekday
   * (Monday is 0) and the day of the year counted from 1, both from
   * proleptic Gregorian ordinals.
   */
  predicate CountsDays(tt: TimeTuple) {
    var f := tt.fields;
    && ValidFields(f)
    && tt.wday == (ToOrdinal(f.year, f.month, f.day) + 6) % 7
    && tt.yday == ToOrdinal(f.year, f.month, f.day) - ToOrdinal(f.year, 1, 1) + 1
    && 0 <= tt.wday < 7 && 1 <= tt.yday <= 366
  }

  /** `tm_yday`: the day of the year of valid fields, counting from 1. */
  function DayOfYear(f: Fields): (r: int)
    requires ValidFields(f)
    ensures 1 <= r <= (if IsLeap(f.year) then 366 else 365)
  {
    DaysBeforeMonthBound(f.year, f.month);
    DaysBeforeMonth(f.year, f.month) + f.day
  }

  /** The days before a month leave room for that month within a year of at most 366 days. */
  lemma DaysBeforeMonthBound(y: int, m: int)
    requires 1 <= m <= 12
    ensures DaysBeforeMonth(y, m) + DaysInMonth(y, m) <= (if IsLeap(y) then 366 else 365)
  {
  }

  /** Whether a period has the DST status a `mktime` tuple asks for (`bool(dt.dst()) == bool(t[8])`). */
  predicate DstMatches(p: Period, isdst: int) {
    (p.dst != 0) == (isdst != 0)
  }

  /**
   * `emulated_mktime(zi, t)`: the instant of a wall clock. A negative `isdst`,
   * or a fold-0 reading with the DST status asked for, gives the fold-0
   * instant; otherwise a fold-1 reading with that status gives the fold-1
   * instant. When neither reading has it, standard time asked of two DST
   * readings reads the clock with the standard offset, and daylight time
   * asked of two standard readings shifts the fold-0 instant back by the
   * platform's DST amount `timezone - altzone`.
   */
  function EmulatedMktime(zi: ZoneInfo, tt: TimeTuple, timezone: int, altzone: int): (r: int)
    ensures var w := Timegm(tt.fields);
            var p0 := zi.atWall(w, 0);
            var p1 := zi.atWall(w, 1);
            && (tt.isdst < 0 || DstMatches(p0, tt.isdst) ==> r == w - p0.utcoff)
            && (tt.isdst >= 0 && !DstMatches(p0, tt.isdst) && DstMatches(p1, tt.isdst) ==> r == w - p1.utcoff)
            && (tt.isdst == 0 && !DstMatches(p0, 0) && !DstMatches(p1, 0) ==> r == w - (p0.utcoff - p0.dst))
            && (tt.isdst > 0 && !DstMatches(p0, 1) && !DstMatches(p1, 1) ==>
                  r == w - p0.utcoff - (timezone - altzone))
  {
    var w := Timegm(tt.fields);
    var p0 := zi.atWall(w, 0);
    var tsFold0 := w - p0.utcoff;
    if tt.isdst < 0 || DstMatches(p0, tt.isdst) then tsFold0
    else
      var candidate := if p0.dst != 0 then Some(tsFold0 + p0.dst) else None;
      var p1 := zi.atWall(w, 1);
      var tsFold1 := w - p1.utcoff;
      if DstMatches(p1, tt.isdst) then tsFold1
      else if candidate.Some? then candidate.value
      else if p1.dst != 0 then tsFold1 + p1.dst
      else tsFold0 - (timezone - altzone)
  }

  // ---------------------------------------------------------------------
  // winkle_tz_out_of_zoneinfo

  /** `range(0, 365 + 366, 7)` has this many days. */
  const SampleCount: nat := 105

  /** The period of the `k`-th sample, `k * 7` days after `now`. */
  function Sample(zi: ZoneInfo, now: int, k: int): Period {
    zi.at(now + k * 7 * 86400)
  }

  /** The three facts the sampling looks for. */
  datatype Wanted = DstOffset | StdName | DstName

  predicate Wants(w: Wanted, p: Period) {
    match w
    case DstOffset => p.dst != 0
    case StdName => p.dst == 0 && p.name != ""
    case DstName => p.dst != 0 && p.name != ""
  }

  /** The first sample from `k` on that shows `w`, or `SampleCount` if none does. */
  function First(zi: ZoneInfo, now: int, w: Wanted, k: nat): (r: nat)
    requires k <= SampleCount
    ensures k <= r <= SampleCount
    ensures r < SampleCount ==> Wants(w, Sample(zi, now, r))
    ensures forall j :: k <= j < r ==> !Wants(w, Sample(zi, now, j))
    decreases SampleCount - k
  {
    if k == SampleCount then k
    else if Wants(w, Sample(zi, now, k)) then k
    else First(zi, now, w, k + 1)
  }

  /** The latest of the three first sightings. */
  function LastFirst(zi: ZoneInfo, now: int): nat {
    var d := First(zi, now, DstOffset, 0);
    var s := First(zi, now, StdName, 0);
    var n := First(zi, now, DstName, 0);
    if d < s then (if s < n then n else s) else (if d < n then n else d)
  }

  /**
   * How many samples the loop takes: all of `range(0, 365 + 366, 7)`, unless
   * the DST offset and both names have all been seen, in which case it stops
   * right after the sample that completed them.
   */
  function StopAfter(zi: ZoneInfo, now: int): (n: nat)
    ensures 0 < n <= SampleCount
  {
    if LastFirst(zi, now) < SampleCount then LastFirst(zi, now) + 1 else SampleCount
  }

  /** One row of the sampling log: `(utcoff, dstoff, stdname, dstname)`. */
  datatype Entry = Entry(utcoff: int, dstoff: Option<int>, stdname: Option<string>, dstname: Option<string>)

  /**
   * The log row for a sample with period `p`: a DST sample contributes its
   * standard offset, its full offset as DST offset and its name as DST name;
   * a standard sample its offset and its name as standard name; what a
   * sample does not show is carried over from the last row, if any.
   */
  function NextEntry(p: Period, log: seq<Entry>): (e: Entry)
    ensures e.utcoff == p.utcoff - p.dst
    ensures p.dst != 0 ==> e.dstoff == Some(p.utcoff) && e.dstname == Some(p.name)
    ensures p.dst != 0 ==> e.stdname == if |log| > 0 then log[|log| - 1].stdname else None
    ensures p.dst == 0 ==> e.stdname == Some(p.name)
    ensures p.dst == 0 ==> e.dstoff == (if |log| > 0 then log[|log| - 1].dstoff else None)
    ensures p.dst == 0 ==> e.dstname == (if |log| > 0 then log[|log| - 1].dstname else None)
  {
    var last := if |log| > 0 then Some(log[|log| - 1]) else None;
    if p.dst != 0 then
      Entry(p.utcoff - p.dst, Some(p.utcoff), if last.Some? then last.value.stdname else None, Some(p.name))
    else
      Entry(p.utcoff, if last.Some? then last.value.dstoff else None, Some(p.name),
            if last.Some? then last.value.dstname else None)
  }

  /** Whether a log row holds what `w` looks for (`dstoff is not None`, a truthy name). */
  predicate Has(w: Wanted, e: Entry) {
    match w
    case DstOffset => e.dstoff.Some?
    case StdName => Truthy(e.stdname)
    case DstName => Truthy(e.dstname)
  }

  /** Whether a log row holds what `w` looks for, as sample period `p` shows it. */
  predicate Shows(w: Wanted, e: Entry, p: Period) {
    match w
    case DstOffset => e.dstoff == Some(p.utcoff)
    case StdName => e.stdname == Some(p.name)
    case DstName => e.dstname == Some(p.name)
  }

  /**
   * The loop's bookkeeping for `w` after `k` samples: the index is negative
   * exactly while no sample so far showed `w`, and then no row holds it;
   * otherwise it points at the row written by the first sample that did.
   */
  ghost predicate Tracks(zi: ZoneInfo, now: int, k: nat, log: seq<Entry>, w: Wanted, idx: int)
    requires k <= SampleCount
  {
    && (idx < 0 <==> First(zi, now, w, 0) >= k)
    && (idx >= 0 ==> idx < |log| && Shows(w, log[idx], Sample(zi, now, First(zi, now, w, 0))))
    && (idx < 0 ==> forall j :: 0 <= j < |log| ==> !Has(w, log[j]))
  }

  /** One sample keeps the bookkeeping for `w`. */
  lemma StepTracks(zi: ZoneInfo, now: int, k: nat, log: seq<Entry>, w: Wanted, idx: int)
    requires k < SampleCount && Tracks(zi, now, k, log, w, idx)
    ensures var e := NextEntry(Sample(zi, now, k), log);
            var log' := if |log| == 0 || log[|log| - 1] != e then log + [e] else log;
            Tracks(zi, now, k + 1, log', w, if Has(w, e) && idx < 0 then |log| else idx)
  {
    var p := Sample(zi, now, k);
    var e := NextEntry(p, log);
    var log' := if |log| == 0 || log[|log| - 1] != e then log + [e] else log;
    var f := First(zi, now, w, 0);
    if idx < 0 {
      // nothing in the log holds w, so the new row holds it exactly when this sample shows it
      assert |log| > 0 ==> !Has(w, log[|log| - 1]);
      assert Has(w, e) <==> Wants(w, p);
      if Wants(w, p) {
        assert f == k;
        assert log' == log + [e];
      }
    }
  }

  /** No two consecutive log rows are equal. */
  predicate NoRepeats(log: seq<Entry>) {
    forall j :: 0 < j < |log| ==> log[j - 1] != log[j]
  }

  /** Appending a row only when it differs from the last keeps consecutive rows distinct. */
  lemma AppendIfNew(log: seq<Entry>, e: Entry)
    requires NoRepeats(log)
    ensures NoRepeats(if |log| == 0 || log[|log| - 1] != e then log + [e] else log)
  {
  }

  /** The loop goes on only while some first sighting is still ahead. */
  lemma StepStop(zi: ZoneInfo, now: int, k: nat, log: seq<Entry>, iDstOff: int, iStdName: int, iDstName: int)
    requires k < SampleCount
    requires Tracks(zi, now, k, log, DstOffset, iDstOff)
    requires Tracks(zi, now, k, log, StdName, iStdName)
    requires Tracks(zi, now, k, log, DstName, iDstName)
    requires !(iDstOff >= 0 && iStdName >= 0 && iDstName >= 0)
    ensures k <= LastFirst(zi, now)
  {
  }

  /** The loop stops right after the last first sighting, or after the last sample. */
  lemma ExitStop(zi: ZoneInfo, now: int, k: nat, log: seq<Entry>, iDstOff: int, iStdName: int, iDstName: int)
    requires 0 < k <= SampleCount && k - 1 <= LastFirst(zi, now)
    requires Tracks(zi, now, k, log, DstOffset, iDstOff)
    requires Tracks(zi, now, k, log, StdName, iStdName)
    requires Tracks(zi, now, k, log, DstName, iDstName)
    requires k == SampleCount || (iDstOff >= 0 && iStdName >= 0 && iDstName >= 0)
    ensures k == StopAfter(zi, now)
  {
  }

  /** The loop invariant of `winkle_tz_out_of_zoneinfo` after `k` samples. */
  ghost predicate SamplingInv(zi: ZoneInfo, now: int, k: nat, log: seq<Entry>,
                              iDstOff: int, iStdName: int, iDstName: int)
  {
    && k <= SampleCount
    && (k == 0 <==> log == [])
    && (k > 0 ==> log[0].utcoff == Sample(zi, now, 0).utcoff - Sample(zi, now, 0).dst)
    && |log| <= k
    && NoRepeats(log)
    && (k > 0 ==> k - 1 <= LastFirst(zi, now))
    && -1 <= iDstOff && -1 <= iStdName && -1 <= iDstName
    && Tracks(zi, now, k, log, DstOffset, iDstOff)
    && Tracks(zi, now, k, log, StdName, iStdName)
    && Tracks(zi, now, k, log, DstName, iDstName)
  }

  /** The invariant holds before the first sample. */
  lemma SamplingStart(zi: ZoneInfo, now: int)
    ensures SamplingInv(zi, now, 0, [], -1, -1, -1)
  {
  }

  /** One pass of the loop body keeps the invariant. */
  lemma SamplingStep(zi: ZoneInfo, now: int, k: nat, log: seq<Entry>, iDstOff: int, iStdName: int, iDstName: int)
    requires SamplingInv(zi, now, k, log, iDstOff, iStdName, iDstName)
    requires k < SampleCount && !(iDstOff >= 0 && iStdName >= 0 && iDstName >= 0)
    ensures var e := NextEntry(Sample(zi, now, k), log);
            SamplingInv(zi, now, k + 1,
                        if |log| == 0 || log[|log| - 1] != e then log + [e] else log,
                        if Has(DstOffset, e) && iDstOff < 0 then |log| else iDstOff,
                        if Has(StdName, e) && iStdName < 0 then |log| else iStdName,
                        if Has(DstName, e) && iDstName < 0 then |log| else iDstName)
  {
    var e := NextEntry(Sample(zi, now, k), log);
    AppendIfNew(log, e);
    StepStop(zi, now, k, log, iDstOff, iStdName, iDstName);
    StepTracks(zi, now, k, log, DstOffset, iDstOff);
    StepTracks(zi, now, k, log, StdName, iStdName);
    StepTracks(zi, now, k, log, DstName, iDstName);
  }

  /** When the loop ends, the returned values meet `WinkleSpec` and the sampling stopped where expected. */
  lemma SamplingExit(zi: ZoneInfo, now: int, k: nat, log: seq<Entry>, iDstOff: int, iStdName: int, iDstName: int)
    requires SamplingInv(zi, now, k, log, iDstOff, iStdName, iDstName)
    requires !(k < SampleCount && !(iDstOff >= 0 && iStdName >= 0 && iDstName >= 0))
    ensures k == StopAfter(zi, now) && 0 < |log| <= k && NoRepeats(log)
    ensures -|log| <= iStdName < |log| && -|log| <= iDstName < |log| && iDstOff < |log|
    ensures iDstOff < 0 ==>
      var name := PyIndex(log, iStdName).stdname;
      WinkleSpec(zi, now, -log[0].utcoff, -log[0].utcoff, 0, name, name)
    ensures iDstOff >= 0 ==>
      log[iDstOff].dstoff.Some? &&
      WinkleSpec(zi, now, -log[0].utcoff, -log[iDstOff].dstoff.value, 1,
                 PyIndex(log, iStdName).stdname, PyIndex(log, iDstName).dstname)
  {
    ExitStop(zi, now, k, log, iDstOff, iStdName, iDstName);
    TrackedAtExit(zi, now, k, log, DstOffset, iDstOff);
    TrackedAtExit(zi, now, k, log, StdName, iStdName);
    TrackedAtExit(zi, now, k, log, DstName, iDstName);
    WinkleOutcome(zi, now, log, iDstOff, iStdName, iDstName);
  }

  /** When the sampling stops, each index is settled: found for good, or never found. */
  lemma TrackedAtExit(zi: ZoneInfo, now: int, k: nat, log: seq<Entry>, w: Wanted, idx: int)
    requires k <= SampleCount && |log| > 0 && -1 <= idx
    requires Tracks(zi, now, k, log, w, idx) && (k == SampleCount || idx >= 0)
    ensures Settled(zi, now, log, w, idx)
  {
  }

  /** A settled index: found for good and pointing at the first sample's row, or never found. */
  predicate Settled(zi: ZoneInfo, now: int, log: seq<Entry>, w: Wanted, idx: int) {
    && -|log| <= idx < |log|
    && (idx >= 0 <==> First(zi, now, w, 0) < SampleCount)
    && (idx >= 0 ==> Shows(w, log[idx], Sample(zi, now, First(zi, now, w, 0))))
    && (idx < 0 ==> !Has(w, PyIndex(log, idx)))
  }

  /**
   * What `winkle_tz_out_of_zoneinfo` derives from the samples: `timezone` is
   * minus the standard offset of the first sample; DST is reported exactly
   * when some sample observes it, and then `altzone` is minus the full offset
   * of the first such sample (else it equals `timezone`); the standard name
   * is that of the first named standard-time sample and the DST name that of
   * the first named daylight-time sample (else the standard name), or a
   * falsy value when no sample supplies one.
   */
  predicate WinkleSpec(zi: ZoneInfo, now: int, timezone: int, altzone: int, daylight: int,
                       stdname: Option<string>, dstname: Option<string>)
  {
    var s0 := Sample(zi, now, 0);
    var firstDst := First(zi, now, DstOffset, 0);
    var firstStd := First(zi, now, StdName, 0);
    var firstDstName := First(zi, now, DstName, 0);
    && timezone == -(s0.utcoff - s0.dst)
    && daylight == (if firstDst < SampleCount then 1 else 0)
    && (daylight == 0 ==> altzone == timezone && dstname == stdname)
    && (daylight == 1 ==> altzone == -Sample(zi, now, firstDst).utcoff)
    && (firstStd < SampleCount ==> stdname == Some(Sample(zi, now, firstStd).name))
    && (firstStd == SampleCount ==> !Truthy(stdname))
    && (daylight == 1 && firstDstName < SampleCount ==> dstname == Some(Sample(zi, now, firstDstName).name))
    && (daylight == 1 && firstDstName == SampleCount ==> !Truthy(dstname))
  }

  /** The values `winkle_tz_out_of_zoneinfo` returns from settled indices meet `WinkleSpec`. */
  lemma WinkleOutcome(zi: ZoneInfo, now: int, log: seq<Entry>, iDstOff: int, iStdName: int, iDstName: int)
    requires |log| > 0 && log[0].utcoff == Sample(zi, now, 0).utcoff - Sample(zi, now, 0).dst
    requires Settled(zi, now, log, DstOffset, iDstOff)
    requires Settled(zi, now, log, StdName, iStdName)
    requires Settled(zi, now, log, DstName, iDstName)
    ensures iDstOff < 0 ==>
      var name := PyIndex(log, iStdName).stdname;
      WinkleSpec(zi, now, -log[0].utcoff, -log[0].utcoff, 0, name, name)
    ensures iDstOff >= 0 ==>
      log[iDstOff].dstoff.Some? &&
      WinkleSpec(zi, now, -log[0].utcoff, -log[iDstOff].dstoff.value, 1,
                 PyIndex(log, iStdName).stdname, PyIndex(log, iDstName).dstname)
  {
  }

  /** Python's `s[i]`, where a negative `i` counts from the end. */
  function PyIndex<T>(s: seq<T>, i: int): T
    requires -|s| <= i < |s|
  {
    if i < 0 then s[|s| + i] else s[i]
  }

  /**
   * `winkle_tz_out_of_zoneinfo(zi)`: samples the zone weekly for two years
   * from `now` and derives `time.timezone`, `time.altzone`, `time.daylight`
   * and `time.tzname`. `timezone` is minus the standard offset of the first
   * sample; DST is reported exactly when some sample observes it, and then
   * `altzone` is minus the full offset of the first such sample; the names
   * are those of the first named standard-time and daylight-time samples.
   */
  method Winkle(zi: ZoneInfo, now: int)
    returns (timezone: int, altzone: int, daylight: int, stdname: Option<string>, dstname: Option<string>,
             ghost sampled: nat, ghost rows: seq<Entry>)
    ensures WinkleSpec(zi, now, timezone, altzone, daylight, stdname, dstname)
    ensures sampled == StopAfter(zi, now)
    ensures 0 < |rows| <= sampled
    ensures NoRepeats(rows)
  {
    var log: seq<Entry> := [];
    var iDstOff, iStdName, iDstName := -1, -1, -1;
    var k := 0;
    SamplingStart(zi, now);
    // the loop guard carries the source's `break` once all three indices are found
    while k < SampleCount && !(iDstOff >= 0 && iStdName >= 0 && iDstName >= 0)
      invariant SamplingInv(zi, now, k, log, iDstOff, iStdName, iDstName)
      decreases SampleCount - k
    {
      var e := NextEntry(Sample(zi, now, k), log);
      SamplingStep(zi, now, k, log, iDstOff, iStdName, iDstName);
      iDstOff := if Has(DstOffset, e) && iDstOff < 0 then |log| else iDstOff;
      iStdName := if Has(StdName, e) && iStdName < 0 then |log| else iStdName;
      iDstName := if Has(DstName, e) && iDstName < 0 then |log| else iDstName;
      log := if |log| == 0 || log[|log| - 1] != e then log + [e] else log;
      k := k + 1;
    }
    SamplingExit(zi, now, k, log, iDstOff, iStdName, iDstName);
    sampled, rows := k, log;
    if iDstOff < 0 {
      var name := PyIndex(log, iStdName).stdname;
      return -log[0].utcoff, -log[0].utcoff, 0, name, name, sampled, rows;
    }
    return -log[0].utcoff, -log[iDstOff].dstoff.value, 1,
           PyIndex(log, iStdName).stdname, PyIndex(log, iDstName).dstname, sampled, rows;
  }
}
