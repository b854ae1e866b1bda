/**
 * A zone with a single backward transition, such as the end of DST in
 * St John's, Dublin or Lord Howe, run through the emulated platform. When the
 * transition meets `BackwardTransition` (exactly one side observes DST, both
 * share a standard offset, and the platform's DST amount fits in the drop
 * when the later side is standard time), `SystemTZ` converts every instant
 * to local time and back without loss, and sets `fold` exactly on the second
 * occurrence of the repeated wall clock. A drop in standard offset with no
 * DST on either side loses the second occurrence.
 */
module SyntheticZone {
  import opened Wrappers
  import opened Calendar
  import opened SystemTz
  import opened SystemTzProperties
  import opened Emulation

  /** The period in force at UTC instant `s` when the zone switches from `before` to `after` at `t`. */
  function PeriodAt(t: int, before: Period, after: Period, s: int): Period {
    if s < t then before else after
  }

  /**
   * The period a wall clock `w` resolves to (PEP 495): on a repeated wall
   * clock fold 0 keeps the earlier period and fold 1 takes the later one; in
   * a skipped one fold 0 keeps the earlier period's offset and fold 1 the
   * later one's.
   */
  function PeriodAtWall(t: int, before: Period, after: Period, w: int, fold: int): Period {
    var larger := if before.utcoff < after.utcoff then after.utcoff else before.utcoff;
    var smaller := if before.utcoff < after.utcoff then before.utcoff else after.utcoff;
    if w < t + (if fold == 0 then larger else smaller) then before else after
  }

  /** A `ZoneInfo` with one transition at `t`. */
  function OneTransition(key: string, t: int, before: Period, after: Period): ZoneInfo {
    ZoneInfo(key, s => PeriodAt(t, before, after, s), (w, fold) => PeriodAtWall(t, before, after, w, fold))
  }

  /** The platform the test suite emulates: `localtime` and `mktime` derived from `zi`. */
  function EmulatedPlatform(zi: ZoneInfo, timezone: int, altzone: int, clock: int): Platform {
    Platform(s => EmulatedLocaltime(zi, s), tt => EmulatedMktime(zi, tt, timezone, altzone), clock)
  }

  /**
   * What the theorem asks of a backward transition: the offset drops, exactly
   * one side observes DST, both sides share one standard offset, and when the
   * later side is standard time the platform's DST amount fits in the
   * repeated hour.
   */
  predicate BackwardTransition(before: Period, after: Period, timezone: int, altzone: int) {
    && before.utcoff > after.utcoff
    && (before.dst != 0) != (after.dst != 0)
    && before.utcoff - before.dst == after.utcoff - after.dst
    && (after.dst == 0 ==> timezone - altzone <= before.utcoff - after.utcoff)
  }

  /**
   * The flipped-DST reading of the local time of `i`: an hour (the repeated
   * span) later just before the transition, the first occurrence for an
   * instant in the second one, and a reading after the transition for an
   * instant past the repeated span.
   */
  lemma ReinterpretOneTransition(key: string, t: int, before: Period, after: Period,
                                 timezone: int, altzone: int, clock: int, i: int)
    requires BackwardTransition(before, after, timezone, altzone)
    ensures var zi := OneTransition(key, t, before, after);
            var os := EmulatedPlatform(zi, timezone, altzone, clock);
            var d := before.utcoff - after.utcoff;
            var s0 := Reinterpret(os, os.localtime(i));
            && (t - d <= i < t ==> s0 == i + d)
            && (t <= i < t + d ==> s0 == i - d)
            && (t + d <= i ==> s0 >= t)
            && (PeriodAt(t, before, after, i).dst != 0 ==> s0 == i + PeriodAt(t, before, after, i).dst)
  {
    var zi := OneTransition(key, t, before, after);
    var os := EmulatedPlatform(zi, timezone, altzone, clock);
    var d := before.utcoff - after.utcoff;
    var lt := EmulatedLocaltime(zi, i);
    assert os.localtime(i) == lt;
    var flipped := lt.tuple.(isdst := FlippedDst(lt.tuple.isdst));
    assert Reinterpret(os, lt) == EmulatedMktime(zi, flipped, timezone, altzone);
    var w := Timegm(flipped.fields);
    assert w == i + PeriodAt(t, before, after, i).utcoff;
    var p0, p1 := zi.atWall(w, 0), zi.atWall(w, 1);
    assert p0 == PeriodAtWall(t, before, after, w, 0);
    assert p1 == PeriodAtWall(t, before, after, w, 1);
    var r := EmulatedMktime(zi, flipped, timezone, altzone);
    if i < t - d {
    } else if i < t {
      assert p0 == before && p1 == after && DstMatches(after, flipped.isdst);
      assert r == i + d;
    } else if i < t + d {
      assert p0 == before && DstMatches(before, flipped.isdst);
      assert r == i - d;
    } else {
      assert p0 == after && p1 == after && !DstMatches(after, flipped.isdst);
    }
  }

  /** A `localtime` sample of instant `s` taken in period `p`. */
  predicate SampleOf(lt: StructTime, s: int, p: Period) {
    && lt.gmtoff == p.utcoff
    && lt.zone == p.name
    && lt.tuple.isdst == (if p.dst != 0 then 1 else 0)
    && lt.tuple.fields == Civil(s + p.utcoff)
  }

  /**
   * Where the flipped-DST reading `s0` of the local time of `i` lands, as
   * `ReinterpretOneTransition` establishes it for the emulated platform.
   */
  predicate FlippedReading(t: int, before: Period, after: Period, i: int, s0: int) {
    var d := before.utcoff - after.utcoff;
    && (t - d <= i < t ==> s0 == i + d)
    && (t <= i < t + d ==> s0 == i - d)
    && (t + d <= i ==> s0 >= t)
    && (PeriodAt(t, before, after, i).dst != 0 ==> s0 == i + PeriodAt(t, before, after, i).dst)
  }

  /** Every `localtime` sample shows the period in force at its instant. */
  ghost predicate SamplesFollow(os: Platform, t: int, before: Period, after: Period) {
    forall s {:trigger os.localtime(s)} :: SampleOf(os.localtime(s), s, PeriodAt(t, before, after, s))
  }

  /** Every flipped-DST reading of a sample lands where `FlippedReading` says. */
  ghost predicate FlipsFollow(os: Platform, t: int, before: Period, after: Period) {
    forall i {:trigger Reinterpret(os, os.localtime(i))} ::
      FlippedReading(t, before, after, i, Reinterpret(os, os.localtime(i)))
  }

  /** `mktime` with DST unknown reads the local time of `i` as its first occurrence. */
  ghost predicate FirstGuessesFollow(os: Platform, t: int, before: Period, after: Period) {
    var d := before.utcoff - after.utcoff;
    forall i {:trigger FirstGuess(os, os.localtime(i).tuple.fields)} ::
      FirstGuess(os, os.localtime(i).tuple.fields) == if t <= i < t + d then i - d else i
  }

  /**
   * What `SystemTZ` observes of a platform whose zone falls back once, at
   * `t`, from `before` to the smaller offset of `after`: the samples of
   * `localtime`, and the two ways it calls `mktime` on them.
   */
  ghost predicate FollowsOneTransition(os: Platform, t: int, before: Period, after: Period) {
    && after.utcoff < before.utcoff
    && SamplesFollow(os, t, before, after)
    && FlipsFollow(os, t, before, after)
    && FirstGuessesFollow(os, t, before, after)
  }

  /** The emulated platform's `localtime` samples are `emulated_localtime`'s. */
  lemma EmulatedSamples(key: string, t: int, before: Period, after: Period, timezone: int, altzone: int, clock: int)
    ensures SamplesFollow(EmulatedPlatform(OneTransition(key, t, before, after), timezone, altzone, clock),
                          t, before, after)
  {
    var zi := OneTransition(key, t, before, after);
    var os := EmulatedPlatform(zi, timezone, altzone, clock);
    forall s ensures SampleOf(os.localtime(s), s, PeriodAt(t, before, after, s)) {
      EmulatedSample(zi, s);
      assert zi.at(s) == PeriodAt(t, before, after, s);
      assert os.localtime(s) == EmulatedLocaltime(zi, s);
    }
  }

  /** `emulated_localtime` samples the period `zi` has in force. */
  lemma EmulatedSample(zi: ZoneInfo, s: int)
    ensures SampleOf(EmulatedLocaltime(zi, s), s, zi.at(s))
  {
  }

  lemma EmulatedFlips(key: string, t: int, before: Period, after: Period, timezone: int, altzone: int, clock: int)
    requires BackwardTransition(before, after, timezone, altzone)
    ensures FlipsFollow(EmulatedPlatform(OneTransition(key, t, before, after), timezone, altzone, clock),
                        t, before, after)
  {
    var os := EmulatedPlatform(OneTransition(key, t, before, after), timezone, altzone, clock);
    forall i ensures FlippedReading(t, before, after, i, Reinterpret(os, os.localtime(i))) {
      ReinterpretOneTransition(key, t, before, after, timezone, altzone, clock, i);
    }
  }

  /** `mktime` with DST unknown reads a wall clock of the emulated platform as its first occurrence. */
  lemma EmulatedFirstGuesses(key: string, t: int, before: Period, after: Period, timezone: int, altzone: int, clock: int)
    requires BackwardTransition(before, after, timezone, altzone)
    ensures FirstGuessesFollow(EmulatedPlatform(OneTransition(key, t, before, after), timezone, altzone, clock),
                               t, before, after)
  {
    var zi := OneTransition(key, t, before, after);
    var os := EmulatedPlatform(zi, timezone, altzone, clock);
    var d := before.utcoff - after.utcoff;
    forall i ensures FirstGuess(os, os.localtime(i).tuple.fields) == if t <= i < t + d then i - d else i {
      EmulatedFirstGuess(key, t, before, after, timezone, altzone, i);
      var lt := EmulatedLocaltime(zi, i);
      assert os.localtime(i) == lt;
      assert FirstGuess(os, lt.tuple.fields) == EmulatedMktime(zi, TimeTuple(lt.tuple.fields, 0, 1, -1), timezone, altzone);
    }
  }

  /** `emulated_mktime` with DST unknown reads the local time of `i` as its first occurrence. */
  lemma EmulatedFirstGuess(key: string, t: int, before: Period, after: Period, timezone: int, altzone: int, i: int)
    requires after.utcoff < before.utcoff
    ensures var zi := OneTransition(key, t, before, after);
            var d := before.utcoff - after.utcoff;
            EmulatedMktime(zi, TimeTuple(EmulatedLocaltime(zi, i).tuple.fields, 0, 1, -1), timezone, altzone) ==
              if t <= i < t + d then i - d else i
  {
    var zi := OneTransition(key, t, before, after);
    var w := Timegm(EmulatedLocaltime(zi, i).tuple.fields);
    assert w == i + PeriodAt(t, before, after, i).utcoff;
    assert zi.atWall(w, 0) == PeriodAtWall(t, before, after, w, 0);
  }

  /** The platform the test suite emulates over a one-transition zone behaves as such. */
  lemma EmulatedFollowsOneTransition(key: string, t: int, before: Period, after: Period,
                                     timezone: int, altzone: int, clock: int)
    requires BackwardTransition(before, after, timezone, altzone)
    ensures FollowsOneTransition(EmulatedPlatform(OneTransition(key, t, before, after), timezone, altzone, clock),
                                 t, before, after)
  {
    EmulatedSamples(key, t, before, after, timezone, altzone, clock);
    EmulatedFlips(key, t, before, after, timezone, altzone, clock);
    EmulatedFirstGuesses(key, t, before, after, timezone, altzone, clock);
  }

  /** `fromutc` sets `fold` exactly for the instants in the second occurrence of the repeated span. */
  lemma FoldOnSecondOccurrence(os: Platform, t: int, before: Period, after: Period, tz: SystemTZ, u: DateTime)
    requires FollowsOneTransition(os, t, before, after)
    requires tz.Owns(u) && tz.dateTimeCls.hasFold
    ensures var i := Timegm(u.fields);
            var local := tz.FromUtc(os, u);
            && local.Ok?
            && local.value.fields == Civil(i + PeriodAt(t, before, after, i).utcoff)
            && (local.value.fold == 1 <==> t <= i < t + (before.utcoff - after.utcoff))
            && local.value == DateTime(tz.dateTimeCls, Civil(i + PeriodAt(t, before, after, i).utcoff),
                                       u.microsecond, Some(System(tz)),
                                       if t <= i < t + (before.utcoff - after.utcoff) then 1 else 0)
  {
    var i := Timegm(u.fields);
    var s0 := Reinterpret(os, os.localtime(i));
    assert SampleOf(os.localtime(i), i, PeriodAt(t, before, after, i));
    assert FlippedReading(t, before, after, i, s0);
    assert SampleOf(os.localtime(s0), s0, PeriodAt(t, before, after, s0));
  }

  /**
   * Every instant survives the trip to local time and back: `_mktime` of
   * what `fromutc` produced is the instant itself, with its `localtime` sample
   * and its microseconds.
   */
  lemma RoundTripOneTransition(os: Platform, t: int, before: Period, after: Period, tz: SystemTZ, u: DateTime)
    requires FollowsOneTransition(os, t, before, after)
    requires tz.Owns(u) && tz.dateTimeCls.hasFold
    ensures var i := Timegm(u.fields);
            && tz.FromUtc(os, u).Ok?
            && tz.MkTime(os, tz.FromUtc(os, u).value) == Ok(Chosen(os.localtime(i), i, u.microsecond))
  {
    var i := Timegm(u.fields);
    var d := before.utcoff - after.utcoff;
    if t <= i < t + d {
      SecondOccurrenceOneTransition(os, t, before, after, tz, u);
    } else {
      var lt := os.localtime(i);
      var s0 := Reinterpret(os, lt);
      assert SampleOf(lt, i, PeriodAt(t, before, after, i));
      assert FlippedReading(t, before, after, i, s0);
      assert SampleOf(os.localtime(s0), s0, PeriodAt(t, before, after, s0));
      assert FirstGuess(os, lt.tuple.fields) == i;
      RoundTripFirstOccurrence(tz, os, u);
    }
  }

  /** The second occurrence of the repeated span meets the hypotheses of `RoundTripSecondOccurrence`. */
  lemma SecondOccurrenceOneTransition(os: Platform, t: int, before: Period, after: Period, tz: SystemTZ, u: DateTime)
    requires FollowsOneTransition(os, t, before, after)
    requires tz.Owns(u) && tz.dateTimeCls.hasFold
    requires t <= Timegm(u.fields) < t + (before.utcoff - after.utcoff)
    ensures var i := Timegm(u.fields);
            && tz.FromUtc(os, u).Ok?
            && tz.MkTime(os, tz.FromUtc(os, u).value) == Ok(Chosen(os.localtime(i), i, u.microsecond))
  {
    var i := Timegm(u.fields);
    var d := before.utcoff - after.utcoff;
    var j := i - d;
    var lt, lt1 := os.localtime(i), os.localtime(j);
    assert SampleOf(lt, i, after) && SampleOf(lt1, j, before);
    assert FlippedReading(t, before, after, i, Reinterpret(os, lt));
    assert FlippedReading(t, before, after, j, Reinterpret(os, lt1));
    assert FirstGuess(os, lt.tuple.fields) == j;
    RoundTripSecondOccurrence(tz, os, u);
  }

  /**
   * Local time produced by `fromutc` reports the offset, abbreviation and DST
   * amount of the period in force at the instant, on either side of the
   * transition and on both occurrences of the repeated span.
   */
  lemma DescribeOneTransition(os: Platform, t: int, before: Period, after: Period, tz: SystemTZ, u: DateTime)
    requires FollowsOneTransition(os, t, before, after)
    requires tz.Owns(u) && tz.dateTimeCls.hasFold
    ensures var p := PeriodAt(t, before, after, Timegm(u.fields));
            var local := tz.FromUtc(os, u);
            && local.Ok?
            && tz.UtcOffset(os, Some(local.value)) == Ok(p.utcoff)
            && tz.TzName(os, Some(local.value)) == Ok(p.name)
            && tz.Dst(os, Some(local.value)) == Ok(Some(p.dst))
  {
    var i := Timegm(u.fields);
    RoundTripOneTransition(os, t, before, after, tz, u);
    assert SampleOf(os.localtime(i), i, PeriodAt(t, before, after, i));
    assert FlippedReading(t, before, after, i, Reinterpret(os, os.localtime(i)));
    OffsetNameAndDstAgree(tz, os, tz.FromUtc(os, u).value);
  }

  /**
   * Without `fold` support the second occurrence is lost: local time
   * produced by `fromutc` for an instant in it maps back to the instant one
   * repeated span earlier.
   */
  lemma NoFoldLosesSecondOccurrence(os: Platform, t: int, before: Period, after: Period, tz: SystemTZ, u: DateTime)
    requires FollowsOneTransition(os, t, before, after)
    requires tz.Owns(u) && !tz.dateTimeCls.hasFold
    requires t <= Timegm(u.fields) < t + (before.utcoff - after.utcoff)
    ensures var local := tz.FromUtc(os, u);
            && local.Ok? && local.value.fold == 0
            && tz.MkTime(os, local.value).Ok?
            && tz.MkTime(os, local.value).value.secs == Timegm(u.fields) - (before.utcoff - after.utcoff)
  {
    var i := Timegm(u.fields);
    assert FirstGuess(os, os.localtime(i).tuple.fields) == i - (before.utcoff - after.utcoff);
    NoFoldKeepsFirstGuess(tz, os, tz.FromUtc(os, u).value);
  }
  /** Moscow's drop from MSK +04 to MSK +03 at `t`, on the emulated platform. */
  function StandardOffsetDrop(t: int): Platform {
    EmulatedPlatform(OneTransition("Europe/Moscow", t, Period(14400, 0, "MSK"), Period(10800, 0, "MSK")),
                     -10800, -10800, 0)
  }

  /**
   * A drop in standard offset with no change of DST flag falls outside
   * `BackwardTransition`, and there the round trip fails: half an hour into
   * the second occurrence `fromutc` sets `fold`, yet `_mktime` maps the local
   * time back to the first occurrence, an hour early, because the emulated
   * `mktime` reads the wall clock under either DST flag as the earlier period.
   */
  lemma StandardOffsetDropLosesSecondOccurrence(t: int, tz: SystemTZ, u: DateTime)
    requires tz.Owns(u) && tz.dateTimeCls.hasFold && Timegm(u.fields) == t + 1800
    ensures var os := StandardOffsetDrop(t);
            var local := tz.FromUtc(os, u);
            && local.Ok? && local.value.fold == 1
            && tz.MkTime(os, local.value).Ok?
            && tz.MkTime(os, local.value).value.secs == t - 1800
  {
    var os := StandardOffsetDrop(t);
    var i, j := t + 1800, t - 1800;
    StandardOffsetDropAfter(t);
    StandardOffsetDropBefore(t);
    var local := tz.FromUtc(os, u).value;
    assert local.fields == os.localtime(i).tuple.fields;
  }

  /** Half an hour into the second occurrence: +03, read under either DST flag as the first occurrence. */
  lemma StandardOffsetDropAfter(t: int)
    ensures var os := StandardOffsetDrop(t);
            var lt := os.localtime(t + 1800);
            && lt.gmtoff == 10800 && lt.tuple.isdst == 0
            && Reinterpret(os, lt) == t - 1800
            && FirstGuess(os, lt.tuple.fields) == t - 1800
  {
    var before, after := Period(14400, 0, "MSK"), Period(10800, 0, "MSK");
    var zi := OneTransition("Europe/Moscow", t, before, after);
    var os := StandardOffsetDrop(t);
    var lt := EmulatedLocaltime(zi, t + 1800);
    assert os.localtime(t + 1800) == lt;
    var w := Timegm(lt.tuple.fields);
    assert w == t + 12600;
    assert zi.atWall(w, 0) == before && zi.atWall(w, 1) == after;
    assert Reinterpret(os, lt) == EmulatedMktime(zi, lt.tuple.(isdst := 1), -10800, -10800) == t - 1800;
    assert FirstGuess(os, lt.tuple.fields) == EmulatedMktime(zi, TimeTuple(lt.tuple.fields, 0, 1, -1), -10800, -10800) == t - 1800;
  }

  /** Half an hour before the transition: +04, with the same local time as half an hour after it. */
  lemma StandardOffsetDropBefore(t: int)
    ensures var os := StandardOffsetDrop(t);
            && os.localtime(t - 1800).gmtoff == 14400
            && os.localtime(t - 1800).tuple == os.localtime(t + 1800).tuple
  {
    var zi := OneTransition("Europe/Moscow", t, Period(14400, 0, "MSK"), Period(10800, 0, "MSK"));
    var os := StandardOffsetDrop(t);
    assert zi.at(t - 1800) == Period(14400, 0, "MSK") && zi.at(t + 1800) == Period(10800, 0, "MSK");
    assert os.localtime(t - 1800) == EmulatedLocaltime(zi, t - 1800);
    assert os.localtime(t + 1800) == EmulatedLocaltime(zi, t + 1800);
    assert EmulatedLocaltime(zi, t - 1800).tuple == LocalTuple(t + 12600, 0);
    assert EmulatedLocaltime(zi, t + 1800).tuple == LocalTuple(t + 12600, 0);
  }
}
