/**
 * Properties of `SystemTZ` over an arbitrary platform: when `fromutc` followed
 * by `_mktime` gives back the instant it started from, how `fold` picks
 * between two readings of a repeated wall clock, and what equality means.
 */
module SystemTzProperties {
  import opened Wrappers
  import opened Calendar
  import opened SystemTz

  /**
   * Round trip through the first guess: when the platform's `mktime` maps
   * the local fields of instant `i` straight back to `i`, and the flipped-DST
   * reading is not a later instant with a larger offset, then converting `i`
   * to local time and back yields `i`, its sample and its microseconds.
   */
  lemma RoundTripFirstOccurrence(tz: SystemTZ, os: Platform, u: DateTime)
    requires tz.Owns(u)
    requires var i := Timegm(u.fields);
             var t := os.localtime(i);
             && FirstGuess(os, t.tuple.fields) == i
             && (Reinterpret(os, t) > i ==> os.localtime(Reinterpret(os, t)).gmtoff <= t.gmtoff)
    ensures tz.FromUtc(os, u).Ok?
    ensures var i := Timegm(u.fields);
            tz.MkTime(os, tz.FromUtc(os, u).value) == Ok(Chosen(os.localtime(i), i, u.microsecond))
  {
    var i := Timegm(u.fields);
    var t := os.localtime(i);
    var local := tz.FromUtc(os, u).value;
    var s0 := Reinterpret(os, t);
    if local.cls.hasFold && t.tuple.isdst >= 0 && s0 != i && t.gmtoff != os.localtime(s0).gmtoff {
      if s0 < i {
        // fromutc has set fold exactly when the other reading has the larger offset
        assert local.fold == 1 <==> t.gmtoff < os.localtime(s0).gmtoff;
      } else {
        assert local.fold == 0;
      }
    }
  }

  /**
   * Round trip through the second reading: the instant `i` lies in the second
   * occurrence of a repeated wall clock whose first occurrence `mktime`
   * prefers (the earlier instant with the larger offset). Then `fromutc` sets
   * `fold` to 1 and `_mktime` follows it back to `i` rather than to the
   * first guess.
   */
  lemma RoundTripSecondOccurrence(tz: SystemTZ, os: Platform, u: DateTime)
    requires tz.Owns(u) && tz.dateTimeCls.hasFold
    requires var i := Timegm(u.fields);
             var t := os.localtime(i);
             var earlier := FirstGuess(os, t.tuple.fields);
             var t1 := os.localtime(earlier);
             && earlier < i
             && t.tuple.isdst >= 0 && t1.tuple.isdst >= 0
             && Reinterpret(os, t) == earlier
             && Reinterpret(os, t1) == i
             && t1.gmtoff > t.gmtoff
    ensures tz.FromUtc(os, u).Ok? && tz.FromUtc(os, u).value.fold == 1
    ensures var i := Timegm(u.fields);
            tz.MkTime(os, tz.FromUtc(os, u).value) == Ok(Chosen(os.localtime(i), i, u.microsecond))
  {
  }

  /**
   * Without `fold` on the datetime class, `_mktime` always returns the first
   * guess, so the two occurrences of a repeated wall clock cannot be told apart.
   */
  lemma NoFoldKeepsFirstGuess(tz: SystemTZ, os: Platform, dt: DateTime)
    requires tz.Owns(dt) && !dt.cls.hasFold
    ensures tz.MkTime(os, dt) ==
      Ok(Chosen(os.localtime(FirstGuess(os, dt.fields)), FirstGuess(os, dt.fields), dt.microsecond))
  {
  }

  /** Without `fold` on its datetime class, `fromutc` always leaves fold at 0. */
  lemma NoFoldFromUtc(tz: SystemTZ, os: Platform, u: DateTime)
    requires tz.Owns(u) && !tz.dateTimeCls.hasFold
    ensures tz.FromUtc(os, u).Ok? && tz.FromUtc(os, u).value.fold == 0
  {
  }

  /** `fold` matters only where `_mktime` has two distinct readings with distinct offsets. */
  lemma FoldIrrelevantOutsideRepeats(tz: SystemTZ, os: Platform, dt: DateTime, fold: int)
    requires tz.Owns(dt)
    requires var t := os.localtime(FirstGuess(os, dt.fields));
             var s0 := Reinterpret(os, t);
             t.tuple.isdst < 0 || s0 == FirstGuess(os, dt.fields) || t.gmtoff == os.localtime(s0).gmtoff
    ensures tz.MkTime(os, dt.(fold := fold)) == tz.MkTime(os, dt)
  {
  }

  /**
   * `utcoffset`, `tzname` and `dst` all describe the one sample `_mktime`
   * chooses; in DST, `dst` is how far the flipped-DST reading of that sample
   * lies from the chosen instant.
   */
  lemma OffsetNameAndDstAgree(tz: SystemTZ, os: Platform, dt: DateTime)
    requires tz.Owns(dt)
    ensures var c := tz.MkTime(os, dt).value;
            var t := c.sample;
            && tz.UtcOffset(os, Some(dt)) == Ok(t.gmtoff)
            && tz.TzName(os, Some(dt)) == Ok(t.zone)
            && tz.Dst(os, Some(dt)) == Ok(if t.tuple.isdst < 0 then None
                                          else if t.tuple.isdst == 0 then Some(0)
                                          else Some(Reinterpret(os, t) - c.secs))
  {
    var t := tz.MkTime(os, dt).value.sample;
    if t.tuple.isdst > 0 {
      assert t.tuple.(isdst := 0) == t.tuple.(isdst := FlippedDst(t.tuple.isdst));
    }
  }

  /** Equality between `SystemTZ` instances ignores their names: the datetime class decides. */
  lemma EqIgnoresName(a: SystemTZ, b: SystemTZ)
    requires a.dateTimeCls == b.dateTimeCls
    ensures a.Eq(System(b)) == Equal(true)
  {
  }

  /** Equality between `SystemTZ` instances is an equivalence relation. */
  lemma EqIsEquivalence(a: SystemTZ, b: SystemTZ, c: SystemTZ)
    ensures a.Eq(System(a)) == Equal(true)
    ensures a.Eq(System(b)) == b.Eq(System(a))
    ensures a.Eq(System(b)) == Equal(true) && b.Eq(System(c)) == Equal(true) ==> a.Eq(System(c)) == Equal(true)
  {
  }
}
