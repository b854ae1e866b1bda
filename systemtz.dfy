/**
 * `SystemTZ`: a `tzinfo` for the operating system's current local time zone.
 *
 * Every operation is decision logic over three platform calls, which the model
 * receives as a `Platform` value: `time.localtime(secs)`, `time.mktime(tuple)`
 * and the clock read by `time.time()` / `time.localtime()`. `calendar.timegm`
 * is the concrete `Calendar.Timegm`. Seconds are whole integers; the
 * microseconds of a datetime travel beside them as a separate integer.
 */
module SystemTz {
  import opened Wrappers
  import opened Calendar

  /** Items 0..8 of a `time.struct_time`: what `time.mktime` reads. */
  datatype TimeTuple = TimeTuple(fields: Fields, wday: int, yday: int, isdst: int)

  /** A `time.struct_time` as `time.localtime` returns it, with `tm_gmtoff` and `tm_zone`. */
  datatype StructTime = StructTime(tuple: TimeTuple, gmtoff: int, zone: string)

  /**
   * The platform's time calls: `localtime(secs)`, `mktime(tuple)` (an `isdst`
   * of -1 means "unknown", 0 standard time, 1 daylight time) and the current
   * time in whole seconds.
   */
  datatype Platform = Platform(localtime: int -> StructTime, mktime: TimeTuple -> int, clock: int)

  /**
   * A datetime class. `id` stands for the class object's identity (`is`);
   * `hasFold` for `hasattr(cls, 'fold')`.
   */
  datatype DateTimeClass = DateTimeClass(id: nat, moduleName: string, qualname: string, hasFold: bool)

  /** `datetime.datetime` itself. */
  const StdDateTime: DateTimeClass := DateTimeClass(0, "datetime", "datetime", true)

  /** The `tzinfo` attached to a datetime: a `SystemTZ` instance or an object of another class. */
  datatype TzInfo = System(tz: SystemTZ) | Foreign(key: string)

  /** A datetime: its class, wall-clock fields, microseconds, `tzinfo` and `fold`. */
  datatype DateTime = DateTime(cls: DateTimeClass, fields: Fields, microsecond: int, tzinfo: Option<TzInfo>, fold: int)

  /** What `_mktime` returns: the chosen `localtime` sample and its seconds plus microseconds. */
  datatype Chosen = Chosen(sample: StructTime, secs: int, microsecond: int)

  /** The `AssertionError` raised when a datetime is not tagged with this very instance. */
  datatype Failure = NotThisZone

  /** The result of `__eq__`: `NotImplemented` or a boolean. */
  datatype Equality = NotImplemented | Equal(same: bool)

  /** `not t.tm_isdst`, as the integer flag that is handed back to `mktime`. */
  function FlippedDst(isdst: int): (r: int)
    ensures r == 0 || r == 1
    ensures r == 1 <==> isdst == 0
  {
    if isdst == 0 then 1 else 0
  }

  /** `mktime((y, m, d, H, M, S, 0, 1, -1))`: the wall clock read with DST unknown. */
  function FirstGuess(os: Platform, f: Fields): int {
    os.mktime(TimeTuple(f, 0, 1, -1))
  }

  /** `mktime((*t[:8], not t.tm_isdst))`: the same wall clock read under the other DST flag. */
  function Reinterpret(os: Platform, t: StructTime): int {
    os.mktime(t.tuple.(isdst := FlippedDst(t.tuple.isdst)))
  }

  class SystemTZ {
    /** `_DateTime`: the class of the datetimes this instance builds. */
    const dateTimeCls: DateTimeClass
    /** `_name`: a non-empty display name, or `None`. */
    const name: Option<string>

    /** `SystemTZ(datetime_like_cls, name=name)`; an empty name counts as no name. */
    constructor (dateTimeCls: DateTimeClass, name: Option<string>)
      ensures this.dateTimeCls == dateTimeCls
      ensures this.name == if name.Some? && name.value != "" then name else None
      ensures Valid()
    {
      this.dateTimeCls := dateTimeCls;
      this.name := if name.Some? && name.value != "" then name else None;
    }

    /** What the constructor establishes: a display name is never empty. */
    predicate Valid() {
      name.None? || name.value != ""
    }

    /** `dt.tzinfo is self`. */
    predicate Owns(dt: DateTime) {
      dt.tzinfo == Some(System(this))
    }

    /** `__str__`. */
    function Str(): (s: string)
      ensures name.Some? ==> s == name.value
      ensures name.None? ==> s == "<SystemTZ>"
      ensures Valid() ==> |s| > 0
    {
      if name.Some? then name.value else "<" + "SystemTZ" + ">"
    }

    /** `__repr__`: the name, else the constructor call that rebuilds the instance. */
    function Repr(): (s: string)
      ensures name.Some? ==> s == name.value
      ensures name.None? && dateTimeCls == StdDateTime ==> s == "SystemTZ()"
      ensures name.None? && dateTimeCls != StdDateTime ==>
                s == "SystemTZ(" + dateTimeCls.moduleName + "." + dateTimeCls.qualname + ")"
      ensures Valid() ==> |s| > 0
    {
      if name.Some? then name.value
      else
        var args := if dateTimeCls != StdDateTime then [dateTimeCls.moduleName + "." + dateTimeCls.qualname] else [];
        "SystemTZ" + "(" + Join(args) + ")"
    }

    /** `__eq__`: `NotImplemented` for another class, else whether both build the same datetime class. */
    function Eq(other: TzInfo): (r: Equality)
      ensures r == NotImplemented <==> other.Foreign?
      ensures other.System? ==> (r == Equal(true) <==> other.tz.dateTimeCls == dateTimeCls)
    {
      match other
      case Foreign(_) => NotImplemented
      case System(o) => Equal(o.dateTimeCls == dateTimeCls)
    }

    /**
     * `fromutc(dt)`: the local wall clock of the UTC instant written in `dt`'s
     * fields, tagged with this instance. `fold` is 1 exactly when the flipped-DST
     * reading of those local fields is an earlier instant whose offset is larger,
     * that is, when `dt` falls in the second occurrence of a repeated hour.
     */
    function FromUtc(os: Platform, dt: DateTime): (r: Result<DateTime, Failure>)
      ensures r.Err? <==> !Owns(dt)
      ensures r.Ok? ==>
        var t := os.localtime(Timegm(dt.fields));
        && r.value.cls == dateTimeCls
        && r.value.fields == t.tuple.fields
        && r.value.microsecond == dt.microsecond
        && Owns(r.value)
        && (r.value.fold == 0 || r.value.fold == 1)
        && (r.value.fold == 1 <==>
              && dateTimeCls.hasFold
              && t.tuple.isdst >= 0
              && Reinterpret(os, t) < Timegm(dt.fields)
              && t.gmtoff < os.localtime(Reinterpret(os, t)).gmtoff)
    {
      if !Owns(dt) then Err(NotThisZone)
      else
        var secs := Timegm(dt.fields);
        var t := os.localtime(secs);
        var local := DateTime(dateTimeCls, t.tuple.fields, dt.microsecond, Some(System(this)), 0);
        if !dateTimeCls.hasFold then Ok(local)
        else if t.tuple.isdst < 0 then Ok(local)
        else
          var secs0 := Reinterpret(os, t);
          if secs0 >= secs then Ok(local)
          else
            var t0 := os.localtime(secs0);
            Ok(local.(fold := if t.gmtoff < t0.gmtoff then 1 else 0))
    }

    /**
     * `_mktime(dt)`: the instant `dt` denotes. The first guess stands unless
     * the datetime supports `fold`, DST is known, the flipped-DST reading is a
     * different instant and the two offsets differ; then fold 0 takes the
     * reading with the larger offset (the earlier occurrence) and fold 1 the
     * one with the smaller offset. The sample returned is always the
     * `localtime` of the seconds returned.
     */
    function MkTime(os: Platform, dt: DateTime): (r: Result<Chosen, Failure>)
      ensures r.Err? <==> !Owns(dt)
      ensures r.Ok? ==> r.value.microsecond == dt.microsecond
      ensures r.Ok? ==> r.value.sample == os.localtime(r.value.secs)
      ensures r.Ok? ==>
        var secs := FirstGuess(os, dt.fields);
        var t := os.localtime(secs);
        var secs0 := Reinterpret(os, t);
        var t0 := os.localtime(secs0);
        && (r.value.secs == secs || r.value.secs == secs0)
        && (!dt.cls.hasFold || t.tuple.isdst < 0 || secs0 == secs || t.gmtoff == t0.gmtoff ==>
              r.value.secs == secs)
        && (dt.cls.hasFold && t.tuple.isdst >= 0 && secs0 != secs && t.gmtoff != t0.gmtoff ==>
              r.value.sample.gmtoff ==
                if dt.fold == 0 then Max(t.gmtoff, t0.gmtoff) else Min(t.gmtoff, t0.gmtoff))
    {
      if !Owns(dt) then Err(NotThisZone)
      else
        var secs := FirstGuess(os, dt.fields);
        var t := os.localtime(secs);
        var first := Chosen(t, secs, dt.microsecond);
        if !dt.cls.hasFold then Ok(first)
        else if t.tuple.isdst < 0 then Ok(first)
        else
          var secs0 := Reinterpret(os, t);
          if secs0 == secs then Ok(first)
          else
            var t0 := os.localtime(secs0);
            if t.gmtoff == t0.gmtoff then Ok(first)
            else if (t.gmtoff > t0.gmtoff) != (dt.fold != 0) then Ok(first)
            else Ok(Chosen(t0, secs0, dt.microsecond))
    }

    /** `utcoffset(dt)` in seconds: the live sample for `None`, else the sample `_mktime` chooses. */
    function UtcOffset(os: Platform, dt: Option<DateTime>): (r: Result<int, Failure>)
      ensures dt.None? ==> r == Ok(os.localtime(os.clock).gmtoff)
      ensures dt.Some? ==> (r.Err? <==> !Owns(dt.value))
      ensures dt.Some? && r.Ok? ==> r.value == os.localtime(MkTime(os, dt.value).value.secs).gmtoff
    {
      if dt.None? then Ok(os.localtime(os.clock).gmtoff)
      else
        match MkTime(os, dt.value)
        case Err(e) => Err(e)
        case Ok(c) => Ok(c.sample.gmtoff)
    }

    /** `tzname(dt)`: the zone abbreviation the platform reports, never synthesised. */
    function TzName(os: Platform, dt: Option<DateTime>): (r: Result<string, Failure>)
      ensures dt.None? ==> r == Ok(os.localtime(os.clock).zone)
      ensures dt.Some? ==> (r.Err? <==> !Owns(dt.value))
      ensures dt.Some? && r.Ok? ==> r.value == os.localtime(MkTime(os, dt.value).value.secs).zone
    {
      if dt.None? then Ok(os.localtime(os.clock).zone)
      else
        match MkTime(os, dt.value)
        case Err(e) => Err(e)
        case Ok(c) => Ok(c.sample.zone)
    }

    /**
     * `dst(dt)` in seconds: `None` exactly when the platform does not know
     * whether DST is in effect, zero when it is not, and otherwise how far the
     * standard-time reading of the same wall clock lies from the instant
     * (negative for a zone whose DST runs behind its standard time).
     */
    function Dst(os: Platform, dt: Option<DateTime>): (r: Result<Option<int>, Failure>)
      ensures dt.None? ==> r.Ok?
      ensures dt.Some? ==> (r.Err? <==> !Owns(dt.value))
      ensures r.Ok? ==>
        var secs := if dt.None? then os.clock else MkTime(os, dt.value).value.secs;
        var t := os.localtime(secs);
        && (r.value.None? <==> t.tuple.isdst < 0)
        && (t.tuple.isdst == 0 ==> r.value == Some(0))
        && (t.tuple.isdst > 0 ==> r.value == Some(os.mktime(t.tuple.(isdst := 0)) - secs))
    {
      var chosen :=
        if dt.None? then Ok(Chosen(os.localtime(os.clock), os.clock, 0))
        else MkTime(os, dt.value);
      match chosen
      case Err(e) => Err(e)
      case Ok(c) =>
        var t := c.sample;
        if t.tuple.isdst < 0 then Ok(None)
        else if t.tuple.isdst == 0 then Ok(Some(0))
        else Ok(Some(os.mktime(t.tuple.(isdst := 0)) - c.secs))
    }
  }

  function Max(a: int, b: int): int { if a < b then b else a }
  function Min(a: int, b: int): int { if a < b then a else b }

  /** `', '.join(args)`. */
  function Join(args: seq<string>): string {
    if |args| == 0 then "" else if |args| == 1 then args[0] else args[0] + ", " + Join(args[1..])
  }
}
