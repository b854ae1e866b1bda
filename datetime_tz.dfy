/**
 * `datetime_tz`: a `datetime.datetime` that is guaranteed to be timezone
 * aware, and its assumed-zone configurations `datetime_utc` and
 * `datetime_local`.
 *
 * A class is described by its class object and its
 * `assumed_timezone_for_timezone_naive_input`. Everything the wrapper
 * delegates to Python's `datetime` module or to other tzinfo objects is part of
 * an `Env`: the platform behind `SystemTZ`, the `utcoffset` of other tzinfo
 * objects, `astimezone`, `datetime.now(tz)` and the assumed-zone attribute
 * that `getattr` finds on a datetime's class.
 */
module DatetimeTz {
  import opened Wrappers
  import opened Calendar
  import opened SystemTz

  /** A `datetime_tz` class: the class object and its `assumed_timezone_for_timezone_naive_input`. */
  datatype TzClass = TzClass(cls: DateTimeClass, assumed: Option<TzInfo>)

  /**
   * What the wrapper raises: its own `DatetimeTzError`, the `AssertionError`
   * of `__init__` and `assert_aware_datetime`, and the `ValueError` /
   * `OverflowError` of `datetime` for fields out of range.
   */
  datatype Error = DatetimeTzError(msg: string) | AssertionError | ValueError | OverflowError

  const NaiveMsg: string := "Cannot create aware datetime from naive if no tz is assumed"
  const NowMsg: string :=
    "Must override assumed_timezone_for_timezone_naive_input or give a timezone when calling now"

  /**
   * What the wrapper delegates. `offset(key, f, fold)` is `utcoffset(dt)` in
   * seconds of a tzinfo that is not a `SystemTZ`, for a datetime with wall
   * clock `f` and that `fold`; `astimezone(dt, tz)` is the wall clock of
   * `dt`'s instant in `tz` and whether it is the second occurrence of that
   * wall clock; `now(tz)` is `datetime.now(tz)`;
   * `assumedOf(cls)` is `getattr` of the assumed-zone attribute on a class
   * (`None` for `datetime.datetime`).
   */
  datatype Env = Env(os: Platform,
                     offset: (string, Fields, int) -> Option<int>,
                     astimezone: (DateTime, TzInfo) -> (Fields, bool),
                     now: TzInfo -> DateTime,
                     assumedOf: DateTimeClass -> Option<TzInfo>)

  /** `datetime_utc`: a `datetime_tz` whose assumed zone is `ZoneInfo('UTC')`. */
  function DatetimeUtc(cls: DateTimeClass): TzClass {
    TzClass(cls, Some(Foreign("UTC")))
  }

  /** `datetime_local`: a `datetime_tz` whose assumed zone is the host's zone `local`, fixed at import. */
  function DatetimeLocal(cls: DateTimeClass, local: TzInfo): TzClass {
    TzClass(cls, Some(local))
  }

  /**
   * `a == b` between tzinfo objects: `SystemTZ.__eq__` between two
   * `SystemTZ` instances, identity otherwise (`ZoneInfo` has no `__eq__` and
   * hands out one instance per key, so identity is equality of keys).
   */
  predicate TzEq(a: TzInfo, b: TzInfo) {
    match a
    case System(x) => x.Eq(b) == Equal(true)
    case Foreign(k) => b == Foreign(k)
  }

  /** `dt.tzinfo.utcoffset(dt)` in seconds; `None` for a naive datetime. */
  function UtcOffsetOf(env: Env, dt: DateTime): (r: Option<int>)
    ensures dt.tzinfo.None? ==> r.None?
    ensures dt.tzinfo.Some? && dt.tzinfo.value.System? ==> r.Some?
  {
    match dt.tzinfo
    case None => None
    case Some(System(tz)) =>
      (match tz.UtcOffset(env.os, Some(dt))
       case Ok(off) => Some(off)
       case Err(_) => None)
    case Some(Foreign(key)) => env.offset(key, dt.fields, dt.fold)
  }

  /** What `datetime.datetime(...)` accepts: valid fields in years 1..9999, microseconds and a fold bit. */
  predicate ValidDateTime(dt: DateTime) {
    && ValidFields(dt.fields)
    && 1 <= dt.fields.year <= 9999
    && 0 <= dt.microsecond < 1000000
    && (dt.fold == 0 || dt.fold == 1)
  }

  /** `assert_aware_datetime(dt)`: `dt` has a tzinfo and it gives `dt` a UTC offset. */
  predicate Aware(env: Env, dt: DateTime) {
    dt.tzinfo.Some? && UtcOffsetOf(env, dt).Some?
  }

  /** `assert_aware_datetime(dt)`: returns, or raises `AssertionError`. */
  function AssertAwareDatetime(env: Env, dt: DateTime): (r: Result<(), Error>)
    ensures r.Ok? <==> dt.tzinfo.Some? && UtcOffsetOf(env, dt).Some?
    ensures r.Err? ==> r.error == AssertionError
  {
    if dt.tzinfo.Some? && UtcOffsetOf(env, dt).Some? then Ok(()) else Err(AssertionError)
  }

  /**
   * The checks of `__init__` on an instance of `c`: a tzinfo is present, it
   * equals the class's assumed zone if there is one, and it gives the
   * instance a UTC offset.
   */
  predicate Constructed(env: Env, c: TzClass, dt: DateTime) {
    && dt.cls == c.cls
    && dt.tzinfo.Some?
    && TzEq(dt.tzinfo.value, if c.assumed.Some? then c.assumed.value else dt.tzinfo.value)
    && Aware(env, dt)
  }

  /** A live instance of `c`: a valid datetime that passed `__init__`. */
  predicate Instance(env: Env, c: TzClass, dt: DateTime) {
    ValidDateTime(dt) && Constructed(env, c, dt)
  }

  /**
   * `c(year, ..., microsecond, tzinfo=tzinfo, fold=fold)`: `datetime`'s range
   * checks, then the assertions of `__init__`.
   */
  function New(env: Env, c: TzClass, f: Fields, us: int, tzinfo: Option<TzInfo>, fold: int): (r: Result<DateTime, Error>)
    ensures var dt := DateTime(c.cls, f, us, tzinfo, fold);
            && (r.Ok? <==> Instance(env, c, dt))
            && (r.Ok? ==> r.value == dt)
            && (r.Err? ==> r.error == (if ValidDateTime(dt) then AssertionError else ValueError))
  {
    var dt := DateTime(c.cls, f, us, tzinfo, fold);
    if !ValidDateTime(dt) then Err(ValueError)
    else if !Constructed(env, c, dt) then Err(AssertionError)
    else Ok(dt)
  }

  /**
   * `dt.astimezone(tz)`: the datetime itself when its tzinfo already is `tz`,
   * otherwise the same instant in `tz`, with the same microseconds.
   */
  function AsTimezone(env: Env, dt: DateTime, tz: TzInfo): (r: DateTime)
    ensures dt.tzinfo == Some(tz) ==> r == dt
    ensures r.tzinfo == Some(tz) && r.cls == dt.cls && r.microsecond == dt.microsecond
    ensures dt.tzinfo != Some(tz) ==>
              r.fields == env.astimezone(dt, tz).0 && (r.fold == 1 <==> env.astimezone(dt, tz).1)
    ensures (dt.fold == 0 || dt.fold == 1) ==> (r.fold == 0 || r.fold == 1)
  {
    if dt.tzinfo == Some(tz) then dt
    else
      var w := env.astimezone(dt, tz);
      dt.(fields := w.0, tzinfo := Some(tz), fold := if w.1 then 1 else 0)
  }

  /**
   * The datetime `from_datetime` builds its instance from: a naive input
   * gets the assumed zone attached; an aware input is converted to the
   * assumed zone, after being rebuilt as a plain `datetime.datetime` when its
   * own class carries an assumed zone; an aware input stays as it is when no
   * zone is assumed.
   */
  function Adopted(env: Env, c: TzClass, dt: DateTime): DateTime
    requires dt.tzinfo.Some? || c.assumed.Some?
  {
    if dt.tzinfo.None? then dt.(tzinfo := c.assumed)
    else if c.assumed.Some? then
      if env.assumedOf(dt.cls).Some? then AsTimezone(env, dt.(cls := StdDateTime), c.assumed.value)
      else AsTimezone(env, dt, c.assumed.value)
    else dt
  }

  /** `c.from_datetime(dt)`. */
  function FromDatetime(env: Env, c: TzClass, dt: DateTime): (r: Result<DateTime, Error>)
    ensures r == Err(DatetimeTzError(NaiveMsg)) <==> dt.tzinfo.None? && c.assumed.None?
    ensures r.Ok? ==> Instance(env, c, r.value)
    ensures r.Ok? && dt.tzinfo.None? ==>
              r.value == dt.(cls := c.cls, tzinfo := c.assumed)
    ensures r.Ok? && dt.tzinfo.Some? && c.assumed.None? ==>
              r.value == dt.(cls := c.cls)
    ensures r.Ok? && dt.tzinfo.Some? && c.assumed.Some? ==>
              var base := if env.assumedOf(dt.cls).Some? then dt.(cls := StdDateTime) else dt;
              var d := AsTimezone(env, base, c.assumed.value);
              r.value == d.(cls := c.cls)
  {
    if dt.tzinfo.None? && c.assumed.None? then Err(DatetimeTzError(NaiveMsg))
    else
      var d := Adopted(env, c, dt);
      match AssertAwareDatetime(env, d)
      case Err(e) => Err(e)
      case Ok(_) => New(env, c, d.fields, d.microsecond, d.tzinfo, d.fold)
  }

  /** The zone `now` reads the clock in: the class's assumed zone, else the argument. */
  function NowZone(c: TzClass, tz: Option<TzInfo>): Option<TzInfo> {
    if c.assumed.Some? then c.assumed else tz
  }

  /** `c.now(tz)`. */
  function Now(env: Env, c: TzClass, tz: Option<TzInfo>): (r: Result<DateTime, Error>)
    ensures r == Err(DatetimeTzError(NowMsg)) <==> c.assumed.None? && tz.None?
    ensures c.assumed.Some? ==> r == FromDatetime(env, c, env.now(c.assumed.value))
    ensures c.assumed.None? && tz.Some? ==> r == FromDatetime(env, c, env.now(tz.value))
  {
    var z := NowZone(c, tz);
    if z.None? then Err(DatetimeTzError(NowMsg))
    else FromDatetime(env, c, env.now(z.value))
  }

  /** The wall clock `delta` microseconds after the fields `f` plus `us` microseconds. */
  function Shift(f: Fields, us: int, delta: int): (r: (Fields, int))
    ensures ValidFields(r.0) && 0 <= r.1 < 1000000
    ensures Timegm(r.0) * 1000000 + r.1 == Timegm(f) * 1000000 + us + delta
  {
    var total := Timegm(f) * 1000000 + us + delta;
    TimegmOfCivil(total / 1000000);
    (Civil(total / 1000000), total % 1000000)
  }

  /**
   * `dt + timedelta(microseconds=delta)` on an instance of `c`: wall-clock
   * arithmetic that keeps the tzinfo, resets `fold` and builds the result
   * through `c`'s constructor; `OverflowError` outside years 1..9999.
   */
  function Add(env: Env, c: TzClass, dt: DateTime, delta: int): (r: Result<DateTime, Error>)
    ensures r.Ok? ==> Instance(env, c, r.value) && r.value.tzinfo == dt.tzinfo && r.value.fold == 0
    ensures r.Ok? ==> Timegm(r.value.fields) * 1000000 + r.value.microsecond
                        == Timegm(dt.fields) * 1000000 + dt.microsecond + delta
  {
    var s := Shift(dt.fields, dt.microsecond, delta);
    if !(1 <= s.0.year <= 9999) then Err(OverflowError)
    else New(env, c, s.0, s.1, dt.tzinfo, 0)
  }

  /** `c.future(weeks, ..., microseconds, tz)`: `now(tz)` plus the delta. */
  function Future(env: Env, c: TzClass, delta: int, tz: Option<TzInfo>): (r: Result<DateTime, Error>)
    ensures Now(env, c, tz).Err? ==> r == Now(env, c, tz)
    ensures r.Ok? ==>
              var n := Now(env, c, tz).value;
              && Now(env, c, tz).Ok?
              && Instance(env, c, r.value) && r.value.tzinfo == n.tzinfo && r.value.fold == 0
              && Timegm(r.value.fields) * 1000000 + r.value.microsecond
                   == Timegm(n.fields) * 1000000 + n.microsecond + delta
  {
    match Now(env, c, tz)
    case Err(e) => Err(e)
    case Ok(n) => Add(env, c, n, delta)
  }

  /** `c.past(weeks, ..., microseconds, tz)`: `now(tz)` minus the delta. */
  function Past(env: Env, c: TzClass, delta: int, tz: Option<TzInfo>): (r: Result<DateTime, Error>)
    ensures Now(env, c, tz).Err? ==> r == Now(env, c, tz)
    ensures r.Ok? ==>
              var n := Now(env, c, tz).value;
              && Now(env, c, tz).Ok?
              && Instance(env, c, r.value) && r.value.tzinfo == n.tzinfo && r.value.fold == 0
              && Timegm(r.value.fields) * 1000000 + r.value.microsecond
                   == Timegm(n.fields) * 1000000 + n.microsecond - delta
  {
    match Now(env, c, tz)
    case Err(e) => Err(e)
    case Ok(n) => Add(env, c, n, -delta)
  }

  /** `self.__deepcopy__(memo)`, where `c` is `self.__class__`. */
  function DeepCopy(env: Env, c: TzClass, self: DateTime): (r: Result<DateTime, Error>)
    requires self.cls == c.cls
    ensures Instance(env, c, self) ==> r == Ok(self)
    ensures r.Ok? ==> r.value == self
  {
    New(env, c, self.fields, self.microsecond, self.tzinfo, self.fold)
  }

  // ---------------------------------------------------------------------
  // Properties

  /** What `ZoneInfo` guarantees: it gives every wall clock an offset. */
  ghost predicate ZonesBehave(env: Env) {
    forall key, f, fold :: env.offset(key, f, fold).Some?
  }

  /** A tzinfo equals itself. */
  lemma TzEqReflexive(a: TzInfo)
    ensures TzEq(a, a)
  {
    if a.System? {
      assert a.tz.Eq(System(a.tz)) == Equal(a.tz.dateTimeCls == a.tz.dateTimeCls);
    }
  }

  /** With zones that behave, every datetime with a tzinfo is aware. */
  lemma AwareWithZone(env: Env, dt: DateTime)
    requires ZonesBehave(env) && dt.tzinfo.Some?
    ensures Aware(env, dt)
  {
    if dt.tzinfo.value.Foreign? {
      assert env.offset(dt.tzinfo.value.key, dt.fields, dt.fold).Some?;
    }
  }

  /** With an assumed zone, every instance `from_datetime` builds is in exactly that zone. */
  lemma AssumedZoneAttached(env: Env, c: TzClass, dt: DateTime)
    requires c.assumed.Some? && FromDatetime(env, c, dt).Ok?
    ensures FromDatetime(env, c, dt).value.tzinfo == c.assumed
  {
  }

  /**
   * `datetime_utc.from_datetime` always returns a datetime in UTC, and
   * `datetime_local.from_datetime` one in the host's zone.
   */
  lemma ConfigurationsPinTheirZone(env: Env, cls: DateTimeClass, local: TzInfo, dt: DateTime)
    ensures FromDatetime(env, DatetimeUtc(cls), dt).Ok? ==>
              FromDatetime(env, DatetimeUtc(cls), dt).value.tzinfo == Some(Foreign("UTC"))
    ensures FromDatetime(env, DatetimeLocal(cls, local), dt).Ok? ==>
              FromDatetime(env, DatetimeLocal(cls, local), dt).value.tzinfo == Some(local)
  {
    if FromDatetime(env, DatetimeUtc(cls), dt).Ok? {
      AssumedZoneAttached(env, DatetimeUtc(cls), dt);
    }
    if FromDatetime(env, DatetimeLocal(cls, local), dt).Ok? {
      AssumedZoneAttached(env, DatetimeLocal(cls, local), dt);
    }
  }

  /** `from_datetime` applied to its own result gives that result back. */
  lemma FromDatetimeIdempotent(env: Env, c: TzClass, dt: DateTime)
    requires ZonesBehave(env) && FromDatetime(env, c, dt).Ok?
    ensures FromDatetime(env, c, FromDatetime(env, c, dt).value) == FromDatetime(env, c, dt)
  {
    var x := FromDatetime(env, c, dt).value;
    if c.assumed.Some? {
      AssumedZoneAttached(env, c, dt);
      assert Adopted(env, c, x).(cls := c.cls) == x;
    } else {
      assert Adopted(env, c, x) == x;
    }
  }

  /** A naive datetime under an assumed zone keeps its wall clock, microseconds and fold. */
  lemma NaiveAdoptsAssumedZone(env: Env, c: TzClass, dt: DateTime)
    requires ZonesBehave(env) && ValidDateTime(dt)
    requires dt.tzinfo.None? && c.assumed.Some?
    ensures FromDatetime(env, c, dt) == Ok(dt.(cls := c.cls, tzinfo := c.assumed))
  {
    TzEqReflexive(c.assumed.value);
    AwareWithZone(env, dt.(tzinfo := c.assumed));
    AwareWithZone(env, dt.(cls := c.cls, tzinfo := c.assumed));
  }

  /** Without an assumed zone, an aware datetime keeps its fields, tzinfo and fold. */
  lemma AwareKeptAsIs(env: Env, c: TzClass, dt: DateTime)
    requires ZonesBehave(env) && ValidDateTime(dt)
    requires dt.tzinfo.Some? && c.assumed.None?
    ensures FromDatetime(env, c, dt) == Ok(dt.(cls := c.cls))
  {
    TzEqReflexive(dt.tzinfo.value);
    AwareWithZone(env, dt);
    AwareWithZone(env, dt.(cls := c.cls));
  }

  /**
   * With an assumed zone, an aware datetime is converted to it; an instance
   * of an assumed-zone class is first rebuilt as a plain `datetime.datetime`,
   * so the conversion does not depend on which such class it came from.
   */
  lemma AwareConvertedToAssumedZone(env: Env, c: TzClass, dt: DateTime, other: DateTimeClass)
    requires ZonesBehave(env) && dt.tzinfo.Some? && c.assumed.Some?
    requires env.assumedOf(dt.cls).Some? && env.assumedOf(other).Some?
    ensures FromDatetime(env, c, dt) == FromDatetime(env, c, dt.(cls := other))
  {
    assert dt.(cls := StdDateTime) == dt.(cls := other).(cls := StdDateTime);
  }

  /** `now` reads the clock in the assumed zone, else in its argument, and keeps the reading. */
  lemma NowInZone(env: Env, c: TzClass, tz: Option<TzInfo>)
    requires ZonesBehave(env) && NowZone(c, tz).Some?
    requires var n := env.now(NowZone(c, tz).value);
             ValidDateTime(n) && n.tzinfo == NowZone(c, tz) && env.assumedOf(n.cls).None?
    ensures Now(env, c, tz) == Ok(env.now(NowZone(c, tz).value).(cls := c.cls))
  {
    var z := NowZone(c, tz).value;
    var n := env.now(z);
    TzEqReflexive(z);
    AwareWithZone(env, n);
    AwareWithZone(env, n.(cls := c.cls));
  }

  /** `past` is `future` with the delta negated. */
  lemma PastIsNegatedFuture(env: Env, c: TzClass, delta: int, tz: Option<TzInfo>)
    ensures Past(env, c, delta, tz) == Future(env, c, -delta, tz)
  {
  }

  /** Shifting a valid wall clock forth and back returns it. */
  lemma ShiftBack(f: Fields, us: int, delta: int)
    requires ValidFields(f) && 0 <= us < 1000000
    ensures var s := Shift(f, us, delta);
            Shift(s.0, s.1, -delta) == (f, us)
  {
    var s := Shift(f, us, delta);
    var total := Timegm(s.0) * 1000000 + s.1 - delta;
    assert total == Timegm(f) * 1000000 + us;
    DivMod(total, 1000000, Timegm(f), us);
    CivilOfTimegm(f);
  }

  /**
   * Adding a delta to an instance succeeds exactly when the result stays in
   * years 1..9999, and subtracting it again gives the instance back with fold 0.
   */
  lemma AddThenSubtract(env: Env, c: TzClass, x: DateTime, delta: int)
    requires ZonesBehave(env) && Instance(env, c, x)
    ensures Add(env, c, x, delta).Ok? <==> 1 <= Shift(x.fields, x.microsecond, delta).0.year <= 9999
    ensures Add(env, c, x, delta).Ok? ==> Add(env, c, Add(env, c, x, delta).value, -delta) == Ok(x.(fold := 0))
  {
    var s := Shift(x.fields, x.microsecond, delta);
    if 1 <= s.0.year <= 9999 {
      AwareWithZone(env, DateTime(c.cls, s.0, s.1, x.tzinfo, 0));
      ShiftBack(x.fields, x.microsecond, delta);
      AwareWithZone(env, x.(fold := 0));
    }
  }
}
