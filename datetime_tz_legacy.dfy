/**
 * The older single-file `datetime_tz` (version 1.0.0). It has the same
 * decision tree as the package version, but its constructor takes no `fold`,
 * so every instance it builds has fold 0, and `from_datetime` converts an
 * aware input to the assumed zone as it is, without first rebuilding an
 * instance of an assumed-zone class as a plain `datetime.datetime`.
 */
module DatetimeTzLegacy {
  import opened Wrappers
  import opened Calendar
  import opened SystemTz
  import opened DatetimeTz

  /** `c(year, ..., microsecond, tzinfo=tzinfo)`: the package constructor with the default fold 0. */
  function New(env: Env, c: TzClass, f: Fields, us: int, tzinfo: Option<TzInfo>): (r: Result<DateTime, Error>)
    ensures r.Ok? <==> Instance(env, c, DateTime(c.cls, f, us, tzinfo, 0))
    ensures r.Ok? ==> r.value == DateTime(c.cls, f, us, tzinfo, 0)
  {
    DatetimeTz.New(env, c, f, us, tzinfo, 0)
  }

  /**
   * The datetime `from_datetime` builds its instance from: a naive input
   * gets the assumed zone attached, an aware input is converted to the
   * assumed zone, and an aware input stays as it is when no zone is assumed.
   */
  function Adopted(env: Env, c: TzClass, dt: DateTime): DateTime
    requires dt.tzinfo.Some? || c.assumed.Some?
  {
    if dt.tzinfo.None? then dt.(tzinfo := c.assumed)
    else if c.assumed.Some? then AsTimezone(env, dt, c.assumed.value)
    else dt
  }

  /** `c.from_datetime(dt)`. */
  function FromDatetime(env: Env, c: TzClass, dt: DateTime): (r: Result<DateTime, Error>)
    ensures r == Err(DatetimeTzError(NaiveMsg)) <==> dt.tzinfo.None? && c.assumed.None?
    ensures r.Ok? ==> Instance(env, c, r.value) && r.value.fold == 0
    ensures r.Ok? && dt.tzinfo.None? ==>
              r.value == dt.(cls := c.cls, tzinfo := c.assumed, fold := 0)
    ensures r.Ok? && dt.tzinfo.Some? && c.assumed.None? ==>
              r.value == dt.(cls := c.cls, fold := 0)
    ensures r.Ok? && dt.tzinfo.Some? && c.assumed.Some? ==>
              r.value == AsTimezone(env, dt, c.assumed.value).(cls := c.cls, fold := 0)
  {
    if dt.tzinfo.None? && c.assumed.None? then Err(DatetimeTzError(NaiveMsg))
    else
      var d := Adopted(env, c, dt);
      match AssertAwareDatetime(env, d)
      case Err(e) => Err(e)
      case Ok(_) => New(env, c, d.fields, d.microsecond, d.tzinfo)
  }

  /** `c.now(tz)`. */
  function Now(env: Env, c: TzClass, tz: Option<TzInfo>): (r: Result<DateTime, Error>)
    ensures r == Err(DatetimeTzError(NowMsg)) <==> c.assumed.None? && tz.None?
    ensures c.assumed.Some? ==> r == FromDatetime(env, c, env.now(c.assumed.value))
    ensures c.assumed.None? && tz.Some? ==> r == FromDatetime(env, c, env.now(tz.value))
    ensures r.Ok? ==> Instance(env, c, r.value) && r.value.fold == 0
  {
    var z := NowZone(c, tz);
    if z.None? then Err(DatetimeTzError(NowMsg))
    else FromDatetime(env, c, env.now(z.value))
  }

  /** `c.future(weeks, ..., microseconds, tz)`: `now(tz)` plus the delta. */
  function Future(env: Env, c: TzClass, delta: int, tz: Option<TzInfo>): (r: Result<DateTime, Error>)
    ensures Now(env, c, tz).Err? ==> r == Now(env, c, tz)
    ensures r.Ok? ==>
              var n := Now(env, c, tz).value;
              && Now(env, c, tz).Ok?
              && Instance(env, c, r.value) && r.value.tzinfo == n.tzinfo && r.value.fold == 0
              && Timegm(r.value.fields) * 1000000 + r.value.microsecond
                   == Timegm(n.fields) * 1000000 + n.microsecond + delta
  {
    match Now(env, c, tz)
    case Err(e) => Err(e)
    case Ok(n) => Add(env, c, n, delta)
  }

  /** `c.past(weeks, ..., microseconds, tz)`: `now(tz)` minus the delta. */
  function Past(env: Env, c: TzClass, delta: int, tz: Option<TzInfo>): (r: Result<DateTime, Error>)
    ensures Now(env, c, tz).Err? ==> r == Now(env, c, tz)
    ensures r.Ok? ==>
              var n := Now(env, c, tz).value;
              && Now(env, c, tz).Ok?
              && Instance(env, c, r.value) && r.value.tzinfo == n.tzinfo && r.value.fold == 0
              && Timegm(r.value.fields) * 1000000 + r.value.microsecond
                   == Timegm(n.fields) * 1000000 + n.microsecond - delta
  {
    match Now(env, c, tz)
    case Err(e) => Err(e)
    case Ok(n) => Add(env, c, n, -delta)
  }

  /** `self.__deepcopy__(memo)`, where `c` is `self.__class__`: the copy drops `fold`. */
  function DeepCopy(env: Env, c: TzClass, self: DateTime): (r: Result<DateTime, Error>)
    requires self.cls == c.cls
    ensures r.Ok? ==> r.value == self.(fold := 0)
  {
    New(env, c, self.fields, self.microsecond, self.tzinfo)
  }

  // ---------------------------------------------------------------------
  // Properties

  /** Deep-copying an instance succeeds and gives it back with fold 0. */
  lemma DeepCopyDropsFold(env: Env, c: TzClass, self: DateTime)
    requires ZonesBehave(env) && Instance(env, c, self)
    ensures DeepCopy(env, c, self) == Ok(self.(fold := 0))
  {
    AwareWithZone(env, self.(fold := 0));
  }

  /**
   * Where the two versions read the same datetime, they build the same
   * instance except that the older one leaves `fold` at 0: for naive input,
   * for input when no zone is assumed, and for input whose class carries no
   * assumed zone.
   */
  lemma SameButFold(env: Env, c: TzClass, dt: DateTime)
    requires ZonesBehave(env) && (dt.fold == 0 || dt.fold == 1)
    requires dt.tzinfo.None? || c.assumed.None? || env.assumedOf(dt.cls).None?
    ensures var current := DatetimeTz.FromDatetime(env, c, dt);
            var legacy := FromDatetime(env, c, dt);
            && (legacy.Ok? <==> current.Ok?)
            && (current.Ok? ==> legacy.value == current.value.(fold := 0))
            && (current.Err? ==> legacy == current)
  {
    if !(dt.tzinfo.None? && c.assumed.None?) {
      var d := Adopted(env, c, dt);
      assert d == DatetimeTz.Adopted(env, c, dt);
      if d.tzinfo.Some? {
        AwareWithZone(env, d);
        AwareWithZone(env, d.(cls := c.cls));
        AwareWithZone(env, d.(cls := c.cls, fold := 0));
      }
    }
  }

  /**
   * An instance of an assumed-zone class is handed to `astimezone` as it is,
   * class included, where the package version hands over a plain copy.
   */
  lemma ConvertsInstanceAsIs(env: Env, c: TzClass, dt: DateTime)
    requires dt.tzinfo.Some? && c.assumed.Some? && env.assumedOf(dt.cls).Some?
    ensures Adopted(env, c, dt) == AsTimezone(env, dt, c.assumed.value)
    ensures DatetimeTz.Adopted(env, c, dt) == AsTimezone(env, dt.(cls := StdDateTime), c.assumed.value)
  {
  }

  /** `from_datetime` applied to its own result gives that result back. */
  lemma FromDatetimeIdempotent(env: Env, c: TzClass, dt: DateTime)
    requires FromDatetime(env, c, dt).Ok?
    ensures FromDatetime(env, c, FromDatetime(env, c, dt).value) == FromDatetime(env, c, dt)
  {
    var x := FromDatetime(env, c, dt).value;
    assert Adopted(env, c, x) == x;
  }
}
