# heliclockter in Dafny

This project models the core of heliclockter, a Python library of timezone-aware datetimes. It covers four parts:

- `SystemTZ` (`src/heliclockter/systemtz.py`), a `tzinfo` that answers every question by asking the operating system's `localtime` and `mktime`. It also works out on its own which of the two readings of a repeated wall clock a datetime means (PEP 495 `fold`).
- `datetime_tz` (`src/heliclockter/__init__.py`), a `datetime.datetime` subclass whose instances are always aware. Its configurations are `datetime_utc` and `datetime_local`, which carry an assumed zone for naive input.
- The older single-file copy of `datetime_tz` (`src/heliclockter.py`), which never propagates `fold`.
- The test suite's emulation of the platform (`tests/correct_datetime_handling_test.py`): `emulated_localtime`, `emulated_mktime`, `winkle_tz_out_of_zoneinfo`, and the rows of its `POINTS_IN_TIME` table around the end of DST.

Modules, one per file:

- `Wrappers`: `Option` and `Result`.
- `Calendar`: proleptic-Gregorian `calendar.timegm` and its inverse `Civil` (the UTC fields of an instant). Lemmas state what each computes in terms of day ordinals and prove both round trips.
- `SystemTz`: the platform as an oracle and `SystemTZ` as a class.
  - The oracle is `Platform(localtime, mktime, clock)`.
  - Construction fixes the class's fields. A datetime's `tzinfo` holds a reference to the instance, so `dt.tzinfo is self` is reference identity.
- `SystemTzProperties`: round trip, fold and equality properties of `SystemTZ` over any platform that meets stated hypotheses.
- `Emulation`: the test helpers over an abstract `ZoneInfo`. `winkle_tz_out_of_zoneinfo` is a method with its loop.
- `SyntheticZone`: a zone with one backward transition, run through the emulated platform.
  - The theorems hold for transitions that meet `BackwardTransition`:
    - the offset drops;
    - exactly one side observes DST;
    - both sides share one standard offset;
    - when the later side is standard time, `timezone - altzone` is at most the drop.
  - For those, `SystemTZ` round-trips every instant and sets `fold` exactly on the second occurrence of the repeated span.
  - A drop in standard offset with no DST on either side (Moscow, October 2014) is shown to lose the second occurrence.
- `PointsInTime`: the table rows for America/St_Johns, Europe/Dublin, Africa/El_Aaiun, Australia/Lord_Howe and Antarctica/Troll.
- `DatetimeTz` and `DatetimeTzLegacy`: the two versions of the wrapper.
  - A class is a `TzClass(cls, assumed)`.
  - Everything delegated to Python's `datetime` module or to other `tzinfo` objects is an `Env`:
    - the `utcoffset` of a non-`SystemTZ` zone;
    - `astimezone`;
    - `datetime.now`;
    - the `assumed_timezone_for_timezone_naive_input` found on a class.

Seconds are integers and microseconds a separate integer throughout.

## Model

| member | source | states |
|---|---|---|
| SystemTz.SystemTZ.constructor | src/heliclockter/systemtz.py:51-63 | keeps the datetime class; a missing or empty name is stored as no name, so a stored name is never empty |
| SystemTz.SystemTZ.Str | src/heliclockter/systemtz.py:65-68 | the name if one was given, else `<SystemTZ>`; never empty |
| SystemTz.SystemTZ.Repr | src/heliclockter/systemtz.py:70-76 | the name if given, else `SystemTZ()` for `datetime.datetime` and `SystemTZ(module.qualname)` for any other class; never empty |
| SystemTz.SystemTZ.Eq | src/heliclockter/systemtz.py:78-82 | `NotImplemented` exactly for a non-`SystemTZ` operand, otherwise equal iff both build the same datetime class |
| SystemTz.FlippedDst | src/heliclockter/systemtz.py:131 | `not t.tm_isdst` as a flag: 1 iff the flag was 0, always 0 or 1 |
| SystemTz.SystemTZ.FromUtc | src/heliclockter/systemtz.py:100-137 | fails iff `dt.tzinfo is not self`; otherwise the wall clock of `localtime(timegm(dt))` with `dt`'s microseconds, tagged with `self`, where `fold` is 1 iff the class has `fold`, DST is known, and the flipped-DST reading is an earlier instant with a larger offset |
| SystemTz.SystemTZ.MkTime | src/heliclockter/systemtz.py:139-159 | fails iff `dt.tzinfo is not self`; returns the first guess or the flipped-DST reading, and always the first guess in the four cases where fold cannot matter; otherwise fold 0 takes the larger offset and fold 1 the smaller; the sample is the `localtime` of the seconds returned |
| SystemTz.SystemTZ.UtcOffset | src/heliclockter/systemtz.py:161-180 | the live sample's `gmtoff` for `None`, else the `gmtoff` of the instant `_mktime` chooses; fails iff not this zone's datetime |
| SystemTz.SystemTZ.TzName | src/heliclockter/systemtz.py:182-199 | the live sample's zone name for `None`, else that of the instant `_mktime` chooses |
| SystemTz.SystemTZ.Dst | src/heliclockter/systemtz.py:201-230 | always succeeds for `None` and fails iff a datetime is not this zone's; `None` iff DST is unknown, 0 if not in DST, else the standard-time reading of the wall clock minus the chosen instant (possibly negative) |
| SystemTzProperties.RoundTripFirstOccurrence | src/heliclockter/systemtz.py:100-159 | when `mktime` maps an instant's local fields back to it and the flipped reading is not a later instant with a larger offset, `_mktime(fromutc(u))` is `u`'s instant, sample and microseconds |
| SystemTzProperties.RoundTripSecondOccurrence | src/heliclockter/systemtz.py:129-159 | for an instant in the second occurrence of a repeated wall clock whose first occurrence `mktime` prefers, `fromutc` sets fold 1 and `_mktime` follows it back to the instant |
| SystemTzProperties.NoFoldKeepsFirstGuess | src/heliclockter/systemtz.py:141-144 | without `fold` on the datetime's class, `_mktime` returns the first guess |
| SystemTzProperties.NoFoldFromUtc | src/heliclockter/systemtz.py:126-127 | without `fold` on the zone's class, `fromutc` succeeds with fold 0 |
| SystemTzProperties.FoldIrrelevantOutsideRepeats | src/heliclockter/systemtz.py:146-155 | where DST is unknown, the flipped reading is the same instant, or the offsets agree, `_mktime` is the same for every fold |
| SystemTzProperties.OffsetNameAndDstAgree | src/heliclockter/systemtz.py:161-230 | `utcoffset`, `tzname` and `dst` of one datetime all describe the one sample `_mktime` chooses |
| SystemTzProperties.EqIgnoresName | src/heliclockter/systemtz.py:78-82 | two instances with the same datetime class are equal whatever their names |
| SystemTzProperties.EqIsEquivalence | src/heliclockter/systemtz.py:78-82 | `__eq__` between instances is reflexive, symmetric and transitive |
| Calendar.TimegmInRange | src/heliclockter/systemtz.py:123 | for a month in range, `timegm` is the whole days since 1970-01-01 (by proleptic-Gregorian ordinal) times 86400 plus the seconds of the time of day |
| Calendar.CivilDayAndSecond | tests/correct_datetime_handling_test.py:148-158 | the UTC fields of an instant are valid, their date's ordinal is the epoch ordinal plus the instant's whole days (rounded down), and their time of day adds up to the seconds since that midnight |
| Calendar.TimegmOfCivil | src/heliclockter/systemtz.py:123-124 | the UTC fields of an instant are valid and `timegm` maps them back to the instant |
| Calendar.CivilOfTimegm | src/heliclockter/systemtz.py:123-124 | every valid set of fields is the UTC wall clock of its `timegm` |
| Emulation.EmulatedLocaltime | tests/correct_datetime_handling_test.py:145-166 | the tuple is `LocalTuple` of the instant shifted by the zone's offset, so its fields are that UTC wall clock with the weekday and day of year of that date; `gmtoff`, the zone name and `isdst` (1 iff the DST amount is non-zero) are those of the period in force |
| Emulation.LocalTuple | tests/correct_datetime_handling_test.py:153-164 | the struct's fields are valid and read back to the local seconds; `tm_wday` is `(ordinal + 6) % 7` (Monday 0) and `tm_yday` is the ordinal minus that of January 1 plus 1, so within 0..6 and 1..366 |
| Emulation.EmulatedMktime | tests/correct_datetime_handling_test.py:169-185 | the fold-0 instant when `isdst` is negative or fold 0 has the requested DST status, else the fold-1 instant when fold 1 has it, else the standard-offset reading or a shift back by `timezone - altzone` |
| Emulation.First | tests/correct_datetime_handling_test.py:69-92 | the index of the first sample showing what is wanted, none before it |
| Emulation.NextEntry | tests/correct_datetime_handling_test.py:74-84 | a DST sample keeps the previous standard name and records its full offset and name; a standard sample keeps the previous DST offset and name |
| Emulation.SamplingExit | tests/correct_datetime_handling_test.py:66-97 | when the loop ends, it has sampled exactly up to the sample at which all three indices are found (or all 105 samples), with indices in range and the log free of consecutive repeats |
| Emulation.WinkleOutcome | tests/correct_datetime_handling_test.py:99-102 | the returned values are minus the standard offset of the first sample, minus the full offset of the first DST sample, and the first standard and DST names; with no DST, `daylight` 0, `altzone == timezone` and the standard name twice |
| Emulation.Winkle | tests/correct_datetime_handling_test.py:49-102 | returns what `WinkleSpec` states of the weekly samples, samples exactly until all three facts are known, and logs no two consecutive equal entries |
| SyntheticZone.ReinterpretOneTransition | tests/correct_datetime_handling_test.py:169-185 | on the emulated platform, the flipped-DST reading of an instant near a transition meeting `BackwardTransition` is the other occurrence of the same wall clock |
| SyntheticZone.EmulatedFollowsOneTransition | tests/correct_datetime_handling_test.py:145-185 | for a transition meeting `BackwardTransition`, the emulated platform of a one-transition zone answers `localtime`, flipped readings and first guesses as that zone prescribes |
| SyntheticZone.FoldOnSecondOccurrence | src/heliclockter/systemtz.py:100-137 | on a platform that follows one backward transition (which the emulated platform does under `BackwardTransition`), `fromutc` gives the local wall clock with fold 1 exactly for instants in the second occurrence of the repeated span |
| SyntheticZone.RoundTripOneTransition | src/heliclockter/systemtz.py:100-159 | on a platform that follows one backward transition (which the emulated platform does under `BackwardTransition`), `_mktime(fromutc(u))` is exactly `u`'s instant, for every instant |
| SyntheticZone.DescribeOneTransition | src/heliclockter/systemtz.py:161-230 | the local time `fromutc` produces reports the offset, name and DST amount of the period in force at the instant |
| SyntheticZone.NoFoldLosesSecondOccurrence | src/heliclockter/systemtz.py:126-127 | without `fold`, an instant in the second occurrence maps back to the instant one repeated span earlier |
| SyntheticZone.StandardOffsetDropLosesSecondOccurrence | src/heliclockter/systemtz.py:100-159 | on the emulated platform of a drop from +04 to +03 with no DST on either side, half an hour after the drop `fromutc` sets fold 1, yet `_mktime` returns the instant an hour earlier |
| PointsInTime.Instant | tests/correct_datetime_handling_test.py:445-497 | an aware datetime converts to the wall clock, offset, name, DST amount and fold of its period, and its local time has the same timestamp |
| PointsInTime.StJohnsWinkle | tests/correct_datetime_handling_test.py:99-102 | the St John's zone gives `(12600, 9000, 1, ('NST', 'NDT'))` |
| PointsInTime.NewYorkWinkle | tests/correct_datetime_handling_test.py:60-62 | the New York zone gives `(18000, 14400, 1, ('EST', 'EDT'))` |
| PointsInTime.StJohnsEarlierStart | tests/correct_datetime_handling_test.py:298 | 2023-11-05 01:00:00 NDT, fold 0, -9000 / 3600 |
| PointsInTime.StJohnsEarlierEnd | tests/correct_datetime_handling_test.py:299 | 01:59:59 NDT, fold 0 |
| PointsInTime.StJohnsLaterStart | tests/correct_datetime_handling_test.py:300 | 01:00:00 NST, fold 1, -12600 / 0 |
| PointsInTime.StJohnsLaterEnd | tests/correct_datetime_handling_test.py:301 | 01:59:59 NST, fold 1 |
| PointsInTime.StJohnsAfter | tests/correct_datetime_handling_test.py:302 | 02:00:00 NST, fold 0 |
| PointsInTime.StJohnsFallBack | tests/correct_datetime_handling_test.py:298-302 | all five St John's rows around the transition |
| PointsInTime.DublinEarlierStart | tests/correct_datetime_handling_test.py:312 | 2023-10-29 01:00:00 IST, fold 0, 3600 / 0 |
| PointsInTime.DublinEarlierEnd | tests/correct_datetime_handling_test.py:313 | 01:59:59 IST, fold 0 |
| PointsInTime.DublinLaterStart | tests/correct_datetime_handling_test.py:314 | 01:00:00 GMT, fold 1, 0 / -3600 (negative DST) |
| PointsInTime.DublinLaterEnd | tests/correct_datetime_handling_test.py:315 | 01:59:59 GMT, fold 1 |
| PointsInTime.DublinAfter | tests/correct_datetime_handling_test.py:316 | 02:00:00 GMT, fold 0 |
| PointsInTime.DublinFallBack | tests/correct_datetime_handling_test.py:312-316 | all five Dublin rows around the transition |
| PointsInTime.ElAaiunEarlierStart | tests/correct_datetime_handling_test.py:321 | 2023-03-19 02:00:00 +01, fold 0, 3600 / 0 |
| PointsInTime.ElAaiunEarlierEnd | tests/correct_datetime_handling_test.py:322 | 02:59:59 +01, fold 0 |
| PointsInTime.ElAaiunLaterStart | tests/correct_datetime_handling_test.py:323 | 02:00:00 +00, fold 1, 0 / -3600 |
| PointsInTime.ElAaiunLaterEnd | tests/correct_datetime_handling_test.py:324 | 02:59:59 +00, fold 1 |
| PointsInTime.ElAaiunAfter | tests/correct_datetime_handling_test.py:325 | 03:00:00 +00, fold 0 |
| PointsInTime.ElAaiunFallBack | tests/correct_datetime_handling_test.py:321-325 | all five El Aaiun rows around the transition |
| PointsInTime.LordHoweEarlierStart | tests/correct_datetime_handling_test.py:335 | 2023-04-02 01:30:00 +11, fold 0, 39600 / 1800 |
| PointsInTime.LordHoweEarlierEnd | tests/correct_datetime_handling_test.py:336 | 01:59:59 +11, fold 0 |
| PointsInTime.LordHoweLaterStart | tests/correct_datetime_handling_test.py:337 | 01:30:00 +1030, fold 1, 37800 / 0 |
| PointsInTime.LordHoweLaterEnd | tests/correct_datetime_handling_test.py:338 | 01:59:59 +1030, fold 1 |
| PointsInTime.LordHoweAfter | tests/correct_datetime_handling_test.py:339 | 02:00:00 +1030, fold 0 |
| PointsInTime.LordHoweFallBack | tests/correct_datetime_handling_test.py:335-339 | all five Lord Howe rows around the transition |
| PointsInTime.TrollEarlierStart | tests/correct_datetime_handling_test.py:351 | 2023-10-29 01:00:00 +02, fold 0, 7200 / 7200 |
| PointsInTime.TrollEarlierEnd | tests/correct_datetime_handling_test.py:352 | 02:59:59 +02, fold 0 |
| PointsInTime.TrollLaterStart | tests/correct_datetime_handling_test.py:353 | 01:00:00 +00, fold 1, 0 / 0 |
| PointsInTime.TrollLaterEnd | tests/correct_datetime_handling_test.py:354 | 02:59:59 +00, fold 1 |
| PointsInTime.TrollAfter | tests/correct_datetime_handling_test.py:355 | 03:00:00 +00, fold 0 |
| PointsInTime.TrollFallBack | tests/correct_datetime_handling_test.py:351-355 | all five Troll rows around the transition |
| DatetimeTz.UtcOffsetOf | src/heliclockter/__init__.py:262 | `None` for a naive datetime; always an offset for a `SystemTZ` |
| DatetimeTz.AssertAwareDatetime | src/heliclockter/__init__.py:256-262 | passes iff the tzinfo is present and gives an offset, else `AssertionError` |
| DatetimeTz.New | src/heliclockter/__init__.py:86-105 | succeeds iff the fields are in `datetime`'s range and the tzinfo is present, equals the assumed zone if one is set, and gives an offset; `ValueError` for out-of-range fields, else `AssertionError` |
| DatetimeTz.AsTimezone | src/heliclockter/__init__.py:159-176 | the datetime itself if already in the zone, else the converted wall clock and fold in that zone, same class and microseconds |
| DatetimeTz.FromDatetime | src/heliclockter/__init__.py:148-189 | the naive-without-assumed-zone error and no other error of that kind; every result is an instance; naive input keeps its wall clock and gets the assumed zone; aware input is converted to the assumed zone (an assumed-zone instance first as a plain datetime), or kept as is |
| DatetimeTz.Now | src/heliclockter/__init__.py:191-199 | the error iff neither an assumed zone nor an argument is given; otherwise `from_datetime(datetime.now(z))`, where the assumed zone takes precedence |
| DatetimeTz.Shift | src/heliclockter/__init__.py:222 | valid wall clock and microseconds lying exactly `delta` microseconds after the input |
| DatetimeTz.Add | src/heliclockter/__init__.py:222 | a result is an instance in the same zone, with fold 0, exactly `delta` later in wall-clock time |
| DatetimeTz.Future | src/heliclockter/__init__.py:201-222 | the error of `now` passes through; else an instance in the zone of `now`, `delta` later |
| DatetimeTz.Past | src/heliclockter/__init__.py:224-245 | the error of `now` passes through; else an instance in the zone of `now`, `delta` earlier |
| DatetimeTz.DeepCopy | src/heliclockter/__init__.py:264-279 | a copy of an instance is the same datetime, fold included |
| DatetimeTz.TzEqReflexive | src/heliclockter/__init__.py:100-103 | a tzinfo equals itself |
| DatetimeTz.AwareWithZone | src/heliclockter/__init__.py:256-262 | with zones that always give an offset, every datetime with a tzinfo is aware |
| DatetimeTz.AssumedZoneAttached | src/heliclockter/__init__.py:148-189 | with an assumed zone, every result of `from_datetime` is in exactly that zone |
| DatetimeTz.ConfigurationsPinTheirZone | src/heliclockter/__init__.py:282-302 | every result of `datetime_utc.from_datetime` is in UTC, and every result of `datetime_local.from_datetime` is in the local zone |
| DatetimeTz.FromDatetimeIdempotent | src/heliclockter/__init__.py:148-189 | `from_datetime` of its own result gives that result back |
| DatetimeTz.NaiveAdoptsAssumedZone | src/heliclockter/__init__.py:154-156 | a valid naive input under an assumed zone succeeds with its wall clock, microseconds and fold unchanged |
| DatetimeTz.AwareKeptAsIs | src/heliclockter/__init__.py:178-189 | a valid aware input with no assumed zone succeeds with identical fields, tzinfo and fold |
| DatetimeTz.AwareConvertedToAssumedZone | src/heliclockter/__init__.py:160-173 | the conversion of an assumed-zone instance does not depend on which assumed-zone class it came from |
| DatetimeTz.NowInZone | src/heliclockter/__init__.py:191-199 | `now` returns the clock reading in the assumed zone, else in its argument, unchanged |
| DatetimeTz.PastIsNegatedFuture | src/heliclockter/__init__.py:201-245 | `past(delta)` is `future(-delta)` |
| DatetimeTz.ShiftBack | src/heliclockter/__init__.py:222 | shifting a valid wall clock forth and back returns it |
| DatetimeTz.AddThenSubtract | src/heliclockter/__init__.py:222 | adding a delta to an instance succeeds iff the result stays in years 1..9999, and subtracting it again gives the instance back with fold 0 |
| DatetimeTzLegacy.New | src/heliclockter.py:73-91 | succeeds iff the fold-0 datetime is a valid instance; the result has fold 0 |
| DatetimeTzLegacy.FromDatetime | src/heliclockter.py:103-127 | the same decision tree as the package version without the rebuild step; every result has fold 0 |
| DatetimeTzLegacy.Now | src/heliclockter.py:129-137 | the error iff neither zone is given; otherwise the assumed zone takes precedence, and a result is an instance with fold 0 |
| DatetimeTzLegacy.Future | src/heliclockter.py:139-160 | the error of `now` passes through; else `delta` later, fold 0 |
| DatetimeTzLegacy.Past | src/heliclockter.py:162-183 | the error of `now` passes through; else `delta` earlier, fold 0 |
| DatetimeTzLegacy.DeepCopy | src/heliclockter.py:202-216 | a copy is the datetime with fold 0 |
| DatetimeTzLegacy.DeepCopyDropsFold | src/heliclockter.py:202-216 | copying an instance succeeds and drops its fold |
| DatetimeTzLegacy.SameButFold | src/heliclockter.py:103-127 | where both versions read their input alike, they succeed or fail together, with the same error, and agree except that the older one sets fold 0 |
| DatetimeTzLegacy.ConvertsInstanceAsIs | src/heliclockter.py:110-115 | an assumed-zone instance is converted as it is, where the package version converts a plain copy |
| DatetimeTzLegacy.FromDatetimeIdempotent | src/heliclockter.py:103-127 | `from_datetime` of its own result gives that result back |

## Left out

- The operating system's `time.localtime`, `time.mktime`, `time.time`, `tzset` and the TZ environment are not modelled. They are the oracle `Platform`, with an integer clock.
- `ZoneInfo` and tzdata are not modelled. A zone is an abstract `ZoneInfo` or a one-transition zone built from the table's periods.
- The float arithmetic is not modelled. This covers `microsecond / 1_000_000` in `_mktime`, `secs % 1` and `round` in `dst`, `total_seconds()` in the test helpers, and float arguments of `future`/`past`. Seconds and microseconds are separate integers, and a delta is an integer number of microseconds.
- SystemTz.SystemTZ.Dst: for `None`, the live clock is an integer, so the fractional part that `secs % 1` adds back is 0.
- `SystemTZ.key` is left out: it is a wrapper over the `tzlocal` library.
- `_unix_epoch`, `_zero_delta` and `_TimeDelta` are left out: results are plain integers rather than `timedelta` objects.
- SystemTz.SystemTZ.constructor: it always succeeds. The source builds `datetime_like_cls(1970, 1, 1, tzinfo=datetime.UTC)` while constructing and so raises for a class whose constructor refuses that call, such as `SystemTZ(datetime_utc)`. A datetime class here carries no constructor to call.
- The keyword arguments of `future` and `past` (weeks down to microseconds) are not modelled. The `timedelta` they build is taken as its total number of microseconds.
- Calendar.Timegm: a month outside 1..12 is normalised into the year rather than raising. No modelled caller passes one.
- The pydantic hooks, `fromisoformat`, `strptime`, `datetime_utc.fromtimestamp`, pickling and formatting are left out: they delegate to pydantic or the standard library.
- `tz_local` is left out: it is computed from the host at import time. `datetime_local` takes it as a parameter.
- `astimezone`, `datetime.now` and the `utcoffset` of zones other than `SystemTZ` are parameters of `Env`.
- Python's rule that `datetime + timedelta` keeps the subclass and calls its constructor is built into `DatetimeTz.Add`. The rule itself is not derived.
- DatetimeTz.TzEq: two `ZoneInfo` objects are taken to be equal iff they have the same key. This mirrors the one-instance-per-key cache of `ZoneInfo`; zones built with `no_cache` are not modelled.
- DatetimeTz.AddThenSubtract and DatetimeTz.FromDatetimeIdempotent assume zones that always give an offset (`ZonesBehave`), as every `ZoneInfo` does.
- DatetimeTz.DeepCopy and DatetimeTzLegacy.DeepCopy require the class argument to be the instance's own class, as `self.__class__` is.
- SyntheticZone.RoundTripOneTransition and SyntheticZone.FoldOnSecondOccurrence hold on the emulated platform only for transitions that meet `BackwardTransition`. A drop in standard offset with no DST on either side breaks the round trip, as SyntheticZone.StandardOffsetDropLosesSecondOccurrence shows. Every modelled row of the table meets `BackwardTransition`.
- The table rows away from the transitions are not modelled: new year, standard time, during DST, before and after DST, and new year's eve. Each needs a zone with more than one transition.
- The Scoresbysund rows are not modelled: they change rules and offset at once.
- The Kiritimati rows are not modelled: they have no transition.
- The `welldefined_timezone`, `tzset` and `emulated_tzset` fixtures are left out: they monkeypatch the process environment.
- `emulated_localtime`'s assertion that `dst()` is not `None` is not modelled: a modelled zone always gives a DST amount.
- The `fromtimestamp` half of the table tests is not modelled: it goes through Python's `datetime`. The modelled checks are `fromutc` followed by `utcoffset`, `tzname`, `dst` and `_mktime`.
