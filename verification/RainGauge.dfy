/** Cumulative rain-gauge counters: the local station's stream and the two Weather Underground loops. */
module RainGauge {
  import opened Common

  // ------------------------------------------------------------------ what a gauge's readings credit

  /** The increment of one reading over the previous one; a lower reading means that the gauge was reset. */
  function Delta(current: real, previous: real): real {
    if current < previous then current else current - previous
  }

  /** The increment of a reading, when both it and the previous one are present. */
  function Increment(last: Option<real>, reading: Option<real>): Option<real> {
    if last.Some? && reading.Some? then Some(Delta(reading.value, last.value)) else None
  }

  /** The last reading known after some more readings, missing ones skipped. */
  function Newest(last: Option<real>, readings: seq<Option<real>>): Option<real>
    decreases readings
  {
    if readings == [] then last
    else Newest(if readings[0].Some? then readings[0] else last, readings[1..])
  }

  /** The rain credited for readings that follow the given last one. */
  function Credited(last: Option<real>, readings: seq<Option<real>>): real
    decreases readings
  {
    if readings == [] then 0.0
    else if readings[0].None? then Credited(last, readings[1..])
    else (if last.Some? then Delta(readings[0].value, last.value) else 0.0) + Credited(readings[0], readings[1..])
  }

  /** The readings from which the gauge fell back: each reading just before a reset. */
  function LostAtResets(last: Option<real>, readings: seq<Option<real>>): real
    decreases readings
  {
    if readings == [] then 0.0
    else if readings[0].None? then LostAtResets(last, readings[1..])
    else (if last.Some? && readings[0].value < last.value then last.value else 0.0) +
           LostAtResets(readings[0], readings[1..])
  }

  /** The reading that the credits are counted from: the given one, or else the first present one. */
  function Baseline(last: Option<real>, readings: seq<Option<real>>): Option<real>
    decreases readings
  {
    if last.Some? || readings == [] then last else Baseline(readings[0], readings[1..])
  }

  function OrZero(r: Option<real>): real {
    if r.Some? then r.value else 0.0
  }

  /** Credits telescope to newest reading minus baseline plus what the gauge showed before each reset. */
  lemma {:induction false} CreditsTelescope(last: Option<real>, readings: seq<Option<real>>)
    ensures Credited(last, readings) ==
            OrZero(Newest(last, readings)) - OrZero(Baseline(last, readings)) + LostAtResets(last, readings)
    decreases readings
  {
    if readings != [] {
      CreditsTelescope(if readings[0].Some? then readings[0] else last, readings[1..]);
    }
  }

  /** Credits of a stream are the credits of its two halves. */
  lemma {:induction false} CreditsSplit(last: Option<real>, a: seq<Option<real>>, b: seq<Option<real>>)
    ensures Credited(last, a + b) == Credited(last, a) + Credited(Newest(last, a), b)
    ensures Newest(last, a + b) == Newest(Newest(last, a), b)
    decreases a
  {
    if a == [] {
      assert a + b == b;
    } else {
      CreditsSplit(if a[0].Some? then a[0] else last, a[1..], b);
      assert (a + b)[1..] == a[1..] + b;
    }
  }

  predicate NonNegative(readings: seq<Option<real>>) {
    forall r <- readings :: r.Some? ==> r.value >= 0.0
  }

  /** Gauges that never read below zero never credit negative rain. */
  lemma {:induction false} CreditsAreNonNegative(last: Option<real>, readings: seq<Option<real>>)
    requires NonNegative(readings)
    ensures Credited(last, readings) >= 0.0
    decreases readings
  {
    if readings != [] {
      assert readings[0] in readings;
      CreditsAreNonNegative(if readings[0].Some? then readings[0] else last, readings[1..]);
    }
  }

  // ------------------------------------------------------------------ the local station

  const ONE_DAY_SECONDS := 86400

  /** A scalar query parameter: the sentinel, anything not finite and anything out of range is missing. */
  function GetMeasurement(raw: Option<Num>, min: Option<real>, max: Option<real>): Option<real> {
    if raw.None? || raw.value.NonFinite? || raw.value.v == -9999.0 then None
    else if (min.Some? && raw.value.v < min.value) || (max.Some? && raw.value.v > max.value) then None
    else Some(raw.value.v)
  }

  /** A report's count is taken exactly when it is a number other than -9999 and not below zero. */
  lemma CountIsTakenIff(raw: Option<Num>, v: real)
    ensures GetMeasurement(raw, Some(0.0), None) == Some(v) <==> raw == Some(Finite(v)) && v >= 0.0
    ensures GetMeasurement(raw, None, None) == Some(v) <==> raw == Some(Finite(v)) && v != -9999.0
  {
  }

  datatype Observation = Observation(timestamp: int, precip: Option<real>)

  predicate IsRecent(obs: Observation, now: int) {
    now - obs.timestamp < ONE_DAY_SECONDS
  }

  function Recent(queue: seq<Observation>, now: int): seq<Observation> {
    if queue == [] then []
    else (if IsRecent(queue[0], now) then [queue[0]] else []) + Recent(queue[1..], now)
  }

  lemma {:induction false} RecentTwice(queue: seq<Observation>, earlier: int, later: int)
    requires earlier <= later
    ensures Recent(Recent(queue, earlier), later) == Recent(queue, later)
  {
    if queue != [] {
      RecentTwice(queue[1..], earlier, later);
      if IsRecent(queue[0], earlier) {
        var kept := Recent(queue[1..], earlier);
        assert ([queue[0]] + kept)[1..] == kept;
      } else {
        assert [] + Recent(queue[1..], earlier) == Recent(queue[1..], earlier);
        assert [] + Recent(queue[1..], later) == Recent(queue[1..], later);
      }
    }
  }

  /** Queues that agree at some time agree at every later one. */
  lemma SameLater(a: seq<Observation>, b: seq<Observation>, earlier: int, later: int)
    requires earlier <= later && Recent(a, earlier) == Recent(b, earlier)
    ensures Recent(a, later) == Recent(b, later)
  {
    RecentTwice(a, earlier, later);
    RecentTwice(b, earlier, later);
  }

  /** The precipitation total of a queue; a missing increment counts as nothing. */
  function TotalPrecip(queue: seq<Observation>): real {
    if queue == [] then 0.0 else TotalPrecip(queue[..|queue| - 1]) + OrZero(queue[|queue| - 1].precip)
  }

  /** One report of the station. */
  datatype Report = Report(timestamp: int, rain: Option<real>)

  function Readings(reports: seq<Report>): (r: seq<Option<real>>)
    ensures |r| == |reports|
  {
    if reports == [] then [] else Readings(reports[..|reports| - 1]) + [reports[|reports| - 1].rain]
  }

  /** The observations that capturing the reports in order leaves, newest first. */
  function Captured(reports: seq<Report>): seq<Observation> {
    if reports == [] then []
    else
      var init, r := reports[..|reports| - 1], reports[|reports| - 1];
      var last := Newest(None, Readings(init));
      [Observation(r.timestamp, Increment(last, r.rain))] + Captured(init)
  }

  lemma OneMoreReport(reports: seq<Report>, r: Report)
    ensures Readings(reports + [r]) == Readings(reports) + [r.rain]
    ensures Newest(None, Readings(reports + [r])) == Newest(Newest(None, Readings(reports)), [r.rain])
    ensures Captured(reports + [r]) ==
              [Observation(r.timestamp, Increment(Newest(None, Readings(reports)), r.rain))] + Captured(reports)
    ensures Captured(reports + [r])[1..] == Captured(reports)
  {
    assert (reports + [r])[..|reports|] == reports;
    CreditsSplit(None, Readings(reports), [r.rain]);
  }

  /** Capturing a report keeps the queue in step with the full record. */
  lemma CaptureStep(queue: seq<Observation>, reports: seq<Report>, r: Report, now: int)
    requires Recent(queue, now) == Recent(Captured(reports), now)
    ensures var last := Newest(None, Readings(reports));
            var obs := Observation(r.timestamp, Increment(last, r.rain));
            && Recent([obs] + queue, now) == Recent(Captured(reports + [r]), now)
            && Newest(None, Readings(reports + [r])) == if r.rain.Some? then r.rain else last
  {
    OneMoreReport(reports, r);
    var last := Newest(None, Readings(reports));
    var obs := Observation(r.timestamp, Increment(last, r.rain));
    assert ([obs] + queue)[1..] == queue;
    assert Newest(last, [r.rain]) == if r.rain.Some? then r.rain else last;
  }

  method SumPrecip(queue: seq<Observation>) returns (precipSum: real)
    ensures precipSum == TotalPrecip(queue)
  {
    precipSum := 0.0;
    for k := 0 to |queue|
      invariant precipSum == TotalPrecip(queue[..k])
    {
      assert queue[..k + 1][..k] == queue[..k];
      if queue[k].precip.Some? {
        precipSum := precipSum + queue[k].precip.value;
      }
    }
    assert queue[..|queue|] == queue;
  }

  class LocalStation {
    var queue: seq<Observation>
    var lastRainCount: Option<real>
    /** Every report ever captured, oldest first, and the time of the last filtering. */
    ghost var reports: seq<Report>
    ghost var filteredAt: int

    constructor(ghost now: int)
      ensures Valid() && reports == [] && filteredAt == now
    {
      queue, lastRainCount, reports, filteredAt := [], None, [], now;
    }

    /** Dropping old observations early cannot be seen at any later time. */
    ghost predicate Valid()
      reads this
    {
      && lastRainCount == Newest(None, Readings(reports))
      && Recent(queue, filteredAt) == Recent(Captured(reports), filteredAt)
    }

    method Capture(timestamp: int, dailyRain: Option<Num>)
      requires Valid()
      modifies this
      ensures Valid() && filteredAt == old(filteredAt)
      ensures reports == old(reports) + [Report(timestamp, GetMeasurement(dailyRain, Some(0.0), None))]
    {
      var rainCount := GetMeasurement(dailyRain, Some(0.0), None);
      var precip := None;
      if rainCount.Some? && lastRainCount.Some? {
        precip := Some(if rainCount.value < lastRainCount.value then rainCount.value
                       else rainCount.value - lastRainCount.value);
      }
      var obs, report := Observation(timestamp, precip), Report(timestamp, rainCount);
      CaptureStep(queue, reports, report, filteredAt);
      lastRainCount := if rainCount.Some? then rainCount else lastRainCount;
      queue := [obs] + queue;
      reports := reports + [report];
    }

    method FilterQueue(now: int)
      requires Valid() && filteredAt <= now
      modifies this`queue, this`filteredAt
      ensures Valid() && filteredAt == now
      ensures queue == Recent(Captured(reports), now)
    {
      var kept := [];
      for k := 0 to |queue|
        invariant kept + Recent(queue[k..], now) == Recent(queue, now)
      {
        assert queue[k..][1..] == queue[k + 1..];
        if now - queue[k].timestamp < ONE_DAY_SECONDS {
          kept := kept + [queue[k]];
        }
      }
      assert kept + [] == kept;
      SameLater(queue, Captured(reports), filteredAt, now);
      queue := kept;
      filteredAt := now;
      RecentTwice(Captured(reports), now, now);
    }

    /** The precipitation of the last day, as getWeatherData and getEToData add it up. */
    method AccumulatedPrecip(now: int) returns (precipSum: real)
      requires Valid() && filteredAt <= now
      modifies this`queue, this`filteredAt
      ensures Valid() && filteredAt == now
      ensures precipSum == TotalPrecip(Recent(Captured(reports), now))
    {
      FilterQueue(now);
      precipSum := SumPrecip(queue);
    }
  }

  lemma {:induction false} TotalPrecipCons(obs: Observation, queue: seq<Observation>)
    ensures TotalPrecip([obs] + queue) == OrZero(obs.precip) + TotalPrecip(queue)
  {
    if queue == [] {
      assert [obs] + queue == [obs] && [obs][..0] == [];
      assert TotalPrecip([obs][..0]) == 0.0;
    } else {
      var n := |queue| - 1;
      assert ([obs] + queue)[..|queue|] == [obs] + queue[..n];
      TotalPrecipCons(obs, queue[..n]);
    }
  }

  lemma {:induction false} NothingRecent(reports: seq<Report>, now: int)
    requires forall r <- reports :: now - r.timestamp >= ONE_DAY_SECONDS
    ensures Recent(Captured(reports), now) == []
  {
    if reports != [] {
      var n := |reports| - 1;
      NothingRecent(reports[..n], now);
      var all := Captured(reports);
      assert all[1..] == Captured(reports[..n]);
      assert reports[n] in reports;
    }
  }

  lemma {:induction false} ReadingsAppend(a: seq<Report>, b: seq<Report>)
    ensures Readings(a + b) == Readings(a) + Readings(b)
  {
    if b == [] {
      assert a + b == a;
    } else {
      var n := |b| - 1;
      ReadingsAppend(a, b[..n]);
      assert (a + b)[..|a| + n] == a + b[..n];
    }
  }

  lemma CreditsOneMore(last: Option<real>, readings: seq<Option<real>>, r: Option<real>)
    ensures Credited(last, readings + [r]) == Credited(last, readings) + OrZero(Increment(Newest(last, readings), r))
  {
    CreditsSplit(last, readings, [r]);
    assert [r][1..] == [];
  }

  lemma CapturedOneMore(reports: seq<Report>, r: Report, now: int)
    requires now - r.timestamp < ONE_DAY_SECONDS
    ensures TotalPrecip(Recent(Captured(reports + [r]), now)) ==
            OrZero(Increment(Newest(None, Readings(reports)), r.rain)) + TotalPrecip(Recent(Captured(reports), now))
  {
    OneMoreReport(reports, r);
    TotalPrecipCons(Captured(reports + [r])[0], Recent(Captured(reports), now));
  }

  /**
   * With reports in time order, the last day's precipitation is the credit of the readings inside
   * the window, counted from the last reading before it, whatever was filtered out earlier.
   */
  lemma {:induction false} WindowTotalIsCredit(before: seq<Report>, inside: seq<Report>, now: int)
    requires forall r <- before :: now - r.timestamp >= 24 * 60 * 60
    requires forall r <- inside :: now - r.timestamp < 24 * 60 * 60
    ensures TotalPrecip(Recent(Captured(before + inside), now)) ==
            Credited(Newest(None, Readings(before)), Readings(inside))
  {
    if inside == [] {
      assert before + inside == before;
      NothingRecent(before, now);
    } else {
      var n := |inside| - 1;
      var r, last := inside[n], Newest(None, Readings(before));
      WindowTotalIsCredit(before, inside[..n], now);
      var init := before + inside[..n];
      assert inside == inside[..n] + [r];
      assert before + (inside[..n] + [r]) == init + [r];
      CapturedOneMore(init, r, now);
      ReadingsAppend(before, inside[..n]);
      CreditsSplit(None, Readings(before), Readings(inside[..n]));
      CreditsOneMore(last, Readings(inside[..n]), r.rain);
    }
  }

  // ------------------------------------------------------------------ Weather Underground

  /** A field of the provider's JSON: the key may be absent, and a reading that is missing is null. */
  datatype Reading = Absent | Null | Number(v: real)

  /** What arithmetic makes of a field: undefined becomes NaN, and null becomes 0. */
  function AsNumber(r: Reading): Num {
    match r
    case Absent => NonFinite
    case Null => Finite(0.0)
    case Number(v) => Finite(v)
  }

  function Plus(a: Num, b: Num): Num {
    if a.Finite? && b.Finite? then Finite(a.v + b.v) else NonFinite
  }

  function Minus(a: Num, b: Num): Num {
    if a.Finite? && b.Finite? then Finite(a.v - b.v) else NonFinite
  }

  /** Math.max(a, 0): not a number stays not a number. */
  function AtLeastZero(a: Num): Num {
    if a.Finite? then Finite(Max(a.v, 0.0)) else NonFinite
  }

  datatype Hour = Hour(epoch: int, precipTotal: Reading)

  /** What addPrecipDelta adds; every comparison with NaN is false. */
  function PrecipDelta(current: Reading, previous: Reading): Num {
    var delta := Minus(AsNumber(current), AsNumber(previous));
    if delta.Finite? && delta.v >= 0.0 then delta else AtLeastZero(AsNumber(current))
  }

  function Accumulated(precip: Num, previous: Reading, readings: seq<Reading>): Num
    decreases readings
  {
    if readings == [] then precip
    else Accumulated(Plus(precip, PrecipDelta(readings[0], previous)), readings[0], readings[1..])
  }

  /** The readings of yesterday's hours from the given epoch on. */
  function InWindow(hours: seq<Hour>, fromEpoch: int): seq<Reading> {
    if hours == [] then []
    else (if hours[0].epoch < fromEpoch then [] else [hours[0].precipTotal]) + InWindow(hours[1..], fromEpoch)
  }

  /** The last reading before the window; the counter starts at 0 when there is none. */
  function Starting(previous: Reading, hours: seq<Hour>, fromEpoch: int): Reading
    decreases hours
  {
    if hours == [] || hours[0].epoch >= fromEpoch then previous
    else Starting(hours[0].precipTotal, hours[1..], fromEpoch)
  }

  predicate HoursInOrder(hours: seq<Hour>) {
    forall i, j :: 0 <= i < j < |hours| ==> hours[i].epoch <= hours[j].epoch
  }

  /** The precipitation half of getEToData: yesterday's hours, then today's, through one running counter. */
  method PrecipOfLastDay(yesterday: seq<Hour>, today: seq<Reading>, fromEpoch: int) returns (precip: Num)
    ensures HoursInOrder(yesterday) ==>
              precip == Accumulated(Finite(0.0), Starting(Number(0.0), yesterday, fromEpoch),
                                    InWindow(yesterday, fromEpoch) + today)
  {
    ghost var readings := InWindow(yesterday, fromEpoch) + today;
    ghost var start := Starting(Number(0.0), yesterday, fromEpoch);
    var previousPrecip := Number(0.0);
    precip := Finite(0.0);
    for k := 0 to |yesterday|
      invariant HoursInOrder(yesterday) ==>
                  Accumulated(precip, Starting(previousPrecip, yesterday[k..], fromEpoch),
                              InWindow(yesterday[k..], fromEpoch) + today)
                  == Accumulated(Finite(0.0), start, readings)
    {
      ghost var rest := yesterday[k + 1..];
      assert yesterday[k..][1..] == rest;
      var hour := yesterday[k];
      if hour.epoch < fromEpoch {
        previousPrecip := hour.precipTotal;
        assert [] + InWindow(rest, fromEpoch) == InWindow(rest, fromEpoch);
      } else {
        assert InWindow(yesterday[k..], fromEpoch) + today == [hour.precipTotal] + (InWindow(rest, fromEpoch) + today);
        assert rest == [] || rest[0] == yesterday[k + 1];
        precip, previousPrecip := Plus(precip, PrecipDelta(hour.precipTotal, previousPrecip)), hour.precipTotal;
      }
    }
    assert [] + today == today;
    for k := 0 to |today|
      invariant HoursInOrder(yesterday) ==>
                  Accumulated(precip, previousPrecip, today[k..]) == Accumulated(Finite(0.0), start, readings)
    {
      assert today[k..][1..] == today[k + 1..];
      precip, previousPrecip := Plus(precip, PrecipDelta(today[k], previousPrecip)), today[k];
    }
  }

  function Totals(hours: seq<Hour>): seq<Reading> {
    if hours == [] then [] else [hours[0].precipTotal] + Totals(hours[1..])
  }

  /** The window holds yesterday's hours from the given epoch on, and counts from the last hour before it. */
  lemma {:induction false} WindowOfYesterday(before: seq<Hour>, inside: seq<Hour>, fromEpoch: int, previous: Reading)
    requires (forall h <- before :: h.epoch < fromEpoch) && forall h <- inside :: h.epoch >= fromEpoch
    ensures InWindow(before + inside, fromEpoch) == Totals(inside)
    ensures Starting(previous, before + inside, fromEpoch) ==
            if before == [] then previous else before[|before| - 1].precipTotal
    decreases |before| + |inside|
  {
    if before != [] {
      WindowOfYesterday(before[1..], inside, fromEpoch, before[0].precipTotal);
      assert (before + inside)[1..] == before[1..] + inside && before[0] in before;
    } else if inside != [] {
      WindowOfYesterday([], inside[1..], fromEpoch, previous);
      assert before + inside == inside && inside[0] in inside && [] + inside[1..] == inside[1..];
    }
  }

  /** No reading takes rain away, and a gauge that falls to zero or below adds none. */
  lemma DeltaIsNeverNegative(current: Reading, previous: Reading)
    ensures PrecipDelta(current, previous).Finite? ==> PrecipDelta(current, previous).v >= 0.0
    ensures current.Number? && previous.Number? && current.v <= 0.0 && current.v < previous.v ==>
              PrecipDelta(current, previous) == Finite(0.0)
  {
  }

  lemma {:induction false} PoisonSpreads(previous: Reading, readings: seq<Reading>)
    ensures Accumulated(NonFinite, previous, readings) == NonFinite
    decreases readings
  {
    if readings != [] {
      PoisonSpreads(readings[0], readings[1..]);
    }
  }

  /** The total is a number exactly when no reading of the window lacks its key; nulls do not spoil it. */
  lemma {:induction false} TotalIsFiniteIff(precip: real, previous: Reading, readings: seq<Reading>)
    ensures Accumulated(Finite(precip), previous, readings).Finite? <==> Absent !in readings
    decreases readings
  {
    if readings != [] {
      var next := Plus(Finite(precip), PrecipDelta(readings[0], previous));
      assert readings == [readings[0]] + readings[1..];
      if next.Finite? {
        TotalIsFiniteIff(next.v, readings[0], readings[1..]);
      } else {
        PoisonSpreads(readings[0], readings[1..]);
      }
    }
  }

  /** No key is absent, and the gauge never reads below zero. */
  predicate GaugeLike(readings: seq<Reading>) {
    forall r <- readings :: r != Absent && (r.Number? ==> r.v >= 0.0)
  }

  /** The readings as the local station takes them, which skips the missing ones. */
  function NullsSkipped(readings: seq<Reading>): seq<Option<real>> {
    if readings == [] then []
    else [if readings[0].Number? then Some(readings[0].v) else None] + NullsSkipped(readings[1..])
  }

  /** The counter that is credited again: what it showed before nulls, when it shows at least as much after them. */
  function Recredited(last: real, gap: bool, readings: seq<Reading>): real
    decreases readings
  {
    if readings == [] then 0.0
    else if !readings[0].Number? then Recredited(last, true, readings[1..])
    else (if gap && last <= readings[0].v then last else 0.0) + Recredited(readings[0].v, false, readings[1..])
  }

  /** Whether the gauge is back below its reading, or that was zero, after every run of nulls. */
  predicate GapsAreHarmless(last: real, gap: bool, readings: seq<Reading>)
    decreases readings
  {
    if readings == [] then true
    else if !readings[0].Number? then GapsAreHarmless(last, true, readings[1..])
    else (gap ==> readings[0].v < last || last == 0.0) && GapsAreHarmless(readings[0].v, false, readings[1..])
  }

  lemma CreditsSkipNulls(last: real, readings: seq<Reading>)
    requires readings != []
    ensures var r, rest := readings[0], NullsSkipped(readings[1..]);
            Credited(Some(last), NullsSkipped(readings)) ==
            if r.Number? then Delta(r.v, last) + Credited(Some(r.v), rest) else Credited(Some(last), rest)
  {
    assert NullsSkipped(readings)[1..] == NullsSkipped(readings[1..]);
  }

  lemma OneReading(last: real, gap: bool, r: Reading)
    requires last >= 0.0 && r != Absent && (r.Number? ==> r.v >= 0.0)
    ensures PrecipDelta(r, if gap then Null else Number(last)) ==
            Finite(if r.Number? then Delta(r.v, last) + (if gap && last <= r.v then last else 0.0) else 0.0)
  {
  }

  /**
   * A null acts as a gauge that reads 0, so the next reading is credited in full: the total is the
   * local station's credit of the same readings plus the counter before each such gap.
   */
  lemma {:induction false} NullsRecredit(precip: real, last: real, gap: bool, readings: seq<Reading>)
    requires GaugeLike(readings) && last >= 0.0
    ensures Accumulated(Finite(precip), if gap then Null else Number(last), readings) ==
            Finite(precip + Credited(Some(last), NullsSkipped(readings)) + Recredited(last, gap, readings))
    decreases readings
  {
    if readings != [] {
      var r, rest := readings[0], readings[1..];
      assert r in readings;
      OneReading(last, gap, r);
      CreditsSkipNulls(last, readings);
      if r.Number? {
        NullsRecredit(precip + Delta(r.v, last) + (if gap && last <= r.v then last else 0.0), r.v, false, rest);
      } else {
        NullsRecredit(precip, last, true, rest);
      }
    }
  }

  lemma {:induction false} RecreditedIsZeroIff(last: real, gap: bool, readings: seq<Reading>)
    requires GaugeLike(readings) && last >= 0.0
    ensures Recredited(last, gap, readings) >= 0.0
    ensures Recredited(last, gap, readings) == 0.0 <==> GapsAreHarmless(last, gap, readings)
    decreases readings
  {
    if readings != [] {
      var r, rest := readings[0], readings[1..];
      assert r in readings;
      RecreditedIsZeroIff(if r.Number? then r.v else last, !r.Number?, rest);
    }
  }

  /** On one starting reading, both accumulators credit the same rain exactly when every gap is harmless. */
  lemma AccumulatorsAgreeIff(start: real, readings: seq<Reading>)
    requires GaugeLike(readings) && start >= 0.0
    ensures Accumulated(Finite(0.0), Number(start), readings) ==
              Finite(Credited(Some(start), NullsSkipped(readings))) <==>
            GapsAreHarmless(start, false, readings)
  {
    NullsRecredit(0.0, start, false, readings);
    RecreditedIsZeroIff(start, false, readings);
  }

  // ------------------------------------------------------------------ the two Weather Underground totals

  /** What getWateringData adds for one reading; every comparison with NaN is false. */
  function Rise(current: Reading, previous: Reading): real {
    var delta := Minus(AsNumber(current), AsNumber(previous));
    if delta.Finite? && delta.v > 0.0 then delta.v else 0.0
  }

  /** getWateringData counts rises only and ignores what falls between a reset and its next reading. */
  function RisesOnly(last: Reading, readings: seq<Reading>): real
    decreases readings
  {
    if readings == [] then 0.0 else Rise(readings[0], last) + RisesOnly(readings[0], readings[1..])
  }

  const SAMPLES := 24
  const INSUFFICIENT_WEATHER_DATA := 10

  /** The precipitation half of getWateringData: the 24 most recent hours, counted from the first of them. */
  method PrecipOfSamples(observations: seq<Reading>) returns (r: Result<real, int>)
    ensures |observations| < 24 ==> r == Err(10)
    ensures |observations| >= 24 ==>
              var samples := observations[|observations| - 24..];
              r == Ok(RisesOnly(samples[0], samples))
  {
    var samples := LastN(observations, SAMPLES);
    if |samples| != SAMPLES {
      return Err(INSUFFICIENT_WEATHER_DATA);
    }
    var precip, lastPrecip := 0.0, samples[0];
    for k := 0 to |samples|
      invariant precip + RisesOnly(lastPrecip, samples[k..]) == RisesOnly(samples[0], samples)
    {
      assert samples[k..][1..] == samples[k + 1..];
      precip := precip + Rise(samples[k], lastPrecip);
      lastPrecip := samples[k];
    }
    r := Ok(precip);
  }

  /** The readings that directly follow a fall of the counter. */
  function AfterFalls(last: Reading, readings: seq<Reading>): real
    decreases readings
  {
    if readings == [] then 0.0
    else (if readings[0].Number? && last.Number? && readings[0].v < last.v then readings[0].v else 0.0)
         + AfterFalls(readings[0], readings[1..])
  }

  /** On one list of readings, the two formulas of the provider differ by exactly the readings that follow a reset. */
  lemma {:induction false} TotalsDifferAtResets(precip: real, last: Reading, readings: seq<Reading>)
    requires GaugeLike([last] + readings)
    ensures Accumulated(Finite(precip), last, readings) ==
              Finite(precip + RisesOnly(last, readings) + AfterFalls(last, readings))
    decreases readings
  {
    if readings != [] {
      var all := [last] + readings;
      assert last in all && readings[0] in all;
      assert forall r <- [readings[0]] + readings[1..] :: r in all;
      var next := Plus(Finite(precip), PrecipDelta(readings[0], last));
      TotalsDifferAtResets(next.v, readings[0], readings[1..]);
    }
  }
}
