/** The read-only JSON endpoints: zone summaries, the motors of a zone, one
    motor's detail and the mocked temperature history. Each takes the tables
    as sequences of rows; the random draws and the clock readings an
    endpoint makes are passed in as parameters. */
module Queries {
  import opened Records
  import opened Health
  import opened Strings

  // ---------------------------------------------------------------------------
  // Motors of a zone

  /** The motors whose `zone_id` equals `zoneId`, in table order
      (`WHERE zone_id = ?`; a NULL `zone_id` matches no zone). */
  function InZone(ms: seq<Motor>, zoneId: int): (r: seq<Motor>)
    ensures |r| <= |ms|
    ensures forall m :: m in r <==> m in ms && m.zoneId == Some(zoneId)
    decreases |ms|
  {
    if |ms| == 0 then []
    else
      var init := ms[..|ms| - 1];
      var last := ms[|ms| - 1];
      assert ms == init + [last];
      if last.zoneId == Some(zoneId) then InZone(init, zoneId) + [last] else InZone(init, zoneId)
  }

  /** Adding one motor at the end of the table adds it at the end of the
      zone's list exactly when it belongs to the zone. */
  lemma InZoneSnoc(s: seq<Motor>, x: Motor, zoneId: int)
    ensures InZone(s + [x], zoneId) == InZone(s, zoneId) + (if x.zoneId == Some(zoneId) then [x] else [])
  {
    assert (s + [x])[..|s + [x]| - 1] == s;
  }

  /** Filtering a concatenation filters each part and keeps them in order. */
  lemma {:induction false} InZoneAppend(a: seq<Motor>, b: seq<Motor>, zoneId: int)
    ensures InZone(a + b, zoneId) == InZone(a, zoneId) + InZone(b, zoneId)
    decreases |b|
  {
    if |b| == 0 {
      assert a + b == a;
    } else {
      var b', x := b[..|b| - 1], b[|b| - 1];
      assert b == b' + [x];
      assert a + b == (a + b') + [x];
      InZoneAppend(a, b', zoneId);
      InZoneSnoc(a + b', x, zoneId);
      InZoneSnoc(b', x, zoneId);
    }
  }

  // ---------------------------------------------------------------------------
  // GET /api/zones

  datatype StatusCounts = StatusCounts(normal: int, warning: int, critical: int)

  /** The two `random.randint` draws made per zone for the mock counts. */
  datatype CountDraw = CountDraw(normal: int, warning: int)
  type MockCountDraw = d: CountDraw | 3 <= d.normal <= 5 && 0 <= d.warning <= 2
    witness CountDraw(3, 0)

  datatype ZoneSummary = ZoneSummary(id: int, zoneName: string, location: string,
                                     totalMotors: nat, statusCounts: StatusCounts,
                                     overallStatus: HealthStatus)

  /** Critical if any Critical count, else Warning if any Warning count, else Normal. */
  function OverallStatus(c: StatusCounts): HealthStatus
  {
    if c.critical > 0 then Critical else if c.warning > 0 then Warning else Normal
  }

  /** `s` is the entry get_zones emits for zone `z`, given draw `d`. */
  ghost predicate Summarizes(s: ZoneSummary, z: Zone, ms: seq<Motor>, d: MockCountDraw)
  {
    && s.id == z.id && s.zoneName == z.zoneName && s.location == z.location
    && s.totalMotors == |InZone(ms, z.id)|
    && s.statusCounts == StatusCounts(d.normal, d.warning, 0)
    && s.overallStatus == OverallStatus(s.statusCounts)
  }

  /** One summary per zone, in zone order. The overall status is set to Normal
      and then overwritten by Warning and by Critical in turn, which gives
      Critical the highest priority. */
  method GetZones(zones: seq<Zone>, motors: seq<Motor>, draws: seq<MockCountDraw>)
    returns (zoneData: seq<ZoneSummary>)
    requires |draws| == |zones|
    ensures |zoneData| == |zones|
    ensures forall i :: 0 <= i < |zones| ==> Summarizes(zoneData[i], zones[i], motors, draws[i])
    ensures forall i :: 0 <= i < |zones| ==> zoneData[i].overallStatus != Critical
  {
    zoneData := [];
    for i := 0 to |zones|
      invariant |zoneData| == i
      invariant forall k :: 0 <= k < i ==> Summarizes(zoneData[k], zones[k], motors, draws[k])
    {
      var zone := zones[i];
      var zoneMotors := InZone(motors, zone.id);
      var counts := StatusCounts(draws[i].normal, draws[i].warning, 0);
      var overall := Normal;
      if counts.warning > 0 {
        overall := Warning;
      }
      if counts.critical > 0 {
        overall := Critical;
      }
      zoneData := zoneData + [ZoneSummary(zone.id, zone.zoneName, zone.location, |zoneMotors|, counts, overall)];
    }
  }

  /** What a zone summary promises: mock counts in their ranges, Critical
      fixed at 0, so the overall status is never Critical and is Warning
      exactly when the Warning draw is positive. */
  lemma SummaryStatus(s: ZoneSummary, z: Zone, ms: seq<Motor>, d: MockCountDraw)
    requires Summarizes(s, z, ms, d)
    ensures 3 <= s.statusCounts.normal <= 5 && 0 <= s.statusCounts.warning <= 2
    ensures s.statusCounts.critical == 0 && s.overallStatus != Critical
    ensures s.overallStatus == Warning <==> d.warning > 0
    ensures s.overallStatus == Normal <==> d.warning == 0
  {
  }

  /** Zone ids are distinct (the primary key). */
  ghost predicate DistinctZoneIds(zones: seq<Zone>)
  {
    forall i, j :: 0 <= i < j < |zones| ==> zones[i].id != zones[j].id
  }

  /** Every motor references an existing zone (the foreign key). */
  ghost predicate MotorsReferenceZones(zones: seq<Zone>, motors: seq<Motor>)
  {
    forall m :: m in motors ==> exists z :: z in zones && m.zoneId == Some(z.id)
  }

  /** The sum over the zones of the number of motors in each zone. */
  function TotalOverZones(zones: seq<Zone>, motors: seq<Motor>): nat
  {
    if |zones| == 0 then 0 else |InZone(motors, zones[0].id)| + TotalOverZones(zones[1..], motors)
  }

  /** The number of zones with the given id. */
  function ZonesWithId(zones: seq<Zone>, zoneId: Option<int>): nat
  {
    if |zones| == 0 then 0
    else (if zoneId == Some(zones[0].id) then 1 else 0) + ZonesWithId(zones[1..], zoneId)
  }

  lemma {:induction false} TotalOverZonesAddMotor(zones: seq<Zone>, motors: seq<Motor>, m: Motor)
    ensures TotalOverZones(zones, motors + [m]) == TotalOverZones(zones, motors) + ZonesWithId(zones, m.zoneId)
    decreases |zones|
  {
    if |zones| > 0 {
      TotalOverZonesAddMotor(zones[1..], motors, m);
      assert (motors + [m])[..|motors + [m]| - 1] == motors;
    }
  }

  lemma {:induction false} ExactlyOneZoneWithId(zones: seq<Zone>, m: Motor)
    requires DistinctZoneIds(zones)
    requires exists z :: z in zones && m.zoneId == Some(z.id)
    ensures ZonesWithId(zones, m.zoneId) == 1
    decreases |zones|
  {
    if m.zoneId == Some(zones[0].id) {
      NoZoneWithId(zones[1..], m.zoneId);
    } else {
      var z :| z in zones && m.zoneId == Some(z.id);
      assert z in zones[1..];
      ExactlyOneZoneWithId(zones[1..], m);
    }
  }

  lemma {:induction false} NoZoneWithId(zones: seq<Zone>, zoneId: Option<int>)
    requires forall z :: z in zones ==> zoneId != Some(z.id)
    ensures ZonesWithId(zones, zoneId) == 0
    decreases |zones|
  {
    if |zones| > 0 {
      NoZoneWithId(zones[1..], zoneId);
    }
  }

  /** With intact keys, the zone totals of get_zones add up to the number of
      motors: every motor is counted in exactly one zone. */
  lemma {:induction false} ZoneTotalsCoverMotors(zones: seq<Zone>, motors: seq<Motor>)
    requires DistinctZoneIds(zones)
    requires MotorsReferenceZones(zones, motors)
    ensures TotalOverZones(zones, motors) == |motors|
    decreases |motors|
  {
    if |motors| == 0 {
      ZeroOverZones(zones, motors);
    } else {
      var init := motors[..|motors| - 1];
      var m := motors[|motors| - 1];
      assert motors == init + [m];
      assert forall x :: x in init ==> x in motors;
      ZoneTotalsCoverMotors(zones, init);
      TotalOverZonesAddMotor(zones, init, m);
      ExactlyOneZoneWithId(zones, m);
    }
  }

  lemma {:induction false} ZeroOverZones(zones: seq<Zone>, motors: seq<Motor>)
    requires |motors| == 0
    ensures TotalOverZones(zones, motors) == 0
    decreases |zones|
  {
    if |zones| > 0 {
      ZeroOverZones(zones[1..], motors);
    }
  }

  // ---------------------------------------------------------------------------
  // Latest reading of a motor

  /** `ORDER BY timestamp DESC LIMIT 1` over the motor's readings: a reading of
      that motor (of all tied ones, the earliest row), or None when it has none. */
  function LatestReading(rs: seq<Reading>, motorId: int): (r: Option<Reading>)
    ensures r.None? <==> forall q :: q in rs ==> q.motorId != Some(motorId)
    ensures r.Some? ==> r.value in rs && r.value.motorId == Some(motorId)
    decreases |rs|
  {
    if |rs| == 0 then None
    else
      var init := rs[..|rs| - 1];
      var q := rs[|rs| - 1];
      assert rs == init + [q];
      var earlier := LatestReading(init, motorId);
      if q.motorId != Some(motorId) then earlier
      else match earlier
        case None => Some(q)
        case Some(p) => if LexLe(q.timestamp, p.timestamp) then Some(p) else Some(q)
  }

  /** No reading of the motor is newer than the one LatestReading picks. */
  lemma {:induction false} LatestIsNewest(rs: seq<Reading>, motorId: int)
    requires LatestReading(rs, motorId).Some?
    ensures forall q :: q in rs && q.motorId == Some(motorId) ==>
                          LexLe(q.timestamp, LatestReading(rs, motorId).value.timestamp)
    decreases |rs|
  {
    var init := rs[..|rs| - 1];
    var q := rs[|rs| - 1];
    assert rs == init + [q];
    var r := LatestReading(rs, motorId).value;
    var earlier := LatestReading(init, motorId);
    if earlier.Some? {
      LatestIsNewest(init, motorId);
    }
    forall x | x in rs && x.motorId == Some(motorId)
      ensures LexLe(x.timestamp, r.timestamp)
    {
      if x == q {
        if r == q {
          LexLeReflexive(q.timestamp);
        } else {
          assert earlier.Some? && r == earlier.value;
        }
      } else {
        assert x in init;
        var p := earlier.value;
        if r != p {
          assert r == q && !LexLe(q.timestamp, p.timestamp);
          LexLeTotal(q.timestamp, p.timestamp);
          LexLeTransitive(x.timestamp, p.timestamp, q.timestamp);
        }
      }
    }
  }

  // ---------------------------------------------------------------------------
  // GET /api/motors/<zone_id>

  /** What one motor of the zone list uses when it has no reading: the current
      time and `random.uniform` noise around 65.5, 3.5 and 65.0. */
  datatype PlaceholderDraw = PlaceholderDraw(now: string, tempNoise: real, vibNoise: real, soundNoise: real)
  type MockReadingDraw = d: PlaceholderDraw |
    -5.0 <= d.tempNoise <= 5.0 && -1.0 <= d.vibNoise <= 1.0 && -5.0 <= d.soundNoise <= 5.0
    witness PlaceholderDraw("", 0.0, 0.0, 0.0)

  function ZonePlaceholder(d: MockReadingDraw): (v: SensorValues)
    ensures v.timestamp == d.now
    ensures 60.5 <= v.temperature <= 70.5
    ensures v.vibration.Some? && 2.5 <= v.vibration.value <= 4.5
    ensures v.sound.Some? && 60.0 <= v.sound.value <= 70.0
    ensures Classify(v.temperature) != Critical
  {
    SensorValues(d.now, 65.5 + d.tempNoise, Some(3.5 + d.vibNoise), Some(65.0 + d.soundNoise))
  }

  datatype MotorEntry = MotorEntry(motor: Motor, latestReading: SensorValues, healthStatus: HealthStatus)

  /** `e` is the entry get_motors_in_zone emits for motor `m`. */
  ghost predicate DescribesMotor(e: MotorEntry, m: Motor, rs: seq<Reading>, d: MockReadingDraw)
  {
    && e.motor == m
    && e.latestReading == (match LatestReading(rs, m.id)
                           case Some(q) => ValuesOf(q)
                           case None => ZonePlaceholder(d))
    && e.healthStatus == Classify(e.latestReading.temperature)
  }

  /** The motors of the zone in query order, each with its latest reading (or
      a placeholder) and the health status of that reading's temperature.
      `draws[i]` is what the i-th motor would use for a placeholder. */
  method GetMotorsInZone(motors: seq<Motor>, readings: seq<Reading>, zoneId: int,
                         draws: seq<MockReadingDraw>)
    returns (motorData: seq<MotorEntry>)
    requires |draws| == |InZone(motors, zoneId)|
    ensures |motorData| == |InZone(motors, zoneId)|
    ensures forall i :: 0 <= i < |motorData| ==>
              DescribesMotor(motorData[i], InZone(motors, zoneId)[i], readings, draws[i])
    ensures forall e :: e in motorData ==> e.motor in motors && e.motor.zoneId == Some(zoneId)
  {
    var rows := InZone(motors, zoneId);
    motorData := [];
    for i := 0 to |rows|
      invariant |motorData| == i
      invariant forall k :: 0 <= k < i ==> DescribesMotor(motorData[k], rows[k], readings, draws[k])
    {
      var motor := rows[i];
      var latest: SensorValues;
      match LatestReading(readings, motor.id) {
        case Some(q) =>
          latest := ValuesOf(q);
        case None =>
          latest := ZonePlaceholder(draws[i]);
      }
      var temp := latest.temperature;
      var health: HealthStatus;
      if temp >= CriticalThreshold {
        health := Critical;
      } else if temp >= WarningThreshold {
        health := Warning;
      } else {
        health := Normal;
      }
      motorData := motorData + [MotorEntry(motor, latest, health)];
    }
    forall e | e in motorData
      ensures e.motor in motors && e.motor.zoneId == Some(zoneId)
    {
      var k :| 0 <= k < |motorData| && motorData[k] == e;
      assert rows[k] in rows;
    }
  }

  // ---------------------------------------------------------------------------
  // GET /api/motors/<motor_id>/detail

  datatype MotorDetail = MotorDetail(motor: Motor, latestReading: SensorValues)

  /** The JSON list and the HTTP status code of the response. */
  datatype DetailResponse = DetailResponse(status: int, body: seq<MotorDetail>)

  /** The fixed reading the detail view uses for a motor without readings. */
  function DetailPlaceholder(now: string): (v: SensorValues)
    ensures v.timestamp == now && Classify(v.temperature) == Normal
  {
    SensorValues(now, 68.0, Some(3.0), Some(63.0))
  }

  /** `[]` with 404 for an unknown id; otherwise a list of exactly the motor with
      that id, with its latest reading or the fixed placeholder. */
  function GetMotorDetail(motors: seq<Motor>, readings: seq<Reading>, motorId: int, now: string)
    : (r: DetailResponse)
    ensures r.status == 404 <==> forall m :: m in motors ==> m.id != motorId
    ensures r.status == 404 ==> r.body == []
    ensures r.status != 404 ==> r.status == 200 && |r.body| == 1
    ensures r.status != 404 ==> r.body[0].motor in motors && r.body[0].motor.id == motorId
    ensures r.status != 404 ==>
              r.body[0].latestReading == (match LatestReading(readings, motorId)
                                          case Some(q) => ValuesOf(q)
                                          case None => DetailPlaceholder(now))
  {
    match FirstIndex(motors, (m: Motor) => m.id == motorId)
    case None => DetailResponse(404, [])
    case Some(i) =>
      var latest := match LatestReading(readings, motorId)
                    case Some(q) => ValuesOf(q)
                    case None => DetailPlaceholder(now);
      DetailResponse(200, [MotorDetail(motors[i], latest)])
  }

  /** Motor ids are distinct (the primary key). */
  ghost predicate DistinctMotorIds(motors: seq<Motor>)
  {
    forall i, j :: 0 <= i < j < |motors| ==> motors[i].id != motors[j].id
  }

  /** For a motor that has readings, the detail endpoint returns the same row
      and the same latest reading as its entry in the zone list. */
  lemma DetailAgreesWithZoneList(motors: seq<Motor>, readings: seq<Reading>, e: MotorEntry,
                                 m: Motor, d: MockReadingDraw, now: string)
    requires DistinctMotorIds(motors) && m in motors
    requires DescribesMotor(e, m, readings, d) && LatestReading(readings, m.id).Some?
    ensures GetMotorDetail(motors, readings, m.id, now) == DetailResponse(200, [MotorDetail(m, e.latestReading)])
  {
    var r := GetMotorDetail(motors, readings, m.id, now);
    var a :| 0 <= a < |motors| && motors[a] == m;
    var b :| 0 <= b < |motors| && motors[b] == r.body[0].motor;
    assert a == b;
  }

  // ---------------------------------------------------------------------------
  // GET /api/sensors/<motor_id>/history

  const HistoryPoints: nat := 25
  const SpikeStart: nat := 20

  /** Hour and minute of the local clock when the request is served. */
  datatype Clock = Clock(hour: int, minute: int)
  type WallClock = c: Clock | 0 <= c.hour < 24 && 0 <= c.minute < 60 witness Clock(0, 0)

  function DigitChar(n: nat): char
    requires n < 10
  {
    "0123456789"[n]
  }

  /** The number a decimal digit character stands for. */
  function DigitValue(c: char): int
  {
    c as int - '0' as int
  }

  /** `n` written with two decimal digits, zero-padded, as `%H` and `%M` write it. */
  function TwoDigits(n: nat): (s: string)
    requires n < 100
    ensures |s| == 2
    ensures '0' <= s[0] <= '9' && '0' <= s[1] <= '9'
    ensures DigitValue(s[0]) * 10 + DigitValue(s[1]) == n
  {
    [DigitChar(n / 10), DigitChar(n % 10)]
  }

  lemma TwoDigitsInjective(a: nat, b: nat)
    requires a < 100 && b < 100 && TwoDigits(a) == TwoDigits(b)
    ensures a == b
  {
    assert TwoDigits(a)[0] == TwoDigits(b)[0] && TwoDigits(a)[1] == TwoDigits(b)[1];
    assert a / 10 == b / 10 && a % 10 == b % 10;
  }

  /** The `%H:%M` label of point `i`: 24 hours before now, plus `i` hours. */
  function HistoryLabel(now: WallClock, i: nat): (stamp: string)
    ensures |stamp| == 5 && stamp[2] == ':'
    ensures '0' <= stamp[0] <= '9' && '0' <= stamp[1] <= '9' && '0' <= stamp[3] <= '9' && '0' <= stamp[4] <= '9'
    ensures DigitValue(stamp[0]) * 10 + DigitValue(stamp[1]) == (now.hour + i) % 24
    ensures DigitValue(stamp[3]) * 10 + DigitValue(stamp[4]) == now.minute
  {
    var hh, mm := TwoDigits((now.hour + i) % 24), TwoDigits(now.minute);
    var stamp := hh + ":" + mm;
    assert stamp[0] == hh[0] && stamp[1] == hh[1] && stamp[3] == mm[0] && stamp[4] == mm[1];
    stamp
  }

  /** One `random.uniform(-3, 3)` draw. */
  type HistoryNoise = r: real | -3.0 <= r <= 3.0

  /** Point `i`: 60 + 0.5 i plus the noise draw, plus 15 from point 20 on. */
  function HistoryTemperature(i: nat, noise: real): real
  {
    var base := 60.0 + (i as real) * 0.5 + noise;
    if i >= SpikeStart then base + 15.0 else base
  }

  /** The motor id plays no part: the result depends only on the clock and
      the 25 noise draws. */
  method GetSensorHistory(motorId: int, now: WallClock, noise: seq<HistoryNoise>)
    returns (timestamps: seq<string>, temperatures: seq<real>)
    requires |noise| == HistoryPoints
    ensures |timestamps| == HistoryPoints && |temperatures| == HistoryPoints
    ensures forall i :: 0 <= i < HistoryPoints ==>
              timestamps[i] == HistoryLabel(now, i) && temperatures[i] == HistoryTemperature(i, noise[i])
    ensures forall i :: 0 <= i < HistoryPoints ==> (Classify(temperatures[i]) == Critical <==> i >= SpikeStart)
  {
    timestamps := [];
    temperatures := [];
    for i := 0 to HistoryPoints
      invariant |timestamps| == i && |temperatures| == i
      invariant forall k :: 0 <= k < i ==>
                  timestamps[k] == HistoryLabel(now, k) && temperatures[k] == HistoryTemperature(k, noise[k])
    {
      var currentHour := (now.hour + i) % 24;
      var tempVal := 60.0 + (i as real) * 0.5 + noise[i];
      if i >= SpikeStart {
        tempVal := tempVal + 15.0;
      }
      timestamps := timestamps + [TwoDigits(currentHour) + ":" + TwoDigits(now.minute)];
      temperatures := temperatures + [tempVal];
    }
    forall i | 0 <= i < HistoryPoints
      ensures Classify(temperatures[i]) == Critical <==> i >= SpikeStart
    {
      HistorySpikeIsCritical(i, noise[i]);
    }
  }

  /** With noise in [-3, 3], a point is Critical exactly when it is one of the
      spiked points (index 20 or later); the others stay below 72.5. */
  lemma HistorySpikeIsCritical(i: nat, noise: real)
    requires i < HistoryPoints && -3.0 <= noise <= 3.0
    ensures Classify(HistoryTemperature(i, noise)) == Critical <==> i >= SpikeStart
  {
  }

  /** The labels name 24 distinct hours; the 25th point repeats the first label. */
  lemma {:induction false} HistoryLabelsCycle(now: WallClock)
    ensures HistoryLabel(now, 0) == HistoryLabel(now, HistoryPoints - 1)
    ensures forall i, j :: 0 <= i < j < 24 ==> HistoryLabel(now, i) != HistoryLabel(now, j)
  {
    assert (now.hour + 24) % 24 == now.hour % 24;
    forall i, j | 0 <= i < j < 24
      ensures HistoryLabel(now, i) != HistoryLabel(now, j)
    {
      var hi, hj := (now.hour + i) % 24, (now.hour + j) % 24;
      ModuloShift(now.hour, i, j);
      assert hi != hj;
    }
  }

  lemma ModuloShift(h: int, i: int, j: int)
    requires 0 <= h < 24 && 0 <= i < j < 24
    ensures (h + i) % 24 != (h + j) % 24
  {
  }
}
