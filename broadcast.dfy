/** The background generator that fabricates a reading every two seconds and
    broadcasts it as a `new_reading` event. The sleep, the thread and the
    fan-out to subscribers are not modelled; each tick's random draws and
    clock reading are passed in. */
module Broadcast {
  import opened Records
  import opened Health

  /** The payload of a `new_reading` event. */
  datatype Event = Event(motorId: int, timestamp: string, temperature: real, vibration: real, sound: real)

  /** The values shown by a client for an event. */
  function EventValues(e: Event): SensorValues
  {
    SensorValues(e.timestamp, e.temperature, Some(e.vibration), Some(e.sound))
  }

  /** The draws of one tick: the row picked by `ORDER BY RANDOM()` (reduced
      modulo the number of motors), the three uniform readings, the anomaly
      roll (`random.random()`), the anomaly temperature and the formatted
      current time. */
  datatype TickDraw = TickDraw(pick: nat, temp: real, vib: real, sound: real,
                               roll: real, anomalyTemp: real, now: string)
  type UniformTickDraw = d: TickDraw |
    && 65.0 <= d.temp <= 75.0 && 3.0 <= d.vib <= 5.0 && 60.0 <= d.sound <= 70.0
    && 0.0 <= d.roll < 1.0 && 85.0 <= d.anomalyTemp <= 95.0
    witness TickDraw(0, 65.0, 3.0, 60.0, 0.0, 85.0, "")

  /** A roll below 0.1 replaces the temperature: the 10% anomaly. */
  const AnomalyChance: real := 0.1

  /** One tick: nothing without motors; otherwise an event for the picked
      motor whose temperature is in [65, 75], or in [85, 95] exactly when the
      anomaly fires, and only then Critical. */
  function TickEvent(motors: seq<Motor>, d: UniformTickDraw): (ev: Option<Event>)
    ensures ev.None? <==> |motors| == 0
    ensures ev.Some? ==> exists m :: m in motors && m.id == ev.value.motorId
    ensures ev.Some? ==> ev.value.timestamp == d.now && ev.value.vibration == d.vib && ev.value.sound == d.sound
    ensures ev.Some? ==> if d.roll < AnomalyChance then 85.0 <= ev.value.temperature <= 95.0
                         else 65.0 <= ev.value.temperature <= 75.0
    ensures ev.Some? ==> (Classify(ev.value.temperature) == Critical <==> d.roll < AnomalyChance)
  {
    if |motors| == 0 then None
    else
      var motorRow := motors[d.pick % |motors|];
      Some(Event(motorRow.id, d.now, if d.roll < AnomalyChance then d.anomalyTemp else d.temp, d.vib, d.sound))
  }

  /** The first |draws| iterations of the `while True` loop, returning the
      events it broadcasts in order: one per tick when there are motors, none
      otherwise. */
  method SensorDataGenerator(motors: seq<Motor>, draws: seq<UniformTickDraw>)
    returns (emitted: seq<Event>)
    ensures |emitted| == if |motors| == 0 then 0 else |draws|
    ensures |motors| > 0 ==> forall i :: 0 <= i < |draws| ==> TickEvent(motors, draws[i]) == Some(emitted[i])
    ensures forall e :: e in emitted ==> exists m :: m in motors && m.id == e.motorId
    ensures forall e :: e in emitted ==> 65.0 <= e.temperature <= 75.0 || 85.0 <= e.temperature <= 95.0
  {
    emitted := [];
    var tick := 0;
    while tick < |draws|
      invariant 0 <= tick <= |draws|
      invariant |emitted| == if |motors| == 0 then 0 else tick
      invariant |motors| > 0 ==> forall i :: 0 <= i < tick ==> TickEvent(motors, draws[i]) == Some(emitted[i])
    {
      var d := draws[tick];
      if |motors| > 0 {
        var motorRow := motors[d.pick % |motors|];
        var newTemp := d.temp;
        if d.roll < AnomalyChance {
          newTemp := d.anomalyTemp;
        }
        emitted := emitted + [Event(motorRow.id, d.now, newTemp, d.vib, d.sound)];
      }
      tick := tick + 1;
    }
    forall e | e in emitted
      ensures (exists m :: m in motors && m.id == e.motorId)
      ensures 65.0 <= e.temperature <= 75.0 || 85.0 <= e.temperature <= 95.0
    {
      var k :| 0 <= k < |emitted| && emitted[k] == e;
      assert TickEvent(motors, draws[k]) == Some(e);
    }
  }
}
