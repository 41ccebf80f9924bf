/** Rows of the four tables of the data store (Users, Zones, Motors,
    Sensor_Readings), held in memory as sequences instead of SQL tables.
    Columns the schema allows to be NULL are `Option`s. */
module Records {

  datatype Option<T> = None | Some(value: T)

  /** A row of Users. `passwordHash` is the stored salted hash. */
  datatype User = User(id: int, username: string, passwordHash: string, role: string)

  /** A row of Zones. */
  datatype Zone = Zone(id: int, zoneName: string, location: string, status: string)

  /** A row of Motors; `zone_id` and `installation_date` may be NULL. */
  datatype Motor = Motor(id: int, motorName: string, zoneId: Option<int>, motorType: string,
                         ratedPowerKw: real, installationDate: Option<string>, status: string)

  /** A row of Sensor_Readings; `motor_id`, `vibration_mm_s` and `sound_db` may be NULL. */
  datatype Reading = Reading(id: int, motorId: Option<int>, timestamp: string, temperature: real,
                             vibration: Option<real>, sound: Option<real>)

  /** The four reading columns as the API and the client see them
      (`timestamp`, `temperature_celsius`, `vibration_mm_s`, `sound_db`). */
  datatype SensorValues = SensorValues(timestamp: string, temperature: real,
                                       vibration: Option<real>, sound: Option<real>)

  /** The columns `SELECT timestamp, temperature_celsius, vibration_mm_s, sound_db` projects. */
  function ValuesOf(q: Reading): SensorValues
  {
    SensorValues(q.timestamp, q.temperature, q.vibration, q.sound)
  }

  /** The position of the first row that satisfies `p`: what `fetchone()` returns
      for a `WHERE` query over a table kept in row order. */
  function FirstIndex<T>(s: seq<T>, p: T -> bool): (r: Option<nat>)
    ensures r.None? <==> forall i :: 0 <= i < |s| ==> !p(s[i])
    ensures r.Some? ==> r.value < |s| && p(s[r.value])
    ensures r.Some? ==> forall j :: 0 <= j < r.value ==> !p(s[j])
  {
    if |s| == 0 then None
    else if p(s[0]) then Some(0)
    else match FirstIndex(s[1..], p)
      case None => None
      case Some(k) => Some(k + 1)
  }
}
