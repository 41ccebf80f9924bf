/** The device detail page: a viewer for one motor (`MOTOR_ID`) that shows
    the motor's specifications and its latest reading, and follows the
    `new_reading` broadcast for that motor only. DOM elements are the
    viewer's fields; number-to-text formatting and units are abstracted by
    keeping the reading whose values the three value elements show. */
module DeviceView {
  import opened Records
  import opened Health
  import opened Strings
  import Broadcast
  import Queries

  /** `timestamp.split(' ')[1]`: the piece after the first space, up to the
      next one; an index past the last piece gives `undefined`, which
      `textContent` shows as the empty string. */
  function TimePart(timestamp: string): (t: string)
    ensures ' ' !in t
    ensures ' ' !in timestamp ==> t == ""
  {
    var parts := Split(timestamp, ' ');
    assert ' ' !in timestamp ==> parts == [timestamp] by {
      if ' ' !in timestamp {
        SplitNoSeparator(timestamp, ' ');
      }
    }
    if |parts| > 1 then parts[1] else ""
  }

  /** For a `%Y-%m-%d %H:%M:%S` stamp, or any date and time without spaces
      joined by one space, the page shows the time part. */
  lemma TimePartOfDateTime(date: string, time: string)
    requires ' ' !in date && ' ' !in time
    ensures TimePart(date + " " + time) == time
  {
    SplitJoin([date, time], ' ');
    assert Join([date, time], ' ') == date + " " + time;
  }

  /** The page's own copy of the threshold rule: `let status = 'Normal'`,
      overwritten by 'Critical' from 80 and by 'Warning' from 70. It names
      the status the server's rule gives. */
  method BadgeStatus(temperature: real) returns (status: string)
    ensures status == StatusName(Classify(temperature))
  {
    status := "Normal";
    if temperature >= 80.0 {
      status := "Critical";
    } else if temperature >= 70.0 {
      status := "Warning";
    }
  }

  /** `installation_date || 'N/A'`: a NULL or empty date shows as N/A. */
  function InstallDateText(date: Option<string>): (text: string)
    ensures date.None? || date.value == "" ==> text == "N/A"
    ensures date.Some? && date.value != "" ==> text == date.value
  {
    if date.Some? && date.value != "" then date.value else "N/A"
  }

  /** One element of the detail response as the page reads it; the reading
      is optional because the page tests for it. */
  datatype DetailJson = DetailJson(motorName: string, motorType: string, ratedPowerKw: real,
                                   installationDate: Option<string>, latestReading: Option<SensorValues>)

  /** The JSON form of one element of the server's detail response. */
  function DetailJsonOf(d: Queries.MotorDetail): (j: DetailJson)
    ensures j.latestReading.Some?
  {
    DetailJson(d.motor.motorName, d.motor.motorType, d.motor.ratedPowerKw,
               d.motor.installationDate, Some(d.latestReading))
  }

  class DetailViewer {
    const motorId: int
    var motorName: string
    var motorType: string
    var ratedPower: Option<real>
    var installDate: string
    var timestampText: string
    var shownReading: Option<SensorValues>
    var badgeText: string
    var badgeClass: string

    /** The reading elements and the badge agree with `v`. */
    predicate Shows(v: SensorValues)
      reads this
    {
      && timestampText == TimePart(v.timestamp)
      && shownReading == Some(v)
      && badgeText == StatusName(Classify(v.temperature))
      && badgeClass == "status-badge " + badgeText
    }

    /** Once a reading is shown, every reading element and the badge belong
        to that same reading. */
    predicate Valid()
      reads this
    {
      shownReading.Some? ==> Shows(shownReading.value)
    }

    /** The page before any data arrived. The elements' initial text comes
        from the page template, which is not part of this model; the model
        assumes it is empty and that no reading is shown. */
    constructor(motorId: int)
      ensures Valid()
      ensures this.motorId == motorId && shownReading == None
      ensures motorName == "" && motorType == "" && ratedPower == None && installDate == ""
    {
      this.motorId := motorId;
      motorName, motorType, ratedPower, installDate := "", "", None, "";
      timestampText, shownReading, badgeText, badgeClass := "", None, "", "";
    }

    /** `updateReadingDisplay`: shows the time part, the three values and the
        classified badge; the specifications are left alone. */
    method UpdateReadingDisplay(reading: SensorValues)
      requires Valid()
      modifies this
      ensures Valid() && Shows(reading)
      ensures badgeText == StatusName(Classify(reading.temperature))
      ensures motorName == old(motorName) && motorType == old(motorType)
      ensures ratedPower == old(ratedPower) && installDate == old(installDate)
    {
      timestampText := TimePart(reading.timestamp);
      shownReading := Some(reading);
      var status := BadgeStatus(reading.temperature);
      badgeText := status;
      badgeClass := "status-badge " + status;
    }

    /** The `new_reading` listener: an event for this motor is shown, any other
        event leaves the page exactly as it was. */
    method OnNewReading(data: Broadcast.Event)
      requires Valid()
      modifies this
      ensures Valid()
      ensures data.motorId == motorId ==> Shows(Broadcast.EventValues(data))
      ensures data.motorId != motorId ==> unchanged(this)
      ensures motorName == old(motorName) && motorType == old(motorType)
      ensures ratedPower == old(ratedPower) && installDate == old(installDate)
    {
      if data.motorId == motorId {
        UpdateReadingDisplay(Broadcast.EventValues(data));
      }
    }

    /** The initial detail fetch: specifications only from a non-empty
        response, taken from its first element, and the reading only when
        that element carries one. */
    method OnDetailResponse(data: seq<DetailJson>)
      requires Valid()
      modifies this
      ensures Valid()
      ensures |data| == 0 ==> unchanged(this)
      ensures |data| > 0 ==>
                && motorName == data[0].motorName && motorType == data[0].motorType
                && ratedPower == Some(data[0].ratedPowerKw)
                && installDate == InstallDateText(data[0].installationDate)
      ensures |data| > 0 && data[0].latestReading.Some? ==> Shows(data[0].latestReading.value)
      ensures |data| > 0 && data[0].latestReading.None? ==>
                && timestampText == old(timestampText) && shownReading == old(shownReading)
                && badgeText == old(badgeText) && badgeClass == old(badgeClass)
    {
      if |data| > 0 {
        var motor := data[0];
        motorName := motor.motorName;
        motorType := motor.motorType;
        ratedPower := Some(motor.ratedPowerKw);
        installDate := InstallDateText(motor.installationDate);
        if motor.latestReading.Some? {
          UpdateReadingDisplay(motor.latestReading.value);
        }
      }
    }
  
    /** The initial fetch of this motor's detail, answered by the server's
        detail endpoint: for an unknown motor the empty list changes nothing;
        otherwise the specifications come from the motor's row, and because
        the server always attaches a reading, that reading is shown. */
    method LoadDetail(motors: seq<Motor>, readings: seq<Reading>, now: string)
      requires Valid()
      modifies this
      ensures Valid()
      ensures (forall m :: m in motors ==> m.id != motorId) ==> unchanged(this)
      ensures (exists m :: m in motors && m.id == motorId) ==>
                var d := Queries.GetMotorDetail(motors, readings, motorId, now).body[0];
                && Shows(d.latestReading)
                && motorName == d.motor.motorName && motorType == d.motor.motorType
                && ratedPower == Some(d.motor.ratedPowerKw)
                && installDate == InstallDateText(d.motor.installationDate)
    {
      var response := Queries.GetMotorDetail(motors, readings, motorId, now);
      var data := seq(|response.body|, i requires 0 <= i < |response.body| => DetailJsonOf(response.body[i]));
      OnDetailResponse(data);
    }
  }
}
