/** The temperature rule that turns a reading into a health status. The
    server applies it to each motor's latest reading in get_motors_in_zone;
    the device page applies the same rule again to every reading it shows. */
module Health {

  datatype HealthStatus = Normal | Warning | Critical

  /** Warning from 70 degrees Celsius, Critical from 80. */
  const WarningThreshold: real := 70.0
  const CriticalThreshold: real := 80.0

  /** The server's threshold chain: `>= 80` first, then `>= 70`, else Normal. */
  function Classify(temp: real): (s: HealthStatus)
    ensures s == Critical <==> temp >= CriticalThreshold
    ensures s == Warning <==> WarningThreshold <= temp < CriticalThreshold
    ensures s == Normal <==> temp < WarningThreshold
  {
    if temp >= CriticalThreshold then Critical
    else if temp >= WarningThreshold then Warning
    else Normal
  }

  /** The status as the JSON and the page spell it. */
  function StatusName(s: HealthStatus): (name: string)
    ensures name in {"Normal", "Warning", "Critical"}
  {
    match s
    case Normal => "Normal"
    case Warning => "Warning"
    case Critical => "Critical"
  }

  /** The order Critical > Warning > Normal used when statuses are combined. */
  function Severity(s: HealthStatus): nat
  {
    match s
    case Normal => 0
    case Warning => 1
    case Critical => 2
  }

  /** Distinct statuses have distinct names, so a name read back from the page
      identifies the status. */
  lemma StatusNameInjective(a: HealthStatus, b: HealthStatus)
    requires StatusName(a) == StatusName(b)
    ensures a == b
  {
  }

  /** A hotter reading never gets a milder status. */
  lemma ClassifyMonotonic(t1: real, t2: real)
    requires t1 <= t2
    ensures Severity(Classify(t1)) <= Severity(Classify(t2))
  {
  }

  /** The boundaries belong to the upper class: 70 is Warning and 80 is Critical. */
  lemma ClassifyBoundaries()
    ensures Classify(70.0) == Warning && Classify(80.0) == Critical
    ensures Classify(69.99) == Normal && Classify(79.99) == Warning
  {
  }
}
