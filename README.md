# Motor health monitoring: a Dafny model

This project models the logic of a small dashboard for industrial motors
grouped into zones. The server (`app.py`) authenticates operators, serves
JSON projections of its Zones, Motors and Sensor_Readings tables, mocks a
temperature history, and broadcasts a fabricated sensor reading every two
seconds. The device page script (`device.js`) shows one motor and follows
the broadcasts for that motor.

The tables are in-memory sequences of rows (`Records`). Every random draw
and every clock reading an operation makes is a parameter. Subset types
carry the range that `random.randint`, `random.uniform` and
`random.random` promise.

Modules, one per component:

- `Records`: table rows, `Option`, and `FirstIndex`, which models `fetchone()` on a `WHERE` query.
- `Health`: the temperature thresholds (Normal, Warning from 70, Critical from 80).
- `Strings`: the lexicographic order sqlite uses to sort text timestamps, and JavaScript's `split`.
- `Queries`: `get_zones`, `get_motors_in_zone`, `get_motor_detail`, `get_sensor_history`.
- `Auth`: the `login_required` gate, and a `Session` class with `Login` and `Logout`.
- `Broadcast`: one tick of `sensor_data_generator`, and a bounded run of its loop.
- `DeviceView`: a `DetailViewer` class whose fields are the page's DOM elements.

The model follows what the code does, including where it looks unfinished:

- Zone status counts are mock random draws. They are not derived from the motors' readings. The Critical count is always 0.
- A failed login leaves the session as it was. It does not clear a session that already exists.
- The generator has no error handling. A store error on a tick would end the thread; skipping such a tick is not in the code, so it is not modelled.
- The history ignores `motor_id`.

## Model

| member | source | states |
|---|---|---|
| `Records.FirstIndex` | app.py:160 | the first row satisfying the query condition, or None exactly when no row does |
| `Health.Classify` | app.py:137-144 | Critical iff temp >= 80, Warning iff 70 <= temp < 80, Normal iff temp < 70 |
| `Health.ClassifyMonotonic` | app.py:139-144 | a hotter reading never gets a milder status |
| `Health.ClassifyBoundaries` | app.py:139-142 | 70 is Warning and 80 is Critical; just below each is the milder status |
| `Health.StatusName` | app.py:140-144 | a status is written as one of "Normal", "Warning", "Critical" |
| `Health.StatusNameInjective` | device.js:50 | different statuses have different names |
| `Strings.LexLeTotal` | app.py:122 | timestamps stored as text are totally ordered by sqlite's comparison |
| `Strings.LexLeTransitive` | app.py:122 | that order is transitive |
| `Strings.LexLeReflexive` | app.py:122 | that order is reflexive |
| `Strings.LexLeAntisymmetric` | app.py:122 | two timestamps ordered both ways are equal |
| `Strings.Split` | device.js:37 | `split` returns at least one piece, no piece contains the separator, and joining the pieces gives back the input |
| `Strings.SplitJoin` | device.js:37 | splitting separator-free fields joined by the separator gives the fields back |
| `Queries.InZone` | app.py:85 | exactly the motors whose zone_id equals the zone's id; a NULL zone_id matches none |
| `Queries.InZoneSnoc` | app.py:85 | a motor appended to the table joins the end of the zone's list exactly when it belongs to the zone |
| `Queries.InZoneAppend` | app.py:113 | the filter keeps table order: filtering a concatenation concatenates the filtered parts |
| `Queries.GetZones` | app.py:79-100 | one entry per zone in zone order; the entry's id, name and location are the zone's; total_motors is the number of motors in that zone; the counts are the draws with Critical 0; the overall status follows Critical > Warning > Normal and is never Critical |
| `Queries.SummaryStatus` | app.py:88-98 | Normal count in [3,5], Warning in [0,2], Critical 0; overall is Warning iff the Warning draw is positive, otherwise Normal |
| `Queries.ZoneTotalsCoverMotors` | app.py:79-87 | with distinct zone ids and every motor in an existing zone, the zone totals add up to the number of motors |
| `Queries.LatestReading` | app.py:121-124 | a reading of that motor taken from the table, or None exactly when the motor has no reading |
| `Queries.LatestIsNewest` | app.py:121-124 | no reading of the motor has a later timestamp than the one chosen |
| `Queries.ZonePlaceholder` | app.py:127-133 | a placeholder reading is stamped with the current time, its temperature is 65.5 plus or minus 5, and it is never Critical |
| `Queries.GetMotorsInZone` | app.py:113-146 | exactly the zone's motors in query order; each entry has its latest reading or the placeholder, and the health status of that temperature; an unknown zone gives an empty list |
| `Queries.DetailPlaceholder` | app.py:175-181 | the fixed placeholder 68.0 / 3.0 / 63.0 carries the current time and classifies as Normal |
| `Queries.GetMotorDetail` | app.py:160-187 | 404 with `[]` iff no motor has the id; otherwise 200 with one element, the motor with that id together with its latest reading or the fixed placeholder |
| `Queries.DetailAgreesWithZoneList` | app.py:121-124 | for a motor that has readings, the detail endpoint returns the same row and reading as the zone list |
| `Queries.TwoDigits` | app.py:208 | `%H` and `%M` write two decimal digit characters whose value is the number, zero-padded |
| `Queries.TwoDigitsInjective` | app.py:208 | different hours or minutes are written differently |
| `Queries.HistoryLabel` | app.py:198-208 | a label has the form HH:MM, its first two digits spell the hour i hours after 24 hours ago and its last two the current minute |
| `Queries.GetSensorHistory` | app.py:196-209 | for any motor id: exactly 25 labels and 25 temperatures; point i is labelled with the hour 24-i hours before now and has temperature 60 + 0.5 i + noise, plus 15 when i >= 20; with noise drawn from [-3,3], a point is Critical iff i >= 20 |
| `Queries.HistorySpikeIsCritical` | app.py:202-206 | with noise in [-3,3], a point is Critical iff its index is 20 or more |
| `Queries.HistoryLabelsCycle` | app.py:198-201 | the first 24 labels are distinct hours; the 25th repeats the first |
| `Auth.LoginRequired` | app.py:28-35 | the handler's response is returned iff user_id is present; without it, /api paths get 401 and all other paths a redirect |
| `Auth.FindUser` | app.py:46 | a user with that username, or None exactly when no user has it |
| `Auth.Authenticate` | app.py:49 | a user id is produced only for an existing user with that name and a passing password check; an unknown username never logs in |
| `Auth.AuthenticateExactly` | app.py:46-50 | with unique usernames, login yields id k iff a user with that name and id k exists and the password check holds |
| `Auth.Session.constructor` | app.py:30 | a new session has no user_id |
| `Auth.Session.Login` | app.py:49-54 | success iff the credentials match; then user_id is the user's id, otherwise the session is unchanged |
| `Auth.Session.Logout` | app.py:61 | user_id is absent afterwards whatever the state before, so logging out twice is the same as once |
| `Broadcast.TickEvent` | app.py:249-269 | no event iff there are no motors; otherwise the event names an existing motor, with temperature in [65,75], or in [85,95] when the anomaly fires; it is Critical iff the anomaly fires |
| `Broadcast.SensorDataGenerator` | app.py:244-272 | over a run of ticks, one event per tick when motors exist and none otherwise; each event is that tick's event and names an existing motor |
| `DeviceView.TimePart` | device.js:37 | the displayed timestamp has no space; a timestamp without a space shows as empty |
| `DeviceView.TimePartOfDateTime` | device.js:37 | for a date and time joined by one space, the time part is shown |
| `DeviceView.BadgeStatus` | device.js:43-48 | the page's rule names exactly the status the server's rule gives |
| `DeviceView.InstallDateText` | device.js:68 | a NULL or empty installation date shows as N/A; any other date is shown as it is |
| `DeviceView.DetailJsonOf` | app.py:183-187 | the server's detail element always carries a latest reading |
| `DeviceView.DetailViewer.constructor` | device.js:8-19 | no reading is shown before data arrives; the elements' empty initial text is an assumption, since the page template is not part of this model |
| `DeviceView.DetailViewer.UpdateReadingDisplay` | device.js:36-52 | the time part, the reading and the badge are updated; the badge text is the classified status and its class is "status-badge " followed by it; the motor specifications are untouched |
| `DeviceView.DetailViewer.OnNewReading` | device.js:28-33 | an event for the viewed motor is displayed; an event for any other motor leaves every field unchanged |
| `DeviceView.DetailViewer.LoadDetail` | device.js:58-74 | fetched from the server's detail endpoint: an unknown motor changes nothing; otherwise the motor's specifications are shown and, because the server always attaches a reading, so is its latest reading |
| `DeviceView.DetailViewer.OnDetailResponse` | device.js:60-74 | an empty response changes nothing; otherwise the motor specifications come from the first element, and the reading is shown only when that element has one |

## Left out

- SQL text, connections and closing: the tables are sequences in row order. SQL without `ORDER BY` is assumed to return table order.
- `ORDER BY timestamp DESC LIMIT 1` compares timestamps as text. A timestamp stored as a number would sort differently in sqlite; this is not modelled. Among tied readings the model keeps the earliest row, where sqlite may return any of them.
- `ORDER BY RANDOM() LIMIT 1` is modelled as a drawn number reduced modulo the number of motors.
- bcrypt: `checkpw` is a parameter. Its constant-time behaviour and the UTF-8 encoding of the password are not modelled. `checkpw` raises an error on a malformed stored hash, which would make the login answer 500; the model treats every stored hash as well-formed, as the seeded hashes from `hashpw` are. Password hashing in setup_db.py is left out.
- The GET form of `/login`, renders, redirects, `url_for`, `jsonify`, the page routes and Flask's session cookie are left out. Only the `user_id` entry of the session is modelled.
- The user record keeps only `username`, `password`, `id` and `role` of a user. `email` and `created_at` are never read by the core.
- The background thread, `time.sleep(2)` and the Socket.IO fan-out to clients are left out. `Broadcast.SensorDataGenerator` runs a finite number of ticks in place of `while True`.
- `round(x, 2)`, float arithmetic and `strftime` of full timestamps: values are `real`, and timestamps are strings passed in.
- Broadcast.TickEvent: the rounded temperature is not modelled. Rounding to 2 decimals keeps values inside [65,75] and [85,95], so the bounds still apply.
- The JavaScript text formatting of numbers and units (`°C`, `mm/s`, `dB`) is not modelled. The viewer keeps the reading whose values are shown.
- `GetMotorsInZone` takes one placeholder draw per motor of the zone. The code draws only for motors without a reading, so the draws of motors with readings go unused.
- A POST to `/login` without a `username` or `password` field fails while the handler runs: `request.form[...]` raises a bad-request error, which Flask answers with 400, and the session is untouched. This is not modelled.
- The history chart (Chart.js), the `fetch` promise chains and their error logging in device.js are left out.
- zone.js and motor_list.js are not part of this model. They are display and navigation code: they render the lists, default a missing status to Normal, show an empty-list message, and react to failed responses.
- setup_db.py's schema and seed data: its constraints appear only as lemma assumptions. These are distinct zone ids, distinct motor ids, unique usernames, and motors referencing existing zones.
