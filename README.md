# Jetson box dashboard: the rolling sensor log

This project models the live part of the Jetson box dashboard page. A sensor
publishes JSON readings `{temperature, humidity}` on the MQTT topic
`jetson/box/sensor`. The page's message handler decodes each reading and
updates three state cells: the current temperature, the current humidity and
`dataLog`. `dataLog` is a bounded rolling log: each accepted reading is
appended with a clock label, and only the 19 newest earlier entries are kept,
so the log never holds more than 20 entries. The line chart is a projection of
the log into one label sequence and two data series.

Modules:

- `SensorLog` (`sensor_log.dfy`): log entries, JavaScript's one-argument
  `slice`, the log updater `AppendLog`, the reference definition `Newest`
  ("the newest n entries, in order") and the lemmas tying the two together,
  including the log after a whole stream of readings (`Replay`).
- `Chart` (`chart.dfy`): JavaScript's `map`, the chart projection `ChartOf`
  and its inverse `Rows`.
- `Page` (`page.dfy`): the dashboard component as a class with the three
  state cells, its initial state, and the message handler `OnMessage`. A ghost
  field `accepted` records every entry logged so far; the class invariant
  says the log is the newest 20 of them and the current readings are those of
  the newest one (both 0 before any reading).

The broader design this repository is described with (a time-windowed buffer,
gap filling, link-health classification, throttled persistence, trend
statistics, export) does not appear in the dashboard code: that code keeps a
log bounded by entry COUNT (20), not by time. The model follows the code.

## Model

| member | source | states |
|---|---|---|
| SensorLog.Slice | app/page.js:31 | `slice` with a negative start gives the newest `-start` elements of the log in order (all of it when shorter); with a non-negative start, the tail from that clamped index |
| SensorLog.AppendLog | app/page.js:30-33 | after an append the log holds `min(|prev| + 1, 20)` entries, its last entry is the new one, and the entries before it are the newest 19 of the previous log |
| SensorLog.AppendLogIsSuffix | app/page.js:30-33 | the new log is exactly the newest 20 entries of `prev + [entry]`: a suffix of it, in the original order |
| SensorLog.AppendLogNoDrop | app/page.js:31 | while the previous log has fewer than 20 entries nothing is dropped: the new log is `prev + [entry]` and one longer |
| SensorLog.AppendLogFull | app/page.js:31 | on a full log of 20 an append drops exactly the oldest entry |
| SensorLog.AppendLogOfNewest | app/page.js:30-33 | appending to the newest 20 entries of a stream gives the newest 20 entries of the stream extended by the new entry |
| SensorLog.ReplayIsNewest | app/page.js:22-38 | over any stream of accepted readings, starting from the empty log, the log is the last `min(20, n)` entries of the stream in arrival order |
| Chart.Map | app/page.js:44 | `map` yields one element per log entry, element i computed from entry i |
| Chart.ChartOf | app/page.js:43-58 | the labels and both data series have the log's length, and point i carries the time, temperature and humidity of log entry i |
| Chart.ChartRoundTrip | app/page.js:43-58 | the three chart sequences line up, and reading the chart's points back gives the log itself, so the chart drops and reorders nothing |
| Chart.ChartAfterAppend | app/page.js:30-58 | after a reading is logged the chart has between 1 and 20 points and its newest point shows that reading and its label |
| Page.Dashboard.constructor | app/page.js:9-11 | initially temperature and humidity are 0 and the log is empty |
| Page.Dashboard.OnMessage | app/page.js:22-38 | a decoded message on `jetson/box/sensor` sets both current readings to the message's values and appends an entry with them to the log; a message on another topic, or one whose body does not decode, changes nothing; afterwards the log has at most 20 entries, its last entry matches the current readings, and the class invariant holds |
| Page.Dashboard.UpdateLog | app/page.js:30-33 | the functional update of the log cell appends through `AppendLog` and keeps the log equal to the newest 20 of all accepted entries |

## Left out

- MQTT connection, subscription and `client.end()` teardown (app/page.js:15-20, app/page.js:40): transport plumbing; a message arrives as a call to `OnMessage(topic, payload, time)`.
- JSON decoding (app/page.js:25-26): the payload is an abstract decode result, `None` when `JSON.parse` throws or the parsed value cannot be destructured (`null`). A body that parses but lacks a field, or carries a non-number, would store `undefined` or that value; the model's `Reading` always carries two values.
- The clock label `new Date().toLocaleTimeString()` (app/page.js:32): clock- and locale-dependent, passed in as the `time` parameter.
- Temperature and humidity are modelled as integers: the page does no arithmetic on them; floating point and the `toFixed(1)` display (app/page.js:65) are left out.
- React's batching of state updates: the three setters are modelled as taking effect in order within one call, which is what the log updater's use of the previous value guarantees for the log.
- Chart captions, colours, the `Line` component and the markup (app/page.js:45-70): presentation only.
- app/api/log/route.js: an HTTP handler forwarding a reading to a remote Supabase table; it is a thin wrapper over a library and a remote store whose behaviour is not visible.
- Gap filling, connection-health states, persistence throttling, trend statistics and export: no code for them exists in the modelled files.
