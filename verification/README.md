# Mushroom substrate monitor — a verified model of its decision logic

The system watches a mushroom-growing substrate. An ESP32 device reads the temperature, the moisture and the pH, and drives a fan, a heater and a humidifier through active-LOW relays. It keeps a 1000-point ring of readings and serves a small JSON API. A FastAPI backend pulls or receives readings and stores them. It raises threshold alerts, lists and resolves them, and forwards manual control commands to the device, keeping an audit log of each.

This project models the decision logic of both layers in Dafny and proves what it promises.

Backend (Python):
- `SensorSchema` and `ControlSchema`: the request schemas, with their defaults and bounds.
- `AlertEngine`: the threshold alert rule.
- `Db`: the three tables. They are sequences in insertion order, with autoincrement ids, on a `Database` class whose fields the writes reassign.
- `Queries`, `CrudSensor`, `CrudAlert` and `CrudActuator`: the CRUD layer. `Queries` holds the shared WHERE / ORDER BY timestamp DESC / OFFSET / LIMIT shape.
- `Routes`: the HTTP handlers.

Firmware (C++):
- `FirmwareConfig`: the compile-time constants.
- `Sensors`: the moisture ADC conversion and its averaging loop.
- `ControlLogic`: the actuator globals and the auto-mode rule, as a `Controller` class with a log of relay pin writes.
- `DataLogger`: the circular log, as a `Logger` class over an `array` of 1000 points.
- `ApiServer`: the JSON endpoints.

`CrossLayer` states what the two layers must agree on:
- the default thresholds;
- the device's reading as the backend stores it;
- the effect on the device of a command the backend forwards.

Outside effects become parameters:
- the time of a database write is a `now` argument;
- the device call is a fallible function or value (`Result<_, TransportError>`);
- `millis()` is an argument;
- ADC samples are a sequence argument;
- whether the file system mounted is a constructor argument.

Three behaviours of the code that the model keeps:
- the alert rule reads thresholds from the raw payload, not from the stored row;
- the `/alerts` severity filter is skipped for an empty string, as Python's `if severity:` does;
- the device's `doc[key] == "ON"` is true only for a JSON string, while `containsKey` is true even for a null value.

## Model

| member | source | states |
|---|---|---|
| SensorSchema.FillThresholds | backend/app/schemas/sensor.py:6-12 | each threshold key takes the given value, and each missing key takes its own default (22.0, 26.0, 60, 70, 6.5, 7.0) |
| SensorSchema.ValidateSensorIn | backend/app/schemas/sensor.py:15-22 | a body validates iff temperature is given, moisture is given and in [0, 100], and ph is missing, null or in [0.0, 14.0]; ph defaults to 7.0, an explicit null stays null, and the other optional fields default to null |
| SensorSchema.PartialOverrideKeepsDefaults | backend/app/schemas/sensor.py:6-12 | each threshold key is filled independently of the others: bodies that agree on a key store the same value for it, so an override of any keys keeps the default of every key it leaves out |
| SensorSchema.InvertedRangeValidates | backend/app/schemas/sensor.py:6-20 | a body with temp_min > temp_max validates and keeps the inverted range |
| ControlSchema.ModeName | backend/app/schemas/control.py:7 | a mode is sent as exactly "AUTO" or "MANUAL", and as "AUTO" iff it is Auto |
| ControlSchema.ParseMode | backend/app/schemas/control.py:7 | mode is absent iff missing or null, and Auto or Manual iff the value is exactly that literal; anything else is rejected |
| ControlSchema.ParseActuator | backend/app/schemas/control.py:8-10 | an actuator field is absent iff missing or null; a bool or string is kept as is; a number is accepted only as 0 or 1 |
| ControlSchema.ValidateControlCommand | backend/app/schemas/control.py:6-10 | a command validates iff all four fields parse, and then holds exactly those values |
| ControlSchema.EmptyBodyValidates | backend/app/schemas/control.py:6-10 | the empty body validates as the all-absent command |
| ControlSchema.UnknownActuatorIgnored | backend/app/schemas/control.py:6-10 | a body naming only another actuator validates as the all-absent command |
| AlertEngine.ThresholdMessage | backend/app/services/alert_engine.py:4-7 | below min gives a Below message on min; otherwise an Above message on max; the message carries the value and the returned threshold |
| AlertEngine.CheckFor | backend/app/services/alert_engine.py:11-30 | the check of each parameter uses the payload value (ph defaulting to 7.0); without thresholds its range is 22.0/26.0, 60/70 or 6.5/7.0 |
| AlertEngine.BuildThresholdAlerts | backend/app/services/alert_engine.py:10-48 | the loop over `checks` returns exactly `ThresholdAlerts`, the check-by-check specification |
| AlertEngine.ThresholdAlertsUnfold | backend/app/services/alert_engine.py:26-46 | the alerts are those of temperature, then moisture, then ph |
| AlertEngine.NoAlertsIffAllInRange | backend/app/services/alert_engine.py:32-34 | no alert at all iff every parameter satisfies min <= value <= max |
| AlertEngine.AlertsInParameterOrder | backend/app/services/alert_engine.py:26-46 | at most three alerts, with at most one per parameter, in the order temperature, moisture, ph |
| AlertEngine.AlertIffOutOfRange | backend/app/services/alert_engine.py:32-46 | a parameter has an alert iff its value is outside its range |
| AlertEngine.AlertContents | backend/app/services/alert_engine.py:36-45 | every alert is critical, unresolved and carries the checked value; below min its threshold is min, otherwise max |
| AlertEngine.InvertedRangeAlwaysAlerts | backend/app/services/alert_engine.py:33 | with min > max that parameter always raises an alert |
| Queries.Filter | backend/app/crud/crud_sensor.py:35-38 | WHERE keeps exactly the accepted rows, each with its multiplicity |
| Queries.Insert | backend/app/crud/crud_sensor.py:33 | inserting into a newest-first sequence keeps it newest first and adds exactly the element |
| Queries.SortNewestFirst | backend/app/crud/crud_sensor.py:33 | ORDER BY timestamp DESC is a permutation whose keys never increase |
| Queries.Page | backend/app/crud/crud_sensor.py:40 | OFFSET skip LIMIT limit returns min(limit, n - skip) rows: the consecutive rows from position skip |
| Queries.NewestPage | backend/app/crud/crud_sensor.py:33-40 | the query is the page at the offset of every accepted row, newest first: exactly min(limit, n - skip) accepted rows for n accepted, holding no row more often than the table, and without an offset any row held fewer times than in the table is no newer than any returned; all accepted rows come back when they fit |
| Queries.AllNewest | backend/app/crud/crud_actuator.py:37-39 | WHERE then ORDER BY DESC with no limit: exactly the accepted rows, with their multiplicities, newest first |
| Queries.FilterKeepsOrder | backend/app/api/routes.py:122-123 | filtering a newest-first list keeps it newest first |
| Queries.PrefixIsNewest | backend/app/crud/crud_sensor.py:40 | a prefix of a newest-first sequence holds no element older than one left out |
| Queries.PageKeepsOrder | backend/app/crud/crud_sensor.py:40 | a page of a newest-first sequence is newest first |
| Queries.FilterAll | backend/app/crud/crud_actuator.py:24-25 | a WHERE clause that every row satisfies keeps the whole table, as a missing type filter does |
| Queries.PageSubMultiset | backend/app/crud/crud_sensor.py:40 | OFFSET/LIMIT returns no row more often than the sequence holds it |
| Queries.PrefixCopiesAreNewest | backend/app/crud/crud_sensor.py:33-40 | a row that a newest-first prefix holds fewer times than the whole is no newer than any row of the prefix |
| Queries.NewestPageCopies | backend/app/crud/crud_sensor.py:33-40 | the query holds no row more often than the table, and without an offset any accepted row held fewer times is no newer than any returned |
| CrudSensor.Create | backend/app/crud/crud_sensor.py:12-17 | appends exactly one reading, with the next id, the given fields and `now`; the other tables are unchanged |
| CrudSensor.Get | backend/app/crud/crud_sensor.py:19-23 | returns a reading with the id, or None when no reading has it |
| CrudSensor.GetByPosition | backend/app/crud/crud_sensor.py:19-23 | with autoincrement ids, a reading is found iff 1 <= id <= n, and it is the one at position id - 1 |
| CrudSensor.GetMulti | backend/app/crud/crud_sensor.py:25-42 | readings in the inclusive window, newest first, at most limit; without skip they are the newest of the window, and all of it when fewer than limit are returned |
| CrudSensor.GetMultiIsPage | backend/app/crud/crud_sensor.py:33-40 | the result skips exactly `skip` rows: it is the page at `skip` of all readings in the window, sorted newest first |
| CrudSensor.GetMultiLength | backend/app/crud/crud_sensor.py:40 | exactly min(limit, n - skip) readings come back, n being the number in the window |
| CrudSensor.GetMultiCopies | backend/app/crud/crud_sensor.py:25-42 | `get_multi` holds no reading more often than the table; without skip, a reading of the window held fewer times than in the table is no newer than any returned |
| CrudSensor.UnfilteredLength | backend/app/crud/crud_sensor.py:25-42 | without a window or skip, exactly min(limit, n) of the n readings come back |
| CrudSensor.UnfilteredLeavesOutOlder | backend/app/crud/crud_sensor.py:25-42 | without a window or skip, no reading left out, nor an extra copy of one, is newer than a returned one, and all come back when fewer than limit do |
| CrudSensor.UnfilteredIsNewest | backend/app/crud/crud_sensor.py:25-42 | without a window or skip, the result is the min(limit, n) newest readings, newest first, with no reading more often than in the table |
| CrudSensor.GetRecent | backend/app/crud/crud_sensor.py:91-98 | at most 1000 readings from [now - hours, now], newest first, each at most as often as in the table, and the newest of that window, counting copies |
| CrudSensor.LatestIsNewest | backend/app/crud/crud_sensor.py:25-42 | `get_multi(limit=1)` is empty only for an empty table, and otherwise holds a reading no older than any other |
| CrudSensor.CreateCalibrationLog | backend/app/crud/crud_sensor.py:100-107 | no stored data changes |
| CrudAlert.Create | backend/app/crud/crud_alert.py:9-14 | appends exactly one alert with the next id; earlier alerts are unchanged |
| CrudAlert.UnresolvedAlerts | backend/app/crud/crud_alert.py:16-28 | exactly the unresolved alerts, of the severity when a non-empty one is given, with multiplicities, newest first; as many as the filter accepts |
| CrudAlert.NoneUnresolved | backend/app/crud/crud_alert.py:21-28 | the unresolved list is empty exactly when every alert is resolved |
| CrudAlert.RecentAlerts | backend/app/crud/crud_alert.py:44-56 | min(limit, n) alerts for n with timestamp >= now - hours, newest first, each at most as often as in the table, and the newest of them, counting copies; all of them when fewer than limit |
| CrudAlert.RecentOmitsOlder | backend/app/crud/crud_alert.py:44-56 | the recent-alerts query holds only recent alerts and leaves out no newer recent alert; all of them when fewer than limit come back |
| CrudAlert.RecentCopies | backend/app/crud/crud_alert.py:44-56 | the recent-alerts query holds no alert more often than the table, and a recent alert held fewer times is no newer than any returned |
| CrudAlert.IndexOfId | backend/app/crud/crud_alert.py:31-34 | the position of an alert with the id, or None when no alert has it |
| CrudAlert.ResolveAt | backend/app/crud/crud_alert.py:36-38 | the alert becomes resolved at `now`; no other field and no other alert changes |
| CrudAlert.ResolveAlert | backend/app/crud/crud_alert.py:30-42 | an unknown id returns None and changes nothing; a known id is resolved in place and returned |
| CrudAlert.ResolveIdempotent | backend/app/crud/crud_alert.py:36-38 | resolving twice equals resolving once at the later time |
| CrudAlert.ResolvedLeavesUnresolved | backend/app/crud/crud_alert.py:16-42 | after resolving an id, no unresolved-alerts query returns it |
| CrudActuator.Create | backend/app/crud/crud_actuator.py:9-14 | appends exactly one log entry with the next id; earlier entries are unchanged |
| CrudActuator.ActuatorHistory | backend/app/crud/crud_actuator.py:16-29 | exactly min(limit, n) entries for n of the type (every entry when the type is empty or missing), newest first, each at most as often as in the log, and the newest such, counting copies; every matching entry, with multiplicity, when fewer than limit come back |
| CrudActuator.HistoryOmitsOlder | backend/app/crud/crud_actuator.py:16-29 | the history holds only entries of the type, leaves out no newer one, and holds each with its multiplicity when fewer than limit come back |
| CrudActuator.HistoryCopies | backend/app/crud/crud_actuator.py:16-29 | the history holds no entry more often than the log, and a matching entry held fewer times is no newer than any returned |
| CrudActuator.RecentActivity | backend/app/crud/crud_actuator.py:31-42 | exactly the entries with timestamp >= now - hours, with their multiplicities, newest first, with no limit |
| Routes.NormalizeSensorPayload | backend/app/api/routes.py:23-37 | thresholds are filled key by key from the payload or the defaults; ph defaults to 7.0; device id and location are copied; a client timestamp is dropped |
| Routes.StoredThresholdsAreEvaluated | backend/app/api/routes.py:76-78 | the thresholds and ph stored on a reading are the ones the alert rule evaluated |
| Routes.NullPhBecomesDefault | backend/app/api/routes.py:76-78 | an explicit null ph is dropped by the dump, so it is both stored and evaluated as 7.0 |
| Routes.CreateAlertsForPayload | backend/app/api/routes.py:40-45 | one alert row per rule alert, in its order and with consecutive ids; returns the rows; readings and logs are unchanged |
| Routes.StoreReading | backend/app/api/routes.py:77-78 | stores the normalised reading, then its alerts; the audit log is unchanged |
| Routes.IngestSensorData | backend/app/api/routes.py:74-79 | an invalid body gets 422 and writes nothing; otherwise the dumped payload is stored with its alerts and returned |
| Routes.SyncSensorData | backend/app/api/routes.py:82-91 | a device failure gets 502 before any reading or alert is written; otherwise the fetched payload is stored with its alerts |
| Routes.GetLatestSensorData | backend/app/api/routes.py:94-99 | 404 iff the table is empty; otherwise a reading no older than any other |
| Routes.GetSensorHistory | backend/app/api/routes.py:102-109 | 422 iff limit is outside 1..2000; otherwise exactly min(limit, n) of the n readings, count equal to their number, newest first, each at most as often as in the table, and the newest readings, counting copies |
| Routes.GetAlerts | backend/app/api/routes.py:112-126 | by default exactly the unresolved alerts of the severity, each with its multiplicity, count equal to their number; otherwise exactly the alerts of `get_recent_alerts(168, 500)` that match a non-empty severity, with their multiplicities there, at most 500 from the last 168 hours; newest first; count equals the number of items |
| Routes.ResolveAlert | backend/app/api/routes.py:129-134 | an unknown id gets 404 and writes nothing; a known id is resolved and returned |
| Routes.GetSystemOverview | backend/app/api/routes.py:168-187 | latest is null iff there are no readings, else the newest one; the unresolved count is the number of unresolved alerts, 0 iff every alert is resolved; the min(10, n) newest log entries, newest first, each at most as often as in the log, with no newer copy left out |
| Routes.UnresolvedCount | backend/app/api/routes.py:171-176 | the number of alerts the unresolved filter accepts, 0 iff every alert is resolved |
| Routes.RecentActuation | backend/app/api/routes.py:172 | the min(10, n) newest entries of the log, newest first, each at most as often as in the log, with no newer entry, or copy of one, left out |
| Routes.BuildControlPayload | backend/app/api/routes.py:48-66 | the loop builds exactly `ControlPayload`, the key-by-key specification, or its 400 error |
| Routes.EntriesUnfold | backend/app/api/routes.py:51-61 | the payload is the mode entry, then the fan, heater and humidifier entries |
| Routes.ControlPayloadShape | backend/app/api/routes.py:48-66 | 400 iff the command has no field; otherwise mode is present iff given, each actuator key is present iff its field is, and it holds "ON"/"OFF" for a bool or the upper-cased string |
| Routes.LatestReading | backend/app/api/routes.py:146-147 | None iff there is no reading, else the newest one |
| Routes.LogStep | backend/app/api/routes.py:149-163 | each key visited by the logging loop appends at most one row, with the next id |
| Routes.LogControlCommand | backend/app/api/routes.py:146-163 | the loop appends exactly the rows `ControlLogs` specifies, with consecutive ids; readings and alerts are unchanged |
| Routes.SendControlCommand | backend/app/api/routes.py:137-165 | an empty command gets 400 and nothing is sent or written; a device failure gets 502 and nothing is written; otherwise the reply is returned and the audit rows are appended |
| Routes.ControlLogsUnfold | backend/app/api/routes.py:149-163 | the audit rows are those of fan, then heater, then humidifier |
| Routes.ControlLogsActuators | backend/app/api/routes.py:149-151 | one audit row per actuator key present in the payload, in the order fan, heater, humidifier |
| Routes.ControlLogsRows | backend/app/api/routes.py:152-162 | each row holds the outgoing string, duration 0.0, "manual_api", and the newest reading's values, or nulls when there is none |
| Routes.ModeOnlyCommandLogsNothing | backend/app/api/routes.py:149-151 | a mode-only command is accepted and writes no audit row |
| Sensors.CDiv | firmware/src/sensors.cpp:59 | C division truncates toward zero: the remainder is smaller than the divisor in magnitude and is zero or has the dividend's sign, for every sign of the operands; on non-negative operands it agrees with Euclidean division |
| Sensors.TruncatedRemainder | firmware/src/sensors.cpp:59 | the quotient of the magnitudes, given the sign of the operands, leaves the remainder C's truncating division leaves |
| Sensors.CalculateMoisturePercentage | firmware/src/sensors.cpp:65-73 | the result lies in [0, 100]; raw >= 2000 gives 0 and raw <= 900 gives 100 |
| Sensors.MapOfMoisture | firmware/src/sensors.cpp:67 | the unclamped value is the truncated quotient (2000 - raw) * 100 / 1100 |
| Sensors.CDivMonotone | firmware/src/sensors.cpp:59 | truncating division by a positive divisor is monotone |
| Sensors.MoistureNonIncreasing | firmware/src/sensors.cpp:65-73 | a higher raw value never yields a higher percentage |
| Sensors.MeanWithinSamples | firmware/src/sensors.cpp:51-59 | the truncated mean of five samples lies between the smallest and largest sample |
| Sensors.SumBounds | firmware/src/sensors.cpp:52-57 | the sum of n samples in [lo, hi] lies in [n * lo, n * hi] |
| Sensors.SensorState.constructor | firmware/src/sensors.cpp:10-12 | the globals start at 0.0, 0 and 7.0 |
| Sensors.SensorState.ReadMoisture | firmware/src/sensors.cpp:49-63 | the loop stores the percentage of the truncated mean of the five samples; temperature and pH are unchanged |
| ControlLogic.Set | firmware/src/control_logic.cpp:58-80 | the actuator ends equal to the argument and nothing else changes; its pin is written, active LOW, iff that changed it |
| ControlLogic.SetIdempotent | firmware/src/control_logic.cpp:58-80 | setting twice to the same value equals setting once |
| ControlLogic.SetKeepsRelaysAgree | firmware/src/control_logic.cpp:58-80 | a setter keeps every driven relay at the level of its actuator's state |
| ControlLogic.AutoStepOutcome | firmware/src/control_logic.cpp:19-46 | in auto mode the heater ends on iff temp < 21.5, the fan iff temp > 26.5 or moisture > 73, the humidifier iff moisture < 57, whatever the prior state |
| ControlLogic.BandEdgesStayOff | firmware/src/control_logic.cpp:19-37 | readings exactly at 21.5, 26.5, 57 and 73 switch nothing on |
| ControlLogic.HeaterAndFanTogether | firmware/src/control_logic.cpp:19-42 | cold and wet together run the heater and the fan at once |
| ControlLogic.AutoStepKeepsRelaysAgree | firmware/src/control_logic.cpp:19-46 | an auto pass keeps every driven relay in agreement with the state |
| ControlLogic.FanChatterAsWritten | firmware/src/control_logic.cpp:27-42 | a running fan at 24.0 °C and 80 % moisture is written off and then on again, ending unchanged |
| ControlLogic.SetEachOnce | firmware/src/control_logic.cpp:58-80 | setting each actuator once reaches the target, with one write per actuator that changes |
| ControlLogic.AutoStepSettledIsQuiet | firmware/src/control_logic.cpp:19-46 | the corrected pass ends in the firmware's state, writing each relay once and only if it changes |
| ControlLogic.Controller.constructor | firmware/src/control_logic.cpp:6-9 | all actuators off, auto mode, no pin written |
| ControlLogic.Controller.SetFan | firmware/src/control_logic.cpp:58-64 | the new state is `Set` of the old one for the fan |
| ControlLogic.Controller.SetHeater | firmware/src/control_logic.cpp:66-72 | the new state is `Set` of the old one for the heater |
| ControlLogic.Controller.SetHumidifier | firmware/src/control_logic.cpp:74-80 | the new state is `Set` of the old one for the humidifier |
| ControlLogic.Controller.SetSystemMode | firmware/src/control_logic.cpp:82-85 | only the mode flag changes, and no pin is written |
| ControlLogic.Controller.RunControlLogic | firmware/src/control_logic.cpp:11-56 | manual mode changes nothing; auto mode is the `AutoStep` pass on the current readings; pH drives nothing |
| ControlLogic.Controller.RunControlLogicSettled | firmware/src/control_logic.cpp:11-56 | the corrected pass: in auto mode the state becomes the target of the readings, with no redundant relay write |
| DataLogger.Slot | firmware/src/data_logger.cpp:69-72 | every computed slot lies in [0, 1000) |
| DataLogger.Window | firmware/src/data_logger.cpp:69-78 | the valid points are the newest min(n, 1000) logged, oldest first |
| DataLogger.WindowStep | firmware/src/data_logger.cpp:42-51 | logging appends to the window and drops the oldest point once it is full |
| DataLogger.SlotAfterLog | firmware/src/data_logger.cpp:48-51 | after a log, the older points keep their slots and the new point sits at the old index |
| DataLogger.SlotNotIndex | firmware/src/data_logger.cpp:42-48 | while the ring is not full, no valid point sits in the slot about to be written |
| DataLogger.RingAfterLog | firmware/src/data_logger.cpp:42-51 | writing the slot at the index and advancing keeps the ring invariant |
| DataLogger.RingRead | firmware/src/data_logger.cpp:98-101 | slot i of the c before the index holds the matching newest point |
| DataLogger.HistoryIsNewest | firmware/src/data_logger.cpp:98-106 | the c slots before the index hold the c newest points, oldest first |
| DataLogger.Logger.constructor | firmware/src/data_logger.cpp:22-36 | index and count are 0; every slot is {0, 0.0, 0, 7.0} when the file system mounted, else zero |
| DataLogger.Logger.LogSensorData | firmware/src/data_logger.cpp:38-57 | the readings go to the old index slot and no other; the index becomes (old + 1) mod 1000; the count saturates at 1000; a save happens iff the new index is a multiple of 10, and it writes every valid point |
| DataLogger.Logger.SaveDataToFile | firmware/src/data_logger.cpp:59-87 | emits every valid point, oldest first |
| DataLogger.Logger.GetHistoricalData | firmware/src/data_logger.cpp:89-114 | the count is capped at dataCount; the newest that many points are returned oldest first, with the capped count and the index |
| DataLogger.Logger.ReadNewest | firmware/src/data_logger.cpp:98-106 | the loop reads the c slots before the index, oldest first |
| DataLogger.Logger.ClearDataLog | firmware/src/data_logger.cpp:116-129 | index and count are 0, the history is empty, and every slot is {0, 0.0, 0, 7.0} |
| DataLogger.Logger.GetDataCount | firmware/src/data_logger.cpp:131-133 | returns the number of valid points, min(n, 1000), changing nothing |
| ApiServer.ApplyControlOutcome | firmware/src/api_server.cpp:78-92 | a present actuator key leaves it on iff its value is the string "ON"; an absent key leaves it unchanged; mode is auto iff "AUTO" when present |
| ApiServer.LowercaseOnSwitchesOff | firmware/src/api_server.cpp:82-92 | "on" in lower case, or a JSON true, switches the actuator off |
| ApiServer.HandleApiControl | firmware/src/api_server.cpp:62-101 | a non-POST request gets 405 and a bad body 400, both changing nothing; otherwise the body is applied and 200 is returned |
| ApiServer.OnOff | firmware/src/api_server.cpp:52-54 | "ON" exactly for an actuator that is on |
| ApiServer.StatusOf | firmware/src/api_server.cpp:51-55 | the status object has exactly the keys fan, heater, humidifier and mode |
| ApiServer.StatusRoundTrip | firmware/src/api_server.cpp:51-92 | posting the reported status back changes nothing and writes no relay |
| ApiServer.HandleApiData | firmware/src/api_server.cpp:35-60 | reports the current readings, the compiled-in thresholds 22.0/26.0/60/70/6.5/7.0, each actuator as "ON"/"OFF" and the mode as "AUTO"/"MANUAL" |
| ApiServer.HandleApiSettings | firmware/src/api_server.cpp:103-130 | 405 iff not POST, 400 iff the body is invalid, and 200 otherwise; no threshold changes |
| CrossLayer.DefaultsAgree | firmware/include/config.h:25-30 | the schema defaults, the alert rule's defaults and the firmware limits are the same six numbers |
| CrossLayer.SyncedReadingUsesDefaults | firmware/src/api_server.cpp:43-49 | a reading synced from the device is stored with the default thresholds, and alerts as if it had none |
| CrossLayer.CommandReachesDevice | firmware/src/api_server.cpp:78-92 | when the device parses the forwarded body, each commanded actuator ends as its field asks and the others unchanged; mode is auto iff AUTO was asked |
| CrossLayer.BoolCommandSetsFan | backend/app/api/routes.py:58-59 | a backend `fan = b` command leaves the device fan equal to b |

## Left out

- The Streamlit dashboard and the device's web page script: presentation only.
- The HTTP client to the device: it is a parameter of the handlers, either a fallible function of the payload or the outcome of the fetch. Its base URL and timeout are not modelled.
- WiFi management, `handleRoot`, `handleNotFound` and `initWebServer`: HTML, routing and network setup.
- The `/health` endpoint: it returns a constant.
- SPIFFS and JSON text. The model states the sequence of points a save or a history request emits, not the serialised document. `StaticJsonDocument<4096>` and `<8192>` cannot hold 1000 points, so the real output may be truncated; the model does not capture that.
- DataLogger.Logger.SaveDataToFile: a failure to open the file writes nothing; the model gives the points a successful save writes.
- DataLogger.Logger.GetHistoricalData: a negative count is reported as given and returns no point, as the source does; the JSON field names are not modelled.
- DataLogger.Logger.LogSensorData: `millis()` is an unbounded natural. Its 32-bit wrap-around after about 49 days is not modelled.
- The temperature moving average and the voltage-to-pH conversion: floating-point arithmetic.
- `get_statistics`: floating-point averages and rounding.
- The formatted alert text with two decimals: a message is kept as its parameter, direction, value and bound.
- Real numbers stand for Python and C floats throughout.
- `analogRead`, `delay`, `Serial` output, `setupActuatorPins`, the `main.cpp` scheduling interval and its duplicate globals. ADC samples are an argument. Pin writes are kept as a log of (pin, level), and one copy of each global is modelled.
- The pH branch of `runControlLogic`: it only prints a warning.
- The ControlState, RuntimeMode and SystemSettings tables: no shown code reads or writes them.
- The dashboard's calls to settings, runtime-mode, report and collect endpoints: there is no handler for them.
- The unawaited async CRUD calls in the routes: the model gives the intended sequential effect of each write.
- Database sessions, commits and refreshes, and the database clock: each write takes `now` as its timestamp.
- SensorSchema.ValidateSensorIn: a body is modelled with typed fields, so the 422 for a value of the wrong JSON type is not modelled: `"temperature": "abc"`, `"moisture": 50.5`, `"thresholds": {"temp_min": null}`, a malformed timestamp, a numeric `device_id`. Nor are pydantic's lax coercions, such as `"temperature": "21.5"` being accepted as 21.5.
- CrudActuator.ActuatorHistory: the limit is always an argument; the default of 50 for a caller that passes none is not modelled, and the only caller passes 10.
- Routes.GetSystemOverview: recent actuation entries are whole log rows; the endpoint sends only their id, timestamp, actuator type, action and trigger.
- ControlSchema.ParseActuator: pydantic's lax coercion of other numbers and of strings to bool is approximated. Numbers 0 and 1 become bools; any other number or null-in-union edge case is rejected.
- Routes.BuildControlPayload: `str.upper` is modelled for ASCII letters only.
- ApiServer.HandleApiControl: an unparsable body, a body over the 256-byte document capacity and a syntax error are all `Invalid`. A JSON value that is not an object has no keys, so it changes nothing.
- Routes.SyncSensorData: the device's reply is modelled as the typed payload the device's `/api/data` handler sends, so replies of any other shape are outside the model. In the code, `"thresholds": null` is stored with the default thresholds (`or {}` in the normalisation) but then fails in the alert rule's `.get` on null, a 500 after the reading was written. A reply without `"temperature"` is a 500 with nothing written. A fractional moisture is stored truncated by `int()` while the alert rule evaluates the fraction.
- CrudSensor.GetRecent: `utcnow()` is the `now` argument, and hours become seconds through `HoursAgo`.

## Findings

| source | as written | input that shows it | evidently intended | confidence | as-written member | corrected member |
|---|---|---|---|---|---|---|
| firmware/src/control_logic.cpp:27-42 | the temperature branch switches the fan off, then the moisture branch switches it back on | auto mode, fan on, temperature 24.0, moisture 80: pin 26 is written HIGH, then LOW, every pass | a fan that ends on is not toggled; each relay is driven at most once per pass, and only when its state changes | not executed | ControlLogic.FanChatterAsWritten | ControlLogic.AutoStepSettledIsQuiet |
