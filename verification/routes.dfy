/**
 * The HTTP handlers of the backend: ingest and sync of readings, the
 * latest reading, alert listing and resolution, and the control command.
 * The device is reached through a fallible call given as a parameter, and
 * `now` is the database time of the request's writes.
 */
module Routes {
  import opened Wrappers
  import opened Json
  import opened Queries
  import opened SensorSchema
  import opened ControlSchema
  import opened AlertEngine
  import opened Db
  import CrudSensor
  import CrudAlert
  import CrudActuator

  datatype HttpError = HttpError(status: int, detail: string)

  /** A failed HTTP exchange with the device (network error or non-2xx status). */
  datatype TransportError = TransportError(reason: string)

  const NO_THRESHOLDS := ThresholdsIn(None, None, None, None, None, None)

  /**
   * The stored shape of a reading. Each threshold is taken from the payload
   * when present, else from the same defaults as the `Thresholds` schema; ph
   * defaults to 7.0; device id and location are copied; a client timestamp
   * is dropped.
   */
  function NormalizeSensorPayload(raw: RawPayload): (r: SensorFields)
    ensures r.thresholds == FillThresholds(raw.thresholds.GetOr(NO_THRESHOLDS))
    ensures raw.thresholds.None? ==> r.thresholds == DEFAULT_THRESHOLDS
    ensures r.temperature == raw.temperature && r.moisture == raw.moisture
    ensures r.ph == Some(if raw.ph.Some? then raw.ph.value else 7.0)
    ensures r.deviceId == raw.deviceId && r.location == raw.location
  {
    var t := raw.thresholds.GetOr(NO_THRESHOLDS);
    SensorFields(
      raw.temperature,
      raw.moisture,
      Some(raw.ph.GetOr(7.0)),
      Thresholds(t.tempMin.GetOr(22.0), t.tempMax.GetOr(26.0),
                 t.moistureMin.GetOr(60), t.moistureMax.GetOr(70),
                 t.phMin.GetOr(6.5), t.phMax.GetOr(7.0)),
      raw.deviceId,
      raw.location)
  }

  /** The range the alert rule checks for a parameter, as stored on a reading. */
  function StoredRange(t: Thresholds, param: Parameter): (real, real) {
    match param
    case Temperature => (t.tempMin, t.tempMax)
    case Moisture => (t.moistureMin as real, t.moistureMax as real)
    case Ph => (t.phMin, t.phMax)
  }

  /**
   * The thresholds snapshotted on a reading are those the alert rule
   * evaluated it against, and the stored ph is the ph it evaluated.
   */
  lemma StoredThresholdsAreEvaluated(raw: RawPayload)
    ensures forall param :: StoredRange(NormalizeSensorPayload(raw).thresholds, param)
                            == (CheckFor(raw, param).min, CheckFor(raw, param).max)
    ensures NormalizeSensorPayload(raw).ph == Some(CheckFor(raw, Ph).value)
  {
    forall param
      ensures StoredRange(NormalizeSensorPayload(raw).thresholds, param)
              == (CheckFor(raw, param).min, CheckFor(raw, param).max)
    {
      match param
      case Temperature =>
      case Moisture =>
      case Ph =>
    }
  }

  /** An explicit null ph is dropped by the dump, so it is stored and checked as 7.0. */
  lemma NullPhBecomesDefault(s: SensorIn)
    requires s.ph.None?
    ensures NormalizeSensorPayload(ModelDump(s)).ph == Some(7.0)
    ensures CheckFor(ModelDump(s), Ph).value == 7.0
  {
  }

  /** The alert rows stored for a list of drafts, with consecutive ids. */
  function AlertRowsFrom(drafts: seq<AlertDraft>, firstId: nat, now: int): (r: seq<AlertRow>)
    ensures |r| == |drafts|
  {
    seq(|drafts|, k requires 0 <= k < |drafts| => CrudAlert.NewRow(firstId + k, now, drafts[k]))
  }

  /** One alert row per alert the rule yields for the payload, in its order. */
  method CreateAlertsForPayload(db: Database, raw: RawPayload, now: int) returns (created: seq<AlertRow>)
    requires db.Valid()
    modifies db
    ensures db.Valid()
    ensures created == AlertRowsFrom(ThresholdAlerts(raw), |old(db.alerts)| + 1, now)
    ensures db.alerts == old(db.alerts) + created
    ensures db.readings == old(db.readings) && db.actuatorLogs == old(db.actuatorLogs)
  {
    var drafts := BuildThresholdAlerts(raw);
    created := [];
    var i := 0;
    while i < |drafts|
      invariant 0 <= i <= |drafts|
      invariant db.Valid()
      invariant created == AlertRowsFrom(drafts[..i], |old(db.alerts)| + 1, now)
      invariant db.alerts == old(db.alerts) + created
      invariant db.readings == old(db.readings) && db.actuatorLogs == old(db.actuatorLogs)
    {
      var alert := CrudAlert.Create(db, drafts[i], now);
      created := created + [alert];
      i := i + 1;
    }
    assert drafts[..i] == drafts;
  }

  /** Stores the normalised reading, then its alerts. */
  method StoreReading(db: Database, raw: RawPayload, now: int) returns (row: SensorOut)
    requires db.Valid()
    modifies db
    ensures db.Valid()
    ensures row == SensorOut(|old(db.readings)| + 1, now, NormalizeSensorPayload(raw))
    ensures db.readings == old(db.readings) + [row]
    ensures db.alerts == old(db.alerts) + AlertRowsFrom(ThresholdAlerts(raw), |old(db.alerts)| + 1, now)
    ensures db.actuatorLogs == old(db.actuatorLogs)
  {
    row := CrudSensor.Create(db, NormalizeSensorPayload(raw), now);
    var _ := CreateAlertsForPayload(db, raw, now);
  }

  /** POST /sensor/ingest: a body failing validation gets 422 and writes nothing. */
  method IngestSensorData(db: Database, req: SensorRequest, now: int) returns (r: Result<SensorOut, HttpError>)
    requires db.Valid()
    modifies db
    ensures db.Valid()
    ensures ValidateSensorIn(req).Failure? ==>
      r.Failure? && r.error.status == 422
      && db.readings == old(db.readings) && db.alerts == old(db.alerts)
    ensures ValidateSensorIn(req).Success? ==>
      var raw := ModelDump(ValidateSensorIn(req).value);
      && r == Success(SensorOut(|old(db.readings)| + 1, now, NormalizeSensorPayload(raw)))
      && db.readings == old(db.readings) + [r.value]
      && db.alerts == old(db.alerts) + AlertRowsFrom(ThresholdAlerts(raw), |old(db.alerts)| + 1, now)
    ensures db.actuatorLogs == old(db.actuatorLogs)
  {
    var validated := ValidateSensorIn(req);
    if validated.Failure? {
      return Failure(HttpError(422, "Validation error"));
    }
    var row := StoreReading(db, ModelDump(validated.value), now);
    r := Success(row);
  }

  /** POST /sensor/sync: a device failure gets 502 before any reading or alert is written. */
  method SyncSensorData(db: Database, fetched: Result<RawPayload, TransportError>, now: int)
    returns (r: Result<SensorOut, HttpError>)
    requires db.Valid()
    modifies db
    ensures db.Valid()
    ensures fetched.Failure? ==>
      r.Failure? && r.error.status == 502
      && db.readings == old(db.readings) && db.alerts == old(db.alerts)
    ensures fetched.Success? ==>
      && r == Success(SensorOut(|old(db.readings)| + 1, now, NormalizeSensorPayload(fetched.value)))
      && db.readings == old(db.readings) + [r.value]
      && db.alerts == old(db.alerts) + AlertRowsFrom(ThresholdAlerts(fetched.value), |old(db.alerts)| + 1, now)
    ensures db.actuatorLogs == old(db.actuatorLogs)
  {
    if fetched.Failure? {
      return Failure(HttpError(502, "Failed to fetch ESP32 data: " + fetched.error.reason));
    }
    var row := StoreReading(db, fetched.value, now);
    r := Success(row);
  }

  /** GET /sensor/latest: 404 on an empty table, else a reading no older than any other. */
  function GetLatestSensorData(readings: seq<SensorOut>): (r: Result<SensorOut, HttpError>)
    ensures r.Failure? <==> readings == []
    ensures r.Failure? ==> r.error.status == 404
    ensures r.Success? ==> r.value in readings && forall y :: y in readings ==> y.timestamp <= r.value.timestamp
  {
    CrudSensor.LatestIsNewest(readings);
    var items := CrudSensor.GetMulti(readings, 0, 1, None, None);
    if items == [] then Failure(HttpError(404, "No sensor data available")) else Success(items[0])
  }

  datatype SensorHistoryResponse = SensorHistoryResponse(items: seq<SensorOut>, count: nat)

  /** GET /sensor/history: `limit` must lie in 1..2000 (else 422); the newest `limit` readings. */
  function GetSensorHistory(readings: seq<SensorOut>, limit: int): (r: Result<SensorHistoryResponse, HttpError>)
    ensures r.Failure? <==> !(1 <= limit <= 2000)
    ensures r.Failure? ==> r.error.status == 422
    ensures r.Success? ==>
      && r.value.count == |r.value.items| <= limit
      && CrudSensor.NewestOf(r.value.items, readings, limit)
  {
    if !(1 <= limit <= 2000) then Failure(HttpError(422, "Validation error"))
    else
      var items := CrudSensor.GetMulti(readings, 0, limit, None, None);
      CrudSensor.UnfilteredIsNewest(readings, limit);
      Success(SensorHistoryResponse(items, |items|))
  }

  datatype AlertListResponse = AlertListResponse(items: seq<AlertRow>, count: nat)

  function SeverityIs(a: AlertRow, severity: string): bool { a.severity == severity }

  /**
   * GET /alerts: by default every unresolved alert (of the severity, if
   * given), else the newest 500 of the last 168 hours, filtered by severity.
   */
  function GetAlerts(alerts: seq<AlertRow>, unresolvedOnly: bool, severity: Option<string>, now: int)
    : (r: AlertListResponse)
    ensures r.count == |r.items|
    ensures forall a :: a in r.items ==> a in alerts && CrudAlert.SeverityMatches(a, severity)
    ensures unresolvedOnly ==> forall a :: a in r.items <==> a in alerts && CrudAlert.IsUnresolvedWith(a, severity)
    ensures unresolvedOnly ==>
      forall a :: multiset(r.items)[a] == if CrudAlert.IsUnresolvedWith(a, severity) then multiset(alerts)[a] else 0
    ensures unresolvedOnly ==> r.count == |Filter(alerts, CrudAlert.UnresolvedOf(severity))|
    ensures !unresolvedOnly ==> |r.items| <= 500 && forall a :: a in r.items ==> a.timestamp >= HoursAgo(now, 168)
    ensures !unresolvedOnly ==> forall a :: a in r.items <==>
      a in CrudAlert.RecentAlerts(alerts, now, 168, 500) && CrudAlert.SeverityMatches(a, severity)
    ensures !unresolvedOnly ==> forall a ::
      multiset(r.items)[a] ==
        if CrudAlert.SeverityMatches(a, severity) then multiset(CrudAlert.RecentAlerts(alerts, now, 168, 500))[a] else 0
    ensures NewestFirst(r.items, AlertTime)
  {
    var items :=
      if unresolvedOnly then CrudAlert.UnresolvedAlerts(alerts, severity)
      else
        var recent := CrudAlert.RecentAlerts(alerts, now, 168, 500);
        if severity.Some? && severity.value != "" then
          FilterKeepsOrder(recent, (a: AlertRow) => SeverityIs(a, severity.value), AlertTime);
          Filter(recent, (a: AlertRow) => SeverityIs(a, severity.value))
        else recent;
    AlertListResponse(items, |items|)
  }

  /** POST /alerts/{id}/resolve: an unknown id gets 404 and writes nothing. */
  method ResolveAlert(db: Database, alertId: int, now: int) returns (r: Result<AlertRow, HttpError>)
    requires db.Valid()
    modifies db
    ensures db.Valid()
    ensures db.readings == old(db.readings) && db.actuatorLogs == old(db.actuatorLogs)
    ensures match CrudAlert.IndexOfId(old(db.alerts), alertId)
      case None => r == Failure(HttpError(404, "Alert not found")) && db.alerts == old(db.alerts)
      case Some(i) =>
        db.alerts == CrudAlert.ResolveAt(old(db.alerts), i, now) && r == Success(db.alerts[i])
  {
    var alert := CrudAlert.ResolveAlert(db, alertId, now);
    if alert.None? {
      return Failure(HttpError(404, "Alert not found"));
    }
    r := Success(alert.value);
  }

  datatype SystemOverview = SystemOverview(latest: Option<SensorOut>, unresolvedAlerts: nat,
                                           recentActuation: seq<ActuatorLog>)

  /** `len(get_unresolved_alerts(db))`: the number of unresolved alerts. */
  function UnresolvedCount(alerts: seq<AlertRow>): (n: nat)
    ensures n == |Filter(alerts, CrudAlert.UnresolvedOf(None))|
    ensures n == 0 <==> forall a :: a in alerts ==> a.resolved
  {
    CrudAlert.NoneUnresolved(alerts);
    |CrudAlert.UnresolvedAlerts(alerts, None)|
  }

  /**
   * `r` is the min(limit, n) newest of all n log entries, newest first: it
   * holds no entry more often than the log, and an entry it holds fewer
   * times (in particular one it leaves out) is no newer than any it holds.
   */
  ghost predicate NewestEntries(r: seq<ActuatorLog>, logs: seq<ActuatorLog>, limit: nat) {
    && |r| == Min(limit, |logs|)
    && (forall l :: l in r ==> l in logs)
    && NewestFirst(r, LogTime)
    && (forall i, l :: 0 <= i < |r| && l in logs && l !in r ==> l.timestamp <= r[i].timestamp)
    && multiset(r) <= multiset(logs)
    && (forall i, l :: 0 <= i < |r| && multiset(r)[l] < multiset(logs)[l] ==> l.timestamp <= r[i].timestamp)
  }

  /** `get_actuator_history(limit=10)`: the ten newest log entries of any type. */
  function RecentActuation(logs: seq<ActuatorLog>): (r: seq<ActuatorLog>)
    ensures NewestEntries(r, logs, 10)
  {
    var r := CrudActuator.ActuatorHistory(logs, None, 10);
    assert |r| == Min(10, |logs|) by {
      FilterAll(logs, CrudActuator.OfType(None));
    }
    r
  }

  /**
   * GET /system/overview: the newest reading (null when there is none), the
   * number of unresolved alerts, and the ten newest actuator log entries.
   * The entries are whole rows; the endpoint sends only their id, timestamp,
   * actuator type, action and trigger.
   */
  function GetSystemOverview(readings: seq<SensorOut>, alerts: seq<AlertRow>, logs: seq<ActuatorLog>)
    : (r: SystemOverview)
    ensures r.latest.None? <==> readings == []
    ensures r.latest.Some? ==>
      r.latest.value in readings && forall y :: y in readings ==> y.timestamp <= r.latest.value.timestamp
    ensures r.unresolvedAlerts == |Filter(alerts, CrudAlert.UnresolvedOf(None))|
    ensures r.unresolvedAlerts == 0 <==> forall a :: a in alerts ==> a.resolved
    ensures NewestEntries(r.recentActuation, logs, 10)
  {
    SystemOverview(LatestReading(readings), UnresolvedCount(alerts), RecentActuation(logs))
  }

  // ---------------------------------------------------------------------
  // The control command

  /** The payload sent to the device: key to string value. */
  type Outgoing = map<string, string>

  const ACTUATOR_KEYS: seq<string> := ["fan", "heater", "humidifier"]

  function ActuatorField(cmd: ControlCommand, key: string): Option<ActuatorValue> {
    if key == "fan" then cmd.fan
    else if key == "heater" then cmd.heater
    else if key == "humidifier" then cmd.humidifier
    else None
  }

  function UpperChar(c: char): char {
    if 'a' <= c <= 'z' then (c as int - 32) as char else c
  }

  /** `str.upper` on ASCII text. */
  function Upper(s: string): string {
    seq(|s|, i requires 0 <= i < |s| => UpperChar(s[i]))
  }

  /** A bool becomes "ON" or "OFF"; a string is upper-cased. */
  function Encode(v: ActuatorValue): string {
    match v
    case Switch(on) => if on then "ON" else "OFF"
    case Text(s) => Upper(s)
  }

  /** The `mode` entry, present only when the command carries a mode. */
  function ModeEntry(cmd: ControlCommand): Outgoing {
    if cmd.mode.Some? then map["mode" := ModeName(cmd.mode.value)] else map[]
  }

  /** The entry one actuator key adds, if its field is present. */
  function PutField(m: Outgoing, key: string, v: Option<ActuatorValue>): Outgoing {
    if v.Some? then m[key := Encode(v.value)] else m
  }

  /** The payload after the mode entry and the actuator loop's visits to `keys`. */
  function Entries(cmd: ControlCommand, keys: seq<string>): Outgoing {
    if keys == [] then ModeEntry(cmd)
    else
      var key := keys[|keys| - 1];
      PutField(Entries(cmd, keys[..|keys| - 1]), key, ActuatorField(cmd, key))
  }

  /** The outgoing payload, or the 400 error of an empty command. */
  function ControlPayload(cmd: ControlCommand): Result<Outgoing, HttpError> {
    var outgoing := Entries(cmd, ACTUATOR_KEYS);
    if outgoing == map[] then Failure(HttpError(400, "At least one control field is required"))
    else Success(outgoing)
  }

  method BuildControlPayload(cmd: ControlCommand) returns (r: Result<Outgoing, HttpError>)
    ensures r == ControlPayload(cmd)
  {
    var outgoing: Outgoing := map[];
    if cmd.mode.Some? {
      outgoing := outgoing["mode" := ModeName(cmd.mode.value)];
    }
    var i := 0;
    while i < |ACTUATOR_KEYS|
      invariant 0 <= i <= |ACTUATOR_KEYS|
      invariant outgoing == Entries(cmd, ACTUATOR_KEYS[..i])
    {
      var key := ACTUATOR_KEYS[i];
      var value := ActuatorField(cmd, key);
      assert ACTUATOR_KEYS[..i + 1][..i] == ACTUATOR_KEYS[..i];
      assert Entries(cmd, ACTUATOR_KEYS[..i + 1]) == PutField(outgoing, key, value);
      if value.Some? {
        match value.value {
          case Switch(on) => outgoing := outgoing[key := if on then "ON" else "OFF"];
          case Text(s) => outgoing := outgoing[key := Upper(s)];
        }
      }
      i := i + 1;
    }
    assert ACTUATOR_KEYS[..i] == ACTUATOR_KEYS;
    if outgoing == map[] {
      return Failure(HttpError(400, "At least one control field is required"));
    }
    r := Success(outgoing);
  }

  /** The payload once the loop has visited all three keys. */
  lemma EntriesUnfold(cmd: ControlCommand)
    ensures Entries(cmd, ACTUATOR_KEYS)
            == PutField(PutField(PutField(ModeEntry(cmd), "fan", cmd.fan), "heater", cmd.heater), "humidifier", cmd.humidifier)
  {
    assert ["fan"][..0] == [];
    assert Entries(cmd, ["fan"]) == PutField(ModeEntry(cmd), "fan", cmd.fan);
    assert ["fan", "heater"][..1] == ["fan"];
    assert ACTUATOR_KEYS[..2] == ["fan", "heater"];
  }

  /**
   * The payload holds `mode` exactly when the command does, and an actuator
   * key exactly when that field is present, encoded; it is rejected with
   * 400 exactly when the command has no field at all.
   */
  lemma ControlPayloadShape(cmd: ControlCommand)
    ensures ControlPayload(cmd).Failure? <==>
      cmd.mode.None? && cmd.fan.None? && cmd.heater.None? && cmd.humidifier.None?
    ensures ControlPayload(cmd).Failure? ==> ControlPayload(cmd).error.status == 400
    ensures ControlPayload(cmd).Success? ==>
      var out := ControlPayload(cmd).value;
      && out.Keys <= {"mode", "fan", "heater", "humidifier"}
      && ("mode" in out <==> cmd.mode.Some?)
      && (cmd.mode.Some? ==> out["mode"] == ModeName(cmd.mode.value))
      && (forall key :: key in ACTUATOR_KEYS ==>
            (key in out <==> ActuatorField(cmd, key).Some?)
            && (key in out ==> out[key] == Encode(ActuatorField(cmd, key).value)))
  {
    EntriesUnfold(cmd);
    var out := Entries(cmd, ACTUATOR_KEYS);
    if cmd.mode.Some? {
      assert "mode" in out;
    } else if cmd.fan.Some? {
      assert "fan" in out;
    } else if cmd.heater.Some? {
      assert "heater" in out;
    } else if cmd.humidifier.Some? {
      assert "humidifier" in out;
    } else {
      assert out.Keys == {};
    }
  }

  /** The newest reading, if any, as `get_multi(limit=1)` gives it. */
  function LatestReading(readings: seq<SensorOut>): (r: Option<SensorOut>)
    ensures r.None? <==> readings == []
    ensures r.Some? ==> r.value in readings && forall y :: y in readings ==> y.timestamp <= r.value.timestamp
  {
    CrudSensor.LatestIsNewest(readings);
    var latest := CrudSensor.GetMulti(readings, 0, 1, None, None);
    if latest == [] then None else Some(latest[0])
  }

  /** The audit row of one commanded actuator. */
  function ControlLogFields(actuator: string, action: string, latest: Option<SensorOut>): ActuatorLogFields {
    ActuatorLogFields(
      actuator, action, 0.0, "manual_api",
      if latest.Some? then Some(latest.value.data.temperature) else None,
      if latest.Some? then Some(latest.value.data.moisture) else None,
      if latest.Some? then latest.value.data.ph else None)
  }

  /** The audit row written for one actuator key: one if the payload holds it, else none. */
  function LogFor(out: Outgoing, latest: Option<SensorOut>, key: string): seq<ActuatorLogFields> {
    if key in out then [ControlLogFields(key, out[key], latest)] else []
  }

  /** The audit rows the logging loop has written after visiting `keys`. */
  function ControlLogs(out: Outgoing, latest: Option<SensorOut>, keys: seq<string>): seq<ActuatorLogFields> {
    if keys == [] then []
    else ControlLogs(out, latest, keys[..|keys| - 1]) + LogFor(out, latest, keys[|keys| - 1])
  }

  /** The stored log rows for a list of fields, with consecutive ids. */
  function LogRowsFrom(fields: seq<ActuatorLogFields>, firstId: nat, now: int): (r: seq<ActuatorLog>)
    ensures |r| == |fields|
  {
    seq(|fields|, k requires 0 <= k < |fields| => ActuatorLog(firstId + k, now, fields[k]))
  }

  lemma LogRowsAppend(fields: seq<ActuatorLogFields>, more: seq<ActuatorLogFields>, firstId: nat, now: int)
    ensures LogRowsFrom(fields + more, firstId, now)
            == LogRowsFrom(fields, firstId, now) + LogRowsFrom(more, firstId + |fields|, now)
  {
  }

  /** The rows the logging loop has written after visiting the first `i` keys. */
  function LoggedAfter(out: Outgoing, latest: Option<SensorOut>, i: nat, firstId: nat, now: int): seq<ActuatorLog>
    requires i <= |ACTUATOR_KEYS|
  {
    LogRowsFrom(ControlLogs(out, latest, ACTUATOR_KEYS[..i]), firstId, now)
  }

  /** One more key visited by the logging loop appends at most one row, with the next id. */
  lemma LogStep(out: Outgoing, latest: Option<SensorOut>, i: nat, firstId: nat, now: int)
    requires i < |ACTUATOR_KEYS|
    ensures var done := LoggedAfter(out, latest, i, firstId, now);
            var key := ACTUATOR_KEYS[i];
            LoggedAfter(out, latest, i + 1, firstId, now)
            == done + if key in out then [ActuatorLog(firstId + |done|, now, ControlLogFields(key, out[key], latest))] else []
  {
    var key := ACTUATOR_KEYS[i];
    assert ACTUATOR_KEYS[..i + 1][..i] == ACTUATOR_KEYS[..i];
    var done := ControlLogs(out, latest, ACTUATOR_KEYS[..i]);
    assert ControlLogs(out, latest, ACTUATOR_KEYS[..i + 1]) == done + LogFor(out, latest, key);
    LogRowsAppend(done, LogFor(out, latest, key), firstId, now);
  }

  /** Writes one audit row per actuator key of the forwarded payload. */
  method LogControlCommand(db: Database, out: Outgoing, latest: Option<SensorOut>, now: int)
    requires db.Valid()
    modifies db
    ensures db.Valid()
    ensures db.readings == old(db.readings) && db.alerts == old(db.alerts)
    ensures db.actuatorLogs == old(db.actuatorLogs)
      + LogRowsFrom(ControlLogs(out, latest, ACTUATOR_KEYS), |old(db.actuatorLogs)| + 1, now)
  {
    ghost var before := db.actuatorLogs;
    ghost var firstId := |before| + 1;
    ghost var rows: seq<ActuatorLog> := [];
    var i := 0;
    while i < |ACTUATOR_KEYS|
      invariant 0 <= i <= |ACTUATOR_KEYS|
      invariant db.Valid()
      invariant db.readings == old(db.readings) && db.alerts == old(db.alerts)
      invariant db.actuatorLogs == before + rows
      invariant rows == LoggedAfter(out, latest, i, firstId, now)
    {
      var actuator := ACTUATOR_KEYS[i];
      LogStep(out, latest, i, firstId, now);
      if actuator in out {
        var row := CrudActuator.Create(db, ControlLogFields(actuator, out[actuator], latest), now);
        rows := rows + [row];
      }
      i := i + 1;
    }
    assert ACTUATOR_KEYS[..i] == ACTUATOR_KEYS;
  }

  /**
   * POST /control. An empty command gets 400 before anything is sent; a
   * device failure gets 502 before anything is written; otherwise one audit
   * row per actuator key in the payload is appended. `sent` is the payload
   * handed to the device, if any.
   */
  method SendControlCommand(db: Database, cmd: ControlCommand, device: Outgoing -> Result<JsonObject, TransportError>,
                            now: int)
    returns (r: Result<ControlResponse, HttpError>, sent: Option<Outgoing>)
    requires db.Valid()
    modifies db
    ensures db.Valid()
    ensures db.readings == old(db.readings) && db.alerts == old(db.alerts)
    ensures ControlPayload(cmd).Failure? ==>
      r == Failure(ControlPayload(cmd).error) && sent.None? && db.actuatorLogs == old(db.actuatorLogs)
    ensures ControlPayload(cmd).Success? ==> sent == Some(ControlPayload(cmd).value)
    ensures sent.Some? && device(sent.value).Failure? ==>
      r.Failure? && r.error.status == 502 && db.actuatorLogs == old(db.actuatorLogs)
    ensures sent.Some? && device(sent.value).Success? ==>
      && r == Success(ControlResponse(true, "Command forwarded", device(sent.value).value))
      && db.actuatorLogs == old(db.actuatorLogs)
         + LogRowsFrom(ControlLogs(sent.value, LatestReading(old(db.readings)), ACTUATOR_KEYS),
                       |old(db.actuatorLogs)| + 1, now)
  {
    var payload := BuildControlPayload(cmd);
    if payload.Failure? {
      return Failure(payload.error), None;
    }
    var outgoing := payload.value;
    sent := Some(outgoing);
    var reply := device(outgoing);
    if reply.Failure? {
      return Failure(HttpError(502, "Failed to send command to ESP32: " + reply.error.reason)), sent;
    }
    LogControlCommand(db, outgoing, LatestReading(db.readings), now);
    r := Success(ControlResponse(true, "Command forwarded", reply.value));
  }

  /** The audit rows after the loop has visited all three keys. */
  lemma ControlLogsUnfold(out: Outgoing, latest: Option<SensorOut>)
    ensures ControlLogs(out, latest, ACTUATOR_KEYS)
            == LogFor(out, latest, "fan") + LogFor(out, latest, "heater") + LogFor(out, latest, "humidifier")
  {
    assert ControlLogs(out, latest, []) == [];
    assert ["fan"][..0] == [];
    assert ControlLogs(out, latest, ["fan"]) == LogFor(out, latest, "fan");
    assert ["fan", "heater"][..1] == ["fan"];
    assert ControlLogs(out, latest, ["fan", "heater"]) == LogFor(out, latest, "fan") + LogFor(out, latest, "heater");
    assert ACTUATOR_KEYS[..2] == ["fan", "heater"];
  }

  /** The actuator named by each audit row, in order. */
  function Actuators(logs: seq<ActuatorLogFields>): (r: seq<string>)
    ensures |r| == |logs|
  {
    seq(|logs|, i requires 0 <= i < |logs| => logs[i].actuatorType)
  }

  lemma ActuatorsAppend(a: seq<ActuatorLogFields>, b: seq<ActuatorLogFields>)
    ensures Actuators(a + b) == Actuators(a) + Actuators(b)
  {
  }

  /** `[key]` when the payload holds the key, else nothing. */
  function IfPresent(out: Outgoing, key: string): seq<string> {
    if key in out then [key] else []
  }

  /**
   * The audit rows name exactly the actuator keys the payload holds, in the
   * order fan, heater, humidifier; a mode-only command writes none.
   */
  lemma ControlLogsActuators(out: Outgoing, latest: Option<SensorOut>)
    ensures Actuators(ControlLogs(out, latest, ACTUATOR_KEYS))
            == IfPresent(out, "fan") + IfPresent(out, "heater") + IfPresent(out, "humidifier")
  {
    ControlLogsUnfold(out, latest);
    var f, h, u := LogFor(out, latest, "fan"), LogFor(out, latest, "heater"), LogFor(out, latest, "humidifier");
    ActuatorsAppend(f + h, u);
    ActuatorsAppend(f, h);
  }

  /**
   * Each audit row records the outgoing string of its actuator, a zero
   * duration, "manual_api", and the newest reading's values (all null when
   * there is no reading).
   */
  lemma ControlLogsRows(out: Outgoing, latest: Option<SensorOut>)
    ensures forall l :: l in ControlLogs(out, latest, ACTUATOR_KEYS) ==>
      && l.actuatorType in out
      && l.action == out[l.actuatorType]
      && l.durationSeconds == 0.0 && l.triggeredBy == "manual_api"
      && (latest.None? ==> l.sensorTemperature.None? && l.sensorMoisture.None? && l.sensorPh.None?)
      && (latest.Some? ==> l.sensorTemperature == Some(latest.value.data.temperature)
                           && l.sensorMoisture == Some(latest.value.data.moisture)
                           && l.sensorPh == latest.value.data.ph)
  {
    ControlLogsUnfold(out, latest);
  }

  /** A command with a mode and no actuator field writes no audit row. */
  lemma ModeOnlyCommandLogsNothing(cmd: ControlCommand, latest: Option<SensorOut>)
    requires cmd.mode.Some? && cmd.fan.None? && cmd.heater.None? && cmd.humidifier.None?
    ensures ControlPayload(cmd).Success?
    ensures ControlLogs(ControlPayload(cmd).value, latest, ACTUATOR_KEYS) == []
  {
    ControlPayloadShape(cmd);
    ControlLogsUnfold(ControlPayload(cmd).value, latest);
  }
}
