/**
 * The device's JSON endpoints: the status part of `/api/data`, the control
 * endpoint that applies a command to the actuator state, and the settings
 * endpoint that accepts a body and changes nothing. A request arrives as
 * its method and the outcome of parsing its body.
 */
module ApiServer {
  import opened Json
  import opened FirmwareConfig
  import opened ControlLogic
  import Sensors

  datatype HttpMethod = Get | Post | OtherMethod

  /** The body after `deserializeJson`: a failure (bad syntax or over capacity), an object, or another JSON value. */
  datatype ParsedBody = Invalid | Object(doc: JsonObject) | NotObject

  datatype Request = Request(verb: HttpMethod, body: ParsedBody)

  datatype Response = Response(status: int, body: JsonObject)

  /** `doc.containsKey(key)`: only an object has keys, and a key holding null is still present. */
  function HasKey(body: ParsedBody, key: string): bool {
    body.Object? && key in body.doc
  }

  /** `doc[key] == text`: true only for a string value equal to `text`. */
  function ValueIs(body: ParsedBody, key: string, text: string): bool {
    HasKey(body, key) && body.doc[key] == JStr(text)
  }

  /**
   * The effect of a control body: mode first (auto iff the value is "AUTO"),
   * then fan, heater, humidifier (on iff the value is "ON"), each only when
   * its key is present.
   */
  function ApplyControl(r: Relays, body: ParsedBody): Relays {
    var withMode := if HasKey(body, "mode") then r.(state := r.state.(autoMode := ValueIs(body, "mode", "AUTO"))) else r;
    var withFan := if HasKey(body, "fan") then Set(withMode, Fan, ValueIs(body, "fan", "ON")) else withMode;
    var withHeater := if HasKey(body, "heater") then Set(withFan, Heater, ValueIs(body, "heater", "ON")) else withFan;
    if HasKey(body, "humidifier") then Set(withHeater, Humidifier, ValueIs(body, "humidifier", "ON")) else withHeater
  }

  function KeyOf(a: Actuator): string {
    match a
    case Fan => "fan"
    case Heater => "heater"
    case Humidifier => "humidifier"
  }

  /**
   * A present actuator key leaves that actuator on iff its value is the
   * string "ON"; an absent key leaves it as it was; the mode is auto iff
   * "mode" holds "AUTO", and unchanged when absent; relay writes are only
   * appended.
   */
  lemma ApplyControlOutcome(r: Relays, body: ParsedBody)
    ensures forall a :: IsOn(ApplyControl(r, body).state, a)
                        == if HasKey(body, KeyOf(a)) then ValueIs(body, KeyOf(a), "ON") else IsOn(r.state, a)
    ensures ApplyControl(r, body).state.autoMode
            == if HasKey(body, "mode") then ValueIs(body, "mode", "AUTO") else r.state.autoMode
    ensures r.writes <= ApplyControl(r, body).writes
  {
  }

  /** Any value other than the exact string "ON", lowercase "on" included, switches the actuator off. */
  lemma LowercaseOnSwitchesOff(r: Relays)
    ensures !ApplyControl(r, Object(map["fan" := JStr("on")])).state.fan
    ensures !ApplyControl(r, Object(map["heater" := JBool(true)])).state.heater
  {
    ApplyControlOutcome(r, Object(map["fan" := JStr("on")]));
    ApplyControlOutcome(r, Object(map["heater" := JBool(true)]));
  }

  const METHOD_NOT_ALLOWED := Response(405, map["error" := JStr("Method not allowed")])
  const INVALID_JSON := Response(400, map["error" := JStr("Invalid JSON")])

  /** POST /api/control: 405 for another method and 400 for a bad body, both changing nothing. */
  method HandleApiControl(ctl: Controller, req: Request) returns (resp: Response)
    requires ctl.Valid()
    modifies ctl
    ensures ctl.Valid()
    ensures req.verb != Post ==> resp == METHOD_NOT_ALLOWED && ctl.Snapshot() == old(ctl.Snapshot())
    ensures req.verb == Post && req.body.Invalid? ==>
      resp == INVALID_JSON && ctl.Snapshot() == old(ctl.Snapshot())
    ensures req.verb == Post && !req.body.Invalid? ==>
      && resp == Response(200, map["success" := JBool(true), "message" := JStr("Control updated")])
      && ctl.Snapshot() == ApplyControl(old(ctl.Snapshot()), req.body)
  {
    if req.verb != Post {
      return METHOD_NOT_ALLOWED;
    }
    var body := req.body;
    if body.Invalid? {
      return INVALID_JSON;
    }
    if HasKey(body, "mode") {
      ctl.SetSystemMode(ValueIs(body, "mode", "AUTO"));
    }
    if HasKey(body, "fan") {
      ctl.SetFan(ValueIs(body, "fan", "ON"));
    }
    if HasKey(body, "heater") {
      ctl.SetHeater(ValueIs(body, "heater", "ON"));
    }
    if HasKey(body, "humidifier") {
      ctl.SetHumidifier(ValueIs(body, "humidifier", "ON"));
    }
    resp := Response(200, map["success" := JBool(true), "message" := JStr("Control updated")]);
  }

  function OnOff(on: bool): (s: string)
    ensures s == "ON" <==> on
  {
    if on then "ON" else "OFF"
  }

  /** The `status` object of `/api/data`. */
  function StatusOf(s: ActuatorState): (doc: JsonObject)
    ensures doc.Keys == {"fan", "heater", "humidifier", "mode"}
  {
    map["fan" := JStr(OnOff(s.fan)), "heater" := JStr(OnOff(s.heater)),
        "humidifier" := JStr(OnOff(s.humidifier)), "mode" := JStr(if s.autoMode then "AUTO" else "MANUAL")]
  }

  /** Posting the reported status back to the control endpoint changes nothing, not even a relay. */
  lemma StatusRoundTrip(r: Relays)
    ensures ApplyControl(r, Object(StatusOf(r.state))) == r
  {
  }

  /** The `thresholds` object of `/api/data`: the compiled-in limits. */
  datatype ReportedThresholds = ReportedThresholds(
    tempMin: real, tempMax: real, moistureMin: int, moistureMax: int, phMin: real, phMax: real)

  datatype ApiData = ApiData(
    timestamp: nat, temperature: real, moisture: int, ph: real,
    thresholds: ReportedThresholds, status: JsonObject)

  /** GET /api/data: the current readings, the configured thresholds and the actuator status. */
  function HandleApiData(sensors: Sensors.SensorState, ctl: Controller, millis: nat): (d: ApiData)
    reads sensors, ctl
    ensures d.thresholds == ReportedThresholds(22.0, 26.0, 60, 70, 6.5, 7.0)
    ensures d.temperature == sensors.currentTemperature && d.moisture == sensors.currentMoisture
            && d.ph == sensors.currentPH && d.timestamp == millis
    ensures d.status.Keys == {"fan", "heater", "humidifier", "mode"}
    ensures forall a :: KeyOf(a) in d.status && d.status[KeyOf(a)] == JStr(if IsOn(ctl.State(), a) then "ON" else "OFF")
    ensures d.status["mode"] == JStr(if ctl.IsAutoMode() then "AUTO" else "MANUAL")
  {
    ApiData(millis, sensors.GetTemperature(), sensors.GetMoisture(), sensors.GetPH(),
            ReportedThresholds(TEMP_MIN, TEMP_MAX, MOISTURE_MIN, MOISTURE_MAX, PH_MIN, PH_MAX),
            StatusOf(ctl.State()))
  }

  /** POST /api/settings: 405 or 400 as for control, otherwise a simulated success; no threshold changes. */
  function HandleApiSettings(req: Request): (resp: Response)
    ensures resp.status == 405 <==> req.verb != Post
    ensures resp.status == 400 <==> req.verb == Post && req.body.Invalid?
    ensures resp.status == 200 <==> req.verb == Post && !req.body.Invalid?
  {
    if req.verb != Post then METHOD_NOT_ALLOWED
    else if req.body.Invalid? then INVALID_JSON
    else Response(200, map["success" := JBool(true), "message" := JStr("Settings updated (simulated)")])
  }
}
