/**
 * Agreements between the backend and the firmware: the default thresholds
 * are the same numbers on both sides, a reading synced from the device is
 * stored and evaluated against those defaults, and a command the backend
 * forwards has on the device the effect its fields ask for.
 */
module CrossLayer {
  import opened Wrappers
  import opened Json
  import opened SensorSchema
  import opened ControlSchema
  import opened AlertEngine
  import FirmwareConfig
  import Routes
  import ControlLogic
  import ApiServer

  /**
   * The schema defaults, the alert rule's defaults and the firmware's
   * compiled-in limits are the same six numbers.
   */
  lemma DefaultsAgree()
    ensures DEFAULT_THRESHOLDS == Thresholds(
      FirmwareConfig.TEMP_MIN, FirmwareConfig.TEMP_MAX,
      FirmwareConfig.MOISTURE_MIN, FirmwareConfig.MOISTURE_MAX,
      FirmwareConfig.PH_MIN, FirmwareConfig.PH_MAX)
    ensures forall param :: DefaultRange(param) == Routes.StoredRange(DEFAULT_THRESHOLDS, param)
  {
    forall param ensures DefaultRange(param) == Routes.StoredRange(DEFAULT_THRESHOLDS, param) {
      match param
      case Temperature =>
      case Moisture =>
      case Ph =>
    }
  }

  /** The payload the backend receives from `/api/data`: no device id, location or null field. */
  function DeviceReading(d: ApiServer.ApiData): RawPayload {
    var t := d.thresholds;
    RawPayload(
      d.temperature, d.moisture, Some(d.ph),
      Some(ThresholdsIn(Some(t.tempMin), Some(t.tempMax), Some(t.moistureMin), Some(t.moistureMax),
                        Some(t.phMin), Some(t.phMax))),
      None, None, Some(d.timestamp))
  }

  /**
   * A synced reading is stored with the default thresholds and raises the
   * same alerts as the same reading sent without thresholds.
   */
  lemma SyncedReadingUsesDefaults(d: ApiServer.ApiData)
    requires d.thresholds == ApiServer.ReportedThresholds(22.0, 26.0, 60, 70, 6.5, 7.0)
    ensures Routes.NormalizeSensorPayload(DeviceReading(d)).thresholds == DEFAULT_THRESHOLDS
    ensures ThresholdAlerts(DeviceReading(d)) == ThresholdAlerts(DeviceReading(d).(thresholds := None))
  {
    var p := DeviceReading(d);
    forall param ensures CheckFor(p, param) == CheckFor(p.(thresholds := None), param) {
      match param
      case Temperature =>
      case Moisture =>
      case Ph =>
    }
    assert Checks(p) == Checks(p.(thresholds := None));
  }

  /** The outgoing payload as the JSON object the device parses. */
  function ToJson(out: Routes.Outgoing): JsonObject {
    map key | key in out :: JStr(out[key])
  }

  function FieldOf(cmd: ControlCommand, a: ControlLogic.Actuator): Option<ActuatorValue> {
    Routes.ActuatorField(cmd, ApiServer.KeyOf(a))
  }

  /** What a command field asks of the device: a bool directly, a string when it upper-cases to "ON". */
  function Intended(v: ActuatorValue): bool {
    match v
    case Switch(on) => on
    case Text(s) => Routes.Upper(s) == "ON"
  }

  /**
   * When the device parses the forwarded body, the command leaves each
   * commanded actuator as its field asks (a bool `b` gives exactly `b`),
   * every other actuator unchanged, and the mode auto iff the command asked
   * for AUTO. A body the device cannot parse (a text value too long for its
   * 256-byte document) is answered 400 and changes nothing; that case is
   * `HandleApiControl`'s.
   */
  lemma CommandReachesDevice(cmd: ControlCommand, r: ControlLogic.Relays)
    requires Routes.ControlPayload(cmd).Success?
    ensures var after := ApiServer.ApplyControl(r, ApiServer.Object(ToJson(Routes.ControlPayload(cmd).value))).state;
      && (forall a :: ControlLogic.IsOn(after, a)
                      == if FieldOf(cmd, a).Some? then Intended(FieldOf(cmd, a).value) else ControlLogic.IsOn(r.state, a))
      && after.autoMode == if cmd.mode.Some? then cmd.mode.value == Auto else r.state.autoMode
  {
    var out := Routes.ControlPayload(cmd).value;
    var body := ApiServer.Object(ToJson(out));
    Routes.ControlPayloadShape(cmd);
    ApiServer.ApplyControlOutcome(r, body);
    forall a ensures ControlLogic.IsOn(ApiServer.ApplyControl(r, body).state, a)
                     == if FieldOf(cmd, a).Some? then Intended(FieldOf(cmd, a).value) else ControlLogic.IsOn(r.state, a)
    {
      var key := ApiServer.KeyOf(a);
      assert key in Routes.ACTUATOR_KEYS;
      if FieldOf(cmd, a).Some? {
        match FieldOf(cmd, a).value
        case Switch(on) =>
        case Text(s) =>
      }
    }
    if cmd.mode.Some? {
      assert ModeName(cmd.mode.value) == "AUTO" <==> cmd.mode.value == Auto;
    }
  }

  /** A backend `fan = b` command with a bool leaves the device fan equal to `b`. */
  lemma BoolCommandSetsFan(cmd: ControlCommand, r: ControlLogic.Relays, b: bool)
    requires cmd.fan == Some(Switch(b))
    ensures Routes.ControlPayload(cmd).Success?
    ensures ApiServer.ApplyControl(r, ApiServer.Object(ToJson(Routes.ControlPayload(cmd).value))).state.fan == b
  {
    Routes.ControlPayloadShape(cmd);
    CommandReachesDevice(cmd, r);
    assert FieldOf(cmd, ControlLogic.Fan) == Some(Switch(b));
  }
}
