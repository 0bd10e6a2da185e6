/** Request and response shapes of the control endpoint. */
module ControlSchema {
  import opened Wrappers
  import opened Json

  /** The only two mode literals the schema admits. */
  datatype Mode = Auto | Manual

  /** The literal a mode is sent as; the two modes are sent as different literals. */
  function ModeName(m: Mode): (r: string)
    ensures r == "AUTO" || r == "MANUAL"
    ensures (r == "AUTO") == (m == Auto)
  {
    match m
    case Auto => "AUTO"
    case Manual => "MANUAL"
  }

  /** An actuator field holds either a bool or a string. */
  datatype ActuatorValue = Switch(on: bool) | Text(s: string)

  /**
   * A validated `ControlCommand`. fan, heater and humidifier are the only
   * actuators that can be commanded; every field defaults to absent.
   */
  datatype ControlCommand = ControlCommand(
    mode: Option<Mode>,
    fan: Option<ActuatorValue>,
    heater: Option<ActuatorValue>,
    humidifier: Option<ActuatorValue>)

  /** The response of a successful control call. */
  datatype ControlResponse = ControlResponse(success: bool, message: string, payload: JsonObject)

  datatype ControlError = BadMode | BadActuator(name: string)

  /** A missing key and an explicit null both leave the field at its default. */
  predicate Unset(body: JsonObject, key: string) {
    key !in body || body[key] == JNull
  }

  function ParseMode(body: JsonObject): (r: Result<Option<Mode>, ControlError>)
    ensures r == Success(None) <==> Unset(body, "mode")
    ensures r == Success(Some(Auto)) <==> "mode" in body && body["mode"] == JStr("AUTO")
    ensures r == Success(Some(Manual)) <==> "mode" in body && body["mode"] == JStr("MANUAL")
  {
    if Unset(body, "mode") then Success(None)
    else if body["mode"] == JStr("AUTO") then Success(Some(Auto))
    else if body["mode"] == JStr("MANUAL") then Success(Some(Manual))
    else Failure(BadMode)
  }

  /**
   * A `bool | str | None` field: a JSON bool or string is taken as is; a
   * number is accepted only as 0 or 1, read as false or true.
   */
  function ParseActuator(body: JsonObject, key: string): (r: Result<Option<ActuatorValue>, ControlError>)
    ensures r == Success(None) <==> Unset(body, key)
    ensures forall b :: r == Success(Some(Switch(b))) <==>
      key in body && (body[key] == JBool(b) || body[key] == JNum(if b then 1.0 else 0.0))
    ensures forall s :: r == Success(Some(Text(s))) <==> key in body && body[key] == JStr(s)
  {
    if Unset(body, key) then Success(None)
    else
      match body[key]
      case JBool(b) => Success(Some(Switch(b)))
      case JStr(s) => Success(Some(Text(s)))
      case JNum(n) =>
        if n == 0.0 || n == 1.0 then Success(Some(Switch(n == 1.0))) else Failure(BadActuator(key))
      // Not reached: a null value is `Unset` and handled above.
      case JNull => Failure(BadActuator(key))
  }

  /** Validation of a control body; keys other than the four fields are ignored. */
  function ValidateControlCommand(body: JsonObject): (r: Result<ControlCommand, ControlError>)
    ensures r.Success? <==>
      && ParseMode(body).Success?
      && ParseActuator(body, "fan").Success?
      && ParseActuator(body, "heater").Success?
      && ParseActuator(body, "humidifier").Success?
    ensures r.Success? ==>
      && r.value.mode == ParseMode(body).value
      && r.value.fan == ParseActuator(body, "fan").value
      && r.value.heater == ParseActuator(body, "heater").value
      && r.value.humidifier == ParseActuator(body, "humidifier").value
  {
    match (ParseMode(body), ParseActuator(body, "fan"), ParseActuator(body, "heater"), ParseActuator(body, "humidifier"))
    case (Success(m), Success(f), Success(h), Success(u)) => Success(ControlCommand(m, f, h, u))
    case (Failure(e), _, _, _) => Failure(e)
    case (_, Failure(e), _, _) => Failure(e)
    case (_, _, Failure(e), _) => Failure(e)
    case (_, _, _, Failure(e)) => Failure(e)
  }

  /** An empty body validates: rejecting an empty command is left to the route. */
  lemma EmptyBodyValidates()
    ensures ValidateControlCommand(map[]) == Success(ControlCommand(None, None, None, None))
  {
  }

  /** A body naming only some other actuator also validates, as an empty command. */
  lemma UnknownActuatorIgnored(body: JsonObject)
    requires body.Keys == {"ph_actuator"}
    ensures ValidateControlCommand(body) == Success(ControlCommand(None, None, None, None))
  {
    assert Unset(body, "mode") && Unset(body, "fan") && Unset(body, "heater") && Unset(body, "humidifier");
  }
}
