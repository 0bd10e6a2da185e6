/**
 * The threshold alert rule: one reading yields zero to three critical
 * alerts, checked in the fixed order temperature, moisture, ph.
 */
module AlertEngine {
  import opened Wrappers
  import opened SensorSchema

  datatype Parameter = Temperature | Moisture | Ph

  /** Position of a parameter in the fixed evaluation order. */
  function Rank(p: Parameter): nat {
    match p
    case Temperature => 0
    case Moisture => 1
    case Ph => 2
  }

  datatype Direction = Below | Above

  /**
   * The alert text "<parameter> below threshold (<value> < <min>)" or its
   * "above threshold (<value> > <max>)" form, kept as its parts.
   */
  datatype AlertMessage = AlertMessage(parameter: Parameter, direction: Direction, value: real, bound: real)

  /** The fields of one alert to be stored. */
  datatype AlertDraft = AlertDraft(
    severity: string,
    parameter: Parameter,
    message: AlertMessage,
    thresholdValue: real,
    currentValue: real,
    resolved: bool)

  /** One row of `checks`: a parameter, its value and its range. */
  datatype Check = Check(parameter: Parameter, value: real, min: real, max: real)

  predicate InRange(c: Check) {
    c.min <= c.value <= c.max
  }

  /** The message for an out-of-range value and the threshold it crossed. */
  function ThresholdMessage(parameter: Parameter, value: real, min: real, max: real): (r: (AlertMessage, real))
    ensures r.0.parameter == parameter && r.0.value == value && r.0.bound == r.1
    ensures value < min ==> r.0.direction == Below && r.1 == min
    ensures min <= value ==> r.0.direction == Above && r.1 == max
  {
    if value < min then (AlertMessage(parameter, Below, value, min), min)
    else (AlertMessage(parameter, Above, value, max), max)
  }

  /** The defaults the alert rule applies to a missing threshold key. */
  function DefaultRange(param: Parameter): (real, real) {
    match param
    case Temperature => (22.0, 26.0)
    case Moisture => (60.0, 70.0)
    case Ph => (6.5, 7.0)
  }

  const DEFAULT_PH: real := 7.0

  /** The check for one parameter, with missing values and thresholds defaulted. */
  function CheckFor(p: RawPayload, param: Parameter): (c: Check)
    ensures c.parameter == param
    ensures param == Temperature ==> c.value == p.temperature
    ensures param == Moisture ==> c.value == p.moisture as real
    ensures param == Ph ==> c.value == p.ph.GetOr(DEFAULT_PH)
    ensures p.thresholds.None? ==> (c.min, c.max) == DefaultRange(param)
  {
    var t := p.thresholds.GetOr(ThresholdsIn(None, None, None, None, None, None));
    match param
    case Temperature =>
      Check(Temperature, p.temperature, t.tempMin.GetOr(22.0), t.tempMax.GetOr(26.0))
    case Moisture =>
      Check(Moisture, p.moisture as real, t.moistureMin.GetOr(60) as real, t.moistureMax.GetOr(70) as real)
    case Ph =>
      Check(Ph, p.ph.GetOr(DEFAULT_PH), t.phMin.GetOr(6.5), t.phMax.GetOr(7.0))
  }

  /** The `checks` list, in its fixed order. */
  function Checks(p: RawPayload): seq<Check> {
    [CheckFor(p, Temperature), CheckFor(p, Moisture), CheckFor(p, Ph)]
  }

  /** The alert one failed check produces. */
  function DraftFor(c: Check): AlertDraft {
    var (message, threshold) := ThresholdMessage(c.parameter, c.value, c.min, c.max);
    AlertDraft("critical", c.parameter, message, threshold, c.value, false)
  }

  /** The alerts of one check: none when in range, else exactly one. */
  function AlertsOf(c: Check): seq<AlertDraft> {
    if InRange(c) then [] else [DraftFor(c)]
  }

  /** The alerts a run over `checks` has appended, check by check. */
  function CheckAlerts(checks: seq<Check>): seq<AlertDraft> {
    if checks == [] then []
    else CheckAlerts(checks[..|checks| - 1]) + AlertsOf(checks[|checks| - 1])
  }

  /** The alerts `build_threshold_alerts` returns for a payload. */
  function ThresholdAlerts(p: RawPayload): seq<AlertDraft> {
    CheckAlerts(Checks(p))
  }

  method BuildThresholdAlerts(p: RawPayload) returns (alerts: seq<AlertDraft>)
    ensures alerts == ThresholdAlerts(p)
  {
    var checks := Checks(p);
    alerts := [];
    var i := 0;
    while i < |checks|
      invariant 0 <= i <= |checks|
      invariant alerts == CheckAlerts(checks[..i])
    {
      var c := checks[i];
      if !(c.min <= c.value <= c.max) {
        var (message, threshold) := ThresholdMessage(c.parameter, c.value, c.min, c.max);
        alerts := alerts + [AlertDraft("critical", c.parameter, message, threshold, c.value, false)];
      }
      assert checks[..i + 1][..i] == checks[..i];
      i := i + 1;
    }
    assert checks[..i] == checks;
  }

  /** The result is the three per-parameter alert lists, in order. */
  lemma {:induction false} ThresholdAlertsUnfold(p: RawPayload)
    ensures ThresholdAlerts(p) ==
      AlertsOf(CheckFor(p, Temperature)) + AlertsOf(CheckFor(p, Moisture)) + AlertsOf(CheckFor(p, Ph))
  {
    var cs := Checks(p);
    assert cs[..2] == [cs[0], cs[1]];
    assert cs[..2][..1] == [cs[0]];
    assert [cs[0]][..0] == [];
    calc {
      CheckAlerts(cs);
      CheckAlerts(cs[..2]) + AlertsOf(cs[2]);
      CheckAlerts(cs[..2][..1]) + AlertsOf(cs[1]) + AlertsOf(cs[2]);
      CheckAlerts([cs[0]][..0]) + AlertsOf(cs[0]) + AlertsOf(cs[1]) + AlertsOf(cs[2]);
    }
  }

  /** No alert at all exactly when every parameter lies within its range. */
  lemma NoAlertsIffAllInRange(p: RawPayload)
    ensures ThresholdAlerts(p) == [] <==> forall param :: InRange(CheckFor(p, param))
  {
    ThresholdAlertsUnfold(p);
    if ThresholdAlerts(p) == [] {
      forall param ensures InRange(CheckFor(p, param)) {
        match param
        case Temperature =>
        case Moisture =>
        case Ph =>
      }
    }
  }

  /** At most one alert per parameter, in the order temperature, moisture, ph. */
  lemma AlertsInParameterOrder(p: RawPayload)
    ensures |ThresholdAlerts(p)| <= 3
    ensures forall i, j :: 0 <= i < j < |ThresholdAlerts(p)| ==>
      Rank(ThresholdAlerts(p)[i].parameter) < Rank(ThresholdAlerts(p)[j].parameter)
  {
    ThresholdAlertsUnfold(p);
  }

  /** A parameter has an alert exactly when its value is outside its range. */
  lemma AlertIffOutOfRange(p: RawPayload, param: Parameter)
    ensures (exists i :: 0 <= i < |ThresholdAlerts(p)| && ThresholdAlerts(p)[i].parameter == param)
      <==> !InRange(CheckFor(p, param))
  {
    ThresholdAlertsUnfold(p);
    var a, b, c := AlertsOf(CheckFor(p, Temperature)), AlertsOf(CheckFor(p, Moisture)), AlertsOf(CheckFor(p, Ph));
    var r := ThresholdAlerts(p);
    if !InRange(CheckFor(p, param)) {
      match param
      case Temperature => assert r[0].parameter == param;
      case Moisture => assert r[|a|].parameter == param;
      case Ph => assert r[|a| + |b|].parameter == param;
    }
  }

  /**
   * Every alert is critical and unresolved and carries the checked value;
   * below the minimum it is a "below" alert on the minimum, otherwise an
   * "above" alert on the maximum.
   */
  lemma AlertContents(p: RawPayload)
    ensures forall i :: 0 <= i < |ThresholdAlerts(p)| ==>
      var a := ThresholdAlerts(p)[i];
      var c := CheckFor(p, a.parameter);
      && a.severity == "critical" && !a.resolved
      && a.currentValue == c.value && a.message.value == c.value
      && a.message.bound == a.thresholdValue
      && (c.value < c.min ==> a.message.direction == Below && a.thresholdValue == c.min)
      && (c.min <= c.value ==> a.message.direction == Above && a.thresholdValue == c.max)
  {
    ThresholdAlertsUnfold(p);
  }

  /** With min > max no value is in range, so that parameter always alerts. */
  lemma InvertedRangeAlwaysAlerts(p: RawPayload, param: Parameter)
    requires CheckFor(p, param).min > CheckFor(p, param).max
    ensures exists i :: 0 <= i < |ThresholdAlerts(p)| && ThresholdAlerts(p)[i].parameter == param
  {
    AlertIffOutOfRange(p, param);
  }
}
