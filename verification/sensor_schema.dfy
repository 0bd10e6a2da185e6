/**
 * Request and response shapes of the sensor endpoints: the field types,
 * bounds and defaults of `Thresholds`, `SensorIn` and `SensorOut`.
 */
module SensorSchema {
  import opened Wrappers

  /** A complete set of target ranges. Nothing relates a min to its max. */
  datatype Thresholds = Thresholds(
    tempMin: real, tempMax: real,
    moistureMin: int, moistureMax: int,
    phMin: real, phMax: real)

  /** The per-field defaults of the `Thresholds` schema. */
  const DEFAULT_THRESHOLDS := Thresholds(22.0, 26.0, 60, 70, 6.5, 7.0)

  /** A thresholds object as sent by a client or the device: any key may be missing. */
  datatype ThresholdsIn = ThresholdsIn(
    tempMin: Option<real>, tempMax: Option<real>,
    moistureMin: Option<int>, moistureMax: Option<int>,
    phMin: Option<real>, phMax: Option<real>)

  /** Validating a thresholds object: every missing key takes its own default. */
  function FillThresholds(t: ThresholdsIn): (r: Thresholds)
    ensures t.tempMin.Some? ==> r.tempMin == t.tempMin.value
    ensures t.tempMin.None? ==> r.tempMin == DEFAULT_THRESHOLDS.tempMin
    ensures t.tempMax.Some? ==> r.tempMax == t.tempMax.value
    ensures t.tempMax.None? ==> r.tempMax == DEFAULT_THRESHOLDS.tempMax
    ensures t.moistureMin.Some? ==> r.moistureMin == t.moistureMin.value
    ensures t.moistureMin.None? ==> r.moistureMin == DEFAULT_THRESHOLDS.moistureMin
    ensures t.moistureMax.Some? ==> r.moistureMax == t.moistureMax.value
    ensures t.moistureMax.None? ==> r.moistureMax == DEFAULT_THRESHOLDS.moistureMax
    ensures t.phMin.Some? ==> r.phMin == t.phMin.value
    ensures t.phMin.None? ==> r.phMin == DEFAULT_THRESHOLDS.phMin
    ensures t.phMax.Some? ==> r.phMax == t.phMax.value
    ensures t.phMax.None? ==> r.phMax == DEFAULT_THRESHOLDS.phMax
  {
    Thresholds(
      t.tempMin.GetOr(22.0), t.tempMax.GetOr(26.0),
      t.moistureMin.GetOr(60), t.moistureMax.GetOr(70),
      t.phMin.GetOr(6.5), t.phMax.GetOr(7.0))
  }

  /** Every key given, as `model_dump` writes a validated thresholds object back out. */
  function DumpThresholds(t: Thresholds): ThresholdsIn {
    ThresholdsIn(Some(t.tempMin), Some(t.tempMax), Some(t.moistureMin), Some(t.moistureMax),
                 Some(t.phMin), Some(t.phMax))
  }

  /** A JSON field as it arrives: missing, an explicit null, or a value. */
  datatype Field<+T> = Missing | Null | Given(value: T)

  /** The body of a sensor ingest request before validation. */
  datatype SensorRequest = SensorRequest(
    temperature: Field<real>,
    moisture: Field<int>,
    ph: Field<real>,
    timestamp: Field<int>,
    thresholds: Field<ThresholdsIn>,
    deviceId: Field<string>,
    location: Field<string>)

  /** A validated `SensorIn`; `None` is a field holding null. */
  datatype SensorIn = SensorIn(
    temperature: real,
    moisture: int,
    ph: Option<real>,
    timestamp: Option<int>,
    thresholds: Option<Thresholds>,
    deviceId: Option<string>,
    location: Option<string>)

  datatype ValidationError = MissingField(name: string) | OutOfRange(name: string)

  /** A nullable field with a null default. */
  function Nullable<T>(f: Field<T>): Option<T> {
    if f.Given? then Some(f.value) else None
  }

  /**
   * Validation of a `SensorIn` body. temperature is required with no bound;
   * moisture is a required integer in [0, 100]; ph defaults to 7.0, may be
   * null, and otherwise lies in [0.0, 14.0]; the other fields default to null.
   */
  function ValidateSensorIn(req: SensorRequest): (r: Result<SensorIn, ValidationError>)
    ensures r.Success? <==>
      && req.temperature.Given?
      && req.moisture.Given? && 0 <= req.moisture.value <= 100
      && (req.ph.Given? ==> 0.0 <= req.ph.value <= 14.0)
    ensures r.Success? ==>
      && r.value.temperature == req.temperature.value
      && r.value.moisture == req.moisture.value
      && r.value.ph == (match req.ph
                        case Missing => Some(7.0)
                        case Null => None
                        case Given(v) => Some(v))
      && r.value.thresholds == (if req.thresholds.Given? then Some(FillThresholds(req.thresholds.value)) else None)
      && r.value.deviceId == Nullable(req.deviceId)
      && r.value.location == Nullable(req.location)
  {
    if !req.temperature.Given? then Failure(MissingField("temperature"))
    else if !req.moisture.Given? then Failure(MissingField("moisture"))
    else if !(0 <= req.moisture.value <= 100) then Failure(OutOfRange("moisture"))
    else if req.ph.Given? && !(0.0 <= req.ph.value <= 14.0) then Failure(OutOfRange("ph"))
    else
      var ph := match req.ph
                case Missing => Some(7.0)
                case Null => None
                case Given(v) => Some(v);
      var thresholds := if req.thresholds.Given? then Some(FillThresholds(req.thresholds.value)) else None;
      Success(SensorIn(req.temperature.value, req.moisture.value, ph, Nullable(req.timestamp),
                       thresholds, Nullable(req.deviceId), Nullable(req.location)))
  }

  /** What a stored reading holds besides its id and timestamp; thresholds are a snapshot. */
  datatype SensorFields = SensorFields(
    temperature: real,
    moisture: int,
    ph: Option<real>,
    thresholds: Thresholds,
    deviceId: Option<string>,
    location: Option<string>)

  /**
   * A stored reading (the `sensor_data` row) and the `SensorOut` response
   * built from it: id, timestamp and all six thresholds are always present,
   * while ph, device_id and location are nullable.
   */
  datatype SensorOut = SensorOut(id: nat, timestamp: int, data: SensorFields)

  /**
   * A reading as the plain dictionary that normalisation and the alert rule
   * read: an absent `Option` is a key that is not there.
   */
  datatype RawPayload = RawPayload(
    temperature: real,
    moisture: int,
    ph: Option<real>,
    thresholds: Option<ThresholdsIn>,
    deviceId: Option<string>,
    location: Option<string>,
    timestamp: Option<int>)

  /**
   * `model_dump(exclude_none=True)` of a validated request: null fields
   * disappear, and thresholds, when given, are written out with all six keys.
   */
  function ModelDump(s: SensorIn): RawPayload {
    RawPayload(s.temperature, s.moisture, s.ph,
               if s.thresholds.Some? then Some(DumpThresholds(s.thresholds.value)) else None,
               s.deviceId, s.location, s.timestamp)
  }

  /**
   * Each key is filled on its own: two bodies that agree on a key (the same
   * value, or both leaving it out) store the same value for it, whatever
   * the other keys hold. Against the empty object, whose keys all take
   * their defaults, an override of any keys keeps the default of every key
   * it leaves out.
   */
  lemma PartialOverrideKeepsDefaults(t: ThresholdsIn, u: ThresholdsIn)
    ensures var a, b := FillThresholds(t), FillThresholds(u);
      && (t.tempMin == u.tempMin ==> a.tempMin == b.tempMin)
      && (t.tempMax == u.tempMax ==> a.tempMax == b.tempMax)
      && (t.moistureMin == u.moistureMin ==> a.moistureMin == b.moistureMin)
      && (t.moistureMax == u.moistureMax ==> a.moistureMax == b.moistureMax)
      && (t.phMin == u.phMin ==> a.phMin == b.phMin)
      && (t.phMax == u.phMax ==> a.phMax == b.phMax)
    ensures u == ThresholdsIn(None, None, None, None, None, None) ==> FillThresholds(u) == DEFAULT_THRESHOLDS
  {
  }

  /** No ordering is imposed between a min and its max: an inverted range validates. */
  lemma InvertedRangeValidates(req: SensorRequest)
    requires req.temperature.Given? && req.moisture.Given? && req.moisture.value == 50
    requires req.ph.Missing?
    requires req.thresholds == Given(ThresholdsIn(Some(30.0), Some(20.0), None, None, None, None))
    ensures ValidateSensorIn(req).Success?
    ensures var t := ValidateSensorIn(req).value.thresholds.value; t.tempMin > t.tempMax
  {
  }
}
