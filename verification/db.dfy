/**
 * The three tables the backend writes, held in memory as sequences in
 * insertion order. Rows are never deleted, so the autoincrement id of a row
 * is its position plus one. The database clock is not part of the state:
 * every write is given the time `now` at which it happens.
 */
module Db {
  import opened Wrappers
  import opened SensorSchema
  import opened AlertEngine

  /** An `alerts` row; `resolved_at` is null until the alert is resolved. */
  datatype AlertRow = AlertRow(
    id: nat,
    timestamp: int,
    severity: string,
    parameter: Parameter,
    message: AlertMessage,
    thresholdValue: Option<real>,
    currentValue: Option<real>,
    resolved: bool,
    resolvedAt: Option<int>)

  /** The columns of an `actuator_logs` row that the caller supplies. */
  datatype ActuatorLogFields = ActuatorLogFields(
    actuatorType: string,
    action: string,
    durationSeconds: real,
    triggeredBy: string,
    sensorTemperature: Option<real>,
    sensorMoisture: Option<int>,
    sensorPh: Option<real>)

  datatype ActuatorLog = ActuatorLog(id: nat, timestamp: int, fields: ActuatorLogFields)

  function ReadingTime(r: SensorOut): int { r.timestamp }
  function AlertTime(a: AlertRow): int { a.timestamp }
  function LogTime(l: ActuatorLog): int { l.timestamp }

  /** The start of a window of `hours` hours ending at `now` (timestamps in seconds). */
  function HoursAgo(now: int, hours: int): int {
    now - hours * 3600
  }

  ghost predicate AlertIdsAreIndices(alerts: seq<AlertRow>) {
    forall i :: 0 <= i < |alerts| ==> alerts[i].id == i + 1
  }

  class Database {
    var readings: seq<SensorOut>
    var alerts: seq<AlertRow>
    var actuatorLogs: seq<ActuatorLog>

    ghost predicate Valid()
      reads this
    {
      && (forall i :: 0 <= i < |readings| ==> readings[i].id == i + 1)
      && AlertIdsAreIndices(alerts)
      && (forall i :: 0 <= i < |actuatorLogs| ==> actuatorLogs[i].id == i + 1)
    }

    constructor ()
      ensures Valid()
      ensures readings == [] && alerts == [] && actuatorLogs == []
    {
      readings, alerts, actuatorLogs := [], [], [];
    }
  }
}
