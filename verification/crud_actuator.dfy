/** The actuator audit log: appends and history queries. */
module CrudActuator {
  import opened Wrappers
  import opened Queries
  import opened Db

  /** Appends exactly one log entry; earlier entries are unchanged. */
  method Create(db: Database, fields: ActuatorLogFields, now: int) returns (row: ActuatorLog)
    requires db.Valid()
    modifies db
    ensures db.Valid()
    ensures row == ActuatorLog(|old(db.actuatorLogs)| + 1, now, fields)
    ensures db.actuatorLogs == old(db.actuatorLogs) + [row]
    ensures db.readings == old(db.readings) && db.alerts == old(db.alerts)
  {
    row := ActuatorLog(|db.actuatorLogs| + 1, now, fields);
    db.actuatorLogs := db.actuatorLogs + [row];
  }

  /** The type filter applies only when a non-empty type is given. */
  predicate TypeMatches(l: ActuatorLog, actuatorType: Option<string>) {
    actuatorType.Some? && actuatorType.value != "" ==> l.fields.actuatorType == actuatorType.value
  }

  /** The WHERE clause of the history query. */
  function OfType(actuatorType: Option<string>): ActuatorLog -> bool {
    (l: ActuatorLog) => TypeMatches(l, actuatorType)
  }

  /**
   * The newest `limit` entries (of the given type), newest first: exactly
   * min(limit, number of matching entries) of them, and every matching
   * entry when fewer than `limit` come back.
   */
  function ActuatorHistory(logs: seq<ActuatorLog>, actuatorType: Option<string>, limit: nat): (r: seq<ActuatorLog>)
    ensures |r| == Min(limit, |Filter(logs, OfType(actuatorType))|)
    ensures forall l :: l in r ==> l in logs && TypeMatches(l, actuatorType)
    ensures NewestFirst(r, LogTime)
    ensures forall i, l :: 0 <= i < |r| && l in logs && TypeMatches(l, actuatorType) && l !in r ==>
      l.timestamp <= r[i].timestamp
    ensures |r| < limit ==>
      forall l :: multiset(r)[l] == if TypeMatches(l, actuatorType) then multiset(logs)[l] else 0
    ensures multiset(r) <= multiset(logs)
    ensures forall i, l :: 0 <= i < |r| && TypeMatches(l, actuatorType) && multiset(r)[l] < multiset(logs)[l] ==>
      l.timestamp <= r[i].timestamp
  {
    HistoryOmitsOlder(logs, actuatorType, limit);
    HistoryCopies(logs, actuatorType, limit);
    NewestPage(logs, OfType(actuatorType), LogTime, 0, limit)
  }

  /** The history holds only matching entries and leaves out no newer matching one. */
  lemma HistoryOmitsOlder(logs: seq<ActuatorLog>, actuatorType: Option<string>, limit: nat)
    ensures var r := NewestPage(logs, OfType(actuatorType), LogTime, 0, limit);
      && (forall l :: l in r ==> l in logs && TypeMatches(l, actuatorType))
      && (forall i, l :: 0 <= i < |r| && l in logs && TypeMatches(l, actuatorType) && l !in r ==>
            l.timestamp <= r[i].timestamp)
      && (|r| < limit ==>
            forall l :: multiset(r)[l] == if TypeMatches(l, actuatorType) then multiset(logs)[l] else 0)
  {
    forall l ensures OfType(actuatorType)(l) == TypeMatches(l, actuatorType) {
    }
  }

  /** The history holds no entry more often than the log, nor too few copies of a newer matching one. */
  lemma HistoryCopies(logs: seq<ActuatorLog>, actuatorType: Option<string>, limit: nat)
    ensures var r := NewestPage(logs, OfType(actuatorType), LogTime, 0, limit);
      && multiset(r) <= multiset(logs)
      && (forall i, l :: 0 <= i < |r| && TypeMatches(l, actuatorType) && multiset(r)[l] < multiset(logs)[l] ==>
            l.timestamp <= r[i].timestamp)
  {
    forall l ensures OfType(actuatorType)(l) == TypeMatches(l, actuatorType) {
    }
  }

  /** Every entry of the last `hours` hours, newest first, with no limit. */
  function RecentActivity(logs: seq<ActuatorLog>, now: int, hours: int): (r: seq<ActuatorLog>)
    ensures forall l :: l in r <==> l in logs && l.timestamp >= HoursAgo(now, hours)
    ensures forall l :: multiset(r)[l] == if l.timestamp >= HoursAgo(now, hours) then multiset(logs)[l] else 0
    ensures NewestFirst(r, LogTime)
  {
    AllNewest(logs, (l: ActuatorLog) => l.timestamp >= HoursAgo(now, hours), LogTime)
  }
}
