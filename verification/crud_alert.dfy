/** Alert creation, resolution and the alert queries. */
module CrudAlert {
  import opened Wrappers
  import opened Queries
  import opened AlertEngine
  import opened Db

  /** The row `create` stores for an alert draft; it starts unresolved-at-null. */
  function NewRow(id: nat, now: int, d: AlertDraft): AlertRow {
    AlertRow(id, now, d.severity, d.parameter, d.message, Some(d.thresholdValue), Some(d.currentValue),
             d.resolved, None)
  }

  /** Appends exactly one alert with the given fields; existing alerts are unchanged. */
  method Create(db: Database, draft: AlertDraft, now: int) returns (row: AlertRow)
    requires db.Valid()
    modifies db
    ensures db.Valid()
    ensures row == NewRow(|old(db.alerts)| + 1, now, draft)
    ensures db.alerts == old(db.alerts) + [row]
    ensures db.readings == old(db.readings) && db.actuatorLogs == old(db.actuatorLogs)
  {
    row := NewRow(|db.alerts| + 1, now, draft);
    db.alerts := db.alerts + [row];
  }

  /** The severity filter applies only when a non-empty severity is given. */
  predicate SeverityMatches(a: AlertRow, severity: Option<string>) {
    severity.Some? && severity.value != "" ==> a.severity == severity.value
  }

  predicate IsUnresolvedWith(a: AlertRow, severity: Option<string>) {
    !a.resolved && SeverityMatches(a, severity)
  }

  /** The WHERE clause of `get_unresolved_alerts`. */
  function UnresolvedOf(severity: Option<string>): AlertRow -> bool {
    (a: AlertRow) => IsUnresolvedWith(a, severity)
  }

  /** Exactly the unresolved alerts (of the given severity), newest first. */
  function UnresolvedAlerts(alerts: seq<AlertRow>, severity: Option<string>): (r: seq<AlertRow>)
    ensures forall a :: a in r <==> a in alerts && !a.resolved && SeverityMatches(a, severity)
    ensures forall a :: multiset(r)[a] == if IsUnresolvedWith(a, severity) then multiset(alerts)[a] else 0
    ensures NewestFirst(r, AlertTime)
    ensures |r| == |Filter(alerts, UnresolvedOf(severity))|
  {
    AllNewest(alerts, UnresolvedOf(severity), AlertTime)
  }

  /** No alert is unresolved exactly when every alert is resolved. */
  lemma NoneUnresolved(alerts: seq<AlertRow>)
    ensures UnresolvedAlerts(alerts, None) == [] <==> forall a :: a in alerts ==> a.resolved
  {
    var r := UnresolvedAlerts(alerts, None);
    if r != [] {
      assert r[0] in r;
    }
  }

  /** The WHERE clause of `get_recent_alerts`. */
  function Since(now: int, hours: int): AlertRow -> bool {
    (a: AlertRow) => a.timestamp >= HoursAgo(now, hours)
  }

  /** Alerts of the last `hours` hours, newest first, the newest `limit` of them. */
  function RecentAlerts(alerts: seq<AlertRow>, now: int, hours: int, limit: nat): (r: seq<AlertRow>)
    ensures |r| == Min(limit, |Filter(alerts, Since(now, hours))|)
    ensures forall a :: a in r ==> a in alerts && a.timestamp >= HoursAgo(now, hours)
    ensures NewestFirst(r, AlertTime)
    ensures forall i, a :: 0 <= i < |r| && a in alerts && a.timestamp >= HoursAgo(now, hours) && a !in r ==>
      a.timestamp <= r[i].timestamp
    ensures |r| < limit ==> forall a :: a in alerts && a.timestamp >= HoursAgo(now, hours) ==> a in r
    ensures multiset(r) <= multiset(alerts)
    ensures forall i, a: AlertRow ::
      0 <= i < |r| && a.timestamp >= HoursAgo(now, hours) && multiset(r)[a] < multiset(alerts)[a] ==>
        a.timestamp <= r[i].timestamp
  {
    RecentOmitsOlder(alerts, now, hours, limit);
    RecentCopies(alerts, now, hours, limit);
    NewestPage(alerts, Since(now, hours), AlertTime, 0, limit)
  }

  /** The newest `limit` recent alerts leave out no newer recent alert. */
  lemma RecentOmitsOlder(alerts: seq<AlertRow>, now: int, hours: int, limit: nat)
    ensures var r := NewestPage(alerts, Since(now, hours), AlertTime, 0, limit);
      && (forall a :: a in r ==> a in alerts && a.timestamp >= HoursAgo(now, hours))
      && (forall i, a :: 0 <= i < |r| && a in alerts && a.timestamp >= HoursAgo(now, hours) && a !in r ==>
            a.timestamp <= r[i].timestamp)
      && (|r| < limit ==> forall a :: a in alerts && a.timestamp >= HoursAgo(now, hours) ==> a in r)
  {
    forall a ensures Since(now, hours)(a) == (a.timestamp >= HoursAgo(now, hours)) {
    }
  }

  /** The newest `limit` recent alerts hold no alert more often than the table, nor too few copies of a newer one. */
  lemma RecentCopies(alerts: seq<AlertRow>, now: int, hours: int, limit: nat)
    ensures var r := NewestPage(alerts, Since(now, hours), AlertTime, 0, limit);
      && multiset(r) <= multiset(alerts)
      && (forall i, a: AlertRow ::
            0 <= i < |r| && a.timestamp >= HoursAgo(now, hours) && multiset(r)[a] < multiset(alerts)[a] ==>
              a.timestamp <= r[i].timestamp)
  {
    forall a ensures Since(now, hours)(a) == (a.timestamp >= HoursAgo(now, hours)) {
    }
  }

  /** The position of the alert with this id, if there is one. */
  function IndexOfId(alerts: seq<AlertRow>, id: int): (r: Option<nat>)
    ensures r.Some? ==> r.value < |alerts| && alerts[r.value].id == id
    ensures r.None? ==> forall a :: a in alerts ==> a.id != id
  {
    if alerts == [] then None
    else if alerts[|alerts| - 1].id == id then Some(|alerts| - 1)
    else IndexOfId(alerts[..|alerts| - 1], id)
  }

  /**
   * The table after resolving the alert at position `i` at time `now`: it
   * is marked resolved and stamped, and no other field or alert changes.
   */
  function ResolveAt(alerts: seq<AlertRow>, i: nat, now: int): (r: seq<AlertRow>)
    requires i < |alerts|
    ensures |r| == |alerts|
    ensures r[i].resolved && r[i].resolvedAt == Some(now)
    ensures r[i].(resolved := alerts[i].resolved, resolvedAt := alerts[i].resolvedAt) == alerts[i]
    ensures forall j :: 0 <= j < |alerts| && j != i ==> r[j] == alerts[j]
  {
    alerts[i := alerts[i].(resolved := true, resolvedAt := Some(now))]
  }

  /**
   * An unknown id yields None and changes nothing; a known one is resolved
   * in place (again, if it already was) and returned.
   */
  method ResolveAlert(db: Database, alertId: int, now: int) returns (r: Option<AlertRow>)
    requires db.Valid()
    modifies db
    ensures db.Valid()
    ensures db.readings == old(db.readings) && db.actuatorLogs == old(db.actuatorLogs)
    ensures match IndexOfId(old(db.alerts), alertId)
      case None => r.None? && db.alerts == old(db.alerts)
      case Some(i) => db.alerts == ResolveAt(old(db.alerts), i, now) && r == Some(db.alerts[i])
  {
    var found := IndexOfId(db.alerts, alertId);
    if found.None? {
      return None;
    }
    var i := found.value;
    var alert := db.alerts[i].(resolved := true, resolvedAt := Some(now));
    db.alerts := db.alerts[i := alert];
    r := Some(alert);
  }

  /** Resolving twice equals resolving once at the later time: still resolved, newer stamp. */
  lemma ResolveIdempotent(alerts: seq<AlertRow>, i: nat, first: int, second: int)
    requires i < |alerts|
    ensures ResolveAt(ResolveAt(alerts, i, first), i, second) == ResolveAt(alerts, i, second)
  {
  }

  /** Once resolved, an alert is absent from every unresolved-alerts query. */
  lemma {:induction false} ResolvedLeavesUnresolved(alerts: seq<AlertRow>, id: int, now: int, severity: Option<string>)
    requires AlertIdsAreIndices(alerts)
    requires IndexOfId(alerts, id).Some?
    ensures forall a :: a in UnresolvedAlerts(ResolveAt(alerts, IndexOfId(alerts, id).value, now), severity) ==>
      a.id != id
  {
    var i := IndexOfId(alerts, id).value;
    var after := ResolveAt(alerts, i, now);
    forall a | a in UnresolvedAlerts(after, severity) ensures a.id != id {
      var j :| 0 <= j < |after| && after[j] == a;
      if j != i {
        assert a == alerts[j];
      }
    }
  }
}
