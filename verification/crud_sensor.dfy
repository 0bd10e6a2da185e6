/** Reading creation and the reading queries. */
module CrudSensor {
  import opened Wrappers
  import opened SensorSchema
  import opened Queries
  import opened Db

  /** Appends one reading with the given fields; nothing else changes. */
  method Create(db: Database, fields: SensorFields, now: int) returns (row: SensorOut)
    requires db.Valid()
    modifies db
    ensures db.Valid()
    ensures row == SensorOut(|old(db.readings)| + 1, now, fields)
    ensures db.readings == old(db.readings) + [row]
    ensures db.alerts == old(db.alerts) && db.actuatorLogs == old(db.actuatorLogs)
  {
    row := SensorOut(|db.readings| + 1, now, fields);
    db.readings := db.readings + [row];
  }

  /** The inclusive time filters, each applied only when given. */
  predicate InWindow(r: SensorOut, start: Option<int>, end: Option<int>) {
    && (start.Some? ==> r.timestamp >= start.value)
    && (end.Some? ==> r.timestamp <= end.value)
  }

  /** The WHERE clause of `get_multi`. */
  function Within(start: Option<int>, end: Option<int>): SensorOut -> bool {
    (x: SensorOut) => InWindow(x, start, end)
  }

  /**
   * Readings in the window, newest first, after skipping `skip` of them and
   * returning at most `limit`: the page at `skip` of all readings in the
   * window sorted newest first. Without a skip these are the newest readings
   * of the window, and all of them when fewer than `limit` exist.
   */
  function GetMulti(readings: seq<SensorOut>, skip: nat, limit: nat, start: Option<int>, end: Option<int>)
    : (r: seq<SensorOut>)
    ensures |r| <= limit
    ensures forall x :: x in r ==> x in readings && InWindow(x, start, end)
    ensures NewestFirst(r, ReadingTime)
    ensures skip == 0 ==>
      forall i, y :: 0 <= i < |r| && y in readings && InWindow(y, start, end) && y !in r ==>
        y.timestamp <= r[i].timestamp
    ensures skip == 0 && |r| < limit ==> forall y :: y in readings && InWindow(y, start, end) ==> y in r
  {
    NewestPage(readings, Within(start, end), ReadingTime, skip, limit)
  }

  /**
   * `get_multi` skips exactly `skip` rows: its result is the page at `skip`
   * of every reading in the window, sorted newest first.
   */
  lemma GetMultiIsPage(readings: seq<SensorOut>, skip: nat, limit: nat, start: Option<int>, end: Option<int>)
    ensures GetMulti(readings, skip, limit, start, end)
            == Page(AllNewest(readings, Within(start, end), ReadingTime), skip, limit)
  {
  }

  /**
   * `get_multi` holds no reading more often than the table; without a skip,
   * a reading of the window it holds fewer times than the table is no newer
   * than any it returns.
   */
  lemma GetMultiCopies(readings: seq<SensorOut>, skip: nat, limit: nat, start: Option<int>, end: Option<int>)
    ensures var r := GetMulti(readings, skip, limit, start, end);
      && multiset(r) <= multiset(readings)
      && (skip == 0 ==>
           forall i, y :: 0 <= i < |r| && InWindow(y, start, end) && multiset(r)[y] < multiset(readings)[y] ==>
             y.timestamp <= r[i].timestamp)
  {
    var r := NewestPage(readings, Within(start, end), ReadingTime, skip, limit);
    forall y ensures Within(start, end)(y) == InWindow(y, start, end) {
    }
  }

  /** `get_multi` returns min(limit, n - skip) readings, n being the number in the window. */
  lemma GetMultiLength(readings: seq<SensorOut>, skip: nat, limit: nat, start: Option<int>, end: Option<int>)
    ensures var n := |Filter(readings, Within(start, end))|;
      |GetMulti(readings, skip, limit, start, end)| == Min(limit, if skip <= n then n - skip else 0)
  {
    var n := |Filter(readings, Within(start, end))|;
    var r := NewestPage(readings, Within(start, end), ReadingTime, skip, limit);
    assert |r| == Min(limit, if skip <= n then n - skip else 0);
  }

  /**
   * `r` is the min(limit, n) newest of all n readings, newest first: it
   * holds no reading more often than the table, and a reading it holds
   * fewer times (in particular one it leaves out) is no newer than any it
   * holds; all readings come back when fewer than `limit` do.
   */
  ghost predicate NewestOf(r: seq<SensorOut>, readings: seq<SensorOut>, limit: nat) {
    && |r| == Min(limit, |readings|)
    && (forall x :: x in r ==> x in readings)
    && NewestFirst(r, ReadingTime)
    && (forall i, y :: 0 <= i < |r| && y in readings && y !in r ==> y.timestamp <= r[i].timestamp)
    && (|r| < limit ==> forall y :: y in readings ==> y in r)
    && multiset(r) <= multiset(readings)
    && (forall i, y :: 0 <= i < |r| && multiset(r)[y] < multiset(readings)[y] ==> y.timestamp <= r[i].timestamp)
  }

  /** Without a window or a skip, `get_multi` returns min(limit, n) of the n readings. */
  lemma UnfilteredLength(readings: seq<SensorOut>, limit: nat)
    ensures |GetMulti(readings, 0, limit, None, None)| == Min(limit, |readings|)
  {
    forall y | y in readings ensures Within(None, None)(y) {
      assert InWindow(y, None, None);
    }
    GetMultiLength(readings, 0, limit, None, None);
    FilterAll(readings, Within(None, None));
  }

  /** Without a window or a skip, no reading left out, or copy of one, is newer than one returned. */
  lemma UnfilteredLeavesOutOlder(readings: seq<SensorOut>, limit: nat)
    ensures var r := GetMulti(readings, 0, limit, None, None);
      && (forall i, y :: 0 <= i < |r| && y in readings && y !in r ==> y.timestamp <= r[i].timestamp)
      && (|r| < limit ==> forall y :: y in readings ==> y in r)
      && (forall i, y :: 0 <= i < |r| && multiset(r)[y] < multiset(readings)[y] ==> y.timestamp <= r[i].timestamp)
  {
    var r := GetMulti(readings, 0, limit, None, None);
    forall y ensures InWindow(y, None, None) {
    }
  }

  /** Without a window or a skip, `get_multi` returns the newest `limit` readings. */
  lemma UnfilteredIsNewest(readings: seq<SensorOut>, limit: nat)
    ensures NewestOf(GetMulti(readings, 0, limit, None, None), readings, limit)
  {
    UnfilteredLength(readings, limit);
    UnfilteredLeavesOutOlder(readings, limit);
  }

  /** The last `hours` hours of readings, up to now, at most 1000 of them. */
  function GetRecent(readings: seq<SensorOut>, now: int, hours: int): (r: seq<SensorOut>)
    ensures |r| <= 1000
    ensures forall x :: x in r ==> x in readings && HoursAgo(now, hours) <= x.timestamp <= now
    ensures NewestFirst(r, ReadingTime)
    ensures forall i, y :: 0 <= i < |r| && y in readings && HoursAgo(now, hours) <= y.timestamp <= now && y !in r ==>
      y.timestamp <= r[i].timestamp
    ensures |r| < 1000 ==> forall y :: y in readings && HoursAgo(now, hours) <= y.timestamp <= now ==> y in r
    ensures multiset(r) <= multiset(readings)
    ensures forall i, y: SensorOut ::
      0 <= i < |r| && HoursAgo(now, hours) <= y.timestamp <= now && multiset(r)[y] < multiset(readings)[y] ==>
        y.timestamp <= r[i].timestamp
  {
    var r := GetMulti(readings, 0, 1000, Some(HoursAgo(now, hours)), Some(now));
    GetMultiCopies(readings, 0, 1000, Some(HoursAgo(now, hours)), Some(now));
    assert forall y :: InWindow(y, Some(HoursAgo(now, hours)), Some(now)) <==> HoursAgo(now, hours) <= y.timestamp <= now;
    r
  }

  /** `get_multi(limit=1)`: empty only for an empty table, else a newest reading. */
  lemma LatestIsNewest(readings: seq<SensorOut>)
    ensures var r := GetMulti(readings, 0, 1, None, None);
      && (r == [] <==> readings == [])
      && (r != [] ==> r[0] in readings && forall y :: y in readings ==> y.timestamp <= r[0].timestamp)
  {
    var r := GetMulti(readings, 0, 1, None, None);
    if readings != [] {
      assert InWindow(readings[0], None, None);
      forall y | y in readings ensures y.timestamp <= r[0].timestamp {
        assert InWindow(y, None, None);
      }
    }
  }

  /** `get(id)`: the reading with this id, if there is one. */
  function Get(readings: seq<SensorOut>, id: int): (r: Option<SensorOut>)
    ensures r.Some? ==> r.value in readings && r.value.id == id
    ensures r.None? ==> forall x :: x in readings ==> x.id != id
  {
    if readings == [] then None
    else if readings[|readings| - 1].id == id then Some(readings[|readings| - 1])
    else Get(readings[..|readings| - 1], id)
  }

  /** With autoincrement ids, `get(id)` finds a reading exactly for the ids 1..n, at position id - 1. */
  lemma {:induction false} GetByPosition(readings: seq<SensorOut>, id: int)
    requires forall i :: 0 <= i < |readings| ==> readings[i].id == i + 1
    ensures Get(readings, id).Some? <==> 1 <= id <= |readings|
    ensures Get(readings, id).Some? ==> Get(readings, id).value == readings[id - 1]
  {
    if readings != [] && readings[|readings| - 1].id != id {
      GetByPosition(readings[..|readings| - 1], id);
    }
  }

  /** A calibration event is only written to the application log: no stored data changes. */
  method CreateCalibrationLog(db: Database, sensorType: string, calibrationValue: real, success: bool)
    ensures unchanged(db)
  {
  }
}
