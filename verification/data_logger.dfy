/**
 * The device's circular log: a fixed array of 1000 points, the index of the
 * next slot to write, and the number of valid points. The points a file
 * save would write and the points a history request returns are modelled as
 * sequences; the file system and the JSON text are not.
 */
module DataLogger {
  import opened Wrappers
  import opened FirmwareConfig
  import Sensors

  datatype DataPoint = DataPoint(timestamp: nat, temperature: real, moisture: int, ph: real)

  /** The value every slot is reset to. */
  const EMPTY_POINT := DataPoint(0, 0.0, 0, 7.0)

  /** A zero-initialised slot, as the buffer holds before any reset. */
  const ZERO_POINT := DataPoint(0, 0.0, 0, 0.0)

  /** A save is triggered whenever the index reaches a multiple of this. */
  const SAVE_EVERY: int := 10

  /** The slot of the oldest of the `count` points before `index`. */
  function StartIndex(index: int, count: int): int {
    (index - count + MAX_DATA_POINTS) % MAX_DATA_POINTS
  }

  /** The slot of the `i`-th oldest of the `count` points before `index`. */
  function Slot(index: int, count: int, i: int): (k: int)
    ensures 0 <= k < MAX_DATA_POINTS
  {
    (StartIndex(index, count) + i) % MAX_DATA_POINTS
  }

  /** The points a full ring keeps of everything logged: the newest 1000, oldest first. */
  function Window(logged: seq<DataPoint>): (w: seq<DataPoint>)
    ensures |w| == Min(|logged|, MAX_DATA_POINTS)
    ensures forall i :: 0 <= i < |w| ==> w[i] == logged[|logged| - |w| + i]
  {
    logged[|logged| - Min(|logged|, MAX_DATA_POINTS)..]
  }

  /**
   * Logging one more point appends it to the window, dropping the oldest
   * point once the window is full.
   */
  lemma WindowStep(logged: seq<DataPoint>, p: DataPoint)
    ensures Window(logged + [p])
            == if |logged| < MAX_DATA_POINTS then Window(logged) + [p] else Window(logged)[1..] + [p]
  {
    var w, w' := Window(logged), Window(logged + [p]);
    if |logged| < MAX_DATA_POINTS {
      assert w' == logged + [p];
    } else {
      assert |w'| == |w[1..] + [p]|;
      forall i | 0 <= i < |w'| ensures w'[i] == (w[1..] + [p])[i] {
        if i < |w'| - 1 {
          assert w'[i] == logged[|logged| + 1 - MAX_DATA_POINTS + i];
        }
      }
    }
  }

  /** Shifting the count and the position together names the same slot. */
  lemma SlotShift(index: int, count: int, n: int, i: int)
    ensures Slot(index, count, i) == Slot(index, n, n - count + i)
  {
    ModAdd(index - count + MAX_DATA_POINTS, i);
    ModAdd(index - n + MAX_DATA_POINTS, n - count + i);
  }

  lemma ModAdd(a: int, b: int)
    ensures (a % MAX_DATA_POINTS + b) % MAX_DATA_POINTS == (a + b) % MAX_DATA_POINTS
  {
    var q := a / MAX_DATA_POINTS;
    assert a == MAX_DATA_POINTS * q + a % MAX_DATA_POINTS;
    ModMultiple(a % MAX_DATA_POINTS + b, q);
  }

  lemma ModMultiple(x: int, q: int)
    ensures (x + MAX_DATA_POINTS * q) % MAX_DATA_POINTS == x % MAX_DATA_POINTS
  {
  }

  /**
   * After one more point at slot `index`, the points before the new index
   * keep their slots, and the new point is the newest.
   */
  lemma SlotAfterLog(index: int, count: int, i: int)
    requires 0 <= index < MAX_DATA_POINTS && 0 <= count <= MAX_DATA_POINTS
    requires 0 <= i <= count
    ensures var next := (index + 1) % MAX_DATA_POINTS;
      Slot(next, count + 1, i) == (if i == count then index else Slot(index, count, i))
  {
    var next := (index + 1) % MAX_DATA_POINTS;
    var offset := MAX_DATA_POINTS - (count + 1) + i;
    var flat := index - count + MAX_DATA_POINTS + i;
    ModAdd(next - (count + 1) + MAX_DATA_POINTS, i);
    assert Slot(next, count + 1, i) == (next + offset) % MAX_DATA_POINTS;
    ModAdd(index + 1, offset);
    assert Slot(next, count + 1, i) == flat % MAX_DATA_POINTS;
    if i == count {
      ModMultiple(index, 1);
    } else {
      ModAdd(index - count + MAX_DATA_POINTS, i);
    }
  }

  /**
   * The ring invariant: with the index at `|logged| mod 1000` and the count
   * at `min(|logged|, 1000)`, the slots from the start index onwards hold
   * the window of logged points, oldest first.
   */
  ghost predicate RingHolds(buf: seq<DataPoint>, index: int, logged: seq<DataPoint>) {
    && |buf| == MAX_DATA_POINTS
    && index == |logged| % MAX_DATA_POINTS
    && var count := Min(|logged|, MAX_DATA_POINTS);
       forall i :: 0 <= i < count ==> buf[Slot(index, count, i)] == Window(logged)[i]
  }

  /** Among the `count` slots before the index, none is the index itself. */
  lemma SlotNotIndex(index: int, count: int, i: int)
    requires 0 <= index < MAX_DATA_POINTS && 0 <= i < count <= MAX_DATA_POINTS
    requires count - i < MAX_DATA_POINTS
    ensures Slot(index, count, i) != index
  {
    ModAdd(index - count + MAX_DATA_POINTS, i);
    var y := count - i;
    assert (index - y + MAX_DATA_POINTS) % MAX_DATA_POINTS
           == if index >= y then index - y else index + MAX_DATA_POINTS - y;
  }

  /** One slot of the ring after a point is logged. */
  lemma RingAfterLogAt(buf: seq<DataPoint>, index: int, logged: seq<DataPoint>, p: DataPoint, i: int)
    requires RingHolds(buf, index, logged)
    requires 0 <= i < Min(|logged| + 1, MAX_DATA_POINTS)
    ensures buf[index := p][Slot((index + 1) % MAX_DATA_POINTS, Min(|logged| + 1, MAX_DATA_POINTS), i)]
            == Window(logged + [p])[i]
  {
    var count := Min(|logged|, MAX_DATA_POINTS);
    WindowStep(logged, p);
    if count < MAX_DATA_POINTS {
      SlotAfterLog(index, count, i);
      if i < count {
        SlotNotIndex(index, count, i);
      }
    } else {
      SlotAfterLog(index, MAX_DATA_POINTS - 1, i);
      if i < MAX_DATA_POINTS - 1 {
        SlotShift(index, MAX_DATA_POINTS - 1, MAX_DATA_POINTS, i);
        SlotNotIndex(index, MAX_DATA_POINTS, i + 1);
      }
    }
  }

  /**
   * Writing a point into the slot at the index and advancing the index
   * keeps the ring invariant for the history with that point appended.
   */
  lemma RingAfterLog(buf: seq<DataPoint>, index: int, logged: seq<DataPoint>, p: DataPoint)
    requires RingHolds(buf, index, logged)
    ensures RingHolds(buf[index := p], (index + 1) % MAX_DATA_POINTS, logged + [p])
  {
    forall i | 0 <= i < Min(|logged| + 1, MAX_DATA_POINTS)
      ensures buf[index := p][Slot((index + 1) % MAX_DATA_POINTS, Min(|logged| + 1, MAX_DATA_POINTS), i)]
              == Window(logged + [p])[i]
    {
      RingAfterLogAt(buf, index, logged, p, i);
    }
  }

  /** Reading the `c` newest points from the `c`-th slot before the index. */
  lemma RingRead(buf: seq<DataPoint>, index: int, logged: seq<DataPoint>, c: int, i: int)
    requires RingHolds(buf, index, logged)
    requires 0 <= i < c <= Min(|logged|, MAX_DATA_POINTS)
    ensures buf[Slot(index, c, i)] == Window(logged)[Min(|logged|, MAX_DATA_POINTS) - c + i]
  {
    SlotShift(index, c, Min(|logged|, MAX_DATA_POINTS), i);
  }

  /** The contents of the `c` slots before `index`, oldest first. */
  function SlotsBefore(buf: seq<DataPoint>, index: int, c: nat): (r: seq<DataPoint>)
    requires |buf| == MAX_DATA_POINTS
    ensures |r| == c
  {
    seq(c, k requires 0 <= k < c => buf[Slot(index, c, k)])
  }

  /** Reading the `c` slots before the index yields the `c` newest points, oldest first. */
  lemma HistoryIsNewest(buf: seq<DataPoint>, index: int, logged: seq<DataPoint>, c: int, points: seq<DataPoint>)
    requires RingHolds(buf, index, logged)
    requires 0 < c <= Min(|logged|, MAX_DATA_POINTS)
    requires points == SlotsBefore(buf, index, c)
    ensures points == Window(logged)[Min(|logged|, MAX_DATA_POINTS) - c..]
  {
    var w := Window(logged);
    var n := Min(|logged|, MAX_DATA_POINTS);
    var tail := w[n - c..];
    assert |tail| == c == |points|;
    forall k | 0 <= k < c ensures points[k] == tail[k] {
      RingRead(buf, index, logged, c, k);
    }
  }

  /** The logger globals, with the ghost history of every point logged since the last clear. */
  class Logger {
    const buffer: array<DataPoint>
    var dataIndex: int
    var dataCount: int
    ghost var logged: seq<DataPoint>

    ghost predicate Valid() reads this, buffer {
      && buffer.Length == MAX_DATA_POINTS
      && 0 <= dataIndex < MAX_DATA_POINTS
      && dataIndex == |logged| % MAX_DATA_POINTS
      && dataCount == Min(|logged|, MAX_DATA_POINTS)
      && RingHolds(buffer[..], dataIndex, logged)
    }

    /** The valid points, oldest first. */
    ghost function Contents(): seq<DataPoint> reads this {
      Window(logged)
    }

    /**
     * `initDataLogger`: with the file system mounted every slot is reset;
     * otherwise the buffer keeps its zero initialisation.
     */
    constructor(spiffsMounted: bool)
      ensures Valid() && fresh(buffer)
      ensures logged == [] && dataIndex == 0 && dataCount == 0
      ensures forall i :: 0 <= i < buffer.Length ==> buffer[i] == if spiffsMounted then EMPTY_POINT else ZERO_POINT
    {
      buffer := new DataPoint[MAX_DATA_POINTS](_ => ZERO_POINT);
      dataIndex, dataCount := 0, 0;
      logged := [];
      new;
      if spiffsMounted {
        var i := 0;
        while i < MAX_DATA_POINTS
          invariant 0 <= i <= MAX_DATA_POINTS
          invariant forall j :: 0 <= j < i ==> buffer[j] == EMPTY_POINT
          invariant forall j :: i <= j < MAX_DATA_POINTS ==> buffer[j] == ZERO_POINT
          invariant dataIndex == 0 && dataCount == 0 && logged == []
        {
          buffer[i] := EMPTY_POINT;
          i := i + 1;
        }
      }
    }

    /** The points `saveDataToFile` writes: every valid point, oldest first. */
    method SaveDataToFile() returns (points: seq<DataPoint>)
      requires Valid()
      ensures points == Contents()
    {
      points := ReadNewest(dataCount);
      if dataCount > 0 {
        HistoryIsNewest(buffer[..], dataIndex, logged, dataCount, points);
      }
    }

    /**
     * Stores the current readings at `millis` in the slot at the index,
     * advances the index and the saturating count, and saves when the new
     * index is a multiple of ten; `saved` is what the save writes.
     */
    method LogSensorData(sensors: Sensors.SensorState, millis: nat) returns (saved: Option<seq<DataPoint>>)
      requires Valid()
      modifies this, buffer
      ensures Valid()
      ensures logged == old(logged)
        + [DataPoint(millis, sensors.GetTemperature(), sensors.GetMoisture(), sensors.GetPH())]
      ensures dataIndex == (old(dataIndex) + 1) % MAX_DATA_POINTS
      ensures dataCount == if old(dataCount) < MAX_DATA_POINTS then old(dataCount) + 1 else MAX_DATA_POINTS
      ensures buffer[old(dataIndex)] == logged[|logged| - 1]
      ensures forall j :: 0 <= j < buffer.Length && j != old(dataIndex) ==> buffer[j] == old(buffer[j])
      ensures saved.Some? <==> dataIndex % SAVE_EVERY == 0
      ensures saved.Some? ==> saved.value == Contents()
    {
      var point := DataPoint(millis, sensors.GetTemperature(), sensors.GetMoisture(), sensors.GetPH());
      RingAfterLog(buffer[..], dataIndex, logged, point);
      ghost var after := buffer[..][dataIndex := point];
      buffer[dataIndex] := point;
      assert buffer[..] == after;
      dataIndex := (dataIndex + 1) % MAX_DATA_POINTS;
      if dataCount < MAX_DATA_POINTS {
        dataCount := dataCount + 1;
      }
      assert dataCount == Min(|logged| + 1, MAX_DATA_POINTS);
      logged := logged + [point];
      saved := None;
      if dataIndex % SAVE_EVERY == 0 {
        var points := SaveDataToFile();
        saved := Some(points);
      }
    }

    /**
     * `getHistoricalData(count)`: the count is capped at the number of valid
     * points, and the newest that many points are returned oldest first,
     * with the capped count and the current index.
     */
    method GetHistoricalData(count: int) returns (points: seq<DataPoint>, reportedCount: int, currentIndex: int)
      requires Valid()
      ensures reportedCount == if count > dataCount then dataCount else count
      ensures reportedCount <= 0 ==> points == []
      ensures reportedCount > 0 ==> points == Contents()[dataCount - reportedCount..]
      ensures currentIndex == dataIndex
    {
      var c := count;
      if c > dataCount {
        c := dataCount;
      }
      points := ReadNewest(c);
      if c > 0 {
        HistoryIsNewest(buffer[..], dataIndex, logged, c, points);
      }
      reportedCount, currentIndex := c, dataIndex;
    }

    /** The points in the `c` slots before the index, oldest first (none when `c <= 0`). */
    method ReadNewest(c: int) returns (points: seq<DataPoint>)
      requires buffer.Length == MAX_DATA_POINTS
      ensures c <= 0 ==> points == []
      ensures c > 0 ==> points == SlotsBefore(buffer[..], dataIndex, c)
    {
      var startIndex := (dataIndex - c + MAX_DATA_POINTS) % MAX_DATA_POINTS;
      points := [];
      var i := 0;
      while i < c
        invariant c <= 0 ==> i == 0 && points == []
        invariant c > 0 ==> 0 <= i <= c
        invariant |points| == i
        invariant forall k :: 0 <= k < i ==> points[k] == buffer[Slot(dataIndex, c, k)]
      {
        var idx := (startIndex + i) % MAX_DATA_POINTS;
        points := points + [buffer[idx]];
        i := i + 1;
      }
    }

    /** Resets the index, the count and every slot; the log file is removed. */
    method ClearDataLog()
      requires Valid()
      modifies this, buffer
      ensures Valid()
      ensures logged == [] && dataIndex == 0 && dataCount == 0
      ensures forall i :: 0 <= i < buffer.Length ==> buffer[i] == EMPTY_POINT
    {
      dataIndex := 0;
      dataCount := 0;
      logged := [];
      var i := 0;
      while i < MAX_DATA_POINTS
        invariant 0 <= i <= MAX_DATA_POINTS
        invariant forall j :: 0 <= j < i ==> buffer[j] == EMPTY_POINT
        invariant dataIndex == 0 && dataCount == 0 && logged == []
      {
        buffer[i] := EMPTY_POINT;
        i := i + 1;
      }
    }

    /** The number of valid points: every point logged since the clear, up to 1000. */
    function GetDataCount(): (n: int)
      requires Valid()
      reads this, buffer
      ensures n == |Contents()| == Min(|logged|, MAX_DATA_POINTS)
      ensures 0 <= n <= MAX_DATA_POINTS
    {
      dataCount
    }
  }
}
