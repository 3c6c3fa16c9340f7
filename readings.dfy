/**
 * The values exchanged by the `/data` endpoint: the JSON payload a device
 * POSTs, the reading the service answers with, and one row of the `readings`
 * table that stores them.
 */
module Readings {

  datatype Option<+T> = None | Some(value: T)

  const MinInt64: int := -0x8000_0000_0000_0000
  const MaxInt64: int := 0x7fff_ffff_ffff_ffff

  /** Go's `int64` (and `int` on a 64-bit platform); Postgres' BIGINT. */
  type Int64 = x: int | MinInt64 <= x <= MaxInt64

  /**
   * A Go `float64` / Postgres DOUBLE PRECISION, kept as its IEEE-754 bit
   * pattern. Temperatures are never computed on: they are decoded, stored
   * and returned unchanged.
   */
  datatype Float64 = Float64(bits: bv64)

  /** `TemperatureReadingPayload`: the decoded POST body; `timestamp` may be absent. */
  datatype Payload = Payload(tempCo: Float64, tempRoom: Float64, timestamp: Option<Int64>)

  /** `TemperatureReading`: what the endpoint serialises; `timestamp` is a nullable pointer in Go. */
  datatype TemperatureReading = TemperatureReading(id: int, tempCo: Float64, tempRoom: Float64, timestamp: Option<Int64>)

  /**
   * One row of the `readings` table as the service fills it: `id` comes from
   * the SERIAL sequence, and `timestamp` is never NULL because every INSERT
   * the service issues binds a resolved value.
   */
  datatype Row = Row(id: int, tempCo: Float64, tempRoom: Float64, timestamp: Int64)

  /** Scanning a row's `id, temp_co, temp_room, timestamp` columns into a reading. */
  function Scan(row: Row): (t: TemperatureReading)
    ensures t.id == row.id && t.tempCo == row.tempCo && t.tempRoom == row.tempRoom
    ensures t.timestamp == Some(row.timestamp)
  {
    TemperatureReading(row.id, row.tempCo, row.tempRoom, Some(row.timestamp))
  }

  /** Scanning every row of a result set, in the order the store returned them. */
  function ScanAll(rows: seq<Row>): (ts: seq<TemperatureReading>)
    ensures |ts| == |rows|
    ensures forall i :: 0 <= i < |rows| ==> ts[i].timestamp == Some(rows[i].timestamp) && ts[i] == Scan(rows[i])
  {
    seq(|rows|, i requires 0 <= i < |rows| => Scan(rows[i]))
  }

  /** Scanning loses nothing: distinct rows give distinct readings. */
  lemma ScanInjective(a: Row, b: Row)
    requires Scan(a) == Scan(b)
    ensures a == b
  {
  }

  /** Scanning a result set row by row: the scan of a prefix extended by one row. */
  lemma {:induction false} ScanAllAppend(rows: seq<Row>, r: Row)
    ensures ScanAll(rows + [r]) == ScanAll(rows) + [Scan(r)]
  {
    var lhs := ScanAll(rows + [r]);
    var rhs := ScanAll(rows) + [Scan(r)];
    assert |lhs| == |rhs|;
    forall i | 0 <= i < |lhs| ensures lhs[i] == rhs[i] {
      if i < |rows| {
        assert (rows + [r])[i] == rows[i];
      }
    }
  }
}
