/**
 * The HTTP handlers of the service: `/data` (POST ingests one reading, GET
 * pages through readings newest first, any other method is refused), and the
 * GET-only `/health` and `/` endpoints.
 *
 * What the handlers cannot compute themselves is passed in: the outcome of
 * decoding the JSON body, the current Unix time, the failures the database
 * may report, and the bytes of `index.html`.
 */
module Handlers {
  import opened Readings
  import opened Strconv
  import opened ReadingsTable

  const DefaultLimit: nat := 10
  const MaxLimit: nat := 100
  const DefaultOffset: nat := 0

  /** `r.URL.Query().Get(key)`: the first value given for `key`, or "" when there is none. */
  function QueryGet(query: map<string, seq<string>>, key: string): (v: string)
    ensures v != "" ==> key in query && |query[key]| > 0 && v == query[key][0]
    ensures key !in query || query[key] == [] ==> v == ""
    ensures key in query && query[key] != [] ==> v == query[key][0]
  {
    if key in query && |query[key]| > 0 then query[key][0] else ""
  }

  /** The page size a GET uses: the `limit` parameter when it is an integer in 1..100, 10 otherwise. */
  function ResolveLimit(limitStr: string): (limit: nat)
    ensures 1 <= limit <= MaxLimit
    ensures Atoi(limitStr).Some? && 0 < Atoi(limitStr).value <= MaxLimit ==> limit == Atoi(limitStr).value
    ensures !(Atoi(limitStr).Some? && 0 < Atoi(limitStr).value <= MaxLimit) ==> limit == DefaultLimit
  {
    if limitStr == "" then DefaultLimit
    else
      match Atoi(limitStr)
      case Some(l) => if l > 0 && l <= MaxLimit then l else DefaultLimit
      case None => DefaultLimit
  }

  /** The number of rows a GET skips: the `offset` parameter when it is a non-negative integer, 0 otherwise. */
  function ResolveOffset(offsetStr: string): (offset: nat)
    ensures offset <= MaxInt64
    ensures Atoi(offsetStr).Some? && Atoi(offsetStr).value >= 0 ==> offset == Atoi(offsetStr).value
    ensures !(Atoi(offsetStr).Some? && Atoi(offsetStr).value >= 0) ==> offset == DefaultOffset
  {
    if offsetStr == "" then DefaultOffset
    else
      match Atoi(offsetStr)
      case Some(o) => if o >= 0 then o else DefaultOffset
      case None => DefaultOffset
  }

  /** A `limit` written in decimal is honoured exactly when it lies in 1..100. */
  lemma ResolveLimitOfDecimal(n: Int64)
    ensures ResolveLimit(Itoa(n)) == if 0 < n <= MaxLimit then n else DefaultLimit
  {
    AtoiItoa(n);
  }

  /** An `offset` written in decimal is honoured exactly when it is not negative. */
  lemma ResolveOffsetOfDecimal(n: Int64)
    ensures ResolveOffset(Itoa(n)) == if n >= 0 then n else DefaultOffset
  {
    AtoiItoa(n);
  }

  /** Absent, non-numeric, zero, negative and too large limits all fall back to 10. */
  lemma ResolveLimitFallbacks()
    ensures ResolveLimit("") == DefaultLimit
    ensures ResolveLimit("abc") == DefaultLimit
    ensures ResolveLimit("0") == DefaultLimit
    ensures ResolveLimit("-5") == DefaultLimit
    ensures ResolveLimit("200") == DefaultLimit
    ensures ResolveLimit("100") == MaxLimit
  {
    AtoiRejectsNonDigit("abc", 0);
    ResolveLimitOfDecimal(0);
    assert Itoa(0) == "0";
    ResolveLimitOfDecimal(-5);
    assert Itoa(-5) == "-5";
    ResolveLimitOfDecimal(200);
    assert Itoa(200) == "200";
    ResolveLimitOfDecimal(100);
    assert Itoa(100) == "100";
  }

  /** The decoded POST body with `timestamp` set to `now` when the client left it out. */
  function WithDefaultTimestamp(p: Payload, now: Int64): (q: Payload)
    ensures q.tempCo == p.tempCo && q.tempRoom == p.tempRoom
    ensures q.timestamp.Some?
    ensures p.timestamp.Some? ==> q.timestamp == p.timestamp
    ensures p.timestamp.None? ==> q.timestamp == Some(now)
  {
    if p.timestamp.None? then p.(timestamp := Some(now)) else p
  }

  /** Newest first, with every timestamp present. */
  predicate NewestFirst(readings: seq<TemperatureReading>)
  {
    && (forall i :: 0 <= i < |readings| ==> readings[i].timestamp.Some?)
    && (forall i, j :: 0 <= i < j < |readings| ==> readings[i].timestamp.value >= readings[j].timestamp.value)
  }

  /**
   * What a successful GET answers with: exactly PageLength readings, newest
   * first, none with a null timestamp, each one a stored row.
   */
  lemma ScannedPageShape(page: seq<Row>, table: seq<Row>, limit: nat, offset: nat)
    requires IsPage(page, table, limit, offset)
    ensures |ScanAll(page)| == PageLength(|table|, limit, offset)
    ensures NewestFirst(ScanAll(page))
    ensures forall i :: 0 <= i < |page| ==> page[i] in table && ScanAll(page)[i] == Scan(page[i])
  {
    PageShape(page, table, limit, offset);
    forall i | 0 <= i < |page| ensures page[i] in table {
      assert page[i] in multiset(page);
    }
  }

  /**
   * The `rows.Next()` / `rows.Scan` loop that copies the result set into a
   * slice. `scanFailsAt` is the index of the row whose scan fails, if any;
   * `iterationFails` is an error reported by `rows.Err()` after the loop.
   */
  method ReadAll(rows: seq<Row>, scanFailsAt: Option<nat>, iterationFails: bool) returns (r: Option<seq<TemperatureReading>>)
    ensures r.Some? <==> !iterationFails && !(scanFailsAt.Some? && scanFailsAt.value < |rows|)
    ensures r.Some? ==> r.value == ScanAll(rows)
  {
    var readings: seq<TemperatureReading> := [];
    var i := 0;
    while i < |rows|
      invariant 0 <= i <= |rows|
      invariant readings == ScanAll(rows[..i])
      invariant !(scanFailsAt.Some? && scanFailsAt.value < i)
    {
      if scanFailsAt == Some(i) {
        return None;
      }
      assert rows[..i + 1] == rows[..i] + [rows[i]];
      ScanAllAppend(rows[..i], rows[i]);
      readings := readings + [Scan(rows[i])];
      i := i + 1;
    }
    assert rows[..i] == rows;
    if iterationFails {
      return None;
    }
    return Some(readings);
  }

  datatype Body =
    | Text(text: string)
    | Html(bytes: seq<bv8>)
    | One(reading: TemperatureReading)
    | Many(readings: seq<TemperatureReading>)

  datatype Response = Response(status: int, contentType: string, body: Body)

  const JsonType := "application/json"
  const HtmlType := "text/html"
  const PlainType := "text/plain; charset=utf-8"
  const HealthBody := "{\"status\": \"ok\"}"

  /** `http.Error(w, msg, status)`: plain text, the message followed by a newline. */
  function HttpError(msg: string, status: int): (resp: Response)
    ensures resp.status == status && resp.contentType == PlainType && resp.body.Text?
    ensures |resp.body.text| == |msg| + 1 && resp.body.text[|msg|] == '\n'
    ensures resp.body.text[..|msg|] == msg
  {
    Response(status, PlainType, Text(msg + "\n"))
  }

  const MethodNotAllowed := HttpError("Method not allowed", 405)
  const BadRequest := HttpError("Bad request", 422)
  const InternalError := HttpError("Internal server error", 500)

  /** The outcome of `json.NewDecoder(r.Body).Decode(&tri)`. */
  datatype DecodeResult = Decoded(payload: Payload) | DecodeError

  datatype Request = Request(httpMethod: string, body: DecodeResult, query: map<string, seq<string>>)

  /**
   * The failures the database may report during one request: the INSERT, the
   * SELECT, the scan of one row of its result (by index), and `rows.Err()`.
   */
  datatype StoreFaults = StoreFaults(insertFails: bool, queryFails: bool, scanFailsAt: Option<nat>, iterationFails: bool)

  /** Whether a GET whose page holds `n` rows ends in a store error. */
  predicate PageFails(faults: StoreFaults, n: nat)
  {
    faults.queryFails || (faults.scanFailsAt.Some? && faults.scanFailsAt.value < n) || faults.iterationFails
  }

  /** `/health`: GET only, a fixed JSON status body. */
  function HealthHandler(httpMethod: string): (resp: Response)
    ensures resp.status == 200 <==> httpMethod == "GET"
    ensures httpMethod == "GET" ==> resp.contentType == JsonType && resp.body == Text(HealthBody)
    ensures httpMethod != "GET" ==> resp == MethodNotAllowed
  {
    if httpMethod != "GET" then MethodNotAllowed
    else Response(200, JsonType, Text(HealthBody))
  }

  /** `/`: GET only, the bytes of `index.html` verbatim (`None` when the file cannot be read). */
  function HomeHandler(httpMethod: string, indexHtml: Option<seq<bv8>>): (resp: Response)
    ensures resp.status == 200 <==> httpMethod == "GET" && indexHtml.Some?
    ensures httpMethod != "GET" ==> resp == MethodNotAllowed
    ensures httpMethod == "GET" && indexHtml.None? ==> resp == InternalError
    ensures resp.status == 200 ==> resp.contentType == HtmlType && resp.body == Html(indexHtml.value)
  {
    if httpMethod != "GET" then MethodNotAllowed
    else
      match indexHtml
      case None => InternalError
      case Some(bytes) => Response(200, HtmlType, Html(bytes))
  }

  /** The service, holding its database pool. */
  class App {
    /** The `readings` store; `null` for an app built without a database. */
    const db: Store?

    constructor (db: Store?)
      ensures this.db == db
    {
      this.db := db;
    }

    /**
     * `/data`. POST decodes a reading, fills in a missing timestamp with `now`
     * and inserts it; GET resolves `limit` and `offset` and returns that page
     * of the table, newest first; any other method is refused without
     * touching the store. An undecodable POST body is refused before the
     * store is used, so neither of those needs one.
     */
    method DataHandler(req: Request, now: Int64, faults: StoreFaults) returns (resp: Response)
      requires db != null ==> db.Valid()
      requires req.httpMethod == "GET" || (req.httpMethod == "POST" && req.body.Decoded?) ==> db != null
      modifies db
      ensures db != null ==> db.Valid()
      ensures resp.status in {200, 405, 422, 500}
      // any other method
      ensures req.httpMethod != "GET" && req.httpMethod != "POST" ==>
        resp == MethodNotAllowed && (db != null ==> unchanged(db))
      // POST
      ensures req.httpMethod == "POST" && req.body.DecodeError? ==>
        resp == BadRequest && (db != null ==> unchanged(db))
      ensures req.httpMethod == "POST" && req.body.Decoded? ==>
        var p := WithDefaultTimestamp(req.body.payload, now);
        db != null &&
        if faults.insertFails || old(db.nextId) > MaxSerial then
          resp == InternalError && db.rows == old(db.rows) && db.nextId == old(db.nextId)
        else
          var row := Row(old(db.nextId), p.tempCo, p.tempRoom, p.timestamp.value);
          && db.rows == old(db.rows) + [row]
          && db.nextId == old(db.nextId) + 1
          && resp == Response(200, JsonType, One(Scan(row)))
      ensures req.httpMethod == "POST" && resp.status == 200 ==>
        && req.body.Decoded? && resp.body.One? && db != null
        && resp.body.reading.tempCo == req.body.payload.tempCo
        && resp.body.reading.tempRoom == req.body.payload.tempRoom
        && resp.body.reading.timestamp == (if req.body.payload.timestamp.Some? then req.body.payload.timestamp else Some(now))
        && (forall i :: 0 <= i < |old(db.rows)| ==> old(db.rows)[i].id < resp.body.reading.id)
      // GET
      ensures req.httpMethod == "GET" ==> db != null && unchanged(db)
      ensures req.httpMethod == "GET" ==>
        var limit := ResolveLimit(QueryGet(req.query, "limit"));
        var offset := ResolveOffset(QueryGet(req.query, "offset"));
        db != null &&
        (resp.status == 200 <==> !PageFails(faults, PageLength(|db.rows|, limit, offset))) &&
        (resp.status != 200 ==> resp == InternalError) &&
        (resp.status == 200 ==>
          exists page :: IsPage(page, db.rows, limit, offset) && resp == Response(200, JsonType, Many(ScanAll(page))))
    {
      if req.httpMethod == "POST" {
        match req.body {
          case DecodeError =>
            return BadRequest;
          case Decoded(payload) =>
            var p := WithDefaultTimestamp(payload, now);
            var row := db.Insert(p.tempCo, p.tempRoom, p.timestamp.value, faults.insertFails);
            if row.None? {
              return InternalError;
            }
            return Response(200, JsonType, One(Scan(row.value)));
        }
      } else if req.httpMethod == "GET" {
        var limit := ResolveLimit(QueryGet(req.query, "limit"));
        var offset := ResolveOffset(QueryGet(req.query, "offset"));
        var page := db.QueryPage(limit, offset, faults.queryFails);
        if page.None? {
          return InternalError;
        }
        PageShape(page.value, db.rows, limit, offset);
        var readings := ReadAll(page.value, faults.scanFailsAt, faults.iterationFails);
        if readings.None? {
          return InternalError;
        }
        return Response(200, JsonType, Many(readings.value));
      } else {
        return MethodNotAllowed;
      }
    }
  }
}
