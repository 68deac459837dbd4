/** The push context of app/vminsert/opentsdb-http/request_handler.go: read the
    request body, parse it as JSON, unmarshal the rows, and hand them to the
    insert context, with an error slot that sticks once set.

    The collaborators that are not part of this model are stand-ins: the body is
    a `Body` whose `ReadFrom` behaves as `bytesutil.ByteBuffer.ReadFrom` through
    `io.LimitReader`, the fastjson parser is a function `parse` from the buffer to
    a value or an error, and `common.InsertCtx` is an `InsertCtx` that keeps the
    label list and records every other call in a trace. */
module Push {
  import opened Common
  import opened Json
  import opened HttpPut

  // ---------------------------------------------------------------------------
  // Collaborators

  /** A label handed to the insert context. */
  datatype Label = Label(name: string, value: string)

  /** A call made on `common.InsertCtx`, in the order made. */
  datatype Call =
    | ResetCall(rowsHint: nat)
    | WriteDataPoint(labels: seq<Label>, timestamp: I64, value: Float)
    | FlushCall

  /** `common.InsertCtx`: the label list that `InsertRows` fills and the trace of
      the other calls. `flushError` is what `FlushBufs` answers. */
  class InsertCtx {
    var labels: seq<Label>
    var trace: seq<Call>
    const flushError: Option<string>

    constructor (flushError: Option<string>)
      ensures labels == [] && trace == [] && this.flushError == flushError
    {
      labels, trace := [], [];
      this.flushError := flushError;
    }

    /** `Reset(n)`: recorded. */
    method Reset(n: nat)
      modifies this
      ensures trace == old(trace) + [ResetCall(n)] && labels == old(labels)
    {
      trace := trace + [ResetCall(n)];
    }

    /** `AddLabel(name, value)`: append to the label list. */
    method AddLabel(name: string, value: string)
      modifies this
      ensures labels == old(labels) + [Label(name, value)] && trace == old(trace)
    {
      labels := labels + [Label(name, value)];
    }

    /** `WriteDataPoint(nil, labels, timestamp, value)`: recorded. */
    method WriteDataPoint(labels: seq<Label>, timestamp: I64, value: Float)
      modifies this
      ensures trace == old(trace) + [Call.WriteDataPoint(labels, timestamp, value)]
      ensures this.labels == old(this.labels)
    {
      trace := trace + [Call.WriteDataPoint(labels, timestamp, value)];
    }

    /** `FlushBufs()`: recorded; answers `flushError`. */
    method FlushBufs() returns (err: Option<string>)
      modifies this
      ensures trace == old(trace) + [FlushCall] && labels == old(labels) && err == flushError
    {
      trace := trace + [FlushCall];
      return flushError;
    }
  }

  /** A request body: the bytes still to come, and how it ends once they are
      read, `None` for a clean `io.EOF` or the error it then keeps returning. */
  datatype Conn = Conn(data: string, end: Option<string>)

  /** What one `ReadFrom` call appends to the buffer, the error it returns, and
      the body left behind. */
  datatype Chunk = Chunk(bytes: string, err: Option<string>, rest: Conn)

  /** `reqBuf.ReadFrom(io.LimitReader(body, limit))`: read until the limited
      reader ends. With `limit` at most 0 it ends at once; once `limit` bytes are
      read it ends cleanly; a body that ends first ends the read its own way. */
  function ReadLimited(c: Conn, limit: int): (r: Chunk)
    ensures c.data == r.bytes + r.rest.data && |r.bytes| <= Max(limit, 0)
    ensures r.err.Some? ==> r.err == c.end
  {
    if limit <= 0 then Chunk([], None, c)
    else if |c.data| >= limit then Chunk(c.data[..limit], None, Conn(c.data[limit..], c.end))
    else Chunk(c.data, c.end, Conn([], c.end))
  }

  /** The body, read in place. */
  class Body {
    var data: string
    var end: Option<string>

    function State(): Conn
      reads this
    {
      Conn(data, end)
    }

    constructor (c: Conn)
      ensures State() == c
    {
      data, end := c.data, c.end;
    }

    method ReadFrom(limit: int) returns (bytes: string, err: Option<string>)
      modifies this
      ensures Chunk(bytes, err, State()) == ReadLimited(old(State()), limit)
    {
      var r := ReadLimited(State(), limit);
      bytes, err := r.bytes, r.err;
      data, end := r.rest.data, r.rest.end;
    }
  }

  // ---------------------------------------------------------------------------
  // Errors

  /** The errors the push context keeps or returns. `EndOfBody` is `io.EOF`. */
  datatype Failure =
    | EndOfBody
    | ReadFailed(cause: string)
    | TooBig(maxSize: I64)
    | ParseFailed(cause: string, reqLen: nat, maxSize: I64)
    | UnmarshalFailed(body: Value, rowError: HttpPut.Error)
    | FlushFailed(cause: string)

  /** `Error()`: `io.EOF` is a clean end, so no error; anything else is
      returned as it is. */
  function ErrorOf(err: Option<Failure>): (r: Option<Failure>)
    ensures r.None? <==> err.None? || err == Some(EndOfBody)
    ensures r.Some? ==> r == err
  {
    if err == Some(EndOfBody) then None else err
  }

  // ---------------------------------------------------------------------------
  // Read

  /** The state of a push context that `Read` looks at and changes: the request
      buffer, the error slot, and the rows and tag pool. */
  datatype Ctx = Ctx(reqBuf: string, err: Option<Failure>, rows: seq<Row>, pool: seq<Tag>)

  /** A context as `reset` leaves it. */
  const CleanCtx := Ctx([], None, [], [])

  /** The answer of `Read`, the context after it, and the body left to read. */
  datatype ReadResult = ReadResult(ok: bool, ctx: Ctx, conn: Conn)

  /** `Read(body, maxSize)`. A set error slot stops it at once. Otherwise at most
      `maxSize + 1` bytes (int64 arithmetic) are appended to the buffer; a read
      error, more than `maxSize` bytes, a parse error or an unmarshal error sets
      the slot and answers false; otherwise the rows are those of the whole
      buffer and the answer is true. */
  function ReadSpec(s: Ctx, c: Conn, maxSize: I64, parse: string -> Result<Value, string>): (r: ReadResult)
    ensures Fits(s.rows, s.pool) ==> Fits(r.ctx.rows, r.ctx.pool)
  {
    if s.err.Some? then ReadResult(false, s, c)
    else
      var ch := ReadLimited(c, Wrap(maxSize + 1));
      var buf := s.reqBuf + ch.bytes;
      if ch.err.Some? then ReadResult(false, s.(reqBuf := buf, err := Some(ReadFailed(ch.err.value))), ch.rest)
      else if |ch.bytes| > maxSize then ReadResult(false, s.(reqBuf := buf, err := Some(TooBig(maxSize))), ch.rest)
      else
        match parse(buf)
        case Err(e) => ReadResult(false, s.(reqBuf := buf, err := Some(ParseFailed(e, |ch.bytes|, maxSize))), ch.rest)
        case Ok(v) =>
          var b := UnmarshalBody(Some(v));
          BodyRows(Some(v));
          ReadResult(b.err.None?, Ctx(buf, if b.err.Some? then Some(UnmarshalFailed(v, b.err.value)) else None, b.rows, b.pool), ch.rest)
  }

  /** `Read` answers true exactly when the slot was clear, the body was read
      without error, no more than `maxSize` bytes came, and the buffer parses
      and unmarshals; the rows are then those of the parsed value. A set slot
      stays as it was. */
  lemma ReadOutcome(s: Ctx, c: Conn, maxSize: I64, parse: string -> Result<Value, string>)
    ensures var r := ReadSpec(s, c, maxSize, parse);
      var ch := ReadLimited(c, Wrap(maxSize + 1));
      && (s.err.Some? ==> r == ReadResult(false, s, c))
      && (r.ok <==>
            && s.err.None? && ch.err.None? && |ch.bytes| <= maxSize
            && parse(s.reqBuf + ch.bytes).Ok?
            && UnmarshalBody(Some(parse(s.reqBuf + ch.bytes).value)).err.None?)
      && (r.ok ==>
            var b := UnmarshalBody(Some(parse(s.reqBuf + ch.bytes).value));
            r.ctx == Ctx(s.reqBuf + ch.bytes, None, b.rows, b.pool))
      && (!r.ok ==> r.ctx.err.Some?)
  {
  }

  /** `Read` consumes at most `maxSize + 1` bytes, and reports the body as too
      big exactly when more than `maxSize` came without a read error. */
  lemma ReadBounded(s: Ctx, c: Conn, maxSize: I64, parse: string -> Result<Value, string>)
    requires s.err.None?
    ensures var r := ReadSpec(s, c, maxSize, parse);
      && |c.data| - |r.conn.data| <= Max(maxSize + 1, 0)
      && |s.reqBuf| <= |r.ctx.reqBuf| && r.ctx.reqBuf[..|s.reqBuf|] == s.reqBuf
      && c.data == (r.ctx.reqBuf[|s.reqBuf|..]) + r.conn.data
      && (r.ctx.err == Some(TooBig(maxSize)) <==>
            var ch := ReadLimited(c, Wrap(maxSize + 1)); ch.err.None? && |ch.bytes| > maxSize)
  {
    var ch := ReadLimited(c, Wrap(maxSize + 1));
    var r := ReadSpec(s, c, maxSize, parse);
    assert r.ctx.reqBuf == s.reqBuf + ch.bytes;
    assert r.ctx.reqBuf[|s.reqBuf|..] == ch.bytes;
    if maxSize + 1 < 0x8000_0000_0000_0000 {
      assert Wrap(maxSize + 1) == maxSize + 1;
    }
  }

  /** `Read` never stores `io.EOF`: every error it sets is a wrapped one. */
  lemma ReadNeverEndOfBody(s: Ctx, c: Conn, maxSize: I64, parse: string -> Result<Value, string>)
    requires s.err != Some(EndOfBody)
    ensures ReadSpec(s, c, maxSize, parse).ctx.err != Some(EndOfBody)
  {
  }

  // ---------------------------------------------------------------------------
  // InsertRows

  /** The labels of a row: the metric under the empty name, then its tags in
      pool order. */
  function RowLabels(row: Row, pool: seq<Tag>): (ls: seq<Label>)
    requires row.tagsStart + row.tagsLen <= |pool|
    ensures |ls| == row.tagsLen + 1 && ls[0] == Label("", row.metric)
    ensures forall j :: row.tagsStart <= j < row.tagsStart + row.tagsLen ==>
      ls[j - row.tagsStart + 1] == Label(pool[j].key, pool[j].value)
  {
    [Label("", row.metric)] + TagLabels(pool[row.tagsStart..row.tagsStart + row.tagsLen])
  }

  /** Tags as labels, in order. */
  function TagLabels(tags: seq<Tag>): (ls: seq<Label>)
    ensures |ls| == |tags|
    ensures forall j :: 0 <= j < |tags| ==> ls[j] == Label(tags[j].key, tags[j].value)
    decreases |tags|
  {
    if tags == [] then [] else TagLabels(tags[..|tags| - 1]) + [Label(tags[|tags| - 1].key, tags[|tags| - 1].value)]
  }

  /** The data point of a row. */
  function Point(row: Row, pool: seq<Tag>): Call
    requires row.tagsStart + row.tagsLen <= |pool|
  {
    Call.WriteDataPoint(RowLabels(row, pool), row.timestamp, row.value)
  }

  /** The data points of `rows`, one per row, in row order. */
  function Points(rows: seq<Row>, pool: seq<Tag>): (r: seq<Call>)
    requires Fits(rows, pool)
    decreases |rows|
  {
    if rows == [] then [] else Points(rows[..|rows| - 1], pool) + [Point(rows[|rows| - 1], pool)]
  }

  /** Exactly one data point per row, the i-th for the i-th row. */
  lemma {:induction false} PointsEach(rows: seq<Row>, pool: seq<Tag>)
    requires Fits(rows, pool)
    ensures |Points(rows, pool)| == |rows|
    ensures forall i :: 0 <= i < |rows| ==> Points(rows, pool)[i] == Point(rows[i], pool)
    decreases |rows|
  {
    if rows != [] {
      var init := rows[..|rows| - 1];
      PointsEach(init, pool);
      forall i | 0 <= i < |rows|
        ensures Points(rows, pool)[i] == Point(rows[i], pool)
      {
        if i < |rows| - 1 {
          assert rows[i] == init[i];
        }
      }
    }
  }

  /** The calls `InsertRows` makes: a reset sized to the rows, the data points,
      one flush. */
  function InsertCalls(rows: seq<Row>, pool: seq<Tag>): (r: seq<Call>)
    requires Fits(rows, pool)
  {
    [ResetCall(|rows|)] + Points(rows, pool) + [FlushCall]
  }

  /** `InsertRows` makes `|rows| + 2` calls: first the reset sized to the rows,
      then the i-th row's data point at position i + 1, last the flush. */
  lemma InsertCallsEach(rows: seq<Row>, pool: seq<Tag>)
    requires Fits(rows, pool)
    ensures var calls := InsertCalls(rows, pool);
      && |calls| == |rows| + 2
      && calls[0] == ResetCall(|rows|) && calls[|rows| + 1] == FlushCall
      && forall i :: 0 <= i < |rows| ==> calls[i + 1] == Point(rows[i], pool)
  {
    PointsEach(rows, pool);
  }

  /** From a JSON array all of whose elements are accepted, the data points
      carry, element by element, the metric, then the string-valued tags in
      member order, and the timestamp after the seconds rule. */
  lemma InsertedFromArray(es: seq<Value>, i: nat)
    requires UnmarshalBody(Some(Arr(es))).err.None? && i < |es|
    ensures var b := UnmarshalBody(Some(Arr(es)));
      Fits(b.rows, b.pool) && Accepts(es[i]) &&
      var p := Points(b.rows, b.pool);
      && |p| == |es|
      && p[i] == Call.WriteDataPoint(
           [Label("", GetStringBytes(es[i], "metric").value)] + TagLabels(StringTags(GetObject(es[i], "tags").value)),
           ReadTimestamp(Get(es[i], "timestamp").value).value,
           Float64(Get(es[i], "value").value).value)
  {
    var b := UnmarshalBody(Some(Arr(es)));
    BodyRows(Some(Arr(es)));
    PointsEach(b.rows, b.pool);
    assert RowOf(b.rows[i], b.pool, es[i]);
  }

  // ---------------------------------------------------------------------------
  // The push context

  /** `pushCtx`: the rows, the insert context, the request buffer and the
      error slot. */
  class PushCtx {
    const rows: HttpPut.Rows
    const common: InsertCtx
    var reqBuf: string
    var err: Option<Failure>

    /** The arena is consistent and its rows view only its pool. */
    ghost predicate Valid()
      reads this, rows
    {
      rows.Valid() && Fits(rows.RowList(), rows.Pool())
    }

    /** The part of the state `Read` works on. */
    function View(): Ctx
      reads this, rows
      requires rows.Valid()
    {
      Ctx(reqBuf, err, rows.RowList(), rows.Pool())
    }

    /** The zero `pushCtx{}`, with an insert context whose flushes answer
        `flushError`. */
    constructor (flushError: Option<string>)
      ensures Valid() && View() == CleanCtx && fresh(rows) && fresh(common)
      ensures common.trace == [] && common.flushError == flushError
    {
      rows := new HttpPut.Rows();
      common := new InsertCtx(flushError);
      reqBuf, err := [], None;
    }

    /** `Error()`. */
    function Error(): Option<Failure>
      reads this
    {
      ErrorOf(err)
    }

    /** `Read`: one round of read, parse and unmarshal, as `ReadSpec` says. */
    method Read(body: Body, maxSize: I64, parse: string -> Result<Value, string>) returns (ok: bool)
      requires Valid()
      modifies this, rows, body
      ensures Valid()
      ensures var r := ReadSpec(old(View()), old(body.State()), maxSize, parse);
        ok == r.ok && View() == r.ctx && body.State() == r.conn
      ensures common.trace == old(common.trace)
    {
      if err.Some? {
        return false;
      }
      var bytes, e := body.ReadFrom(Wrap(maxSize + 1));
      reqBuf := reqBuf + bytes;
      if e.Some? {
        err := Some(ReadFailed(e.value));
        return false;
      }
      if |bytes| > maxSize {
        err := Some(TooBig(maxSize));
        return false;
      }
      var pv := parse(reqBuf);
      if pv.Err? {
        err := Some(ParseFailed(pv.error, |bytes|, maxSize));
        return false;
      }
      var ue := rows.Unmarshal(Some(pv.value));
      BodyRows(Some(pv.value));
      if ue.Some? {
        err := Some(UnmarshalFailed(pv.value, ue.value));
        return false;
      }
      return true;
    }

    /** `InsertRows`: one data point per row, with the row's labels, between a
        reset and a flush; the flush's error is returned. */
    method InsertRows() returns (e: Option<Failure>)
      requires Valid()
      modifies common
      ensures common.trace == old(common.trace) + InsertCalls(rows.RowList(), rows.Pool())
      ensures e == if common.flushError.Some? then Some(FlushFailed(common.flushError.value)) else None
    {
      var rs := rows.RowList();
      var pool := rows.Pool();
      common.Reset(|rs|);
      WritePoints(rs, pool);
      var f := common.FlushBufs();
      assert common.trace == old(common.trace) + InsertCalls(rs, pool) by {
        ConcatAssoc(old(common.trace), [ResetCall(|rs|)], Points(rs, pool), [FlushCall]);
        Assoc(old(common.trace), [ResetCall(|rs|)], Points(rs, pool) + [FlushCall]);
      }
      e := if f.Some? then Some(FlushFailed(f.value)) else None;
    }

    /** The loop of `InsertRows`: one data point per row, in order. */
    method WritePoints(rs: seq<Row>, pool: seq<Tag>)
      requires Fits(rs, pool)
      modifies common
      ensures common.trace == old(common.trace) + Points(rs, pool)
    {
      var i := 0;
      while i < |rs|
        invariant i <= |rs|
        invariant common.trace == old(common.trace) + Points(rs[..i], pool)
      {
        WriteRow(rs[i], pool);
        assert rs[..i + 1][..i] == rs[..i];
        assert Points(rs[..i + 1], pool) == Points(rs[..i], pool) + [Point(rs[i], pool)];
        i := i + 1;
      }
      assert rs[..i] == rs;
    }

    /** The body of `InsertRows`' loop for one row: the labels start over with
        the metric, take the row's tags, and go out with one data point. */
    method WriteRow(r: Row, pool: seq<Tag>)
      requires r.tagsStart + r.tagsLen <= |pool|
      modifies common
      ensures common.trace == old(common.trace) + [Point(r, pool)]
    {
      common.labels := [];
      common.AddLabel("", r.metric);
      var tags := pool[r.tagsStart..r.tagsStart + r.tagsLen];
      var j := 0;
      while j < |tags|
        invariant j <= |tags|
        invariant common.labels == [Label("", r.metric)] + TagLabels(tags[..j])
        invariant common.trace == old(common.trace)
      {
        common.AddLabel(tags[j].key, tags[j].value);
        assert tags[..j + 1][..j] == tags[..j];
        j := j + 1;
      }
      assert tags[..j] == tags;
      common.WriteDataPoint(common.labels, r.timestamp, r.value);
    }

    /** `reset`: empty the rows and the buffer, reset the insert context, and
        clear the error slot. */
    method Reset()
      requires Valid()
      modifies this, rows, common
      ensures Valid() && View() == CleanCtx
      ensures common.trace == old(common.trace) + [ResetCall(0)]
    {
      rows.Reset();
      common.Reset(0);
      reqBuf := [];
      err := None;
    }
  }

  // ---------------------------------------------------------------------------
  // The handler loop

  /** How the handler ends: returning an error slot, or still looping when the
      model stops counting rounds. */
  datatype Outcome = Returned(err: Option<Failure>) | StillLooping

  /** The outcome and the insert calls made. */
  datatype Run = Run(outcome: Outcome, trace: seq<Call>)

  /** `for ctx.Read(r, maxSize) { if err := ctx.InsertRows(); err != nil {
      return err } }; return ctx.Error()`, for at most `fuel` rounds. */
  function Rounds(s: Ctx, c: Conn, maxSize: I64, parse: string -> Result<Value, string>,
                  flushError: Option<string>, trace: seq<Call>, fuel: nat): Run
    requires Fits(s.rows, s.pool)
    decreases fuel, 0
  {
    if fuel == 0 then Run(StillLooping, trace)
    else Round(s, c, maxSize, parse, flushError, trace, fuel - 1)
  }

  /** One round: `Read`, then the rest of the round, with `fuel` rounds left
      after it. */
  function Round(s: Ctx, c: Conn, maxSize: I64, parse: string -> Result<Value, string>,
                 flushError: Option<string>, trace: seq<Call>, fuel: nat): Run
    requires Fits(s.rows, s.pool)
    decreases fuel, 2
  {
    AfterRead(ReadSpec(s, c, maxSize, parse), maxSize, parse, flushError, trace, fuel)
  }

  /** The rest of a round once `Read` has answered, and the rounds after it. */
  function AfterRead(r: ReadResult, maxSize: I64, parse: string -> Result<Value, string>,
                     flushError: Option<string>, trace: seq<Call>, fuel: nat): Run
    requires Fits(r.ctx.rows, r.ctx.pool)
    decreases fuel, 1
  {
    if !r.ok then Run(Returned(ErrorOf(r.ctx.err)), trace)
    else
      var t := trace + InsertCalls(r.ctx.rows, r.ctx.pool);
      if flushError.Some? then Run(Returned(Some(FlushFailed(flushError.value))), t)
      else Rounds(r.ctx, r.conn, maxSize, parse, flushError, t, fuel)
  }

  /** One turn of the handler loop: `Read`, then `InsertRows` when it answers
      true. `ret` is what the handler returns when the turn ends it, `None` when
      the loop goes on; either way the turn takes the handler one round
      further. `goal` is what `Rounds` predicts from the state before the
      turn. */
  method Turn(ctx: PushCtx, body: Body, maxSize: I64, parse: string -> Result<Value, string>, fuel: nat,
              ghost goal: Run)
    returns (ret: Option<Option<Failure>>)
    requires ctx.Valid() && fuel > 0
    requires goal == Rounds(ctx.View(), body.State(), maxSize, parse, ctx.common.flushError, ctx.common.trace, fuel)
    modifies ctx, ctx.rows, ctx.common, body
    ensures ctx.Valid()
    ensures ret.Some? ==> goal == Run(Returned(ret.value), ctx.common.trace)
    ensures ret.None? ==>
      && ctx.common.flushError.None?
      && goal == Rounds(ctx.View(), body.State(), maxSize, parse, ctx.common.flushError, ctx.common.trace, fuel - 1)
  {
    ghost var s, c, t := ctx.View(), body.State(), ctx.common.trace;
    var ok := ctx.Read(body, maxSize, parse);
    if !ok {
      ret := Some(ctx.Error());
      RoundsStop(s, c, maxSize, parse, ctx.common.flushError, t, fuel, ret.value, t);
      return;
    }
    var e := ctx.InsertRows();
    if e.Some? {
      RoundsStop(s, c, maxSize, parse, ctx.common.flushError, t, fuel, e, ctx.common.trace);
      return Some(e);
    }
    RoundsStep(s, c, maxSize, parse, t, fuel);
    return None;
  }

  /** `insertHandlerInternal` on a clean context, for at most `fuel` rounds. */
  method Handle(body: Body, maxSize: I64, parse: string -> Result<Value, string>,
                flushError: Option<string>, fuel: nat) returns (run: Run)
    modifies body
    ensures run == Rounds(CleanCtx, old(body.State()), maxSize, parse, flushError, [], fuel)
  {
    var ctx := new PushCtx(flushError);
    run := Serve(ctx, body, maxSize, parse, fuel);
  }

  /** The handler loop on `ctx`: `Read`, then `InsertRows`, until a turn ends
      it or `fuel` rounds have run. */
  method Serve(ctx: PushCtx, body: Body, maxSize: I64, parse: string -> Result<Value, string>, fuel: nat)
    returns (run: Run)
    requires ctx.Valid()
    modifies ctx, ctx.rows, ctx.common, body
    ensures run == Rounds(old(ctx.View()), old(body.State()), maxSize, parse, ctx.common.flushError, old(ctx.common.trace), fuel)
  {
    ghost var goal := Rounds(ctx.View(), body.State(), maxSize, parse, ctx.common.flushError, ctx.common.trace, fuel);
    var n := fuel;
    while n > 0
      invariant ctx.Valid()
      invariant goal == Rounds(ctx.View(), body.State(), maxSize, parse, ctx.common.flushError, ctx.common.trace, n)
    {
      var ret := Turn(ctx, body, maxSize, parse, n, goal);
      if ret.Some? {
        return Run(Returned(ret.value), ctx.common.trace);
      }
      n := n - 1;
    }
    RoundsOut(ctx.View(), body.State(), maxSize, parse, ctx.common.flushError, ctx.common.trace);
    return Run(StillLooping, ctx.common.trace);
  }

  // ---------------------------------------------------------------------------
  // The loop as written inserts the same rows over and over

  /** `k` copies of `calls`, one after the other. */
  function Repeat(calls: seq<Call>, k: nat): (r: seq<Call>)
    ensures |r| == k * |calls|
  {
    if k == 0 then [] else calls + Repeat(calls, k - 1)
  }

  /** The rows of any body view only the pool. */
  lemma BodyFits(av: Option<Value>)
    ensures Fits(UnmarshalBody(av).rows, UnmarshalBody(av).pool)
  {
    BodyRows(av);
  }

  /** With no rounds left the handler is still looping and has made no further
      calls. */
  lemma RoundsOut(s: Ctx, c: Conn, maxSize: I64, parse: string -> Result<Value, string>,
                  flushError: Option<string>, trace: seq<Call>)
    requires Fits(s.rows, s.pool)
    ensures Rounds(s, c, maxSize, parse, flushError, trace, 0) == Run(StillLooping, trace)
  {
  }

  /** With rounds left, the handler reads and goes on from what `Read`
      answered. */
  lemma RoundsRead(s: Ctx, c: Conn, maxSize: I64, parse: string -> Result<Value, string>,
                   flushError: Option<string>, trace: seq<Call>, fuel: nat)
    requires Fits(s.rows, s.pool) && fuel > 0
    ensures Rounds(s, c, maxSize, parse, flushError, trace, fuel)
         == AfterRead(ReadSpec(s, c, maxSize, parse), maxSize, parse, flushError, trace, fuel - 1)
  {
    assert Rounds(s, c, maxSize, parse, flushError, trace, fuel) == Round(s, c, maxSize, parse, flushError, trace, fuel - 1);
  }

  /** A round that fails to read, or reads and then fails to flush, ends the
      handler with that error. */
  lemma RoundsStop(s: Ctx, c: Conn, maxSize: I64, parse: string -> Result<Value, string>,
                   flushError: Option<string>, trace: seq<Call>, fuel: nat, err: Option<Failure>, after: seq<Call>)
    requires Fits(s.rows, s.pool) && fuel > 0
    requires var r := ReadSpec(s, c, maxSize, parse);
      || (!r.ok && err == ErrorOf(r.ctx.err) && after == trace)
      || (r.ok && flushError.Some? && err == Some(FlushFailed(flushError.value))
          && after == trace + InsertCalls(r.ctx.rows, r.ctx.pool))
    ensures Rounds(s, c, maxSize, parse, flushError, trace, fuel) == Run(Returned(err), after)
  {
    RoundsRead(s, c, maxSize, parse, flushError, trace, fuel);
  }

  /** A round that reads successfully and whose flush succeeds hands the
      context and the body left over to the next round. */
  lemma RoundsStep(s: Ctx, c: Conn, maxSize: I64, parse: string -> Result<Value, string>,
                   trace: seq<Call>, fuel: nat)
    requires Fits(s.rows, s.pool) && fuel > 0 && ReadSpec(s, c, maxSize, parse).ok
    ensures var r := ReadSpec(s, c, maxSize, parse);
      Rounds(s, c, maxSize, parse, None, trace, fuel)
        == Rounds(r.ctx, r.conn, maxSize, parse, None, trace + InsertCalls(r.ctx.rows, r.ctx.pool), fuel - 1)
  {
    RoundsRead(s, c, maxSize, parse, None, trace, fuel);
  }

  /** The handler loop only ever adds calls: whatever happens in the rounds run
      from here, the calls already made stay first, in order. */
  lemma {:induction false} RoundsKeepTrace(s: Ctx, c: Conn, maxSize: I64, parse: string -> Result<Value, string>,
                                           flushError: Option<string>, trace: seq<Call>, fuel: nat)
    requires Fits(s.rows, s.pool)
    ensures trace <= Rounds(s, c, maxSize, parse, flushError, trace, fuel).trace
    decreases fuel, 0
  {
    if fuel > 0 {
      AfterReadKeepsTrace(ReadSpec(s, c, maxSize, parse), maxSize, parse, flushError, trace, fuel - 1);
    }
  }

  /** The same for the rest of a round once `Read` has answered. */
  lemma {:induction false} AfterReadKeepsTrace(r: ReadResult, maxSize: I64, parse: string -> Result<Value, string>,
                            flushError: Option<string>, trace: seq<Call>, fuel: nat)
    requires Fits(r.ctx.rows, r.ctx.pool)
    ensures trace <= AfterRead(r, maxSize, parse, flushError, trace, fuel).trace
    decreases fuel, 1
  {
    if r.ok && flushError.None? {
      var t := trace + InsertCalls(r.ctx.rows, r.ctx.pool);
      RoundsKeepTrace(r.ctx, r.conn, maxSize, parse, flushError, t, fuel);
      assert trace <= t;
      PrefixOfPrefix(trace, t, Rounds(r.ctx, r.conn, maxSize, parse, flushError, t, fuel).trace);
    }
  }

  /** Once the body is drained and the buffer holds an accepted document, every
      further round reads nothing, parses the same buffer, gets the same rows
      and inserts them again: the loop never returns on its own. */
  lemma {:induction false} RoundsRepeat(s: Ctx, c: Conn, maxSize: I64, parse: string -> Result<Value, string>,
                                        trace: seq<Call>, fuel: nat)
    requires c == Conn([], None) && 0 <= maxSize
    requires parse(s.reqBuf).Ok?
    requires var b := UnmarshalBody(Some(parse(s.reqBuf).value));
      b.err.None? && s == Ctx(s.reqBuf, None, b.rows, b.pool)
    ensures Fits(s.rows, s.pool)
    ensures Rounds(s, c, maxSize, parse, None, trace, fuel)
         == Run(StillLooping, trace + Repeat(InsertCalls(s.rows, s.pool), fuel))
    decreases fuel
  {
    BodyRows(Some(parse(s.reqBuf).value));
    if fuel > 0 {
      var r := ReadSpec(s, c, maxSize, parse);
      assert ReadLimited(c, Wrap(maxSize + 1)) == Chunk([], None, c);
      assert s.reqBuf + [] == s.reqBuf;
      assert r == ReadResult(true, s, c);
      var calls := InsertCalls(s.rows, s.pool);
      RoundsStep(s, c, maxSize, parse, trace, fuel);
      RoundsRepeat(s, c, maxSize, parse, trace + calls, fuel - 1);
      Assoc(trace, calls, Repeat(calls, fuel - 1));
    }
  }

  /** A body that fits in `maxSize` and ends cleanly is read whole by the first
      round. */
  lemma FirstRead(data: string, maxSize: I64, parse: string -> Result<Value, string>)
    requires |data| <= maxSize < 0x7FFF_FFFF_FFFF_FFFF
    ensures var r := ReadSpec(CleanCtx, Conn(data, None), maxSize, parse);
      && r.conn == Conn([], None) && r.ctx.reqBuf == data
      && (r.ok <==> parse(data).Ok? && UnmarshalBody(Some(parse(data).value)).err.None?)
      && (r.ok ==> var b := UnmarshalBody(Some(parse(data).value)); r.ctx == Ctx(data, None, b.rows, b.pool))
  {
    assert Wrap(maxSize + 1) == maxSize + 1;
    assert ReadLimited(Conn(data, None), maxSize + 1) == Chunk(data, None, Conn([], None));
    assert [] + data == data;
  }

  /** The first round of the handler on such a body reads it whole and inserts
      its rows. */
  lemma FirstRound(data: string, maxSize: I64, parse: string -> Result<Value, string>, fuel: nat)
    requires |data| <= maxSize < 0x7FFF_FFFF_FFFF_FFFF && fuel > 0
    requires parse(data).Ok? && UnmarshalBody(Some(parse(data).value)).err.None?
    ensures var b := UnmarshalBody(Some(parse(data).value));
      Fits(b.rows, b.pool) &&
      Rounds(CleanCtx, Conn(data, None), maxSize, parse, None, [], fuel)
        == Rounds(Ctx(data, None, b.rows, b.pool), Conn([], None), maxSize, parse, None, InsertCalls(b.rows, b.pool), fuel - 1)
  {
    var b := UnmarshalBody(Some(parse(data).value));
    BodyFits(Some(parse(data).value));
    FirstRead(data, maxSize, parse);
    RoundsStep(CleanCtx, Conn(data, None), maxSize, parse, [], fuel);
    assert [] + InsertCalls(b.rows, b.pool) == InsertCalls(b.rows, b.pool);
  }

  /** A body holding one accepted JSON document that fits in `maxSize` and ends
      cleanly: after `fuel` rounds the handler as written is still looping, and
      has inserted the document's rows `fuel` times. */
  lemma HandlerRepeatsInsert(data: string, maxSize: I64, parse: string -> Result<Value, string>, fuel: nat)
    requires |data| <= maxSize < 0x7FFF_FFFF_FFFF_FFFF
    requires parse(data).Ok? && UnmarshalBody(Some(parse(data).value)).err.None?
    ensures var b := UnmarshalBody(Some(parse(data).value));
      Fits(b.rows, b.pool) &&
      Rounds(CleanCtx, Conn(data, None), maxSize, parse, None, [], fuel)
        == Run(StillLooping, Repeat(InsertCalls(b.rows, b.pool), fuel))
  {
    var b := UnmarshalBody(Some(parse(data).value));
    BodyFits(Some(parse(data).value));
    if fuel > 0 {
      var calls := InsertCalls(b.rows, b.pool);
      RepeatedRounds(data, maxSize, parse, fuel);
      assert Repeat(calls, fuel) == calls + Repeat(calls, fuel - 1);
    } else {
      RoundsOut(CleanCtx, Conn(data, None), maxSize, parse, None, []);
    }
  }

  /** The same once at least one round runs: the first round's calls, then
      `fuel - 1` more copies of them. */
  lemma RepeatedRounds(data: string, maxSize: I64, parse: string -> Result<Value, string>, fuel: nat)
    requires |data| <= maxSize < 0x7FFF_FFFF_FFFF_FFFF && fuel > 0
    requires parse(data).Ok? && UnmarshalBody(Some(parse(data).value)).err.None?
    ensures var b := UnmarshalBody(Some(parse(data).value));
      Fits(b.rows, b.pool) &&
      Rounds(CleanCtx, Conn(data, None), maxSize, parse, None, [], fuel)
        == Run(StillLooping, InsertCalls(b.rows, b.pool) + Repeat(InsertCalls(b.rows, b.pool), fuel - 1))
  {
    var b := UnmarshalBody(Some(parse(data).value));
    var s := Ctx(data, None, b.rows, b.pool);
    FirstRound(data, maxSize, parse, fuel);
    assert s.reqBuf == data;
    RoundsRepeat(s, Conn([], None), maxSize, parse, InsertCalls(b.rows, b.pool), fuel - 1);
  }

  // ---------------------------------------------------------------------------
  // The handler as intended: read once, insert once

  /** Read the body once; on failure return `Error()`, otherwise insert the rows
      once and return what `InsertRows` returns. */
  function Once(c: Conn, maxSize: I64, parse: string -> Result<Value, string>, flushError: Option<string>): (run: Run)
    ensures run.outcome.Returned?
    ensures run.trace == [] || (run.trace[0].ResetCall? && run.trace[|run.trace| - 1] == FlushCall)
  {
    var r := ReadSpec(CleanCtx, c, maxSize, parse);
    if !r.ok then Run(Returned(ErrorOf(r.ctx.err)), [])
    else Run(Returned(if flushError.Some? then Some(FlushFailed(flushError.value)) else None),
             InsertCalls(r.ctx.rows, r.ctx.pool))
  }

  /** The read-once handler on a clean context. */
  method HandleOnce(body: Body, maxSize: I64, parse: string -> Result<Value, string>,
                    flushError: Option<string>) returns (run: Run)
    modifies body
    ensures run == Once(old(body.State()), maxSize, parse, flushError)
  {
    var ctx := new PushCtx(flushError);
    ghost var r := ReadSpec(CleanCtx, body.State(), maxSize, parse);
    var ok := ctx.Read(body, maxSize, parse);
    assert ok == r.ok && ctx.View() == r.ctx;
    if !ok {
      return Run(Returned(ctx.Error()), ctx.common.trace);
    }
    var e := ctx.InsertRows();
    return Run(Returned(e), ctx.common.trace);
  }

  /** The read-once handler always returns. For an accepted JSON array that fits
      in `maxSize` and ends cleanly, it writes one data point per element, in
      element order, between one reset and one flush, and returns the flush's
      outcome; a body that is not accepted writes nothing and returns an error. */
  lemma OnceInsertsEachRowOnce(data: string, maxSize: I64, parse: string -> Result<Value, string>,
                               flushError: Option<string>)
    requires |data| <= maxSize < 0x7FFF_FFFF_FFFF_FFFF
    ensures var run := Once(Conn(data, None), maxSize, parse, flushError);
      && run.outcome.Returned?
      && (flushError.None? ==> (run.trace == [] <==> run.outcome.err.Some?))
      && (parse(data).Ok? && parse(data).value.Arr? && UnmarshalBody(Some(parse(data).value)).err.None? ==>
            var es := parse(data).value.elems;
            var b := UnmarshalBody(Some(parse(data).value));
            && Fits(b.rows, b.pool)
            && RowsOf(b.rows, b.pool, es)
            && run.trace == [ResetCall(|es|)] + Points(b.rows, b.pool) + [FlushCall]
            && |Points(b.rows, b.pool)| == |es|
            && run.outcome.err == (if flushError.Some? then Some(FlushFailed(flushError.value)) else None))
      && (!(parse(data).Ok? && UnmarshalBody(Some(parse(data).value)).err.None?) ==>
            run.trace == [] && run.outcome.err.Some?)
  {
    FirstRead(data, maxSize, parse);
    if parse(data).Ok? {
      var b := UnmarshalBody(Some(parse(data).value));
      BodyRows(Some(parse(data).value));
      PointsEach(b.rows, b.pool);
    }
  }
}
