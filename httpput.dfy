/** The OpenTSDB HTTP `/api/put` body parser of app/vminsert/opentsdb-http/parser.go.

    A body is one JSON object or an array of them; each object carries `metric`,
    `timestamp`, `value` and `tags`. The parser fills a reusable arena, a row list
    and one tag pool shared by all rows, where every row views the contiguous pool
    range appended while it was parsed. The functions below state what the Go
    code leaves in the arena; the lemmas relate the result to the JSON value (the
    fields each row takes, the order in which missing fields are reported, the
    tags kept, the seconds-to-milliseconds rule); the class `Rows` at the end is
    the arena that the Go code updates in place, and its methods are proved to
    produce exactly what those functions say. */
module HttpPut {
  import opened Common
  import opened Json

  /** A tag `key: value`. */
  datatype Tag = Tag(key: string, value: string)

  /** A tag slot after `Tag.reset`. */
  const EmptyTag := Tag("", "")

  /** A parsed row. Go's `Row.Tags` is a slice of the shared tag pool; here it is
      the pool range `[tagsStart, tagsStart + tagsLen)`; a nil slice is (0, 0). */
  datatype Row = Row(metric: string, tagsStart: nat, tagsLen: nat, value: Float, timestamp: I64)

  /** A row slot after `Row.reset`. */
  const EmptyRow := Row("", 0, 0, ZeroFloat, 0)

  /** Why `Row.unmarshal` refused an object; each names the object. */
  datatype RowError =
    | MissingMetric(obj: Value)
    | MissingTimestamp(obj: Value)
    | InvalidTimestamp(obj: Value)
    | MissingValue(obj: Value)
    | InvalidValue(obj: Value)
    | MissingTags(obj: Value)

  /** The error `Unmarshal` returns. A refused row names the value it came from:
      the body itself when it is an object, else the array element. */
  datatype Error =
    | EmptyBody
    | BadRow(elem: Value, cause: RowError)
    | NotObjectOrArray(body: Value)

  // ---------------------------------------------------------------------------
  // Timestamps

  /** `SECOND_MASK`, as a 64-bit pattern: bits 32 to 62. */
  const SecondMask: bv64 := 0x7FFF_FFFF_0000_0000

  /** The mask meets a pattern exactly when the pattern's low 63 bits are 2^32 or
      more. */
  lemma SecondMaskBits(b: bv64)
    ensures b & SecondMask == 0 <==> b & 0x7FFF_FFFF_FFFF_FFFF < 0x1_0000_0000
  {
  }

  /** `ts & SECOND_MASK == 0`. The low 63 bits of the two's-complement pattern of
      `ts` hold `ts` modulo 2^63, so by `SecondMaskBits` the mask misses `ts`
      exactly when that remainder is below 2^32. That step from `ts` to its bit
      pattern is argued here, not proved. */
  predicate MaskClear(ts: I64) {
    ts % 0x8000_0000_0000_0000 < 0x1_0000_0000
  }

  /** The rule taken from OpenTSDB's `IncomingDataPoints.addPointInternal`: a
      timestamp the mask misses is read as seconds and multiplied by 1000, with
      Go's int64 wrap-around. */
  function ScaleTimestamp(ts: I64): I64 {
    if MaskClear(ts) then Wrap(ts * 1000) else ts
  }

  /** What the rule does, by range: every timestamp from 0 below 2^32 is scaled
      exactly; 2^32 and above is kept; a negative timestamp is kept unless it lies
      in the lowest 2^32 values of the range, where the product wraps. */
  lemma ScaleTimestampCases(ts: I64)
    ensures 0 <= ts < 0x1_0000_0000 ==> ScaleTimestamp(ts) == ts * 1000
    ensures ts >= 0x1_0000_0000 ==> ScaleTimestamp(ts) == ts
    ensures -0x8000_0000_0000_0000 + 0x1_0000_0000 <= ts < 0 ==> ScaleTimestamp(ts) == ts
    ensures ts < -0x8000_0000_0000_0000 + 0x1_0000_0000 ==> ScaleTimestamp(ts) == Wrap(ts * 1000)
  {
    if ts < 0 {
      assert ts % 0x8000_0000_0000_0000 == ts + 0x8000_0000_0000_0000;
    } else {
      assert ts % 0x8000_0000_0000_0000 == ts;
    }
  }

  /** The `timestamp` field: `Int64()`, or, when that fails, `int64(Float64() *
      1000)`, then the rule above; nothing when both conversions fail. */
  function ReadTimestamp(raw: Value): Option<I64> {
    match Int64(raw)
    case Some(ts) => Some(ScaleTimestamp(ts))
    case None =>
      match Float64(raw)
      case Some(f) => Some(ScaleTimestamp(f.millis))
      case None => None
  }

  /** A timestamp is read exactly when the field converts to an integer or to a
      float. An integer reading wins over the float one; a float-only field is
      taken as its milliseconds. Either way the seconds rule applies. */
  lemma ReadTimestampCases(raw: Value)
    ensures ReadTimestamp(raw).Some? <==> Int64(raw).Some? || Float64(raw).Some?
    ensures Int64(raw).Some? ==> ReadTimestamp(raw) == Some(ScaleTimestamp(Int64(raw).value))
    ensures Int64(raw).None? && Float64(raw).Some? ==>
      ReadTimestamp(raw) == Some(ScaleTimestamp(Float64(raw).value.millis))
  {
  }

  // ---------------------------------------------------------------------------
  // Tags

  /** The tag a member gives: one for a string value, none otherwise. */
  function Kept(m: Member): seq<Tag> {
    if m.value.Str? then [Tag(m.key, m.value.s)] else []
  }

  /** `unmarshalTags(pool, tags)`: visit the members in order, claim a pool slot
      for each, and give the slot back when the value is not a string. Defined
      member by member, as the visit runs. */
  function VisitTags(pool: seq<Tag>, ms: seq<Member>): (r: seq<Tag>)
    ensures |r| >= |pool|
    decreases |ms|
  {
    if ms == [] then pool else VisitTags(pool + Kept(ms[0]), ms[1..])
  }

  /** The tags of the string-valued members, in member order. */
  function StringTags(ms: seq<Member>): seq<Tag>
    decreases |ms|
  {
    if ms == [] then [] else Kept(ms[0]) + StringTags(ms[1..])
  }

  /** The visit appends exactly the string-valued members' tags to the pool. */
  lemma {:induction false} VisitTagsAppends(pool: seq<Tag>, ms: seq<Member>)
    ensures VisitTags(pool, ms) == pool + StringTags(ms)
    decreases |ms|
  {
    if ms != [] {
      VisitTagsAppends(pool + Kept(ms[0]), ms[1..]);
      Assoc(pool, Kept(ms[0]), StringTags(ms[1..]));
    }
  }

  /** A tag is kept exactly when some member carries its key and, as a string,
      its value; the members with other values are dropped. */
  lemma {:induction false} StringTagsMembers(ms: seq<Member>, t: Tag)
    ensures t in StringTags(ms) <==> Member(t.key, Str(t.value)) in ms
    decreases |ms|
  {
    if ms != [] {
      StringTagsMembers(ms[1..], t);
      assert ms == [ms[0]] + ms[1..];
      assert t in Kept(ms[0]) <==> ms[0] == Member(t.key, Str(t.value));
    }
  }

  /** When every value is a string, nothing is dropped: the i-th tag is the i-th
      member. */
  lemma {:induction false} StringTagsAll(ms: seq<Member>)
    requires forall i :: 0 <= i < |ms| ==> ms[i].value.Str?
    ensures |StringTags(ms)| == |ms|
    ensures forall i :: 0 <= i < |ms| ==> StringTags(ms)[i] == Tag(ms[i].key, ms[i].value.s)
    decreases |ms|
  {
    if ms != [] {
      StringTagsAll(ms[1..]);
      var rest := StringTags(ms[1..]);
      assert StringTags(ms) == [Tag(ms[0].key, ms[0].value.s)] + rest;
      forall i | 0 <= i < |ms|
        ensures StringTags(ms)[i] == Tag(ms[i].key, ms[i].value.s)
      {
        if i > 0 {
          assert StringTags(ms)[i] == rest[i - 1];
        }
      }
    }
  }

  // ---------------------------------------------------------------------------
  // One object

  /** What `Row.unmarshal` leaves in its row slot, the tag pool it returns, and
      its error. */
  datatype RowResult = RowResult(row: Row, pool: seq<Tag>, err: Option<RowError>)

  /** The shape every stage of `Row.unmarshal` promises: a refused object leaves
      the pool as it was and the row without a view; an accepted one views
      exactly the pool slots it appended. */
  predicate Shaped(pool: seq<Tag>, r: RowResult) {
    && (r.err.Some? ==> r.pool == pool && r.row.tagsStart == 0 && r.row.tagsLen == 0)
    && (r.err.None? ==> |r.pool| >= |pool| && r.row.tagsStart == |pool| && r.row.tagsLen == |r.pool| - |pool|)
  }

  /** `Row.unmarshal(o, pool)`. The slot is reset first, then each field is
      stored as soon as it is read; the fields are read in the order metric,
      timestamp, value, tags. */
  function UnmarshalObject(pool: seq<Tag>, o: Value): (r: RowResult)
    ensures Shaped(pool, r)
  {
    match GetStringBytes(o, "metric")
    case None => RowResult(EmptyRow, pool, Some(MissingMetric(o)))
    case Some(m) => AfterMetric(pool, o, EmptyRow.(metric := m))
  }

  /** After the metric: the timestamp. */
  function AfterMetric(pool: seq<Tag>, o: Value, row: Row): (r: RowResult)
    requires row.tagsStart == 0 && row.tagsLen == 0
    ensures Shaped(pool, r)
  {
    match Get(o, "timestamp")
    case None => RowResult(row, pool, Some(MissingTimestamp(o)))
    case Some(raw) =>
      match ReadTimestamp(raw)
      case None => RowResult(row, pool, Some(InvalidTimestamp(o)))
      case Some(ts) => AfterTimestamp(pool, o, row.(timestamp := ts))
  }

  /** After the timestamp: the value. */
  function AfterTimestamp(pool: seq<Tag>, o: Value, row: Row): (r: RowResult)
    requires row.tagsStart == 0 && row.tagsLen == 0
    ensures Shaped(pool, r)
  {
    match Get(o, "value")
    case None => RowResult(row, pool, Some(MissingValue(o)))
    case Some(raw) =>
      match Float64(raw)
      case None => RowResult(row, pool, Some(InvalidValue(o)))
      case Some(v) => AfterValue(pool, o, row.(value := v))
  }

  /** After the value: the tags, viewed by the row. */
  function AfterValue(pool: seq<Tag>, o: Value, row: Row): (r: RowResult)
    requires row.tagsStart == 0 && row.tagsLen == 0
    ensures Shaped(pool, r)
  {
    match GetObject(o, "tags")
    case None => RowResult(row, pool, Some(MissingTags(o)))
    case Some(ms) =>
      var p := VisitTags(pool, ms);
      RowResult(row.(tagsStart := |pool|, tagsLen := |p| - |pool|), p, None)
  }

  /** What `Row.unmarshal` demands of an object: a string `metric`, a
      `timestamp` one of the two conversions reads, a `value` read as a float,
      and an object `tags`. */
  predicate Accepts(o: Value) {
    && GetStringBytes(o, "metric").Some?
    && Get(o, "timestamp").Some? && ReadTimestamp(Get(o, "timestamp").value).Some?
    && Get(o, "value").Some? && Float64(Get(o, "value").value).Some?
    && GetObject(o, "tags").Some?
  }

  /** `row` is the row of the accepted object `o` in `pool`: the metric, the
      timestamp after the rule and the value are those of the fields, and the
      view holds exactly the string-valued tags of `o`, in order. */
  predicate RowOf(row: Row, pool: seq<Tag>, o: Value) {
    && Accepts(o)
    && row.metric == GetStringBytes(o, "metric").value
    && row.timestamp == ReadTimestamp(Get(o, "timestamp").value).value
    && row.value == Float64(Get(o, "value").value).value
    && row.tagsStart + row.tagsLen <= |pool|
    && pool[row.tagsStart..row.tagsStart + row.tagsLen] == StringTags(GetObject(o, "tags").value)
  }

  /** An object is accepted exactly when it has all four fields in readable
      form; its row then takes them unchanged and views the tags appended for it. */
  lemma ObjectAccepted(pool: seq<Tag>, o: Value)
    ensures UnmarshalObject(pool, o).err.None? <==> Accepts(o)
    ensures Accepts(o) ==>
      var r := UnmarshalObject(pool, o);
      r.pool == pool + StringTags(GetObject(o, "tags").value) && RowOf(r.row, r.pool, o)
  {
    if Accepts(o) {
      var ms := GetObject(o, "tags").value;
      var r := UnmarshalObject(pool, o);
      assert r.pool == VisitTags(pool, ms);
      VisitTagsAppends(pool, ms);
      assert r.pool[|pool|..] == StringTags(ms);
    }
  }

  /** The first missing or unreadable field, in the order metric, timestamp,
      value, tags, is the one reported. */
  lemma ObjectRejected(pool: seq<Tag>, o: Value)
    ensures var e := UnmarshalObject(pool, o).err;
      && (e == Some(MissingMetric(o)) <==> GetStringBytes(o, "metric").None?)
      && (e == Some(MissingTimestamp(o)) <==> GetStringBytes(o, "metric").Some? && Get(o, "timestamp").None?)
      && (e == Some(InvalidTimestamp(o)) <==>
            GetStringBytes(o, "metric").Some? && Get(o, "timestamp").Some? &&
            ReadTimestamp(Get(o, "timestamp").value).None?)
  {
  }

  /** The same for the value and the tags, once metric and timestamp are read. */
  lemma ObjectRejectedLater(pool: seq<Tag>, o: Value)
    requires GetStringBytes(o, "metric").Some? && Get(o, "timestamp").Some?
    requires ReadTimestamp(Get(o, "timestamp").value).Some?
    ensures var e := UnmarshalObject(pool, o).err;
      && (e == Some(MissingValue(o)) <==> Get(o, "value").None?)
      && (e == Some(InvalidValue(o)) <==> Get(o, "value").Some? && Float64(Get(o, "value").value).None?)
      && (e == Some(MissingTags(o)) <==>
            Get(o, "value").Some? && Float64(Get(o, "value").value).Some? && GetObject(o, "tags").None?)
  {
  }

  /** The error of an object does not depend on the pool it is parsed into. */
  lemma ObjectErrorIgnoresPool(p: seq<Tag>, q: seq<Tag>, o: Value)
    ensures UnmarshalObject(p, o).err == UnmarshalObject(q, o).err
  {
    ObjectAccepted(p, o);
    ObjectAccepted(q, o);
  }

  // ---------------------------------------------------------------------------
  // A whole body

  /** What `unmarshalRows` returns: the row list, the tag pool and the error. */
  datatype BodyResult = BodyResult(rows: seq<Row>, pool: seq<Tag>, err: Option<Error>)

  /** The array loop of `unmarshalRows`: one row slot per element, in order,
      stopping at the first element refused, whose slot stays on the list. */
  function UnmarshalElems(rows: seq<Row>, pool: seq<Tag>, es: seq<Value>): (r: BodyResult)
    ensures r.err.None? ==> |r.rows| == |rows| + |es|
    ensures r.err.Some? ==> |rows| < |r.rows| <= |rows| + |es|
    decreases |es|
  {
    if es == [] then BodyResult(rows, pool, None)
    else
      var rr := UnmarshalObject(pool, es[0]);
      if rr.err.Some? then BodyResult(rows + [rr.row], rr.pool, Some(BadRow(es[0], rr.err.value)))
      else UnmarshalElems(rows + [rr.row], rr.pool, es[1..])
  }

  /** `unmarshalRows(rows[:0], av, pool[:0])`: a missing body, an object, an
      array, or any other value. */
  function UnmarshalBody(av: Option<Value>): BodyResult {
    match av
    case None => BodyResult([], [], Some(EmptyBody))
    case Some(v) =>
      if v.Obj? then
        var rr := UnmarshalObject([], v);
        BodyResult([rr.row], rr.pool, if rr.err.Some? then Some(BadRow(v, rr.err.value)) else None)
      else if v.Arr? then UnmarshalElems([], [], v.elems)
      else BodyResult([], [], Some(NotObjectOrArray(v)))
  }

  /** An absent body is refused as empty; a body is accepted only when it is an
      object or an array, and an accepted array gives one row per element. */
  lemma BodyAccepted(av: Option<Value>)
    ensures av.None? ==> UnmarshalBody(av) == BodyResult([], [], Some(EmptyBody))
    ensures UnmarshalBody(av).err.None? ==> av.Some? && (av.value.Obj? || av.value.Arr?)
    ensures av.Some? && av.value.Arr? && UnmarshalBody(av).err.None? ==>
      |UnmarshalBody(av).rows| == |av.value.elems|
  {
  }

  /** A body that is neither an object nor an array is refused and yields no
      rows; an object yields exactly one row, accepted exactly when the object
      is. */
  lemma BodyShapes(v: Value)
    ensures !v.Obj? && !v.Arr? ==> UnmarshalBody(Some(v)) == BodyResult([], [], Some(NotObjectOrArray(v)))
    ensures v.Obj? ==> |UnmarshalBody(Some(v)).rows| == 1 && (UnmarshalBody(Some(v)).err.None? <==> Accepts(v))
    ensures v.Obj? && Accepts(v) ==> RowOf(UnmarshalBody(Some(v)).rows[0], UnmarshalBody(Some(v)).pool, v)
  {
    if v.Obj? {
      ObjectAccepted([], v);
    }
  }

  /** `rows` are the rows of the accepted objects `es`, one each, in order. */
  predicate RowsOf(rows: seq<Row>, pool: seq<Tag>, es: seq<Value>) {
    |rows| == |es| && forall i :: 0 <= i < |es| ==> RowOf(rows[i], pool, es[i])
  }

  /** A row stays the row of its object when the pool grows behind it. */
  lemma RowOfGrown(row: Row, p: seq<Tag>, q: seq<Tag>, o: Value)
    requires RowOf(row, p, o) && p <= q
    ensures RowOf(row, q, o)
  {
    assert q[row.tagsStart..row.tagsStart + row.tagsLen] == p[row.tagsStart..row.tagsStart + row.tagsLen];
  }

  /** The pool only grows: what was in it stays. */
  lemma {:induction false} ElemsKeepPool(rows: seq<Row>, pool: seq<Tag>, es: seq<Value>)
    ensures var r := UnmarshalElems(rows, pool, es);
      pool <= r.pool && r.rows[..|rows|] == rows
    decreases |es|
  {
    if es != [] {
      var rr := UnmarshalObject(pool, es[0]);
      if rr.err.None? {
        ObjectAccepted(pool, es[0]);
        ElemsKeepPool(rows + [rr.row], rr.pool, es[1..]);
        var r := UnmarshalElems(rows, pool, es);
        assert r == UnmarshalElems(rows + [rr.row], rr.pool, es[1..]);
        assert r.rows[..|rows|] == r.rows[..|rows| + 1][..|rows|];
      } else {
        assert (rows + [rr.row])[..|rows|] == rows;
      }
    }
  }

  /** An accepted array yields one row per element, in order, each the row of
      its element. */
  lemma {:induction false} ElemsAccepted(rows: seq<Row>, pool: seq<Tag>, es: seq<Value>)
    ensures var r := UnmarshalElems(rows, pool, es);
      r.err.None? ==> RowsOf(r.rows[|rows|..], r.pool, es)
    decreases |es|
  {
    var r := UnmarshalElems(rows, pool, es);
    if es == [] {
      assert r.rows[|rows|..] == [];
    } else {
      var rr := UnmarshalObject(pool, es[0]);
      if rr.err.None? {
        ObjectAccepted(pool, es[0]);
        assert r == UnmarshalElems(rows + [rr.row], rr.pool, es[1..]);
        ElemsAccepted(rows + [rr.row], rr.pool, es[1..]);
        ElemsKeepPool(rows + [rr.row], rr.pool, es[1..]);
        if r.err.None? {
          RowOfGrown(rr.row, rr.pool, r.pool, es[0]);
          ElemsAcceptedCons(rows, rr.row, r, es);
        }
      }
    }
  }

  /** One element of `UnmarshalElems`: its row is appended, and the rest follow
      unless it is refused. */
  lemma ElemsCons(rows: seq<Row>, pool: seq<Tag>, es: seq<Value>)
    requires es != []
    ensures var rr := UnmarshalObject(pool, es[0]);
      UnmarshalElems(rows, pool, es)
        == if rr.err.Some? then BodyResult(rows + [rr.row], rr.pool, Some(BadRow(es[0], rr.err.value)))
           else UnmarshalElems(rows + [rr.row], rr.pool, es[1..])
  {
  }

  /** The step of `ElemsAccepted`: the first element's row in front of the rows
      of the others. */
  lemma ElemsAcceptedCons(rows: seq<Row>, row: Row, r: BodyResult, es: seq<Value>)
    requires es != [] && |r.rows| >= |rows| + 1 && r.rows[..|rows| + 1] == rows + [row]
    requires RowOf(row, r.pool, es[0]) && RowsOf(r.rows[|rows| + 1..], r.pool, es[1..])
    ensures RowsOf(r.rows[|rows|..], r.pool, es)
  {
    var tail := r.rows[|rows|..];
    assert tail[0] == row by {
      assert r.rows[|rows|] == (rows + [row])[|rows|];
    }
    forall i | 0 <= i < |es|
      ensures RowOf(tail[i], r.pool, es[i])
    {
      if i > 0 {
        assert tail[i] == r.rows[|rows| + 1..][i - 1];
      }
    }
  }

  /** A refused array names the first refused element, with the reason its
      object gives; every element before it was accepted. */
  predicate NamesFailingElem(start: nat, es: seq<Value>, r: BodyResult) {
    r.err.Some? ==>
      var i := |r.rows| - start - 1;
      && 0 <= i < |es|
      && UnmarshalObject([], es[i]).err.Some?
      && r.err.value == BadRow(es[i], UnmarshalObject([], es[i]).err.value)
      && forall j :: 0 <= j < i ==> Accepts(es[j])
  }

  /** On failure, the error names the first refused element. */
  lemma {:induction false} ElemsRejected(rows: seq<Row>, pool: seq<Tag>, es: seq<Value>)
    ensures NamesFailingElem(|rows|, es, UnmarshalElems(rows, pool, es))
    decreases |es|
  {
    if es != [] {
      var rr := UnmarshalObject(pool, es[0]);
      ObjectErrorIgnoresPool(pool, [], es[0]);
      if rr.err.None? {
        ObjectAccepted(pool, es[0]);
        ElemsRejected(rows + [rr.row], rr.pool, es[1..]);
        assert UnmarshalElems(rows, pool, es) == UnmarshalElems(rows + [rr.row], rr.pool, es[1..]);
        RejectedLater(|rows|, es, UnmarshalElems(rows, pool, es));
      }
    }
  }

  /** The step of `ElemsRejected` where a later element fails. */
  lemma RejectedLater(start: nat, es: seq<Value>, r: BodyResult)
    requires es != [] && Accepts(es[0]) && NamesFailingElem(start + 1, es[1..], r)
    ensures NamesFailingElem(start, es, r)
  {
    if r.err.Some? {
      var i := |r.rows| - start - 1;
      assert es[i] == es[1..][i - 1];
      forall j | 0 <= j < i
        ensures Accepts(es[j])
      {
        if j > 0 {
          assert es[j] == es[1..][j - 1];
        }
      }
    }
  }

  /** Every row's view lies inside the pool. */
  predicate Fits(rows: seq<Row>, pool: seq<Tag>) {
    forall i :: 0 <= i < |rows| ==> rows[i].tagsStart + rows[i].tagsLen <= |pool|
  }

  /** The rows of any result view only the pool they come with. */
  lemma {:induction false} ElemsFit(rows: seq<Row>, pool: seq<Tag>, es: seq<Value>)
    requires Fits(rows, pool)
    ensures var r := UnmarshalElems(rows, pool, es); Fits(r.rows, r.pool)
    decreases |es|
  {
    if es != [] {
      var rr := UnmarshalObject(pool, es[0]);
      FitsSnoc(rows, pool, rr.row, rr.pool);
      if rr.err.None? {
        ElemsFit(rows + [rr.row], rr.pool, es[1..]);
      }
    }
  }

  /** A row viewing inside a grown pool extends rows that fit the old one. */
  lemma FitsSnoc(rows: seq<Row>, pool: seq<Tag>, row: Row, grown: seq<Tag>)
    requires Fits(rows, pool) && |pool| <= |grown| && row.tagsStart + row.tagsLen <= |grown|
    ensures Fits(rows + [row], grown)
  {
  }

  /** Every body's rows fit its pool; an array is accepted exactly when all its
      elements are, and then gives one row per element. */
  lemma BodyRows(av: Option<Value>)
    ensures Fits(UnmarshalBody(av).rows, UnmarshalBody(av).pool)
    ensures av.Some? && av.value.Arr? ==>
      var r := UnmarshalBody(av);
      && (r.err.None? ==> RowsOf(r.rows, r.pool, av.value.elems))
      && NamesFailingElem(0, av.value.elems, r)
  {
    if av.Some? && av.value.Arr? {
      var es := av.value.elems;
      ElemsFit([], [], es);
      ElemsAccepted([], [], es);
      ElemsRejected([], [], es);
      assert UnmarshalBody(av).rows[0..] == UnmarshalBody(av).rows;
    }
  }

  // ---------------------------------------------------------------------------
  // The arena

  /** `Rows`: the parsed rows and the tag pool they share. Go slices keep spare
      capacity behind their length; `rowBuf` and `tagBuf` are the backing arrays
      up to their capacity and `rowLen`, `tagLen` the lengths in use. */
  class Rows {
    var rowBuf: seq<Row>
    var rowLen: nat
    var tagBuf: seq<Tag>
    var tagLen: nat

    /** The lengths in use fit the backing arrays. */
    ghost predicate Valid()
      reads this
    {
      rowLen <= |rowBuf| && tagLen <= |tagBuf|
    }

    /** `rs.Rows`. */
    function RowList(): seq<Row>
      reads this
      requires Valid()
    {
      rowBuf[..rowLen]
    }

    /** `rs.tagsPool`. */
    function Pool(): seq<Tag>
      reads this
      requires Valid()
    {
      tagBuf[..tagLen]
    }

    /** The zero `Rows{}`. */
    constructor ()
      ensures Valid() && rowBuf == [] && rowLen == 0 && tagBuf == [] && tagLen == 0
    {
      rowBuf, rowLen, tagBuf, tagLen := [], 0, [], 0;
    }

    /** `Reset`: clear every slot in use and truncate both lists to length 0,
        keeping the capacity and whatever the spare slots hold. Resetting an
        arena already at length 0 changes nothing, so a second `Reset` is a no-op. */
    method Reset()
      requires Valid()
      modifies this
      ensures Valid() && rowLen == 0 && tagLen == 0
      ensures rowBuf == ZeroSlots(old(rowBuf), old(rowLen), EmptyRow)
      ensures tagBuf == ZeroSlots(old(tagBuf), old(tagLen), EmptyTag)
      ensures old(rowLen) == 0 && old(tagLen) == 0 ==> rowBuf == old(rowBuf) && tagBuf == old(tagBuf)
    {
      var i := 0;
      while i < rowLen
        invariant i <= rowLen <= |rowBuf| == |old(rowBuf)|
        invariant rowLen == old(rowLen) && tagLen == old(tagLen) && tagBuf == old(tagBuf)
        invariant forall j :: 0 <= j < i ==> rowBuf[j] == EmptyRow
        invariant rowBuf[i..] == old(rowBuf)[i..]
      {
        rowBuf := rowBuf[i := EmptyRow];
        i := i + 1;
      }
      ZeroSlotsUnique(old(rowBuf), rowLen, EmptyRow, rowBuf);
      rowLen := 0;
      i := 0;
      while i < tagLen
        invariant i <= tagLen <= |tagBuf| == |old(tagBuf)|
        invariant tagLen == old(tagLen)
        invariant rowLen == 0 && rowBuf == ZeroSlots(old(rowBuf), old(rowLen), EmptyRow)
        invariant forall j :: 0 <= j < i ==> tagBuf[j] == EmptyTag
        invariant tagBuf[i..] == old(tagBuf)[i..]
      {
        tagBuf := tagBuf[i := EmptyTag];
        i := i + 1;
      }
      ZeroSlotsUnique(old(tagBuf), tagLen, EmptyTag, tagBuf);
      tagLen := 0;
    }

    /** The capacity check of `unmarshalRows`: extend the row list by one slot,
        reusing the spare slot with its old content when there is one and
        appending a zero `Row` otherwise. */
    method AddRowSlot()
      requires Valid()
      modifies this
      ensures Valid() && rowLen == old(rowLen) + 1
      ensures rowBuf == if old(rowLen) < |old(rowBuf)| then old(rowBuf) else old(rowBuf) + [EmptyRow]
      ensures tagBuf == old(tagBuf) && tagLen == old(tagLen)
    {
      if rowLen == |rowBuf| {
        rowBuf := rowBuf + [EmptyRow];
      }
      rowLen := rowLen + 1;
    }

    /** The capacity check of the visit in `unmarshalTags`, as `AddRowSlot` for
        tags. */
    method AddTagSlot()
      requires Valid()
      modifies this
      ensures Valid() && tagLen == old(tagLen) + 1
      ensures tagBuf == if old(tagLen) < |old(tagBuf)| then old(tagBuf) else old(tagBuf) + [EmptyTag]
      ensures rowBuf == old(rowBuf) && rowLen == old(rowLen)
    {
      if tagLen == |tagBuf| {
        tagBuf := tagBuf + [EmptyTag];
      }
      tagLen := tagLen + 1;
    }

    /** One call of the visit callback in `unmarshalTags`: claim a slot, and
        either store the member's tag in it or, for a value that is not a
        string, give it back. */
    method VisitMember(m: Member)
      requires Valid()
      modifies this
      ensures Valid() && rowBuf == old(rowBuf) && rowLen == old(rowLen)
      ensures Pool() == old(Pool()) + Kept(m)
      ensures |tagBuf| >= |old(tagBuf)|
    {
      ghost var buf, len := tagBuf, tagLen;
      AddTagSlot();
      if !m.value.Str? {
        tagLen := tagLen - 1;
        assert Pool() == buf[..len];
        return;
      }
      tagBuf := tagBuf[tagLen - 1 := Tag(m.key, m.value.s)];
      PushSlot(buf, len, EmptyTag, Tag(m.key, m.value.s));
    }

    /** `unmarshalTags`: append the tags of the string-valued members to the
        pool, in order. */
    method UnmarshalTags(ms: seq<Member>)
      requires Valid()
      modifies this
      ensures Valid() && rowBuf == old(rowBuf) && rowLen == old(rowLen)
      ensures Pool() == VisitTags(old(Pool()), ms)
      ensures |tagBuf| >= |old(tagBuf)|
    {
      var i := 0;
      while i < |ms|
        invariant i <= |ms|
        invariant Valid() && rowBuf == old(rowBuf) && rowLen == old(rowLen)
        invariant VisitTags(old(Pool()), ms) == VisitTags(Pool(), ms[i..])
        invariant |tagBuf| >= |old(tagBuf)|
      {
        ghost var pool := Pool();
        VisitMember(ms[i]);
        assert ms[i..][0] == ms[i] && ms[i..][1..] == ms[i + 1..];
        assert VisitTags(pool, ms[i..]) == VisitTags(Pool(), ms[i + 1..]);
        i := i + 1;
      }
    }

    /** The timestamp block of `Row.unmarshal`: `Int64()`, then `Float64()`
        scaled to milliseconds when that fails, then the mask rule. */
    static method ReadTimestampOf(raw: Value) returns (ts: Option<I64>)
      ensures ts == ReadTimestamp(raw)
    {
      var t := Int64(raw);
      if t.None? {
        var f := Float64(raw);
        if f.None? {
          return None;
        }
        t := Some(f.value.millis);
      }
      var v := t.value;
      if MaskClear(v) {
        v := Wrap(v as int * 1000);
      }
      return Some(v);
    }

    /** `Row.unmarshal` of object `o` into row slot `k`: the slot is reset, then
        filled field by field. The row is built in a local and stored in the
        slot on every exit; nothing reads the slot in between. */
    method UnmarshalRow(k: nat, o: Value) returns (err: Option<RowError>)
      requires Valid() && k < |rowBuf|
      modifies this
      ensures Valid() && rowLen == old(rowLen)
      ensures var rr := UnmarshalObject(old(Pool()), o);
        rowBuf == old(rowBuf)[k := rr.row] && Pool() == rr.pool && err == rr.err
      ensures |tagBuf| >= |old(tagBuf)|
    {
      ghost var pool := Pool();
      var r := EmptyRow;
      var m := GetStringBytes(o, "metric");
      if m.None? {
        assert UnmarshalObject(pool, o) == RowResult(r, pool, Some(MissingMetric(o)));
        rowBuf := rowBuf[k := r];
        return Some(MissingMetric(o));
      }
      r := r.(metric := m.value);
      assert UnmarshalObject(pool, o) == AfterMetric(pool, o, r);
      var rawTs := Get(o, "timestamp");
      if rawTs.Some? {
        var ts := ReadTimestampOf(rawTs.value);
        if ts.None? {
          assert UnmarshalObject(pool, o) == RowResult(r, pool, Some(InvalidTimestamp(o)));
          rowBuf := rowBuf[k := r];
          return Some(InvalidTimestamp(o));
        }
        r := r.(timestamp := ts.value);
      } else {
        assert UnmarshalObject(pool, o) == RowResult(r, pool, Some(MissingTimestamp(o)));
        rowBuf := rowBuf[k := r];
        return Some(MissingTimestamp(o));
      }
      assert UnmarshalObject(pool, o) == AfterTimestamp(pool, o, r);
      var rawV := Get(o, "value");
      if rawV.Some? {
        var v := Float64(rawV.value);
        if v.None? {
          assert UnmarshalObject(pool, o) == RowResult(r, pool, Some(InvalidValue(o)));
          rowBuf := rowBuf[k := r];
          return Some(InvalidValue(o));
        }
        r := r.(value := v.value);
      } else {
        assert UnmarshalObject(pool, o) == RowResult(r, pool, Some(MissingValue(o)));
        rowBuf := rowBuf[k := r];
        return Some(MissingValue(o));
      }
      assert UnmarshalObject(pool, o) == AfterValue(pool, o, r);
      var rawTags := GetObject(o, "tags");
      if rawTags.None? {
        assert UnmarshalObject(pool, o) == RowResult(r, pool, Some(MissingTags(o)));
        rowBuf := rowBuf[k := r];
        return Some(MissingTags(o));
      }
      var tagsStart := tagLen;
      UnmarshalTags(rawTags.value);
      var done := r.(tagsStart := tagsStart, tagsLen := tagLen - tagsStart);
      assert UnmarshalObject(pool, o) == RowResult(done, Pool(), None);
      rowBuf := rowBuf[k := done];
      return None;
    }

    /** One row of `unmarshalRows`: grow the row list by a slot and unmarshal
        `o` into it. The slot stays on the list whatever the outcome. */
    method PushRow(o: Value) returns (err: Option<RowError>)
      requires Valid()
      modifies this
      ensures Valid() && rowLen == old(rowLen) + 1
      ensures var rr := UnmarshalObject(old(Pool()), o);
        RowList() == old(RowList()) + [rr.row] && Pool() == rr.pool && err == rr.err
      ensures |rowBuf| == Max(|old(rowBuf)|, rowLen)
      ensures rowLen <= |old(rowBuf)| ==> rowBuf[rowLen..] == old(rowBuf)[rowLen..]
      ensures |tagBuf| >= |old(tagBuf)|
    {
      ghost var pool, buf, len := Pool(), rowBuf, rowLen;
      AddRowSlot();
      err := UnmarshalRow(rowLen - 1, o);
      PushSlot(buf, len, EmptyRow, UnmarshalObject(pool, o).row);
    }

    /** One round of the array loop: a row slot for the first element of `es`;
        the rest are left to the next rounds unless it is refused. */
    method PushElem(es: seq<Value>) returns (err: Option<RowError>)
      requires Valid() && es != []
      modifies this
      ensures Valid() && rowLen == old(rowLen) + 1
      ensures var r := UnmarshalElems(old(RowList()), old(Pool()), es);
        if err.Some? then r == BodyResult(RowList(), Pool(), Some(BadRow(es[0], err.value)))
        else r == UnmarshalElems(RowList(), Pool(), es[1..])
      ensures |rowBuf| == Max(|old(rowBuf)|, rowLen)
      ensures rowLen <= |old(rowBuf)| ==> rowBuf[rowLen..] == old(rowBuf)[rowLen..]
      ensures |tagBuf| >= |old(tagBuf)|
    {
      ElemsCons(RowList(), Pool(), es);
      err := PushRow(es[0]);
    }

    /** The array branch of `unmarshalRows`: one row slot per element, in
        order, stopping at the first element refused. */
    method UnmarshalArray(a: seq<Value>) returns (err: Option<Error>)
      requires Valid()
      modifies this
      ensures Valid()
      ensures BodyResult(RowList(), Pool(), err) == UnmarshalElems(old(RowList()), old(Pool()), a)
      ensures |rowBuf| == Max(|old(rowBuf)|, rowLen)
      ensures rowLen <= |old(rowBuf)| ==> rowBuf[rowLen..] == old(rowBuf)[rowLen..]
      ensures |tagBuf| >= |old(tagBuf)|
    {
      ghost var goal := UnmarshalElems(RowList(), Pool(), a);
      var i := 0;
      while i < |a|
        invariant i <= |a|
        invariant Valid()
        invariant goal == UnmarshalElems(RowList(), Pool(), a[i..])
        invariant |rowBuf| == Max(|old(rowBuf)|, rowLen)
        invariant rowLen <= |old(rowBuf)| ==> rowBuf[rowLen..] == old(rowBuf)[rowLen..]
        invariant |tagBuf| >= |old(tagBuf)|
      {
        ghost var buf := rowBuf;
        var e := PushElem(a[i..]);
        assert a[i..][1..] == a[i + 1..];
        if rowLen <= |old(rowBuf)| {
          SuffixOfSuffix(rowBuf, buf, old(rowBuf), rowLen - 1);
        }
        if e.Some? {
          return Some(BadRow(a[i], e.value));
        }
        i := i + 1;
      }
      return None;
    }

    /** `Unmarshal`: parse the JSON value `av` (None for Go's nil) into the
        arena. Parsing starts from length 0, so earlier content is replaced, not
        appended to; row slots beyond the old capacity are appended one by one,
        so the spare row slots keep their content. */
    method Unmarshal(av: Option<Value>) returns (err: Option<Error>)
      requires Valid()
      modifies this
      ensures Valid()
      ensures BodyResult(RowList(), Pool(), err) == UnmarshalBody(av)
      ensures |rowBuf| == Max(|old(rowBuf)|, rowLen)
      ensures rowLen <= |old(rowBuf)| ==> rowBuf[rowLen..] == old(rowBuf)[rowLen..]
      ensures |tagBuf| >= |old(tagBuf)|
    {
      rowLen, tagLen := 0, 0;
      if av.None? {
        return Some(EmptyBody);
      }
      var v := av.value;
      if v.Obj? {
        var e := PushRow(v);
        if e.Some? {
          return Some(BadRow(v, e.value));
        }
        return None;
      } else if v.Arr? {
        err := UnmarshalArray(v.elems);
      } else {
        return Some(NotObjectOrArray(v));
      }
    }
  }
}
