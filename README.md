# OpenTSDB ingestion in vminsert, modelled in Dafny

This project models how VictoriaMetrics' `vminsert` takes in OpenTSDB data
points, and proves properties of that model. It covers three pieces:

- the telnet `put` line parser (`app/vminsert/opentsdb/parser.go`);
- the HTTP `/api/put` JSON body parser (`app/vminsert/opentsdb-http/parser.go`);
- the HTTP request handler that reads a body, parses it, unmarshals it and
  hands each row to the insert context (`app/vminsert/opentsdb-http/request_handler.go`).

Both parsers fill a reusable `Rows` arena in place. The arena holds a row buffer
and a shared tag pool. Each row views a slice of the pool, and slots past the
current length are kept for reuse.

- `Telnet.Rows` and `HttpPut.Rows` are classes over `seq` fields that hold
  those buffers and lengths. Their methods change the buffers step by step, as
  the Go loops do.
- Each method is proved against a specification function over values:
  `UnmarshalText` for telnet and `UnmarshalBody` for JSON. The lemmas about
  those functions state what the parsers promise: round trips, which input
  fails and why, tag order, and how rows tile the pool.
- The handler's `pushCtx` is the class `Push.PushCtx`. Its insert context is
  the class `Push.InsertCtx`, which records the calls it receives as a trace.
  The request body is `Push.Body`, which gives out its data and then an end
  marker.

Modules:

- `Common`: options, results, `I64`, byte search and slot helpers.
- `Json`: parsed JSON values and the fastjson accessors the parser calls.
- `Telnet`: the telnet parser.
- `HttpPut`: the JSON parser.
- `Push`: the request handler.

## Model

| member | source | states |
|---|---|---|
| Telnet.ParseTag | app/vminsert/opentsdb/parser.go:165-177 | an accepted tag has a non-empty key; a refused segment is reported as given |
| Telnet.ParseTagCases | app/vminsert/opentsdb/parser.go:165-177 | a segment without `=` is refused as a missing value, exactly; a segment starting with `=` is refused as an empty key, exactly; an accepted tag's key has no `=` and `key=value` rebuilds the segment |
| Telnet.ParseTagOfFormat | app/vminsert/opentsdb/parser.go:165-177 | `key=value` with a non-empty key free of `=` parses back to the same tag |
| Telnet.AppendTags | app/vminsert/opentsdb/parser.go:130-152 | the pool never shrinks, and a tag section that is accepted adds at least one tag |
| Telnet.AppendTagsKeeps | app/vminsert/opentsdb/parser.go:130-152 | the tags already in the pool are never changed, even when the section is refused |
| Telnet.AppendTagsWellFormed | app/vminsert/opentsdb/parser.go:130-152 | when every tag in the pool is well formed (a non-empty key free of `=` and spaces, a value free of spaces), so is every tag after the section is appended |
| Telnet.TagsRoundTrip | app/vminsert/opentsdb/parser.go:130-152 | tags joined by single spaces parse back to exactly those tags, appended in order |
| Telnet.TagsAccepted | app/vminsert/opentsdb/parser.go:130-152 | an accepted section is exactly the tags it added, joined by single spaces |
| Telnet.DoubleSpaceRejected | app/vminsert/opentsdb/parser.go:139-150 | a double space after valid tags fails with a missing value for the empty segment, and the tags before it stay in the pool |
| Telnet.EmptySegment | app/vminsert/opentsdb/parser.go:139-149 | a section starting with a space fails at once, leaving the pool as it was |
| Telnet.TagsRejected | app/vminsert/opentsdb/parser.go:139-150 | a refused segment after well-formed tags stops the section there: the tags before it stay in the pool, its own slot is taken back, and its reason is the error |
| Telnet.TagsErrorIgnoresPool | app/vminsert/opentsdb/parser.go:130-152 | whether a tag section is refused, and why, does not depend on the pool |
| Telnet.UnmarshalLine | app/vminsert/opentsdb/parser.go:61-93 | an accepted line's row views exactly the non-empty run of tags it appended; a refused line's row views nothing |
| Telnet.AfterPrefix | app/vminsert/opentsdb/parser.go:66-93 | the same shape guarantee, from the metric field on |
| Telnet.AfterMetric | app/vminsert/opentsdb/parser.go:72-93 | the same shape guarantee, from the timestamp field on |
| Telnet.AfterTimestamp | app/vminsert/opentsdb/parser.go:78-93 | the same shape guarantee, from the value field on |
| Telnet.AfterValue | app/vminsert/opentsdb/parser.go:84-92 | the same shape guarantee, for the tag section |
| Telnet.LineRoundTrip | app/vminsert/opentsdb/parser.go:61-93 | `put m ts v tags` with space-free fields and well-formed tags parses to a row holding those fields and viewing exactly those tags |
| Telnet.LineAccepted | app/vminsert/opentsdb/parser.go:61-93 | an accepted line is `put `, then the row's three space-free fields, then the tags it added; the pool before it is unchanged |
| Telnet.LineAcceptedFields | app/vminsert/opentsdb/parser.go:61-93 | an accepted line split into its fields gives the row of those fields and the pool of its tag section |
| Telnet.NoTagSectionRejected | app/vminsert/opentsdb/parser.go:79-82 | `put m ts v` with no tag section fails for the missing space after the value |
| Telnet.LineRejected | app/vminsert/opentsdb/parser.go:63-72 | the missing `put ` prefix is reported exactly when the line lacks it; the missing space after the metric exactly when the text after `put ` holds no space |
| Telnet.LineRejectedAfterMetric | app/vminsert/opentsdb/parser.go:73-76 | once the metric is cut, the missing space after the timestamp is reported exactly when the text after the metric holds no space |
| Telnet.LineRejectedAfterTimestamp | app/vminsert/opentsdb/parser.go:79-82 | once metric and timestamp are cut, the missing space after the value is reported exactly when the text after the timestamp holds no space |
| Telnet.LineTagsRejected | app/vminsert/opentsdb/parser.go:84-89 | once all three fields are cut, the line is refused exactly when its tag section is, with that section's reason |
| Telnet.LineErrorIgnoresPool | app/vminsert/opentsdb/parser.go:61-93 | whether a line is refused, and why, does not depend on the pool |
| Telnet.Lines | app/vminsert/opentsdb/parser.go:96-126 | splitting on `\n` yields no empty line |
| Telnet.LinesHaveNoNewline | app/vminsert/opentsdb/parser.go:96-126 | no line the split yields holds `\n` |
| Telnet.LinesOfJoin | app/vminsert/opentsdb/parser.go:96-102 | newline-free lines joined by `\n` split back to the same lines with the empty ones skipped |
| Telnet.UnmarshalLines | app/vminsert/opentsdb/parser.go:95-128 | success adds one row per line; failure adds at least one row and no more than there are lines, since the failing line's slot stays counted |
| Telnet.UnmarshalText | app/vminsert/opentsdb/parser.go:37-44 | from an empty arena: success gives one row per non-empty line; failure names the first refused line; the rows' tag views tile the pool |
| Telnet.FailureSticks | app/vminsert/opentsdb/parser.go:113-123 | once a line fails, the lines after it change nothing |
| Telnet.FailingLine | app/vminsert/opentsdb/parser.go:109-124 | on failure, the last row is the slot of the first refused line; the error names that line and the reason it is refused, and every line before it is accepted |
| Telnet.LinesTile | app/vminsert/opentsdb/parser.go:85-91 | on success the rows' tag views tile the whole pool in row order; on failure the rows before the failing one tile a prefix of it and the failing row views nothing |
| Telnet.PutsRoundTrip | app/vminsert/opentsdb/parser.go:95-128 | a list of well-formed puts formatted as lines parses to their rows and their tags, appended in order, with no error |
| Telnet.TextRoundTrip | app/vminsert/opentsdb/parser.go:37-44 | a body of well-formed puts joined by `\n` unmarshals from an empty arena to exactly their rows and tags |
| Telnet.Rows.constructor | app/vminsert/opentsdb/parser.go:11-15 | the zero arena: no rows, no tags, no spare slots |
| Telnet.Rows.Reset | app/vminsert/opentsdb/parser.go:18-30 | both lengths drop to zero and every used slot is zeroed; spare slots are kept |
| Telnet.Rows.AddRowSlot | app/vminsert/opentsdb/parser.go:103-107 | one more row slot is in use, reusing a spare slot when there is one |
| Telnet.Rows.AddTagSlot | app/vminsert/opentsdb/parser.go:132-136 | one more tag slot is in use, reusing a spare slot when there is one |
| Telnet.Rows.UnmarshalTag | app/vminsert/opentsdb/parser.go:165-177 | the slot receives the parsed tag, or the zero tag when the segment is refused |
| Telnet.Rows.PushTag | app/vminsert/opentsdb/parser.go:132-149 | an accepted segment adds its tag to the pool; a refused one leaves the pool as it was |
| Telnet.Rows.UnmarshalTags | app/vminsert/opentsdb/parser.go:130-152 | the pool and the error are those of `AppendTags` |
| Telnet.Rows.UnmarshalRow | app/vminsert/opentsdb/parser.go:61-93 | the slot receives the row of `UnmarshalLine`, and the pool and error are the same as that function's |
| Telnet.Rows.UnmarshalRowTags | app/vminsert/opentsdb/parser.go:84-92 | the tag-section stage: the slot, pool and error are those of `AfterValue` |
| Telnet.Rows.PushRow | app/vminsert/opentsdb/parser.go:103-124 | a new slot holds the line's row; the spare slots past it are untouched |
| Telnet.Rows.Unmarshal | app/vminsert/opentsdb/parser.go:37-44 | starting from length zero, the rows, pool and error are those of `UnmarshalText`; the spare slots past the new length are untouched |
| HttpPut.SecondMaskBits | app/vminsert/opentsdb-http/parser.go:9 | a 64-bit pattern clears `SECOND_MASK` exactly when its low 63 bits, read as a number, are below 2^32 |
| HttpPut.ScaleTimestampCases | app/vminsert/opentsdb-http/parser.go:87-90 | `ScaleTimestamp`, the seconds rule, by range: timestamps from 0 below 2^32 are multiplied by 1000; from 2^32 up they are kept; negative ones are kept, except the lowest 2^32 values, where the product wraps |
| HttpPut.ReadTimestampCases | app/vminsert/opentsdb-http/parser.go:75-91 | `ReadTimestamp`: a timestamp is read exactly when the field converts to an integer or to a float; an integer reading is preferred; a float-only field is taken as its milliseconds (`Float64()*1000` truncated); both go through the seconds rule |
| HttpPut.VisitTags | app/vminsert/opentsdb-http/parser.go:162-180 | the pool never shrinks |
| HttpPut.VisitTagsAppends | app/vminsert/opentsdb-http/parser.go:162-180 | the visit appends exactly the string-valued members, in order, after the pool |
| HttpPut.StringTagsMembers | app/vminsert/opentsdb-http/parser.go:171-177 | a tag is kept exactly when a member with that key has that string as its value |
| HttpPut.StringTagsAll | app/vminsert/opentsdb-http/parser.go:162-180 | when every member is a string, each member gives one tag, in order |
| HttpPut.UnmarshalObject | app/vminsert/opentsdb-http/parser.go:67-119 | a refused object leaves the pool as it was and its row views nothing; an accepted one views exactly what it appended |
| HttpPut.AfterMetric | app/vminsert/opentsdb-http/parser.go:75-119 | the same shape guarantee, from the timestamp field on |
| HttpPut.AfterTimestamp | app/vminsert/opentsdb-http/parser.go:96-119 | the same shape guarantee, from the value field on |
| HttpPut.AfterValue | app/vminsert/opentsdb-http/parser.go:107-119 | the same shape guarantee, for the tags field |
| HttpPut.ObjectAccepted | app/vminsert/opentsdb-http/parser.go:67-119 | an object is accepted exactly when it has a string metric, a readable timestamp, a float value and an object of tags; its row then holds those fields, with the timestamp scaled, and views exactly its string tags |
| HttpPut.ObjectRejected | app/vminsert/opentsdb-http/parser.go:69-94 | each of "missing metric", "missing timestamp" and "invalid timestamp" is reported exactly when it is the first problem |
| HttpPut.ObjectRejectedLater | app/vminsert/opentsdb-http/parser.go:96-111 | with metric and timestamp valid, each of "missing value", "invalid value" and "missing tags" is reported exactly when it is the first problem |
| HttpPut.ObjectErrorIgnoresPool | app/vminsert/opentsdb-http/parser.go:67-119 | whether an object is refused, and why, does not depend on the pool |
| HttpPut.UnmarshalElems | app/vminsert/opentsdb-http/parser.go:140-155 | success adds one row per element; failure adds at least one row and no more than there are elements |
| HttpPut.BodyAccepted | app/vminsert/opentsdb-http/parser.go:121-160 | `UnmarshalBody`: an absent body is refused as empty; only an object or an array is accepted; an accepted array gives one row per element |
| HttpPut.BodyShapes | app/vminsert/opentsdb-http/parser.go:121-160 | a body that is neither an object nor an array is refused with no rows; an object gives exactly one row, accepted exactly when the object is, and then that row is the object's |
| HttpPut.ElemsKeepPool | app/vminsert/opentsdb-http/parser.go:140-155 | the earlier rows and the pool before them are never changed |
| HttpPut.ElemsAccepted | app/vminsert/opentsdb-http/parser.go:140-155 | on success, each new row is the row of its element, in order |
| HttpPut.ElemsRejected | app/vminsert/opentsdb-http/parser.go:149-153 | on failure, the error names the first refused element and the reason it is refused; every element before it is accepted |
| HttpPut.ElemsFit | app/vminsert/opentsdb-http/parser.go:140-155 | every row views only tags inside the pool it comes with |
| HttpPut.BodyRows | app/vminsert/opentsdb-http/parser.go:121-160 | every row views only tags inside the pool; for an array, success means each row is its element's row, and failure names the first refused element |
| HttpPut.Rows.constructor | app/vminsert/opentsdb-http/parser.go:13-17 | the zero arena: no rows, no tags, no spare slots |
| HttpPut.Rows.Reset | app/vminsert/opentsdb-http/parser.go:20-32 | both lengths drop to zero and every used slot is zeroed; spare slots are kept |
| HttpPut.Rows.AddRowSlot | app/vminsert/opentsdb-http/parser.go:128-132 | one more row slot is in use, reusing a spare slot when there is one |
| HttpPut.Rows.AddTagSlot | app/vminsert/opentsdb-http/parser.go:164-168 | one more tag slot is in use, reusing a spare slot when there is one |
| HttpPut.Rows.VisitMember | app/vminsert/opentsdb-http/parser.go:163-178 | the pool gains the member's tag when its value is a string, and nothing otherwise |
| HttpPut.Rows.UnmarshalTags | app/vminsert/opentsdb-http/parser.go:162-180 | the pool is that of `VisitTags` |
| HttpPut.Rows.ReadTimestampOf | app/vminsert/opentsdb-http/parser.go:75-91 | the timestamp read is the integer, or the float in milliseconds, after the seconds rule |
| HttpPut.Rows.UnmarshalRow | app/vminsert/opentsdb-http/parser.go:67-119 | the slot receives the row of `UnmarshalObject`, and the pool and error are the same as that function's |
| HttpPut.Rows.PushRow | app/vminsert/opentsdb-http/parser.go:128-138 | a new slot holds the object's row; the spare slots past it are untouched |
| HttpPut.Rows.PushElem | app/vminsert/opentsdb-http/parser.go:143-153 | one step of the array loop: on failure the result is final and names this element; otherwise what is left of `UnmarshalElems` is the rest of the array |
| HttpPut.Rows.UnmarshalArray | app/vminsert/opentsdb-http/parser.go:140-155 | the rows, pool and error are those of `UnmarshalElems` on the elements |
| HttpPut.Rows.Unmarshal | app/vminsert/opentsdb-http/parser.go:39-46 | starting from length zero, the rows, pool and error are those of `UnmarshalBody`; the spare slots past the new length are untouched |
| Push.InsertCtx.constructor | app/vminsert/opentsdb-http/request_handler.go:139 | a fresh insert context with no labels and no calls |
| Push.InsertCtx.Reset | app/vminsert/opentsdb-http/request_handler.go:58 | records a reset with the row count |
| Push.InsertCtx.AddLabel | app/vminsert/opentsdb-http/request_handler.go:62-65 | appends one label |
| Push.InsertCtx.WriteDataPoint | app/vminsert/opentsdb-http/request_handler.go:67 | records one data point with its labels, timestamp and value |
| Push.InsertCtx.FlushBufs | app/vminsert/opentsdb-http/request_handler.go:71 | records the flush and returns the context's flush outcome |
| Push.ReadLimited | app/vminsert/opentsdb-http/request_handler.go:100-101 | the bytes read and the bytes left make up the data; no more than the limit is read; an error can only be the reader's own end |
| Push.Body.constructor | app/vminsert/opentsdb-http/request_handler.go:34 | the body's state is the given connection |
| Push.Body.ReadFrom | app/vminsert/opentsdb-http/request_handler.go:100-101 | one limited read, as `ReadLimited` states it |
| Push.ErrorOf | app/vminsert/opentsdb-http/request_handler.go:147-152 | no error is reported exactly when there is none or it is end-of-body; any other error is reported as it is |
| Push.ReadSpec | app/vminsert/opentsdb-http/request_handler.go:94-129 | the rows of the context keep viewing only tags inside its pool |
| Push.ReadOutcome | app/vminsert/opentsdb-http/request_handler.go:94-129 | a set error makes `Read` fail with nothing changed; `Read` succeeds exactly when reading, the size check, parsing and unmarshalling all succeed, and it then holds the body's rows; a failed `Read` always leaves an error set |
| Push.ReadBounded | app/vminsert/opentsdb-http/request_handler.go:100-112 | at most `maxSize+1` bytes are consumed, and they are appended to the request buffer, whose old contents stay in front; the request is refused as too big exactly when more than `maxSize` bytes arrive |
| Push.ReadNeverEndOfBody | app/vminsert/opentsdb-http/request_handler.go:103-126 | `Read` never stores end-of-body as the context's error |
| Push.RowLabels | app/vminsert/opentsdb-http/request_handler.go:61-66 | the labels are the metric under the empty name, then each tag of the row in order |
| Push.TagLabels | app/vminsert/opentsdb-http/request_handler.go:63-66 | one label per tag, in order, with the same key and value |
| Push.PointsEach | app/vminsert/opentsdb-http/request_handler.go:59-68 | one data point per row, in row order |
| Push.InsertCallsEach | app/vminsert/opentsdb-http/request_handler.go:55-72 | `InsertCalls` holds the reset sized to the rows first, the i-th row's data point at position i + 1, and the flush last |
| Push.InsertedFromArray | app/vminsert/opentsdb-http/request_handler.go:55-72 | for an accepted array, the i-th data point carries the i-th element's metric and string tags, its scaled timestamp and its value |
| Push.PushCtx.constructor | app/vminsert/opentsdb-http/request_handler.go:137-145 | the zero context: empty buffer, no error, empty arena, no calls yet |
| Push.PushCtx.Read | app/vminsert/opentsdb-http/request_handler.go:94-129 | the new buffer, error, rows and pool, the result and what is left of the body are those of `ReadSpec`; nothing is sent to the insert context |
| Push.PushCtx.InsertRows | app/vminsert/opentsdb-http/request_handler.go:55-72 | the insert context receives a reset with the row count, one data point per row in order, and a flush; the result is the flush outcome |
| Push.PushCtx.WritePoints | app/vminsert/opentsdb-http/request_handler.go:59-68 | the insert context receives the data points of the rows, in order |
| Push.PushCtx.WriteRow | app/vminsert/opentsdb-http/request_handler.go:60-67 | the insert context receives the row's data point |
| Push.PushCtx.Reset | app/vminsert/opentsdb-http/request_handler.go:154-161 | the context is back to the zero state and the insert context records a reset with no rows |
| Push.RoundsKeepTrace | app/vminsert/opentsdb-http/request_handler.go:45-52 | `Rounds`, the handler loop with one `Read` and one `InsertRows` per round, only adds calls: those already made stay first, in order |
| Push.AfterReadKeepsTrace | app/vminsert/opentsdb-http/request_handler.go:47-51 | `AfterRead`, the rest of a round once `Read` has answered, only adds calls too |
| Push.Turn | app/vminsert/opentsdb-http/request_handler.go:47-51 | one round of the handler loop: either the handler returns with the outcome `Rounds` predicts, or it goes on in the state `Rounds` continues from |
| Push.Handle | app/vminsert/opentsdb-http/request_handler.go:45-52 | the handler's outcome and calls are those of `Rounds` from the zero context |
| Push.Serve | app/vminsert/opentsdb-http/request_handler.go:47-52 | the handler loop run on a given context ends with the outcome and calls `Rounds` predicts from that context and body |
| Push.RoundsRepeat | app/vminsert/opentsdb-http/request_handler.go:45-52 | once the body is drained, a context whose buffer parses and unmarshals without error inserts the same rows again on every round |
| Push.HandlerRepeatsInsert | app/vminsert/opentsdb-http/request_handler.go:45-52 | a clean body that fits in `maxSize` and is accepted is inserted once per round, for as many rounds as are run, and the loop does not end |
| Push.HandleOnce | app/vminsert/opentsdb-http/request_handler.go:45-52 | the corrected handler's outcome and calls are those of `Once`: one read, and one insert if it succeeds |
| Push.Once | app/vminsert/opentsdb-http/request_handler.go:45-52 | the corrected handler always returns; when it makes calls, the first is a reset and the last a flush |
| Push.OnceInsertsEachRowOnce | app/vminsert/opentsdb-http/request_handler.go:45-52 | for a body within `maxSize` that ends cleanly, the corrected handler always returns; for an accepted array it sends a reset, one data point per element in order and a flush, and returns the flush outcome; otherwise it sends nothing and returns the error |

## Left out

- Floating point is opaque. A float is the token it was read from plus its conversion to milliseconds. `fastfloat.ParseBestEffort` in the telnet parser is kept as the raw token, so the truncating `int64(...)` of the timestamp is not modelled.
- fastjson's text parser is a parameter `parse`: from the request bytes to a value or an error message. The conversions `Int64()` and `Float64()` are values carried by each number. Escaping and key decoding are not modelled.
- `GetStringBytes` returning nil versus an empty slice is not modelled. An empty string counts as present, both for the metric and for tag values.
- gzip decompression (`request_handler.go` lines 36-43) is not part of this model.
- The `sync.Pool` and channel reuse of `pushCtx` (`getPushCtx`, `putPushCtx`) is not modelled: the handler starts from the zero context. `concurrencylimiter` and concurrency in general are not modelled either.
- The metrics counters are not modelled.
- `app/vminsert/main.go` is not part of this model.
- Push.Body.ReadFrom: `bytesutil.ByteBuffer.ReadFrom` over an `io.LimitReader` is not part of this model. It is modelled as returning all available bytes up to the limit in one call. A clean end of data gives no error and zero bytes, and any other end passes the reader's error through.
- Go's `append` growth is not modelled. Growing a full buffer adds exactly one slot, and capacity beyond the used length is only the slots already there.
- The insert context (`common.InsertCtx`) is not part of this model. It is represented by the calls it receives, and `FlushBufs` answers with an outcome fixed when the context is made. Its storage side and `Reset`'s effect on labels are left out.
- Error messages are structured values that name the failing line, object or field, instead of formatted strings.
- Push.Handle: the Go loop is unbounded. The model runs at most `fuel` rounds and reports `StillLooping` when they run out.
- HttpPut.MaskClear: the mask test is stated on the timestamp as `ts % 2^63 < 2^32`. `SecondMaskBits` proves the matching fact for a 64-bit pattern, but the step from an `int64` to its two's-complement pattern is not proved.
- Push.HandleOnce: reads once and inserts once. It is the corrected loop from the finding below, not the code as written.

## Findings

| source | as written | input that shows it | evidently intended | confidence | as-written member | corrected member |
|---|---|---|---|---|---|---|
| app/vminsert/opentsdb-http/request_handler.go:45-52 | `Read` appends to `reqBuf` without resetting it, and a clean end of body returns zero bytes with no error. Every later round re-parses the same buffer and re-inserts the same rows. The loop only ends on a flush error. The `io.EOF` branch of `Error` is dead, since `ctx.err` only ever holds wrapped errors. | a body holding `[{"metric":"m","timestamp":1,"value":1,"tags":{}}]`, within `maxSize`, ending cleanly, with flushes that succeed | the body is read once, its rows are inserted once, and the handler returns the flush outcome or the read error | not executed | Push.HandlerRepeatsInsert | Push.OnceInsertsEachRowOnce |
