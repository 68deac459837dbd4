/** The OpenTSDB telnet `put` line parser of app/vminsert/opentsdb/parser.go.

    A text holds lines `put <metric> <timestamp> <value> <k>=<v> ...` separated by
    `\n`. The parser fills a reusable arena: a row list and one tag pool shared by
    all rows, where every row views the contiguous pool range appended while it was
    parsed. The functions below state, loop by loop, what the Go code leaves in the
    arena; the lemmas relate them to the text they read (round trips, the shape of
    the pool, the error cases); the class `Rows` at the end is the arena that the
    Go code updates in place, and its methods are proved to produce exactly what
    those functions say. */
module Telnet {
  import opened Common

  /** A tag `key=value`. */
  datatype Tag = Tag(key: string, value: string)

  /** A tag slot after `Tag.reset`. */
  const EmptyTag := Tag("", "")

  /** A number taken from a line. `fastfloat.ParseBestEffort` turns a token into a
      float64 (0 for a token it cannot read) and the timestamp is the int64
      truncation of that float; neither conversion is modelled, so a number is the
      token it was read from. `Zero` is the 0 that `Row.reset` stores. */
  datatype Num = Zero | BestEffort(token: string)

  /** A parsed row. Go's `Row.Tags` is a slice of the shared tag pool; here it is
      the pool range `[tagsStart, tagsStart + tagsLen)`; a nil slice is (0, 0). */
  datatype Row = Row(metric: string, tagsStart: nat, tagsLen: nat, value: Num, timestamp: Num)

  /** A row slot after `Row.reset`. */
  const EmptyRow := Row("", 0, 0, Zero, Zero)

  /** Why one `key=value` segment was refused; each names the segment. */
  datatype TagError = MissingTagValue(segment: string) | EmptyTagKey(segment: string)

  /** Why one line was refused. The separator errors name the text after `put `,
      as the Go messages quote it. */
  datatype RowError =
    | MissingPutPrefix(line: string)
    | NoSpaceAfterMetric(rest: string)
    | NoSpaceAfterTimestamp(rest: string)
    | NoSpaceAfterValue(rest: string)
    | BadTags(rest: string, cause: TagError)

  /** The error `Unmarshal` returns: the offending line and the reason. */
  datatype Error = LineError(line: string, cause: RowError)

  const PutPrefix: string := "put "

  // ---------------------------------------------------------------------------
  // Tags

  /** A tag that the tag syntax can carry: a non-empty key without `=` and no
      spaces in key or value. */
  predicate WellFormedTag(t: Tag) {
    t.key != [] && '=' !in t.key && ' ' !in t.key && ' ' !in t.value
  }

  function FormatTag(t: Tag): string {
    t.key + "=" + t.value
  }

  /** `Tag.unmarshal`: split a segment at its first `=`. */
  function ParseTag(s: string): (r: Result<Tag, TagError>)
    ensures r.Ok? ==> r.value.key != []
    ensures r.Err? ==> r.error.segment == s
  {
    var n := IndexOf(s, '=');
    if n < 0 then Err(MissingTagValue(s))
    else if n == 0 then Err(EmptyTagKey(s))
    else Ok(Tag(s[..n], s[n + 1..]))
  }

  /** A segment is refused for a missing value exactly when it has no `=`, for
      an empty key exactly when it starts with `=`; an accepted key has no `=`, so
      the value is everything after the first `=`. */
  lemma ParseTagCases(s: string)
    ensures ParseTag(s) == Err(MissingTagValue(s)) <==> '=' !in s
    ensures ParseTag(s) == Err(EmptyTagKey(s)) <==> |s| > 0 && s[0] == '='
    ensures ParseTag(s).Ok? ==> '=' !in ParseTag(s).value.key && s == FormatTag(ParseTag(s).value)
  {
    IndexOfFirst(s, '=');
    var n := IndexOf(s, '=');
    if n >= 0 {
      assert s[n] in s;
      assert s == s[..n] + "=" + s[n + 1..];
    }
  }

  /** A well-formed tag's text parses back to the tag. */
  lemma ParseTagOfFormat(t: Tag)
    requires t.key != [] && '=' !in t.key
    ensures ParseTag(FormatTag(t)) == Ok(t)
  {
    var f := FormatTag(t);
    IndexOfAfter(t.key, '=', t.value);
    assert f[..|t.key|] == t.key;
    assert f[|t.key| + 1..] == t.value;
  }

  /** The tag pool after `unmarshalTags`, and its error. */
  datatype TagsResult = TagsResult(pool: seq<Tag>, err: Option<TagError>)

  /** `unmarshalTags(pool, s)`: split the tag section `s` at every single space,
      append the tag of each segment to the pool, and stop at the first segment
      that is refused, whose slot is taken back off the pool. Defined segment by
      segment, as the loop runs. */
  function AppendTags(pool: seq<Tag>, s: string): (r: TagsResult)
    ensures |r.pool| >= |pool|
    ensures r.err.None? ==> |r.pool| > |pool|
    decreases |s|
  {
    var n := IndexOf(s, ' ');
    var seg := if n < 0 then s else s[..n];
    match ParseTag(seg)
    case Err(e) => TagsResult(pool, Some(e))
    case Ok(t) =>
      if n < 0 then TagsResult(pool + [t], None)
      else AppendTags(pool + [t], s[n + 1..])
  }

  /** Every tag of `tags` is well formed. */
  predicate AllWellFormed(tags: seq<Tag>) {
    forall i :: 0 <= i < |tags| ==> WellFormedTag(tags[i])
  }

  /** Appending keeps the tags already in the pool. */
  lemma {:induction false} AppendTagsKeeps(pool: seq<Tag>, s: string)
    ensures AppendTags(pool, s).pool[..|pool|] == pool
    decreases |s|
  {
    var n := IndexOf(s, ' ');
    var seg := if n < 0 then s else s[..n];
    if ParseTag(seg).Ok? && n >= 0 {
      var p := pool + [ParseTag(seg).value];
      var a := AppendTags(p, s[n + 1..]).pool;
      AppendTagsKeeps(p, s[n + 1..]);
      assert pool <= p && p <= a;
      PrefixOfPrefix(pool, p, a);
    }
  }

  /** Every tag `unmarshalTags` appends is well formed: segments are split at
      every space, so neither key nor value holds one. */
  lemma {:induction false} AppendTagsWellFormed(pool: seq<Tag>, s: string)
    requires AllWellFormed(pool)
    ensures AllWellFormed(AppendTags(pool, s).pool)
    decreases |s|
  {
    var n := IndexOf(s, ' ');
    var seg := if n < 0 then s else s[..n];
    if ParseTag(seg).Ok? && n >= 0 {
      var t := ParseTag(seg).value;
      WellFormedFirst(pool, s, n, seg);
      AppendTagsWellFormed(pool + [t], s[n + 1..]);
      AppendTagsHead(pool, s, n, seg);
    } else {
      WellFormedOnly(pool, s, n, seg);
    }
  }

  /** The pool after the first segment of a tag section is well formed. */
  lemma WellFormedFirst(pool: seq<Tag>, s: string, n: int, seg: string)
    requires AllWellFormed(pool)
    requires n == IndexOf(s, ' ') && seg == (if n < 0 then s else s[..n]) && ParseTag(seg).Ok?
    ensures AllWellFormed(pool + [ParseTag(seg).value])
  {
    FirstSegmentWellFormed(s, n, seg);
    AllWellFormedSnoc(pool, ParseTag(seg).value);
  }

  /** `AppendTagsWellFormed` when the first segment is refused or is the last one. */
  lemma WellFormedOnly(pool: seq<Tag>, s: string, n: int, seg: string)
    requires AllWellFormed(pool)
    requires n == IndexOf(s, ' ') && seg == (if n < 0 then s else s[..n])
    requires ParseTag(seg).Err? || n < 0
    ensures AllWellFormed(AppendTags(pool, s).pool)
  {
    AppendTagsHead(pool, s, n, seg);
    if ParseTag(seg).Ok? {
      WellFormedFirst(pool, s, n, seg);
    }
  }

  /** The first segment of a tag section, once accepted, is a well-formed tag. */
  lemma FirstSegmentWellFormed(s: string, n: int, seg: string)
    requires n == IndexOf(s, ' ') && seg == (if n < 0 then s else s[..n]) && ParseTag(seg).Ok?
    ensures WellFormedTag(ParseTag(seg).value)
  {
    var t := ParseTag(seg).value;
    ParseTagCases(seg);
    IndexOfFirst(s, ' ');
    assert ' ' !in seg;
    assert seg == t.key + "=" + t.value;
  }

  lemma AllWellFormedSnoc(tags: seq<Tag>, t: Tag)
    requires AllWellFormed(tags) && WellFormedTag(t)
    ensures AllWellFormed(tags + [t])
  {
  }

  /** The tag section of a line: tags joined by single spaces. */
  function JoinTags(tags: seq<Tag>): string
    decreases |tags|
  {
    if |tags| == 0 then ""
    else if |tags| == 1 then FormatTag(tags[0])
    else FormatTag(tags[0]) + " " + JoinTags(tags[1..])
  }

  /** A tag's text and the space after it append that tag, then go on with the rest. */
  lemma AppendTagsStep(pool: seq<Tag>, t: Tag, rest: string)
    requires WellFormedTag(t)
    ensures AppendTags(pool, FormatTag(t) + " " + rest) == AppendTags(pool + [t], rest)
  {
    var f := FormatTag(t);
    var s := f + " " + rest;
    assert ' ' !in f;
    IndexOfAfter(f, ' ', rest);
    assert s[..|f|] == f;
    assert s[|f| + 1..] == rest;
    ParseTagOfFormat(t);
  }

  /** A tag's text with nothing after it appends that one tag. */
  lemma AppendTagsLast(pool: seq<Tag>, t: Tag)
    requires WellFormedTag(t)
    ensures AppendTags(pool, FormatTag(t)) == TagsResult(pool + [t], None)
  {
    assert ' ' !in FormatTag(t);
    IndexOfFirst(FormatTag(t), ' ');
    ParseTagOfFormat(t);
  }

  /** Appending one tag and then the rest is appending them all. */
  lemma ConsAssoc<T>(pool: seq<T>, t: T, more: seq<T>)
    ensures pool + [t] + more == pool + ([t] + more)
  {
  }

  /** Joining two or more tags puts the first one's text and a space before the rest. */
  lemma JoinTagsCons(tags: seq<Tag>)
    requires |tags| > 1
    ensures JoinTags(tags) == FormatTag(tags[0]) + " " + JoinTags(tags[1..])
  {
  }

  /** Round trip: well-formed tags joined by spaces are appended as they are. */
  lemma {:induction false} TagsRoundTrip(pool: seq<Tag>, tags: seq<Tag>)
    requires |tags| > 0
    requires AllWellFormed(tags)
    ensures AppendTags(pool, JoinTags(tags)) == TagsResult(pool + tags, None)
    decreases |tags|
  {
    if |tags| == 1 {
      AppendTagsLast(pool, tags[0]);
      assert [tags[0]] == tags;
    } else {
      TagsRoundTrip(pool + [tags[0]], tags[1..]);
      JoinTagsCons(tags);
      TagsRoundTripCons(pool, tags[0], tags[1..], tags);
    }
  }

  /** The inductive step of `TagsRoundTrip`. */
  lemma TagsRoundTripCons(pool: seq<Tag>, t: Tag, more: seq<Tag>, tags: seq<Tag>)
    requires WellFormedTag(t) && tags == [t] + more
    requires AppendTags(pool + [t], JoinTags(more)) == TagsResult(pool + [t] + more, None)
    ensures AppendTags(pool, FormatTag(t) + " " + JoinTags(more)) == TagsResult(pool + tags, None)
  {
    ConsAssoc(pool, t, more);
    AppendTagsStep(pool, t, JoinTags(more));
  }

  /** One step of `unmarshalTags`: the first segment's result, then the rest. */
  lemma AppendTagsHead(pool: seq<Tag>, s: string, n: int, seg: string)
    requires n == IndexOf(s, ' ') && seg == if n < 0 then s else s[..n]
    ensures ParseTag(seg).Err? ==> AppendTags(pool, s) == TagsResult(pool, Some(ParseTag(seg).error))
    ensures ParseTag(seg).Ok? && n < 0 ==> AppendTags(pool, s) == TagsResult(pool + [ParseTag(seg).value], None)
    ensures ParseTag(seg).Ok? && n >= 0 ==> AppendTags(pool, s) == AppendTags(pool + [ParseTag(seg).value], s[n + 1..])
  {
  }

  /** A text with a space is its first space-free token, a space, and the rest. */
  lemma UncutToken(s: string)
    requires IndexOf(s, ' ') >= 0
    ensures var n := IndexOf(s, ' ');
      ' ' !in s[..n] && s == s[..n] + " " + s[n + 1..]
  {
    IndexOfFirst(s, ' ');
    var n := IndexOf(s, ' ');
    assert s == s[..n] + " " + s[n + 1..];
  }

  /** A tag before a non-empty list adds its text and a space to the join. */
  lemma JoinTagsPrepend(t: Tag, more: seq<Tag>)
    requires |more| > 0
    ensures JoinTags([t] + more) == FormatTag(t) + " " + JoinTags(more)
  {
    assert ([t] + more)[1..] == more;
  }

  /** Inverse round trip: a tag section appended without error is exactly the
      appended tags joined by spaces. */
  lemma {:induction false} TagsAccepted(pool: seq<Tag>, s: string)
    requires AppendTags(pool, s).err.None?
    ensures JoinTags(AppendTags(pool, s).pool[|pool|..]) == s
    decreases |s|
  {
    var n := IndexOf(s, ' ');
    var seg := if n < 0 then s else s[..n];
    AppendTagsHead(pool, s, n, seg);
    var t := ParseTag(seg).value;
    ParseTagCases(seg);
    if n < 0 {
      TagsAcceptedLast(pool, t);
    } else {
      var a := AppendTags(pool + [t], s[n + 1..]).pool;
      TagsAccepted(pool + [t], s[n + 1..]);
      AppendTagsKeeps(pool + [t], s[n + 1..]);
      UncutToken(s);
      TagsAcceptedCons(pool, t, a, s[..n], s[n + 1..]);
    }
  }

  lemma TagsAcceptedLast(pool: seq<Tag>, t: Tag)
    ensures JoinTags((pool + [t])[|pool|..]) == FormatTag(t)
  {
    assert (pool + [t])[|pool|..] == [t];
  }

  /** The inductive step of `TagsAccepted`. */
  lemma TagsAcceptedCons(pool: seq<Tag>, t: Tag, a: seq<Tag>, seg: string, rest: string)
    requires |a| > |pool| + 1 && a[..|pool| + 1] == pool + [t]
    requires JoinTags(a[|pool| + 1..]) == rest
    ensures JoinTags(a[|pool|..]) == FormatTag(t) + " " + rest
  {
    assert a[|pool|] == (pool + [t])[|pool|];
    assert a[|pool|..] == [t] + a[|pool| + 1..];
    JoinTagsPrepend(t, a[|pool| + 1..]);
  }

  /** Two spaces in a row leave an empty segment, which has no `=`: appending
      stops there with a missing-value error, keeping the tags before it. */
  lemma {:induction false} DoubleSpaceRejected(pool: seq<Tag>, tags: seq<Tag>, tail: string)
    requires |tags| > 0
    requires AllWellFormed(tags)
    ensures AppendTags(pool, JoinTags(tags) + "  " + tail) == TagsResult(pool + tags, Some(MissingTagValue("")))
    decreases |tags|
  {
    if |tags| == 1 {
      DoubleSpaceLast(pool, tags[0], tail);
      assert [tags[0]] == tags;
    } else {
      DoubleSpaceRejected(pool + [tags[0]], tags[1..], tail);
      JoinTagsCons(tags);
      DoubleSpaceCons(pool, tags[0], tags[1..], tail);
      ConsAssoc(pool, tags[0], tags[1..]);
      assert [tags[0]] + tags[1..] == tags;
    }
  }

  /** `DoubleSpaceRejected` for one tag. */
  lemma DoubleSpaceLast(pool: seq<Tag>, t: Tag, tail: string)
    requires WellFormedTag(t)
    ensures AppendTags(pool, FormatTag(t) + "  " + tail) == TagsResult(pool + [t], Some(MissingTagValue("")))
  {
    DoubleSpaceSplit(FormatTag(t), tail);
    AppendTagsStep(pool, t, " " + tail);
    EmptySegment(pool + [t], tail);
  }

  /** The inductive step of `DoubleSpaceRejected`. */
  lemma DoubleSpaceCons(pool: seq<Tag>, t: Tag, more: seq<Tag>, tail: string)
    requires WellFormedTag(t)
    requires AppendTags(pool + [t], JoinTags(more) + "  " + tail) == TagsResult(pool + [t] + more, Some(MissingTagValue("")))
    ensures AppendTags(pool, FormatTag(t) + " " + JoinTags(more) + "  " + tail)
         == TagsResult(pool + [t] + more, Some(MissingTagValue("")))
  {
    RegroupAfterFirst(FormatTag(t), JoinTags(more), tail);
    AppendTagsStep(pool, t, JoinTags(more) + "  " + tail);
  }

  lemma RegroupAfterFirst(a: string, b: string, tail: string)
    ensures a + " " + b + "  " + tail == a + " " + (b + "  " + tail)
  {
  }

  lemma DoubleSpaceSplit(a: string, tail: string)
    ensures a + "  " + tail == a + " " + (" " + tail)
  {
  }

  /** A refused segment stops `unmarshalTags` where it stands: the well-formed
      tags before it stay in the pool, the refused one's slot is taken back, and
      its reason is the error. `tail` is whatever follows the segment's end. */
  lemma {:induction false} TagsRejected(pool: seq<Tag>, tags: seq<Tag>, seg: string, tail: string)
    requires AllWellFormed(tags) && ' ' !in seg && ParseTag(seg).Err?
    requires tail == [] || tail[0] == ' '
    ensures var s := if tags == [] then seg + tail else JoinTags(tags) + " " + seg + tail;
      AppendTags(pool, s) == TagsResult(pool + tags, Some(ParseTag(seg).error))
    decreases |tags|
  {
    if tags == [] {
      SegmentRejected(pool, seg, tail);
      assert pool + tags == pool;
    } else {
      var t := tags[0];
      var rest := if |tags| == 1 then seg + tail else JoinTags(tags[1..]) + " " + seg + tail;
      RegroupTags(tags, seg, tail, rest);
      if |tags| == 1 {
        SegmentRejected(pool + [t], seg, tail);
        assert pool + [t] == pool + [t] + tags[1..];
      } else {
        TagsRejected(pool + [t], tags[1..], seg, tail);
      }
      TagsRejectedCons(pool, t, tags[1..], rest, ParseTag(seg).error);
      assert [t] + tags[1..] == tags;
    }
  }

  /** The text of a refused section, cut after its first tag. */
  lemma RegroupTags(tags: seq<Tag>, seg: string, tail: string, rest: string)
    requires tags != []
    requires rest == if |tags| == 1 then seg + tail else JoinTags(tags[1..]) + " " + seg + tail
    ensures JoinTags(tags) + " " + seg + tail == FormatTag(tags[0]) + " " + rest
  {
    if |tags| == 1 {
      assert JoinTags(tags) == FormatTag(tags[0]);
      ConcatAssoc(FormatTag(tags[0]), " ", seg, tail);
    } else {
      JoinTagsCons(tags);
      RegroupTail(FormatTag(tags[0]), " ", JoinTags(tags[1..]), " ", seg, tail);
    }
  }

  lemma RegroupTail<T>(a: seq<T>, b: seq<T>, c: seq<T>, d: seq<T>, e: seq<T>, f: seq<T>)
    ensures a + b + c + d + e + f == a + b + (c + d + e + f)
  {
  }

  /** The inductive step of `TagsRejected`. */
  lemma TagsRejectedCons(pool: seq<Tag>, t: Tag, more: seq<Tag>, rest: string, e: TagError)
    requires WellFormedTag(t)
    requires AppendTags(pool + [t], rest) == TagsResult(pool + [t] + more, Some(e))
    ensures AppendTags(pool, FormatTag(t) + " " + rest) == TagsResult(pool + ([t] + more), Some(e))
  {
    AppendTagsStep(pool, t, rest);
    ConsAssoc(pool, t, more);
  }

  /** `TagsRejected` with no tags before the refused segment. */
  lemma SegmentRejected(pool: seq<Tag>, seg: string, tail: string)
    requires ' ' !in seg && ParseTag(seg).Err?
    requires tail == [] || tail[0] == ' '
    ensures AppendTags(pool, seg + tail) == TagsResult(pool, Some(ParseTag(seg).error))
  {
    var s := seg + tail;
    if tail == [] {
      assert s == seg;
      IndexOfFirst(s, ' ');
      AppendTagsHead(pool, s, IndexOf(s, ' '), seg);
    } else {
      assert s == seg + [' '] + tail[1..];
      IndexOfAfter(seg, ' ', tail[1..]);
      assert s[..|seg|] == seg;
      AppendTagsHead(pool, s, |seg|, seg);
    }
  }

  /** A section that starts with a space has an empty first segment. */
  lemma EmptySegment(pool: seq<Tag>, tail: string)
    ensures AppendTags(pool, " " + tail) == TagsResult(pool, Some(MissingTagValue("")))
  {
    var s := " " + tail;
    LeadingSpace(tail);
    assert ParseTag("") == Err(MissingTagValue(""));
    AppendTagsHead(pool, s, 0, "");
  }

  lemma LeadingSpace(tail: string)
    ensures IndexOf(" " + tail, ' ') == 0 && (" " + tail)[..0] == ""
  {
    assert (" " + tail)[0] == ' ';
  }

  // ---------------------------------------------------------------------------
  // One line

  /** What `Row.unmarshal` leaves in its row slot, the tag pool it returns, and
      its error. */
  datatype LineResult = LineResult(row: Row, pool: seq<Tag>, err: Option<RowError>)

  /** `Row.unmarshal(s, pool)`. The slot is reset first, then each field is
      stored as soon as its separator is found; the tags go to the pool and the
      row's view of them is stored only when they all parse. The stages below
      follow the Go code one separator at a time. */
  function UnmarshalLine(pool: seq<Tag>, s: string): (r: LineResult)
    ensures |r.pool| >= |pool|
    ensures r.err.None? ==> r.row.tagsStart == |pool| && 0 < r.row.tagsLen == |r.pool| - |pool|
    ensures r.err.Some? ==> r.row.tagsStart == 0 && r.row.tagsLen == 0
  {
    if !(PutPrefix <= s) then LineResult(EmptyRow, pool, Some(MissingPutPrefix(s)))
    else AfterPrefix(pool, s[|PutPrefix|..])
  }

  /** The line after `put `: cut the metric at the first space. */
  function AfterPrefix(pool: seq<Tag>, rest: string): (r: LineResult)
    ensures |r.pool| >= |pool|
    ensures r.err.None? ==> r.row.tagsStart == |pool| && 0 < r.row.tagsLen == |r.pool| - |pool|
    ensures r.err.Some? ==> r.row.tagsStart == 0 && r.row.tagsLen == 0
  {
    var n := IndexOf(rest, ' ');
    if n < 0 then LineResult(EmptyRow, pool, Some(NoSpaceAfterMetric(rest)))
    else AfterMetric(pool, rest, rest[..n], rest[n + 1..])
  }

  /** The text after the metric: cut the timestamp at the next space. */
  function AfterMetric(pool: seq<Tag>, rest: string, metric: string, tail: string): (r: LineResult)
    ensures |r.pool| >= |pool|
    ensures r.err.None? ==> r.row.tagsStart == |pool| && 0 < r.row.tagsLen == |r.pool| - |pool|
    ensures r.err.Some? ==> r.row.tagsStart == 0 && r.row.tagsLen == 0
  {
    var n := IndexOf(tail, ' ');
    if n < 0 then LineResult(EmptyRow.(metric := metric), pool, Some(NoSpaceAfterTimestamp(rest)))
    else AfterTimestamp(pool, rest, metric, BestEffort(tail[..n]), tail[n + 1..])
  }

  /** The text after the timestamp: cut the value at the next space. */
  function AfterTimestamp(pool: seq<Tag>, rest: string, metric: string, timestamp: Num, tail: string): (r: LineResult)
    ensures |r.pool| >= |pool|
    ensures r.err.None? ==> r.row.tagsStart == |pool| && 0 < r.row.tagsLen == |r.pool| - |pool|
    ensures r.err.Some? ==> r.row.tagsStart == 0 && r.row.tagsLen == 0
  {
    var n := IndexOf(tail, ' ');
    if n < 0 then
      LineResult(EmptyRow.(metric := metric, timestamp := timestamp), pool, Some(NoSpaceAfterValue(rest)))
    else AfterValue(pool, rest, Row(metric, 0, 0, BestEffort(tail[..n]), timestamp), tail[n + 1..])
  }

  /** The tag section: the row gets its pool view only when every tag parses;
      on a refused tag the pool keeps the tags appended before it. */
  function AfterValue(pool: seq<Tag>, rest: string, row: Row, tags: string): (r: LineResult)
    requires row.tagsStart == 0 && row.tagsLen == 0
    ensures |r.pool| >= |pool|
    ensures r.err.None? ==> r.row.tagsStart == |pool| && 0 < r.row.tagsLen == |r.pool| - |pool|
    ensures r.err.Some? ==> r.row.tagsStart == 0 && r.row.tagsLen == 0
  {
    var tr := AppendTags(pool, tags);
    if tr.err.Some? then LineResult(row, tr.pool, Some(BadTags(rest, tr.err.value)))
    else LineResult(row.(tagsStart := |pool|, tagsLen := |tr.pool| - |pool|), tr.pool, None)
  }

  /** The line `put <metric> <timestamp> <value> <tags>`. */
  function FormatLine(metric: string, timestamp: string, value: string, tags: seq<Tag>): string {
    PutPrefix + (metric + " " + (timestamp + " " + (value + " " + JoinTags(tags))))
  }

  /** Cutting a space-free token and the space after it off the front of a text. */
  lemma CutToken(token: string, tail: string)
    requires ' ' !in token
    ensures var s := token + " " + tail;
      IndexOf(s, ' ') == |token| && s[..|token|] == token && s[|token| + 1..] == tail
  {
    var s := token + " " + tail;
    IndexOfAfter(token, ' ', tail);
    assert s[..|token|] == token;
    assert s[|token| + 1..] == tail;
  }

  /** The stages of `Row.unmarshal` on a line built from its parts. */
  lemma PrefixStage(pool: seq<Tag>, rest: string)
    ensures UnmarshalLine(pool, PutPrefix + rest) == AfterPrefix(pool, rest)
  {
    assert PutPrefix <= PutPrefix + rest && (PutPrefix + rest)[|PutPrefix|..] == rest;
  }

  lemma MetricStage(pool: seq<Tag>, metric: string, tail: string)
    requires ' ' !in metric
    ensures AfterPrefix(pool, metric + " " + tail) == AfterMetric(pool, metric + " " + tail, metric, tail)
  {
    CutToken(metric, tail);
  }

  lemma TimestampStage(pool: seq<Tag>, rest: string, metric: string, timestamp: string, tail: string)
    requires ' ' !in timestamp
    ensures AfterMetric(pool, rest, metric, timestamp + " " + tail)
         == AfterTimestamp(pool, rest, metric, BestEffort(timestamp), tail)
  {
    CutToken(timestamp, tail);
  }

  lemma ValueStage(pool: seq<Tag>, rest: string, metric: string, timestamp: Num, value: string, tail: string)
    requires ' ' !in value
    ensures AfterTimestamp(pool, rest, metric, timestamp, value + " " + tail)
         == AfterValue(pool, rest, Row(metric, 0, 0, BestEffort(value), timestamp), tail)
  {
    CutToken(value, tail);
  }

  /** The three space-terminated fields of a line reach the tag section. */
  lemma FieldsStage(pool: seq<Tag>, metric: string, timestamp: string, value: string, tags: string)
    requires ' ' !in metric && ' ' !in timestamp && ' ' !in value
    ensures var rest := metric + " " + (timestamp + " " + (value + " " + tags));
      AfterPrefix(pool, rest)
        == AfterValue(pool, rest, Row(metric, 0, 0, BestEffort(value), BestEffort(timestamp)), tags)
  {
    var tail2 := value + " " + tags;
    var tail := timestamp + " " + tail2;
    var rest := metric + " " + tail;
    MetricStage(pool, metric, tail);
    TimestampStage(pool, rest, metric, timestamp, tail2);
    ValueStage(pool, rest, metric, BestEffort(timestamp), value, tags);
  }

  /** Round trip: a line built from space-free tokens and well-formed tags parses
      to a row holding those tokens and viewing exactly those tags, appended to
      the pool. */
  lemma LineRoundTrip(pool: seq<Tag>, metric: string, timestamp: string, value: string, tags: seq<Tag>)
    requires ' ' !in metric && ' ' !in timestamp && ' ' !in value
    requires |tags| > 0 && AllWellFormed(tags)
    ensures UnmarshalLine(pool, FormatLine(metric, timestamp, value, tags))
         == LineResult(Row(metric, |pool|, |tags|, BestEffort(value), BestEffort(timestamp)), pool + tags, None)
  {
    var rest := metric + " " + (timestamp + " " + (value + " " + JoinTags(tags)));
    PrefixStage(pool, rest);
    FieldsStage(pool, metric, timestamp, value, JoinTags(tags));
    TagsRoundTrip(pool, tags);
  }

  /** Inverse round trip: an accepted line is exactly `put`, the three tokens the
      row holds, and the tags it appended; none of the tokens has a space. */
  lemma LineAccepted(pool: seq<Tag>, s: string)
    requires UnmarshalLine(pool, s).err.None?
    ensures var r := UnmarshalLine(pool, s);
      && r.row.value.BestEffort? && r.row.timestamp.BestEffort?
      && ' ' !in r.row.metric && ' ' !in r.row.timestamp.token && ' ' !in r.row.value.token
      && r.pool[..|pool|] == pool
      && s == FormatLine(r.row.metric, r.row.timestamp.token, r.row.value.token, r.pool[|pool|..])
  {
    var rest := s[|PutPrefix|..];
    assert s == PutPrefix + rest;
    var metric, timestamp, value, tags := AcceptedFields(pool, rest);
    TagsAccepted(pool, tags);
    AppendTagsKeeps(pool, tags);
    LineAcceptedFields(pool, s, metric, timestamp, value, tags);
  }

  /** The text after `put ` of an accepted line splits into three space-free
      fields and an accepted tag section. */
  lemma AcceptedFields(pool: seq<Tag>, rest: string) returns (metric: string, timestamp: string, value: string, tags: string)
    requires AfterPrefix(pool, rest).err.None?
    ensures ' ' !in metric && ' ' !in timestamp && ' ' !in value
    ensures rest == metric + " " + (timestamp + " " + (value + " " + tags))
    ensures AppendTags(pool, tags).err.None?
  {
    var n := IndexOf(rest, ' ');
    UncutToken(rest);
    metric := rest[..n];
    var tail := rest[n + 1..];
    timestamp, value, tags := AcceptedAfterMetric(pool, rest, metric, tail);
  }

  /** `AcceptedFields` from the timestamp on. */
  lemma AcceptedAfterMetric(pool: seq<Tag>, rest: string, metric: string, tail: string)
    returns (timestamp: string, value: string, tags: string)
    requires AfterMetric(pool, rest, metric, tail).err.None?
    ensures ' ' !in timestamp && ' ' !in value
    ensures tail == timestamp + " " + (value + " " + tags)
    ensures AppendTags(pool, tags).err.None?
  {
    var n := IndexOf(tail, ' ');
    UncutToken(tail);
    timestamp := tail[..n];
    var tail2 := tail[n + 1..];
    value, tags := AcceptedAfterTimestamp(pool, rest, metric, BestEffort(timestamp), tail2);
  }

  /** `AcceptedFields` from the value on. */
  lemma AcceptedAfterTimestamp(pool: seq<Tag>, rest: string, metric: string, timestamp: Num, tail: string)
    returns (value: string, tags: string)
    requires AfterTimestamp(pool, rest, metric, timestamp, tail).err.None?
    ensures ' ' !in value
    ensures tail == value + " " + tags
    ensures AppendTags(pool, tags).err.None?
  {
    var n := IndexOf(tail, ' ');
    UncutToken(tail);
    value, tags := tail[..n], tail[n + 1..];
  }

  /** The step of `LineAccepted` that reassembles the line from its fields. */
  lemma LineAcceptedFields(pool: seq<Tag>, s: string, metric: string, timestamp: string, value: string, tags: string)
    requires ' ' !in metric && ' ' !in timestamp && ' ' !in value
    requires s == PutPrefix + (metric + " " + (timestamp + " " + (value + " " + tags)))
    requires AppendTags(pool, tags).err.None?
    requires JoinTags(AppendTags(pool, tags).pool[|pool|..]) == tags
    ensures var r := UnmarshalLine(pool, s);
      && r.row == Row(metric, |pool|, |AppendTags(pool, tags).pool| - |pool|, BestEffort(value), BestEffort(timestamp))
      && r.pool == AppendTags(pool, tags).pool
      && s == FormatLine(metric, timestamp, value, r.pool[|pool|..])
  {
    var rest := metric + " " + (timestamp + " " + (value + " " + tags));
    PrefixStage(pool, rest);
    FieldsStage(pool, metric, timestamp, value, tags);
  }

  /** `put m ts v` with no tag section lacks the separator after the value and
      is refused with that error. */
  lemma NoTagSectionRejected(pool: seq<Tag>, metric: string, timestamp: string, value: string)
    requires ' ' !in metric && ' ' !in timestamp && ' ' !in value
    ensures var rest := metric + " " + (timestamp + " " + value);
      UnmarshalLine(pool, PutPrefix + rest).err == Some(NoSpaceAfterValue(rest))
  {
    var tail := timestamp + " " + value;
    var rest := metric + " " + tail;
    PrefixStage(pool, rest);
    MetricStage(pool, metric, tail);
    TimestampStage(pool, rest, metric, timestamp, value);
    IndexOfFirst(value, ' ');
  }

  /** The first two checks of a line: the `put ` prefix is reported missing
      exactly when the line lacks it, and the separator after the metric exactly
      when the text after `put ` holds no space. */
  lemma LineRejected(pool: seq<Tag>, s: string)
    ensures var e := UnmarshalLine(pool, s).err;
      && (e == Some(MissingPutPrefix(s)) <==> !(PutPrefix <= s))
      && (PutPrefix <= s ==>
            (e == Some(NoSpaceAfterMetric(s[|PutPrefix|..])) <==> ' ' !in s[|PutPrefix|..]))
  {
    if PutPrefix <= s {
      IndexOfFirst(s[|PutPrefix|..], ' ');
    }
  }

  /** Once the metric is cut, the separator after the timestamp is reported
      missing exactly when the text after the metric holds no space. */
  lemma LineRejectedAfterMetric(pool: seq<Tag>, metric: string, tail: string)
    requires ' ' !in metric
    ensures var rest := metric + " " + tail;
      UnmarshalLine(pool, PutPrefix + rest).err == Some(NoSpaceAfterTimestamp(rest)) <==> ' ' !in tail
  {
    PrefixStage(pool, metric + " " + tail);
    MetricStage(pool, metric, tail);
    IndexOfFirst(tail, ' ');
  }

  /** Once metric and timestamp are cut, the separator after the value is
      reported missing exactly when the text after the timestamp holds no space. */
  lemma LineRejectedAfterTimestamp(pool: seq<Tag>, metric: string, timestamp: string, tail: string)
    requires ' ' !in metric && ' ' !in timestamp
    ensures var rest := metric + " " + (timestamp + " " + tail);
      UnmarshalLine(pool, PutPrefix + rest).err == Some(NoSpaceAfterValue(rest)) <==> ' ' !in tail
  {
    var rest := metric + " " + (timestamp + " " + tail);
    PrefixStage(pool, rest);
    MetricStage(pool, metric, timestamp + " " + tail);
    TimestampStage(pool, rest, metric, timestamp, tail);
    IndexOfFirst(tail, ' ');
  }

  /** Once all three fields are cut, the line is refused exactly when its tag
      section is, and the error carries the section's reason. */
  lemma LineTagsRejected(pool: seq<Tag>, metric: string, timestamp: string, value: string, tags: string)
    requires ' ' !in metric && ' ' !in timestamp && ' ' !in value
    ensures var rest := metric + " " + (timestamp + " " + (value + " " + tags));
      var e := UnmarshalLine(pool, PutPrefix + rest).err;
      var te := AppendTags(pool, tags).err;
      && (e.None? <==> te.None?)
      && (te.Some? ==> e == Some(BadTags(rest, te.value)))
  {
    var rest := metric + " " + (timestamp + " " + (value + " " + tags));
    PrefixStage(pool, rest);
    FieldsStage(pool, metric, timestamp, value, tags);
  }

  /** Whether a line is refused, and why, does not depend on the pool. */
  lemma LineErrorIgnoresPool(p: seq<Tag>, q: seq<Tag>, s: string)
    ensures UnmarshalLine(p, s).err == UnmarshalLine(q, s).err
  {
    if PutPrefix <= s {
      PrefixErrorIgnoresPool(p, q, s[|PutPrefix|..]);
    }
  }

  lemma PrefixErrorIgnoresPool(p: seq<Tag>, q: seq<Tag>, rest: string)
    ensures AfterPrefix(p, rest).err == AfterPrefix(q, rest).err
  {
    var n := IndexOf(rest, ' ');
    if n >= 0 {
      MetricErrorIgnoresPool(p, q, rest, rest[..n], rest[n + 1..]);
      assert AfterPrefix(p, rest) == AfterMetric(p, rest, rest[..n], rest[n + 1..]);
      assert AfterPrefix(q, rest) == AfterMetric(q, rest, rest[..n], rest[n + 1..]);
    }
  }

  lemma MetricErrorIgnoresPool(p: seq<Tag>, q: seq<Tag>, rest: string, metric: string, tail: string)
    ensures AfterMetric(p, rest, metric, tail).err == AfterMetric(q, rest, metric, tail).err
  {
    var n := IndexOf(tail, ' ');
    if n >= 0 {
      TimestampErrorIgnoresPool(p, q, rest, metric, BestEffort(tail[..n]), tail[n + 1..]);
      assert AfterMetric(p, rest, metric, tail) == AfterTimestamp(p, rest, metric, BestEffort(tail[..n]), tail[n + 1..]);
      assert AfterMetric(q, rest, metric, tail) == AfterTimestamp(q, rest, metric, BestEffort(tail[..n]), tail[n + 1..]);
    }
  }

  lemma TimestampErrorIgnoresPool(p: seq<Tag>, q: seq<Tag>, rest: string, metric: string, timestamp: Num, tail: string)
    ensures AfterTimestamp(p, rest, metric, timestamp, tail).err == AfterTimestamp(q, rest, metric, timestamp, tail).err
  {
    var n := IndexOf(tail, ' ');
    if n >= 0 {
      var row := Row(metric, 0, 0, BestEffort(tail[..n]), timestamp);
      TagsErrorIgnoresPool(p, q, tail[n + 1..]);
      assert AfterTimestamp(p, rest, metric, timestamp, tail) == AfterValue(p, rest, row, tail[n + 1..]);
      assert AfterTimestamp(q, rest, metric, timestamp, tail) == AfterValue(q, rest, row, tail[n + 1..]);
    }
  }

  /** Whether a tag section is refused, and why, does not depend on the pool. */
  lemma {:induction false} TagsErrorIgnoresPool(p: seq<Tag>, q: seq<Tag>, s: string)
    ensures AppendTags(p, s).err == AppendTags(q, s).err
    decreases |s|
  {
    var n := IndexOf(s, ' ');
    var seg := if n < 0 then s else s[..n];
    AppendTagsHead(p, s, n, seg);
    AppendTagsHead(q, s, n, seg);
    if ParseTag(seg).Ok? && n >= 0 {
      var t := ParseTag(seg).value;
      TagsErrorIgnoresPool(p + [t], q + [t], s[n + 1..]);
    }
  }

  // ---------------------------------------------------------------------------
  // A whole text

  /** The lines `unmarshalRows` parses, in order: the text split at `\n`, with
      empty lines skipped and a last line without `\n` kept. */
  function Lines(s: string): (ls: seq<string>)
    ensures forall i :: 0 <= i < |ls| ==> ls[i] != []
    decreases |s|
  {
    if s == [] then []
    else
      var n := IndexOf(s, '\n');
      if n == 0 then Lines(s[1..])
      else if n < 0 then [s]
      else [s[..n]] + Lines(s[n + 1..])
  }

  /** No line holds a `\n`. */
  lemma {:induction false} LinesHaveNoNewline(s: string)
    ensures forall i :: 0 <= i < |Lines(s)| ==> '\n' !in Lines(s)[i]
    decreases |s|
  {
    if s != [] {
      var n := IndexOf(s, '\n');
      IndexOfFirst(s, '\n');
      if n == 0 {
        LinesHaveNoNewline(s[1..]);
      } else if n > 0 {
        LinesHaveNoNewline(s[n + 1..]);
        var rest := Lines(s[n + 1..]);
        assert Lines(s) == [s[..n]] + rest;
        forall i | 0 <= i < |Lines(s)|
          ensures '\n' !in Lines(s)[i]
        {
          if i > 0 {
            assert Lines(s)[i] == rest[i - 1];
          }
        }
      }
    }
  }

  function JoinLines(ls: seq<string>): string
    decreases |ls|
  {
    if |ls| == 0 then ""
    else if |ls| == 1 then ls[0]
    else ls[0] + "\n" + JoinLines(ls[1..])
  }

  /** The non-empty members of `ls`, in order. */
  function NonEmpty(ls: seq<string>): (r: seq<string>)
    ensures |r| <= |ls|
    decreases |ls|
  {
    if ls == [] then []
    else if ls[0] == [] then NonEmpty(ls[1..])
    else [ls[0]] + NonEmpty(ls[1..])
  }

  /** Splitting undoes joining, except that empty lines (a bare `\n`, a trailing
      `\n`) vanish. */
  lemma {:induction false} LinesOfJoin(ls: seq<string>)
    requires forall i :: 0 <= i < |ls| ==> '\n' !in ls[i]
    ensures Lines(JoinLines(ls)) == NonEmpty(ls)
    decreases |ls|
  {
    if |ls| == 1 {
      if ls[0] != [] {
        assert NonEmpty(ls) == [ls[0]] + NonEmpty([]);
      }
    } else if |ls| > 1 {
      LinesOfJoin(ls[1..]);
      var s := JoinLines(ls);
      var rest := JoinLines(ls[1..]);
      IndexOfAfter(ls[0], '\n', rest);
      assert s[|ls[0]| + 1..] == rest;
      if ls[0] != [] {
        assert s[..|ls[0]|] == ls[0];
      }
    }
  }

  /** What `unmarshalRows` produces: the rows in use, the tag pool in use, the error. */
  datatype TextResult = TextResult(rows: seq<Row>, pool: seq<Tag>, err: Option<Error>)

  /** `unmarshalRows` over the lines `ls`, after `rows` and `pool`: one row slot
      per line, each line's tags appended to the pool, stopping at the first
      failing line, whose slot stays counted. Defined line by line, as the loop
      runs. */
  function UnmarshalLines(rows: seq<Row>, pool: seq<Tag>, ls: seq<string>): (r: TextResult)
    ensures |r.pool| >= |pool|
    ensures r.err.None? ==> |r.rows| == |rows| + |ls|
    ensures r.err.Some? ==> |rows| < |r.rows| <= |rows| + |ls|
    decreases |ls|
  {
    if ls == [] then TextResult(rows, pool, None)
    else
      var lr := UnmarshalLine(pool, ls[0]);
      if lr.err.Some? then TextResult(rows + [lr.row], lr.pool, Some(LineError(ls[0], lr.err.value)))
      else UnmarshalLines(rows + [lr.row], lr.pool, ls[1..])
  }

  /** `Rows.Unmarshal(s)`: parse every line of `s` into an empty arena. */
  function UnmarshalText(s: string): (r: TextResult)
    ensures r.err.None? ==> |r.rows| == |Lines(s)|
    ensures NamesFailingLine(0, Lines(s), r)
    ensures TiledResult(r)
  {
    FailingLine([], [], Lines(s));
    LinesTile([], [], Lines(s));
    UnmarshalLines([], [], Lines(s))
  }

  /** One line, then the rest. */
  lemma UnmarshalLinesCons(rows: seq<Row>, pool: seq<Tag>, line: string, more: seq<string>)
    ensures var lr := UnmarshalLine(pool, line);
      UnmarshalLines(rows, pool, [line] + more)
        == if lr.err.Some? then TextResult(rows + [lr.row], lr.pool, Some(LineError(line, lr.err.value)))
           else UnmarshalLines(rows + [lr.row], lr.pool, more)
  {
    assert ([line] + more)[0] == line && ([line] + more)[1..] == more;
  }

  /** Once a line has failed, the lines after it are not looked at. */
  lemma {:induction false} FailureSticks(rows: seq<Row>, pool: seq<Tag>, ls: seq<string>, more: seq<string>)
    requires UnmarshalLines(rows, pool, ls).err.Some?
    ensures UnmarshalLines(rows, pool, ls + more) == UnmarshalLines(rows, pool, ls)
    decreases |ls|
  {
    var lr := UnmarshalLine(pool, ls[0]);
    assert ls + more == [ls[0]] + (ls[1..] + more);
    UnmarshalLinesCons(rows, pool, ls[0], ls[1..] + more);
    if lr.err.None? {
      FailureSticks(rows + [lr.row], lr.pool, ls[1..], more);
    }
  }

  /** The error of a result names the first refused line of `ls` and the
      reason `Row.unmarshal` gives for it; that line's slot is the last row after
      the `start` rows there were before, and every line before it is accepted. */
  predicate NamesFailingLine(start: nat, ls: seq<string>, R: TextResult) {
    R.err.Some? ==>
      var i := |R.rows| - start - 1;
      && 0 <= i < |ls|
      && UnmarshalLine([], ls[i]).err.Some?
      && R.err.value == LineError(ls[i], UnmarshalLine([], ls[i]).err.value)
      && forall j :: 0 <= j < i ==> UnmarshalLine([], ls[j]).err.None?
  }

  /** On failure, the error names the first failing line and its reason. */
  lemma {:induction false} FailingLine(rows: seq<Row>, pool: seq<Tag>, ls: seq<string>)
    ensures NamesFailingLine(|rows|, ls, UnmarshalLines(rows, pool, ls))
    decreases |ls|
  {
    if ls != [] {
      var lr := UnmarshalLine(pool, ls[0]);
      LineErrorIgnoresPool(pool, [], ls[0]);
      if lr.err.None? {
        FailingLine(rows + [lr.row], lr.pool, ls[1..]);
        assert UnmarshalLines(rows, pool, ls) == UnmarshalLines(rows + [lr.row], lr.pool, ls[1..]);
        FailedLater(|rows|, ls, UnmarshalLines(rows, pool, ls));
      }
    }
  }

  /** The step of `FailingLine` where a later line fails. */
  lemma FailedLater(start: nat, ls: seq<string>, R: TextResult)
    requires ls != [] && UnmarshalLine([], ls[0]).err.None? && NamesFailingLine(start + 1, ls[1..], R)
    ensures NamesFailingLine(start, ls, R)
  {
    if R.err.Some? {
      var i := |R.rows| - start - 1;
      assert ls[i] == ls[1..][i - 1];
      EarlierAccepted(ls, i);
    }
  }

  /** Lines before `i` are accepted when the first is and those before `i - 1`
      in the tail are. */
  lemma EarlierAccepted(ls: seq<string>, i: nat)
    requires 0 < i <= |ls| && UnmarshalLine([], ls[0]).err.None?
    requires forall j :: 0 <= j < i - 1 ==> UnmarshalLine([], ls[1..][j]).err.None?
    ensures forall j :: 0 <= j < i ==> UnmarshalLine([], ls[j]).err.None?
  {
    forall j | 0 < j < i
      ensures UnmarshalLine([], ls[j]).err.None?
    {
      assert ls[j] == ls[1..][j - 1];
    }
  }

  /** Where the last tag view ends (0 when there are no rows). */
  function ViewsEnd(rows: seq<Row>): nat {
    if rows == [] then 0 else rows[|rows| - 1].tagsStart + rows[|rows| - 1].tagsLen
  }

  /** The tag views of `rows` tile the pool from 0 in row order: each starts
      where the one before it ends. */
  predicate Tiled(rows: seq<Row>)
    decreases |rows|
  {
    rows == [] || (Tiled(rows[..|rows| - 1]) && rows[|rows| - 1].tagsStart == ViewsEnd(rows[..|rows| - 1]))
  }

  /** The tiling promised of a result: on success the views of all rows cover
      the pool exactly; on failure those of the rows before the failing one do,
      up to where the failing line began appending, and the failing row views
      nothing. */
  predicate TiledResult(R: TextResult) {
    && (R.err.None? ==> Tiled(R.rows) && ViewsEnd(R.rows) == |R.pool|)
    && (R.err.Some? ==>
          && |R.rows| > 0
          && Tiled(R.rows[..|R.rows| - 1]) && ViewsEnd(R.rows[..|R.rows| - 1]) <= |R.pool|
          && R.rows[|R.rows| - 1].tagsLen == 0)
  }

  /** Rows come in line order and their views tile the pool. */
  lemma {:induction false} LinesTile(rows: seq<Row>, pool: seq<Tag>, ls: seq<string>)
    requires Tiled(rows) && ViewsEnd(rows) == |pool|
    ensures TiledResult(UnmarshalLines(rows, pool, ls))
    decreases |ls|
  {
    if ls == [] {
      assert UnmarshalLines(rows, pool, ls) == TextResult(rows, pool, None);
    } else {
      var lr := UnmarshalLine(pool, ls[0]);
      if lr.err.Some? {
        TiledFailed(rows, lr.row, lr.pool, UnmarshalLines(rows, pool, ls));
      } else {
        TiledSnoc(rows, lr.row);
        LinesTile(rows + [lr.row], lr.pool, ls[1..]);
        assert UnmarshalLines(rows, pool, ls) == UnmarshalLines(rows + [lr.row], lr.pool, ls[1..]);
      }
    }
  }

  /** The failing step of `LinesTile`. */
  lemma TiledFailed(rows: seq<Row>, row: Row, pool: seq<Tag>, R: TextResult)
    requires Tiled(rows) && ViewsEnd(rows) <= |pool| && row.tagsLen == 0
    requires R == TextResult(rows + [row], pool, R.err) && R.err.Some?
    ensures TiledResult(R)
  {
    assert R.rows[..|R.rows| - 1] == rows;
  }

  /** A row whose view starts where the tiling ends extends it. */
  lemma TiledSnoc(rows: seq<Row>, row: Row)
    ensures (rows + [row])[..|rows|] == rows
    ensures Tiled(rows) && row.tagsStart == ViewsEnd(rows) ==>
      Tiled(rows + [row]) && ViewsEnd(rows + [row]) == row.tagsStart + row.tagsLen
  {
    assert (rows + [row])[..|rows|] == rows;
  }

  /** A `put` command as a client writes it: the metric, the timestamp and value
      tokens, and the tags. */
  datatype Put = Put(metric: string, timestamp: string, value: string, tags: seq<Tag>)

  /** A command the line syntax can carry: space- and newline-free tokens and
      at least one well-formed, newline-free tag. */
  predicate WellFormedPut(p: Put) {
    && ' ' !in p.metric && ' ' !in p.timestamp && ' ' !in p.value
    && '\n' !in p.metric && '\n' !in p.timestamp && '\n' !in p.value
    && |p.tags| > 0 && AllWellFormed(p.tags) && '\n' !in JoinTags(p.tags)
  }

  function FormatPut(p: Put): string {
    FormatLine(p.metric, p.timestamp, p.value, p.tags)
  }

  /** The lines of a sequence of commands. */
  function FormatPuts(ps: seq<Put>): (ls: seq<string>)
    ensures |ls| == |ps|
    decreases |ps|
  {
    if ps == [] then [] else [FormatPut(ps[0])] + FormatPuts(ps[1..])
  }

  /** The rows the commands `ps` parse to when the pool already holds `start`
      tags: each row views the next `|tags|` pool slots. */
  function PutRows(ps: seq<Put>, start: nat): (rows: seq<Row>)
    ensures |rows| == |ps|
    decreases |ps|
  {
    if ps == [] then []
    else
      var p := ps[0];
      [Row(p.metric, start, |p.tags|, BestEffort(p.value), BestEffort(p.timestamp))] + PutRows(ps[1..], start + |p.tags|)
  }

  /** All tags of the commands `ps`, in order. */
  function PutTags(ps: seq<Put>): seq<Tag>
    decreases |ps|
  {
    if ps == [] then [] else ps[0].tags + PutTags(ps[1..])
  }

  /** Every command of `ps` is well formed. */
  predicate AllWellFormedPuts(ps: seq<Put>) {
    forall i :: 0 <= i < |ps| ==> WellFormedPut(ps[i])
  }

  /** Round trip over lines: the lines of well-formed commands parse to one row
      per command, each viewing its own tags, appended in order. */
  lemma {:induction false} PutsRoundTrip(rows: seq<Row>, pool: seq<Tag>, ps: seq<Put>)
    requires AllWellFormedPuts(ps)
    ensures UnmarshalLines(rows, pool, FormatPuts(ps)) == TextResult(rows + PutRows(ps, |pool|), pool + PutTags(ps), None)
    decreases |ps|
  {
    if ps == [] {
      assert rows + [] == rows && pool + [] == pool;
    } else {
      var p := ps[0];
      var row := Row(p.metric, |pool|, |p.tags|, BestEffort(p.value), BestEffort(p.timestamp));
      assert WellFormedPut(p);
      LineRoundTrip(pool, p.metric, p.timestamp, p.value, p.tags);
      PutsRoundTrip(rows + [row], pool + p.tags, ps[1..]);
      UnmarshalLinesCons(rows, pool, FormatPut(p), FormatPuts(ps[1..]));
      PutsRoundTripCons(rows, pool, ps, row);
    }
  }

  /** The regrouping step of `PutsRoundTrip`. */
  lemma PutsRoundTripCons(rows: seq<Row>, pool: seq<Tag>, ps: seq<Put>, row: Row)
    requires ps != [] && row == Row(ps[0].metric, |pool|, |ps[0].tags|, BestEffort(ps[0].value), BestEffort(ps[0].timestamp))
    ensures FormatPuts(ps) == [FormatPut(ps[0])] + FormatPuts(ps[1..])
    ensures rows + [row] + PutRows(ps[1..], |pool + ps[0].tags|) == rows + PutRows(ps, |pool|)
    ensures pool + ps[0].tags + PutTags(ps[1..]) == pool + PutTags(ps)
  {
    PutRowsCons(ps, |pool|, row);
    ConsAssoc(rows, row, PutRows(ps[1..], |pool| + |ps[0].tags|));
    PutTagsCons(ps);
    Assoc(pool, ps[0].tags, PutTags(ps[1..]));
  }

  lemma PutRowsCons(ps: seq<Put>, start: nat, row: Row)
    requires ps != [] && row == Row(ps[0].metric, start, |ps[0].tags|, BestEffort(ps[0].value), BestEffort(ps[0].timestamp))
    ensures PutRows(ps, start) == [row] + PutRows(ps[1..], start + |ps[0].tags|)
  {
  }

  lemma PutTagsCons(ps: seq<Put>)
    requires ps != []
    ensures PutTags(ps) == ps[0].tags + PutTags(ps[1..])
  {
  }

  /** Formatted commands are non-empty, newline-free lines. */
  lemma {:induction false} FormatPutsLines(ps: seq<Put>)
    requires AllWellFormedPuts(ps)
    ensures forall i :: 0 <= i < |ps| ==> FormatPuts(ps)[i] != [] && '\n' !in FormatPuts(ps)[i]
    ensures NonEmpty(FormatPuts(ps)) == FormatPuts(ps)
    decreases |ps|
  {
    if ps != [] {
      FormatPutsLines(ps[1..]);
      var ls := FormatPuts(ps);
      assert ls == [FormatPut(ps[0])] + FormatPuts(ps[1..]);
      assert WellFormedPut(ps[0]);
      assert FormatPut(ps[0])[0] == 'p';
      forall i | 0 <= i < |ps|
        ensures ls[i] != [] && '\n' !in ls[i]
      {
        if i > 0 {
          assert ls[i] == FormatPuts(ps[1..])[i - 1];
        }
      }
      assert ls[1..] == FormatPuts(ps[1..]);
    }
  }

  /** Round trip over a whole text: commands written one per line and joined by
      `\n` parse back to one row per command, in order, with the tags of all of
      them in the pool and each row viewing its own. */
  lemma TextRoundTrip(ps: seq<Put>)
    requires AllWellFormedPuts(ps)
    ensures UnmarshalText(JoinLines(FormatPuts(ps))) == TextResult(PutRows(ps, 0), PutTags(ps), None)
  {
    FormatPutsLines(ps);
    LinesOfJoin(FormatPuts(ps));
    PutsRoundTrip([], [], ps);
    assert [] + PutRows(ps, 0) == PutRows(ps, 0);
    assert [] + PutTags(ps) == PutTags(ps);
  }

  /** The text is split into lines at its first `\n`: an empty first line is
      skipped, and otherwise the first line comes first. */
  lemma LinesHead(s: string, n: int, line: string, next: string)
    requires s != [] && n == IndexOf(s, '\n') && n != 0
    requires line == (if n < 0 then s else s[..n]) && next == (if n < 0 then "" else s[n + 1..])
    ensures Lines(s) == [line] + Lines(next)
  {
    if n < 0 {
      assert Lines(next) == [];
    }
  }

  // ---------------------------------------------------------------------------
  // The arena

  /** `Rows`: the parsed rows and the tag pool they share. Go slices keep spare
      capacity behind their length; `rowBuf` and `tagBuf` are the backing arrays
      up to their capacity and `rowLen`, `tagLen` the lengths in use. */
  class Rows {
    var rowBuf: seq<Row>
    var rowLen: nat
    var tagBuf: seq<Tag>
    var tagLen: nat

    /** The lengths in use fit the backing arrays. */
    ghost predicate Valid()
      reads this
    {
      rowLen <= |rowBuf| && tagLen <= |tagBuf|
    }

    /** `rs.Rows`. */
    function RowList(): seq<Row>
      reads this
      requires Valid()
    {
      rowBuf[..rowLen]
    }

    /** `rs.tagsPool`. */
    function Pool(): seq<Tag>
      reads this
      requires Valid()
    {
      tagBuf[..tagLen]
    }

    /** The zero `Rows{}`. */
    constructor ()
      ensures Valid() && rowBuf == [] && rowLen == 0 && tagBuf == [] && tagLen == 0
    {
      rowBuf, rowLen, tagBuf, tagLen := [], 0, [], 0;
    }

    /** `Reset`: clear every slot in use and truncate both lists to length 0,
        keeping the capacity and whatever the spare slots hold. Resetting an
        arena already at length 0 changes nothing, so a second `Reset` is a no-op. */
    method Reset()
      requires Valid()
      modifies this
      ensures Valid() && rowLen == 0 && tagLen == 0
      ensures rowBuf == ZeroSlots(old(rowBuf), old(rowLen), EmptyRow)
      ensures tagBuf == ZeroSlots(old(tagBuf), old(tagLen), EmptyTag)
      ensures old(rowLen) == 0 && old(tagLen) == 0 ==> rowBuf == old(rowBuf) && tagBuf == old(tagBuf)
    {
      var i := 0;
      while i < rowLen
        invariant i <= rowLen <= |rowBuf| == |old(rowBuf)|
        invariant rowLen == old(rowLen) && tagLen == old(tagLen) && tagBuf == old(tagBuf)
        invariant forall j :: 0 <= j < i ==> rowBuf[j] == EmptyRow
        invariant rowBuf[i..] == old(rowBuf)[i..]
      {
        rowBuf := rowBuf[i := EmptyRow];
        i := i + 1;
      }
      ZeroSlotsUnique(old(rowBuf), rowLen, EmptyRow, rowBuf);
      rowLen := 0;
      i := 0;
      while i < tagLen
        invariant i <= tagLen <= |tagBuf| == |old(tagBuf)|
        invariant tagLen == old(tagLen)
        invariant rowLen == 0 && rowBuf == ZeroSlots(old(rowBuf), old(rowLen), EmptyRow)
        invariant forall j :: 0 <= j < i ==> tagBuf[j] == EmptyTag
        invariant tagBuf[i..] == old(tagBuf)[i..]
      {
        tagBuf := tagBuf[i := EmptyTag];
        i := i + 1;
      }
      ZeroSlotsUnique(old(tagBuf), tagLen, EmptyTag, tagBuf);
      tagLen := 0;
    }

    /** The capacity check of `unmarshalRows`: extend the row list by one slot,
        reusing the spare slot with its old content when there is one and
        appending a zero `Row` otherwise. */
    method AddRowSlot()
      requires Valid()
      modifies this
      ensures Valid() && rowLen == old(rowLen) + 1
      ensures rowBuf == if old(rowLen) < |old(rowBuf)| then old(rowBuf) else old(rowBuf) + [EmptyRow]
      ensures tagBuf == old(tagBuf) && tagLen == old(tagLen)
    {
      if rowLen == |rowBuf| {
        rowBuf := rowBuf + [EmptyRow];
      }
      rowLen := rowLen + 1;
    }

    /** The capacity check of `unmarshalTags`, as `AddRowSlot` for tags. */
    method AddTagSlot()
      requires Valid()
      modifies this
      ensures Valid() && tagLen == old(tagLen) + 1
      ensures tagBuf == if old(tagLen) < |old(tagBuf)| then old(tagBuf) else old(tagBuf) + [EmptyTag]
      ensures rowBuf == old(rowBuf) && rowLen == old(rowLen)
    {
      if tagLen == |tagBuf| {
        tagBuf := tagBuf + [EmptyTag];
      }
      tagLen := tagLen + 1;
    }

    /** `Tag.unmarshal` of segment `seg` into pool slot `k`: the slot is reset,
        then filled field by field; a refused segment leaves it cleared (its key,
        if stored, is empty). */
    method UnmarshalTag(k: nat, seg: string) returns (err: Option<TagError>)
      requires Valid() && k < |tagBuf|
      modifies this
      ensures Valid() && rowBuf == old(rowBuf) && rowLen == old(rowLen) && tagLen == old(tagLen)
      ensures match ParseTag(seg)
              case Ok(t) => err == None && tagBuf == old(tagBuf)[k := t]
              case Err(e) => err == Some(e) && tagBuf == old(tagBuf)[k := EmptyTag]
    {
      tagBuf := tagBuf[k := EmptyTag];
      var n := IndexOf(seg, '=');
      if n < 0 {
        return Some(MissingTagValue(seg));
      }
      tagBuf := tagBuf[k := tagBuf[k].(key := seg[..n])];
      if n == 0 {
        return Some(EmptyTagKey(seg));
      }
      tagBuf := tagBuf[k := tagBuf[k].(value := seg[n + 1..])];
      return None;
    }

    /** One round of `unmarshalTags`: grow the pool by a slot, unmarshal segment
        `seg` into it, and take the slot back off the pool if `seg` is refused. */
    method PushTag(seg: string) returns (err: Option<TagError>)
      requires Valid()
      modifies this
      ensures Valid() && rowBuf == old(rowBuf) && rowLen == old(rowLen)
      ensures |tagBuf| >= |old(tagBuf)|
      ensures match ParseTag(seg)
              case Ok(t) => err == None && Pool() == old(Pool()) + [t]
              case Err(e) => err == Some(e) && Pool() == old(Pool())
    {
      ghost var buf, len := tagBuf, tagLen;
      AddTagSlot();
      err := UnmarshalTag(tagLen - 1, seg);
      if err.Some? {
        tagLen := tagLen - 1;
        assert Pool() == buf[..len];
      } else {
        PushSlot(buf, len, EmptyTag, ParseTag(seg).value);
      }
    }

    /** `unmarshalTags`: append the tags of the tag section `s` to the pool; the
        slot of a refused segment is taken back off the pool. */
    method UnmarshalTags(s: string) returns (err: Option<TagError>)
      requires Valid()
      modifies this
      ensures Valid() && rowBuf == old(rowBuf) && rowLen == old(rowLen)
      ensures TagsResult(Pool(), err) == AppendTags(old(Pool()), s)
      ensures |tagBuf| >= |old(tagBuf)|
    {
      var rest := s;
      while true
        invariant Valid() && rowBuf == old(rowBuf) && rowLen == old(rowLen)
        invariant AppendTags(old(Pool()), s) == AppendTags(Pool(), rest)
        invariant |tagBuf| >= |old(tagBuf)|
        decreases |rest|
      {
        var n := IndexOf(rest, ' ');
        var seg := if n < 0 then rest else rest[..n];
        AppendTagsHead(Pool(), rest, n, seg);
        err := PushTag(seg);
        if err.Some? || n < 0 {
          return;
        }
        rest := rest[n + 1..];
      }
    }

    /** `Row.unmarshal` of line `s` into row slot `k`: the slot is reset, then
        filled field by field as the separators are found. The row is built in
        a local and stored in the slot on every exit; nothing reads the slot in
        between. */
    method UnmarshalRow(k: nat, s: string) returns (err: Option<RowError>)
      requires Valid() && k < |rowBuf|
      modifies this
      ensures Valid() && rowLen == old(rowLen)
      ensures var lr := UnmarshalLine(old(Pool()), s);
        rowBuf == old(rowBuf)[k := lr.row] && Pool() == lr.pool && err == lr.err
      ensures |tagBuf| >= |old(tagBuf)|
    {
      ghost var pool := Pool();
      var r := EmptyRow;
      if !(PutPrefix <= s) {
        assert UnmarshalLine(pool, s) == LineResult(r, pool, Some(MissingPutPrefix(s)));
        rowBuf := rowBuf[k := r];
        return Some(MissingPutPrefix(s));
      }
      var rest := s[|PutPrefix|..];
      assert UnmarshalLine(pool, s) == AfterPrefix(pool, rest);
      var n := IndexOf(rest, ' ');
      if n < 0 {
        assert UnmarshalLine(pool, s) == LineResult(r, pool, Some(NoSpaceAfterMetric(rest)));
        rowBuf := rowBuf[k := r];
        return Some(NoSpaceAfterMetric(rest));
      }
      r := r.(metric := rest[..n]);
      var tail := rest[n + 1..];
      assert UnmarshalLine(pool, s) == AfterMetric(pool, rest, r.metric, tail);
      n := IndexOf(tail, ' ');
      if n < 0 {
        assert UnmarshalLine(pool, s) == LineResult(r, pool, Some(NoSpaceAfterTimestamp(rest)));
        rowBuf := rowBuf[k := r];
        return Some(NoSpaceAfterTimestamp(rest));
      }
      r := r.(timestamp := BestEffort(tail[..n]));
      assert UnmarshalLine(pool, s) == AfterTimestamp(pool, rest, r.metric, r.timestamp, tail[n + 1..]);
      tail := tail[n + 1..];
      n := IndexOf(tail, ' ');
      if n < 0 {
        assert UnmarshalLine(pool, s) == LineResult(r, pool, Some(NoSpaceAfterValue(rest)));
        rowBuf := rowBuf[k := r];
        return Some(NoSpaceAfterValue(rest));
      }
      r := r.(value := BestEffort(tail[..n]));
      assert UnmarshalLine(pool, s) == AfterValue(pool, rest, r, tail[n + 1..]);
      err := UnmarshalRowTags(k, rest, r, tail[n + 1..]);
    }

    /** The tag section of `Row.unmarshal`: the tags are appended to the pool,
        and the row, viewing them when all parse, is stored in slot `k`. */
    method UnmarshalRowTags(k: nat, rest: string, r: Row, tags: string) returns (err: Option<RowError>)
      requires Valid() && k < |rowBuf| && r.tagsStart == 0 && r.tagsLen == 0
      modifies this
      ensures Valid() && rowLen == old(rowLen)
      ensures var lr := AfterValue(old(Pool()), rest, r, tags);
        rowBuf == old(rowBuf)[k := lr.row] && Pool() == lr.pool && err == lr.err
      ensures |tagBuf| >= |old(tagBuf)|
    {
      ghost var pool := Pool();
      var tagsStart := tagLen;
      var e := UnmarshalTags(tags);
      assert AppendTags(pool, tags) == TagsResult(Pool(), e);
      if e.Some? {
        rowBuf := rowBuf[k := r];
        assert AfterValue(pool, rest, r, tags) == LineResult(r, Pool(), Some(BadTags(rest, e.value)));
        return Some(BadTags(rest, e.value));
      }
      var done := r.(tagsStart := tagsStart, tagsLen := tagLen - tagsStart);
      assert AfterValue(pool, rest, r, tags) == LineResult(done, Pool(), None);
      rowBuf := rowBuf[k := done];
      return None;
    }

    /** One round of `unmarshalRows`: grow the row list by a slot and
        unmarshal `line` into it. The slot stays on the list whatever the
        outcome. */
    method PushRow(line: string) returns (err: Option<RowError>)
      requires Valid()
      modifies this
      ensures Valid() && rowLen == old(rowLen) + 1
      ensures var lr := UnmarshalLine(old(Pool()), line);
        RowList() == old(RowList()) + [lr.row] && Pool() == lr.pool && err == lr.err
      ensures |rowBuf| == Max(|old(rowBuf)|, rowLen)
      ensures rowLen <= |old(rowBuf)| ==> rowBuf[rowLen..] == old(rowBuf)[rowLen..]
      ensures |tagBuf| >= |old(tagBuf)|
    {
      ghost var pool, buf, len := Pool(), rowBuf, rowLen;
      AddRowSlot();
      err := UnmarshalRow(rowLen - 1, line);
      PushSlot(buf, len, EmptyRow, UnmarshalLine(pool, line).row);
    }

    /** `Unmarshal`: parse the text `s` into the arena. Parsing starts from
        length 0, so earlier content is replaced, not appended to; row slots
        beyond the old capacity are appended one by one, so a text with no more
        rows than the capacity reallocates nothing and the spare row slots keep
        their content. */
    method Unmarshal(s: string) returns (err: Option<Error>)
      requires Valid()
      modifies this
      ensures Valid()
      ensures TextResult(RowList(), Pool(), err) == UnmarshalText(s)
      ensures |rowBuf| == Max(|old(rowBuf)|, rowLen)
      ensures rowLen <= |old(rowBuf)| ==> rowBuf[rowLen..] == old(rowBuf)[rowLen..]
      ensures |tagBuf| >= |old(tagBuf)|
    {
      rowLen, tagLen := 0, 0;
      var rest := s;
      while |rest| > 0
        invariant Valid()
        invariant UnmarshalText(s) == UnmarshalLines(RowList(), Pool(), Lines(rest))
        invariant |rowBuf| == Max(|old(rowBuf)|, rowLen)
        invariant rowLen <= |old(rowBuf)| ==> rowBuf[rowLen..] == old(rowBuf)[rowLen..]
        invariant |tagBuf| >= |old(tagBuf)|
        decreases |rest|
      {
        var n := IndexOf(rest, '\n');
        if n == 0 {
          rest := rest[1..];
          continue;
        }
        var line := if n < 0 then rest else rest[..n];
        var next := if n < 0 then "" else rest[n + 1..];
        LinesHead(rest, n, line, next);
        ghost var rows, pool, buf := RowList(), Pool(), rowBuf;
        var e := PushRow(line);
        UnmarshalLinesCons(rows, pool, line, Lines(next));
        if rowLen <= |old(rowBuf)| {
          SuffixOfSuffix(rowBuf, buf, old(rowBuf), rowLen - 1);
        }
        if e.Some? {
          assert UnmarshalText(s) == TextResult(RowList(), Pool(), Some(LineError(line, e.value)));
          return Some(LineError(line, e.value));
        }
        assert UnmarshalText(s) == UnmarshalLines(RowList(), Pool(), Lines(next));
        if n < 0 {
          assert Lines(next) == [];
          return None;
        }
        rest := next;
      }
      return None;
    }
  }
}
