/** The JSON values the OpenTSDB `/api/put` parser walks, and the fastjson
    accessors it calls on them. fastjson's text parser and its number conversions
    are not part of this model: a number carries the outcomes of its two
    conversions, `Int64()` and `Float64()`. */
module Json {
  import opened Common

  /** A float64, opaque: the number token it was read from and `int64(f*1000)`,
      Go's conversion of the float scaled to milliseconds. */
  datatype Float = Float(token: string, millis: I64)

  /** The float 0 that `Row.reset` stores. */
  const ZeroFloat := Float("0", 0)

  /** A parsed JSON value. A number holds what `Int64()` returns (None when the
      token has a fraction or does not fit in an int64) and what `Float64()`
      returns (None when fastjson cannot read it as a float). */
  datatype Value =
    | Null
    | Bool(b: bool)
    | Number(asInt: Option<I64>, asFloat: Option<Float>)
    | Str(s: string)
    | Arr(elems: seq<Value>)
    | Obj(members: seq<Member>)

  /** One `"key": value` member of an object, in the order of the text. */
  datatype Member = Member(key: string, value: Value)

  /** `Object.Get(key)`: the value of the first member named `key`, if any. */
  function Lookup(members: seq<Member>, key: string): Option<Value>
    decreases |members|
  {
    if members == [] then None
    else if members[0].key == key then Some(members[0].value)
    else Lookup(members[1..], key)
  }

  /** `Lookup` finds a value exactly when a member has the key, and the value it
      finds is that of the first such member. */
  lemma {:induction false} LookupFirst(members: seq<Member>, key: string)
    ensures Lookup(members, key).None? <==> forall i :: 0 <= i < |members| ==> members[i].key != key
    ensures Lookup(members, key).Some? ==>
      exists i :: 0 <= i < |members| && members[i] == Member(key, Lookup(members, key).value) &&
        forall j :: 0 <= j < i ==> members[j].key != key
    decreases |members|
  {
    if members != [] && members[0].key != key {
      LookupFirst(members[1..], key);
      if Lookup(members, key).Some? {
        var i :| 0 <= i < |members[1..]| && members[1..][i] == Member(key, Lookup(members, key).value) &&
          forall j :: 0 <= j < i ==> members[1..][j].key != key;
        assert members[i + 1] == Member(key, Lookup(members, key).value);
        assert forall j :: 0 <= j < i + 1 ==> members[j].key != key by {
          forall j | 0 <= j < i + 1
            ensures members[j].key != key
          {
            if j > 0 {
              assert members[j] == members[1..][j - 1];
            }
          }
        }
      }
    } else if members != [] {
      assert members[0] == Member(key, Lookup(members, key).value);
    }
  }

  /** `Value.Get(key)`: a member of an object; nothing for any other value. */
  function Get(v: Value, key: string): Option<Value> {
    if v.Obj? then Lookup(v.members, key) else None
  }

  /** `Value.GetStringBytes(key)`: the member's text when it is a string. */
  function GetStringBytes(v: Value, key: string): Option<string> {
    match Get(v, key)
    case Some(Str(s)) => Some(s)
    case _ => None
  }

  /** `Value.GetObject(key)`: the member's members when it is an object. */
  function GetObject(v: Value, key: string): Option<seq<Member>> {
    match Get(v, key)
    case Some(Obj(ms)) => Some(ms)
    case _ => None
  }

  /** `Value.Int64()`: fails on anything but a number. */
  function Int64(v: Value): Option<I64> {
    if v.Number? then v.asInt else None
  }

  /** `Value.Float64()`: fails on anything but a number. */
  function Float64(v: Value): Option<Float> {
    if v.Number? then v.asFloat else None
  }
}
