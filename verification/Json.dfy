/** JSON values as the jansson calls of bid_util.c see them, and the timestamp accessors. */
module Json {
  import opened Wrappers

  datatype Json =
    | Null
    | Bool(b: bool)
    | Int(n: int)
    | Str(s: string)
    | Arr(elems: seq<Json>)
    | Obj(members: Object)

  type Object = map<string, Json>

  /** `json_object_get` answers NULL on anything that is not an object. */
  function Members(j: Json): Object {
    if j.Obj? then j.members else map[]
  }

  function Get(o: Object, key: string): Option<Json> {
    if key in o then Some(o[key]) else None
  }

  function StringValue(j: Option<Json>): Option<string> {
    if j.Some? && j.value.Str? then Some(j.value.s) else None
  }

  function GetString(o: Object, key: string): Option<string> {
    StringValue(Get(o, key))
  }

  function GetObject(o: Object, key: string): Option<Object> {
    if key in o && o[key].Obj? then Some(o[key].members) else None
  }

  /** `json_integer_value` is 0 on anything that is not an integer. */
  function IntegerValue(j: Option<Json>): int {
    if j.Some? && j.value.Int? then j.value.n else 0
  }

  /** `_BIDJsonObjectSet` without BID_JSON_FLAG_REQUIRED: a NULL source deletes the key. */
  function Set(o: Object, key: string, value: Option<Json>): Object {
    if value.Some? then o[key := value.value] else o - {key}
  }

  /** C division: truncation toward zero, also for negative dividends. */
  function Truncate(n: int, d: nat): (q: int)
    requires d > 0
    ensures n >= 0 ==> d * q <= n < d * q + d
    ensures n <= 0 ==> d * q - d < n <= d * q
  {
    if n >= 0 then n / d else -((-n) / d)
  }

  function GetTimestamp(o: Object, key: string): int {
    Truncate(IntegerValue(Get(o, key)), 1000)
  }

  function Timestamp(t: int): Json {
    Int(t * 1000)
  }

  function SetTimestamp(o: Object, key: string, t: int): Object {
    o[key := Timestamp(t)]
  }

  /** Times are kept in milliseconds and read in whole seconds; what is no number reads as 0. */
  lemma ReadsSeconds(o: Object, key: string)
    ensures var t := GetTimestamp(o, key);
            if key in o && o[key].Int? then
              if o[key].n >= 0 then 1000 * t <= o[key].n < 1000 * t + 1000 else 1000 * t - 1000 < o[key].n <= 1000 * t
            else t == 0
  {
  }

  /** A time that was stored is read back unchanged, whatever its sign. */
  lemma TimestampRoundTrip(o: Object, key: string, t: int)
    ensures GetTimestamp(SetTimestamp(o, key, t), key) == t
  {
  }
}
