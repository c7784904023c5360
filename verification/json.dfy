/** The JSON values a model reply can decode to, as `json.loads` builds
    them, and the Python truthiness and `str()` rendering the report code
    applies to them. Numbers are integers only. */
module JsonData {
  import opened Text
  import opened Options

  datatype Json =
    | JNull
    | JBool(flag: bool)
    | JNumber(n: int)
    | JString(str: string)
    | JArray(items: seq<Json>)
    | JObject(members: seq<Member>)

  /** One `"key": value` pair of an object, in source order; a key may
      repeat, and `json.loads` keeps the last value. */
  datatype Member = Member(key: string, value: Json)

  /** Python truthiness of the decoded value. */
  predicate Truthy(j: Json) {
    match j
    case JNull => false
    case JBool(b) => b
    case JNumber(n) => n != 0
    case JString(s) => |s| > 0
    case JArray(items) => |items| > 0
    case JObject(ms) => |ms| > 0
  }

  /** `dict.get(key)`: the value of the last member named `key`. */
  function Field(ms: seq<Member>, key: string): (r: Option<Json>)
    ensures r.None? <==> forall i | 0 <= i < |ms| :: ms[i].key != key
    ensures r.Some? ==> LastWith(ms, key, r.value)
  {
    if |ms| == 0 then None
    else if ms[|ms| - 1].key == key then
      assert LastAt(ms, key, ms[|ms| - 1].value, |ms| - 1);
      Some(ms[|ms| - 1].value)
    else
      var r := Field(ms[..|ms| - 1], key);
      FieldSkipsLast(ms, key, r);
      r
  }

  /** The member at `i` is named `key`, holds `v`, and no later member is
      named `key`. */
  predicate LastAt(ms: seq<Member>, key: string, v: Json, i: int) {
    && 0 <= i < |ms| && ms[i].key == key && ms[i].value == v
    && forall j | i < j < |ms| :: ms[j].key != key
  }

  predicate LastWith(ms: seq<Member>, key: string, v: Json) {
    exists i | 0 <= i < |ms| :: LastAt(ms, key, v, i)
  }

  lemma FieldSkipsLast(ms: seq<Member>, key: string, r: Option<Json>)
    requires |ms| > 0 && ms[|ms| - 1].key != key
    requires var init := ms[..|ms| - 1];
      && (r.None? <==> forall i | 0 <= i < |init| :: init[i].key != key)
      && (r.Some? ==> LastWith(init, key, r.value))
    ensures r.None? <==> forall i | 0 <= i < |ms| :: ms[i].key != key
    ensures r.Some? ==> LastWith(ms, key, r.value)
  {
    var init := ms[..|ms| - 1];
    assert forall i | 0 <= i < |init| :: init[i] == ms[i];
    if r.Some? {
      var i :| 0 <= i < |init| && LastAt(init, key, r.value, i);
      assert LastAt(ms, key, r.value, i);
    }
  }

  /** `dict.get(key, default)`. */
  function FieldOr(ms: seq<Member>, key: string, default: Json): Json {
    match Field(ms, key)
    case Some(v) => v
    case None => default
  }

  /** Decimal rendering of an integer, as `str(int)`. */
  function IntToString(n: int): (r: string)
    ensures |r| >= 1
    ensures n >= 0 ==> r == NatToString(n)
  {
    if n < 0 then "-" + NatToString(-n) else NatToString(n)
  }

  /** `repr()` of a decoded value, as it appears inside a list or dict. */
  function Repr(j: Json): string
    decreases j
  {
    match j
    case JNull => "None"
    case JBool(b) => if b then "True" else "False"
    case JNumber(n) => IntToString(n)
    case JString(s) => "'" + s + "'"
    case JArray(items) =>
      "[" + JoinWith(seq(|items|, i requires 0 <= i < |items| => Repr(items[i])), ", ") + "]"
    case JObject(ms) =>
      "{" + JoinWith(seq(|ms|, i requires 0 <= i < |ms| => "'" + ms[i].key + "': " + Repr(ms[i].value)), ", ") + "}"
  }

  /** `str()` of a decoded value: a string is its own text, everything else
      its `repr()`. */
  function PyStr(j: Json): (r: string)
    ensures j.JString? ==> r == j.str
    ensures !j.JString? ==> r == Repr(j)
  {
    if j.JString? then j.str else Repr(j)
  }
}
