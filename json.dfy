/** The decoded JSON document and the Python operations the rules apply to it:
    `d[k]`, `k in d`, `d.get(k)`, truthiness, iteration and `str()`. */
module JsonValue {
  import opened Wrappers
  import opened Text

  /** A value as `json.loads` returns it. Objects keep their members in document
      order, as Python dicts keep insertion order. */
  datatype Json =
    | JNull
    | JBool(b: bool)
    | JNum(n: int)
    | JStr(s: string)
    | JArr(items: seq<Json>)
    | JObj(members: seq<(string, Json)>)

  /** The value stored under `key`; when a key repeats, the last one wins, as
      with `json.loads`. */
  function Lookup(members: seq<(string, Json)>, key: string): (r: Option<Json>)
    ensures r.Some? <==> exists i :: 0 <= i < |members| && members[i].0 == key
    ensures r.Some? ==> exists i :: 0 <= i < |members| && members[i] == (key, r.value)
  {
    if members == [] then None
    else if members[|members| - 1].0 == key then Some(members[|members| - 1].1)
    else Lookup(members[..|members| - 1], key)
  }

  /** `j.get(key)` on a dict, `None` when `j` is not an object or lacks `key`. */
  function Member(j: Json, key: string): Option<Json> {
    if j.JObj? then Lookup(j.members, key) else None
  }

  predicate HasKey(j: Json, key: string) {
    Member(j, key).Some?
  }

  /** `j[key]`: a KeyError or TypeError when `j` is not an object holding `key`. */
  function Field(j: Json, key: string): (r: Result<Json>)
    ensures r.Success? <==> HasKey(j, key)
    ensures r.Failure? ==> r.error == MalformedField(key)
  {
    match Member(j, key)
    case Some(v) => Success(v)
    case None => Failure(MalformedField(key))
  }

  /** `j.get(key)` with JSON `null` standing for Python's `None`. */
  function GetOrNull(j: Json, key: string): Json {
    match Member(j, key)
    case Some(v) => v
    case None => JNull
  }

  /** `j[key]["value"] if key in j else None`, the idiom the citation rules use
      for optional sub-fields. Membership is only modelled on objects. */
  function OptionalValue(j: Json, key: string): (r: Result<Json>)
    ensures r.Failure? ==> r.error.MalformedField?
  {
    if !j.JObj? then Failure(MalformedField(key))
    else if HasKey(j, key) then
      var sub :- Field(j, key);
      Field(sub, "value")
    else Success(JNull)
  }

  /** Python truthiness of a decoded value. */
  predicate Truthy(j: Json) {
    match j
    case JNull => false
    case JBool(b) => b
    case JNum(n) => n != 0
    case JStr(s) => s != ""
    case JArr(xs) => xs != []
    case JObj(ms) => ms != []
  }

  /** `for x in j`: lists give their items, dicts their keys, strings their
      characters; anything else is not iterable. */
  function Iterate(j: Json, field: string): Result<seq<Json>> {
    match j
    case JArr(xs) => Success(xs)
    case JObj(ms) => Success(seq(|ms|, i requires 0 <= i < |ms| => JStr(ms[i].0)))
    case JStr(s) => Success(seq(|s|, i requires 0 <= i < |s| => JStr([s[i]])))
    case _ => Failure(MalformedField(field))
  }

  /** The string itself, or the AttributeError a string method raises on `None`
      or on any other non-string value. */
  function AsString(j: Json, field: string): (r: Result<string>)
    ensures r.Success? <==> j.JStr?
    ensures r.Failure? ==> r.error == NotAString(field)
  {
    if j.JStr? then Success(j.s) else Failure(NotAString(field))
  }

  /** `j.lower()`. */
  function LowerOf(j: Json, field: string): Result<string> {
    var s :- AsString(j, field);
    Success(Lower(s))
  }

  /** `repr(j)`: what Python prints for a decoded value inside a container or
      an f-string of a container. */
  function PyRepr(j: Json): string
    decreases j, 1, 0
  {
    match j
    case JNull => "None"
    case JBool(b) => if b then "True" else "False"
    case JNum(n) => IntToString(n)
    case JStr(s) => "'" + s + "'"
    case JArr(xs) => "[" + ReprItems(xs) + "]"
    case JObj(ms) => "{" + ReprMembers(j, 0) + "}"
  }

  /** The reprs of a list's items, separated by `", "`. */
  function ReprItems(xs: seq<Json>): string
    decreases xs
  {
    if xs == [] then ""
    else if |xs| == 1 then PyRepr(xs[0])
    else PyRepr(xs[0]) + ", " + ReprItems(xs[1..])
  }

  /** The `'key': repr(value)` pairs of a dict from its `k`-th member on,
      separated by `", "`. */
  function ReprMembers(j: Json, k: nat): string
    requires j.JObj? && k <= |j.members|
    decreases j, 0, |j.members| - k
  {
    if k == |j.members| then ""
    else
      var first := "'" + j.members[k].0 + "': " + PyRepr(j.members[k].1);
      if k == |j.members| - 1 then first else first + ", " + ReprMembers(j, k + 1)
  }

  /** `str(j)`, which is also what an f-string inserts: a string is itself,
      anything else is its `repr`. */
  function PyStr(j: Json): string {
    if j.JStr? then j.s else PyRepr(j)
  }
}
