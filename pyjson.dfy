/** The JSON-shaped values the backend passes around in its dictionaries, and
    Python's truthiness and `or` over them. */
module PyJson {
  import opened Wrappers

  /** A scalar JSON value: `None`, a boolean, a number or a string. */
  datatype Json = JNull | JBool(b: bool) | JNum(n: real) | JStr(s: string)

  /** Python's truth value: `None`, `False`, `0`, `0.0` and "" are false. */
  predicate Truthy(v: Json) {
    match v
    case JNull => false
    case JBool(b) => b
    case JNum(n) => n != 0.0
    case JStr(s) => s != []
  }

  /** A dictionary row with string keys. */
  type Row = map<string, Json>

  /** `d.get(key)`: the value at `key`, `None` when the key is missing. */
  function Get(d: Row, key: string): Json {
    if key in d then d[key] else JNull
  }

  /** `d.get(k0) or d.get(k1) or ... or d.get(kn)`. */
  function FirstTruthy(d: Row, keys: seq<string>): Json
    requires |keys| > 0
  {
    if |keys| == 1 || Truthy(Get(d, keys[0])) then Get(d, keys[0]) else FirstTruthy(d, keys[1..])
  }

  /** A chain of `or` yields the value of the first key whose value is truthy,
      or else the value of the last key. */
  lemma {:induction false} FirstTruthyIsFirst(d: Row, keys: seq<string>)
    requires |keys| > 0
    ensures forall j :: (0 <= j < |keys| && Truthy(Get(d, keys[j]))
                         && (forall k :: 0 <= k < j ==> !Truthy(Get(d, keys[k])))) ==> FirstTruthy(d, keys) == Get(d, keys[j])
    ensures (forall k :: 0 <= k < |keys| ==> !Truthy(Get(d, keys[k]))) ==> FirstTruthy(d, keys) == Get(d, keys[|keys| - 1])
    ensures Truthy(FirstTruthy(d, keys)) ==> exists j :: 0 <= j < |keys| && FirstTruthy(d, keys) == Get(d, keys[j])
    decreases |keys|
  {
    if |keys| > 1 && !Truthy(Get(d, keys[0])) {
      FirstTruthyIsFirst(d, keys[1..]);
      assert forall j :: 1 <= j < |keys| ==> keys[j] == keys[1..][j - 1];
    }
  }

  /** `v or default`. */
  function OrElse(v: Json, default: Json): Json {
    if Truthy(v) then v else default
  }

  /** An optional string as the JSON value the scrapers store for it. */
  function StrOrNull(s: Option<string>): Json
  {
    match s
    case None => JNull
    case Some(t) => JStr(t)
  }
}
