/** The Python values `json.loads` can return, with the dict lookup,
    iteration and truthiness the two applications apply to them. */
module Json {
  import opened Wrappers
  import opened Collections

  /** A parsed JSON document. An object keeps its members in document order;
      numbers (integers and floats alike) are kept as reals. */
  datatype JsonValue =
    | JNull
    | JBool(b: bool)
    | JNum(x: real)
    | JStr(s: string)
    | JArr(items: seq<JsonValue>)
    | JObj(members: seq<(string, JsonValue)>)

  /** Python truthiness: `None`, `False`, zero and empty containers are falsy. */
  predicate Truthy(v: JsonValue) {
    match v
    case JNull => false
    case JBool(b) => b
    case JNum(x) => x != 0.0
    case JStr(s) => s != []
    case JArr(xs) => xs != []
    case JObj(ms) => ms != []
  }

  /** `key in d`. */
  predicate HasKey(ms: seq<(string, JsonValue)>, key: string) {
    exists i :: 0 <= i < |ms| && ms[i].0 == key
  }

  /** `d[key]` when present. When a key is repeated in the document, the
      last binding wins, as with `json.loads`. */
  function Lookup(ms: seq<(string, JsonValue)>, key: string): (r: Option<JsonValue>)
    ensures r.Some? <==> HasKey(ms, key)
    ensures r.Some? ==> (key, r.value) in ms
    decreases |ms|
  {
    if ms == [] then None
    else if ms[|ms| - 1].0 == key then Some(ms[|ms| - 1].1)
    else
      var r := Lookup(ms[..|ms| - 1], key);
      assert forall i :: 0 <= i < |ms| - 1 ==> ms[..|ms| - 1][i] == ms[i];
      r
  }

  /** A binding that no later binding of the same key overrides is the
      one found. */
  lemma {:induction false} LookupLast(ms: seq<(string, JsonValue)>, k: int)
    requires 0 <= k < |ms|
    requires forall j :: k < j < |ms| ==> ms[j].0 != ms[k].0
    ensures Lookup(ms, ms[k].0) == Some(ms[k].1)
    decreases |ms|
  {
    if k < |ms| - 1 {
      var init := ms[..|ms| - 1];
      LookupLast(init, k);
    }
  }

  /** `d.get(key, default)`. */
  function GetOr(ms: seq<(string, JsonValue)>, key: string, default: JsonValue): JsonValue {
    match Lookup(ms, key)
    case Some(v) => v
    case None => default
  }

  /** The keys of a dict in iteration order: first occurrence, no repeats. */
  function DictKeys(ms: seq<(string, JsonValue)>): (ks: seq<string>)
    ensures Distinct(ks)
    ensures forall k :: k in ks <==> HasKey(ms, k)
    decreases |ms|
  {
    if ms == [] then []
    else
      var init := ms[..|ms| - 1];
      var rest := DictKeys(init);
      assert forall i :: 0 <= i < |ms| - 1 ==> init[i] == ms[i];
      assert forall k :: HasKey(ms, k) <==> HasKey(init, k) || ms[|ms| - 1].0 == k;
      if ms[|ms| - 1].0 in rest then rest else rest + [ms[|ms| - 1].0]
  }

  /** `for x in v`: a list yields its items, a string its one-character
      strings, a dict its keys. Anything else raises TypeError (None). */
  function Iterate(v: JsonValue): Option<seq<JsonValue>> {
    match v
    case JArr(xs) => Some(xs)
    case JStr(s) => Some(seq(|s|, i requires 0 <= i < |s| => JStr([s[i]])))
    case JObj(ms) =>
      var ks := DictKeys(ms);
      Some(seq(|ks|, i requires 0 <= i < |ks| => JStr(ks[i])))
    case _ => None
  }

  /** The value `for x in v` accepts without raising. */
  predicate Iterable(v: JsonValue) {
    v.JArr? || v.JStr? || v.JObj?
  }
}
