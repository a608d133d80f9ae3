/** The value `response.json()` hands to the checker: Python's decoding of a JSON
    body into None, bool, int, str, list and dict. A dict is kept as the ordered
    list of members the body contained; like `json.loads`, a later member with
    the same key replaces the value of an earlier one while the key keeps its
    first position. */
module JsonValue {
  import opened Text

  datatype Json =
    | JNull
    | JBool(b: bool)
    | JInt(n: int)
    | JString(s: string)
    | JArray(items: seq<Json>)
    | JObject(members: seq<Member>)

  datatype Member = Member(key: string, value: Json)

  /** Index of the member that supplies the dict's value for `k`, or -1. */
  function LastIndexOf(ms: seq<Member>, k: string): (j: int)
    ensures -1 <= j < |ms|
    ensures j >= 0 ==> ms[j].key == k && forall i :: j < i < |ms| ==> ms[i].key != k
    ensures j == -1 ==> forall i :: 0 <= i < |ms| ==> ms[i].key != k
  {
    if ms == [] then -1
    else if ms[|ms| - 1].key == k then |ms| - 1
    else LastIndexOf(ms[..|ms| - 1], k)
  }

  /** The dict's keys. */
  function Keys(ms: seq<Member>): set<string> {
    set i | 0 <= i < |ms| :: ms[i].key
  }

  /** `d.get(k)`: None when `k` is not a key. */
  function Get(ms: seq<Member>, k: string): (r: Option<Json>)
    ensures r.Some? <==> k in Keys(ms)
    ensures r.Some? ==> exists j :: 0 <= j < |ms| && ms[j] == Member(k, r.value) && forall i :: j < i < |ms| ==> ms[i].key != k
  {
    var j := LastIndexOf(ms, k);
    if j >= 0 then Some(ms[j].value) else None
  }

  /** Python's truth value of the decoded value (`if v:`). */
  predicate Truthy(v: Json) {
    match v
    case JNull => false
    case JBool(b) => b
    case JInt(n) => n != 0
    case JString(s) => s != ""
    case JArray(xs) => xs != []
    case JObject(ms) => ms != []
  }

  /** Python's `==` on decoded values: `True == 1` and `False == 0`, lists
      element by element, dicts by key set and value per key, in any order. */
  predicate PyEq(a: Json, b: Json)
    decreases a
  {
    match a
    case JNull => b.JNull?
    case JBool(x) => (b.JBool? && b.b == x) || (b.JInt? && b.n == (if x then 1 else 0))
    case JInt(n) => (b.JInt? && b.n == n) || (b.JBool? && n == (if b.b then 1 else 0))
    case JString(s) => b.JString? && b.s == s
    case JArray(xs) =>
      b.JArray? && |xs| == |b.items| &&
      forall i :: 0 <= i < |xs| ==> PyEq(xs[i], b.items[i])
    case JObject(ms) =>
      b.JObject? && Keys(ms) == Keys(b.members) &&
      forall k :: k in Keys(ms) ==>
        PyEq(ms[LastIndexOf(ms, k)].value, b.members[LastIndexOf(b.members, k)].value)
  }

  /** `EMPTY_RESPONSE = {"groups": [], "offers": []}`. */
  const EMPTY_RESPONSE: Json := JObject([Member("groups", JArray([])), Member("offers", JArray([]))])

  /** A value equals the empty response exactly when it is a dict whose keys are
      "groups" and "offers" and both map to an empty list. */
  lemma EqualsEmptyResponse(v: Json)
    ensures PyEq(v, EMPTY_RESPONSE) <==>
      v.JObject? && Keys(v.members) == {"groups", "offers"} &&
      Get(v.members, "groups") == Some(JArray([])) &&
      Get(v.members, "offers") == Some(JArray([]))
  {
    if v.JObject? && Keys(v.members) == {"groups", "offers"} {
      var ms := v.members;
      var g, o := ms[LastIndexOf(ms, "groups")].value, ms[LastIndexOf(ms, "offers")].value;
      EqualsEmptyDict(ms);
      assert Get(ms, "groups") == Some(g) && Get(ms, "offers") == Some(o);
      if PyEq(g, JArray([])) { EqualsEmptyList(g); }
      if PyEq(o, JArray([])) { EqualsEmptyList(o); }
    } else if v.JObject? {
      EmptyResponseLookup();
    }
  }

  lemma EmptyResponseLookup()
    ensures Keys(EMPTY_RESPONSE.members) == {"groups", "offers"}
    ensures LastIndexOf(EMPTY_RESPONSE.members, "groups") == 0
    ensures LastIndexOf(EMPTY_RESPONSE.members, "offers") == 1
  {
    var em := EMPTY_RESPONSE.members;
    assert em[0].key == "groups" && em[1].key == "offers";
  }

  /** A dict with the two keys equals the empty response exactly when both
      values equal the empty list. */
  lemma EqualsEmptyDict(ms: seq<Member>)
    requires Keys(ms) == {"groups", "offers"}
    ensures PyEq(JObject(ms), EMPTY_RESPONSE) <==>
      PyEq(ms[LastIndexOf(ms, "groups")].value, JArray([])) &&
      PyEq(ms[LastIndexOf(ms, "offers")].value, JArray([]))
  {
    var em := EMPTY_RESPONSE.members;
    EmptyResponseLookup();
    assert "groups" in Keys(ms) && "offers" in Keys(ms);
    forall k | k in Keys(ms)
      ensures PyEq(ms[LastIndexOf(ms, k)].value, em[LastIndexOf(em, k)].value) <==>
        PyEq(ms[LastIndexOf(ms, k)].value, JArray([]))
    {
      assert k == "groups" || k == "offers";
    }
  }

  lemma EqualsEmptyList(v: Json)
    requires PyEq(v, JArray([]))
    ensures v == JArray([])
  {
  }

  /** Only a string equals a string: the test behind `'total' in some_list`. */
  lemma EqualsString(v: Json, s: string)
    ensures PyEq(v, JString(s)) <==> v == JString(s)
  {
  }
}
