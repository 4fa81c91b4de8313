/** The JSON values the manifest scripts read, and the two JavaScript
    operations they apply to them: reading a property and testing
    truthiness. */
module Json {
  import opened Wrappers

  /** A value produced by `JSON.parse`. An object keeps its members in
      source order, duplicates included. */
  datatype Json =
    | JNull
    | JBool(b: bool)
    | JNumber(n: real)
    | JString(s: string)
    | JArray(items: seq<Json>)
    | JObject(members: seq<(string, Json)>)

  /** No member has the key `key`. */
  predicate KeyAbsent(members: seq<(string, Json)>, key: string) {
    forall i | 0 <= i < |members| :: members[i].0 != key
  }

  /** Member `i` is the last one with the key `key`. */
  predicate LastWithKey(members: seq<(string, Json)>, key: string, i: int) {
    0 <= i < |members| && members[i].0 == key && KeyAbsent(members[i + 1..], key)
  }

  /** The value under `key` in an object's members: the last member with
      that key, since `JSON.parse` lets a later duplicate overwrite an
      earlier one. */
  function Get(members: seq<(string, Json)>, key: string): (r: Option<Json>)
    ensures r.None? <==> KeyAbsent(members, key)
    ensures r.Some? ==> exists i :: LastWithKey(members, key, i) && members[i].1 == r.value
    decreases |members|
  {
    if |members| == 0 then None
    else
      var last := members[|members| - 1];
      if last.0 == key then
        assert LastWithKey(members, key, |members| - 1);
        Some(last.1)
      else
        var r := Get(members[..|members| - 1], key);
        GetStep(members, key, r);
        r
  }

  /** A lookup past a last member with another key is a lookup among the
      members before it. */
  lemma GetStep(members: seq<(string, Json)>, key: string, r: Option<Json>)
    requires |members| > 0 && members[|members| - 1].0 != key
    requires var prefix := members[..|members| - 1];
      && (r.None? <==> KeyAbsent(prefix, key))
      && (r.Some? ==> exists i :: LastWithKey(prefix, key, i) && prefix[i].1 == r.value)
    ensures r.None? <==> KeyAbsent(members, key)
    ensures r.Some? ==> exists i :: LastWithKey(members, key, i) && members[i].1 == r.value
  {
    var prefix := members[..|members| - 1];
    var n := |members| - 1;
    assert KeyAbsent(prefix, key) <==> KeyAbsent(members, key) by {
      assert forall i | 0 <= i < n :: prefix[i] == members[i];
    }
    if r.Some? {
      var i :| LastWithKey(prefix, key, i) && prefix[i].1 == r.value;
      assert members[i] == prefix[i];
      var after := members[i + 1..];
      forall j | 0 <= j < |after| ensures after[j].0 != key {
        if j < n - (i + 1) {
          assert after[j] == prefix[i + 1..][j];
        }
      }
      assert LastWithKey(members, key, i);
    }
  }

  /** `v.key`, and `v?.key` when `v` may be missing: only objects carry
      named properties; everything else yields `undefined`. */
  function Field(v: Option<Json>, key: string): (r: Option<Json>)
    ensures r.Some? ==> v.Some? && v.value.JObject?
  {
    match v
    case Some(JObject(members)) => Get(members, key)
    case _ => None
  }

  /** `key in v`, for an object `v`. */
  predicate Has(v: Json, key: string) {
    v.JObject? && Get(v.members, key).Some?
  }

  /** JavaScript truthiness, with `None` for `undefined`. */
  predicate Truthy(v: Option<Json>) {
    match v
    case None => false
    case Some(JNull) => false
    case Some(JBool(b)) => b
    case Some(JNumber(n)) => n != 0.0
    case Some(JString(s)) => |s| > 0
    case Some(JArray(_)) => true
    case Some(JObject(_)) => true
  }

  /** The string a property holds, if it holds one. */
  function AsString(v: Option<Json>): (r: Option<string>)
    ensures r.Some? <==> v.Some? && v.value.JString?
  {
    match v
    case Some(JString(s)) => Some(s)
    case _ => None
  }

  /** A later member overrides every earlier member with the same key. */
  lemma LaterMemberWins(members: seq<(string, Json)>, key: string, v: Json)
    ensures Get(members + [(key, v)], key) == Some(v)
  {
  }

  /** Members under other keys do not affect a lookup. */
  lemma {:induction false} OtherKeysIgnored(members: seq<(string, Json)>, other: seq<(string, Json)>, key: string)
    requires forall i | 0 <= i < |other| :: other[i].0 != key
    ensures Get(members + other, key) == Get(members, key)
    decreases |other|
  {
    if |other| == 0 {
      assert members + other == members;
    } else {
      var all := members + other;
      var shorter := other[..|other| - 1];
      assert all[|all| - 1] == other[|other| - 1];
      GetSkipsLast(all, key);
      DropLastOfAppend(members, other);
      assert forall i | 0 <= i < |shorter| :: shorter[i] == other[i];
      OtherKeysIgnored(members, shorter, key);
    }
  }

  /** A last member with another key leaves a lookup to the members before it. */
  lemma GetSkipsLast(members: seq<(string, Json)>, key: string)
    requires |members| > 0 && members[|members| - 1].0 != key
    ensures Get(members, key) == Get(members[..|members| - 1], key)
  {
  }

  lemma DropLastOfAppend<T>(a: seq<T>, b: seq<T>)
    requires |b| > 0
    ensures (a + b)[..|a + b| - 1] == a + b[..|b| - 1]
  {
  }
}
