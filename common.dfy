/** Shared vocabulary of the route handlers: optional values, handler
    responses, coordinates, sessions, and two sequence tools used by every
    route (a fold of keyed writes into a dictionary, and the positions of
    the entries a filter keeps). */
module Common {

  datatype Option<T> = None | Some(value: T)

  /** What a route handler answers: a JSON body with status 200, the 401
      "not authenticated" answer, or the 500 answer its catch block gives. */
  datatype Response<T> = Ok(body: T) | Unauthorized | ServerError

  /** A latitude/longitude pair. The handlers only copy coordinates from one
      JSON object to another, so they are carried without interpretation. */
  datatype LatLng = LatLng(lat: real, lng: real)

  /** A handler treats the request as signed in when the session carries a
      user id; `!session?.user?.id` also rejects the empty string. */
  predicate SignedIn(userId: Option<string>)
  {
    userId.Some? && userId.value != ""
  }

  /** The dictionary obtained from `m0` by performing, in order, the write
      `m[keys[i]] = v` for every `i` whose `vals[i]` is `Some(v)`; a `None`
      leaves the dictionary as it is. This is the shape of every
      `forEach`/`reduce` loop that fills an object keyed by string. */
  function Upserts<K, V>(m0: map<K, V>, keys: seq<K>, vals: seq<Option<V>>): (m: map<K, V>)
    requires |keys| == |vals|
    ensures m.Keys == m0.Keys + (set i | 0 <= i < |keys| && vals[i].Some? :: keys[i])
    decreases |keys|
  {
    if keys == [] then m0
    else
      var n := |keys| - 1;
      var prev := Upserts(m0, keys[..n], vals[..n]);
      if vals[n].Some? then prev[keys[n] := vals[n].value] else prev
  }

  /** No write to key `k` at any index from `from` on. */
  ghost predicate NoWriteFrom<K, V>(keys: seq<K>, vals: seq<Option<V>>, k: K, from: nat)
    requires |keys| == |vals|
  {
    forall j :: from <= j < |keys| && keys[j] == k ==> vals[j].None?
  }

  /** A key that no write touches keeps its initial entry, or its absence. */
  lemma {:induction false} UpsertsUntouched<K, V>(m0: map<K, V>, keys: seq<K>, vals: seq<Option<V>>, k: K)
    requires |keys| == |vals| && NoWriteFrom(keys, vals, k, 0)
    ensures k in Upserts(m0, keys, vals) <==> k in m0
    ensures k in m0 ==> Upserts(m0, keys, vals)[k] == m0[k]
    decreases |keys|
  {
    if keys != [] {
      var n := |keys| - 1;
      var pk, pv := keys[..n], vals[..n];
      assert NoWriteFrom(pk, pv, k, 0) by {
        forall j | 0 <= j < |pk| && pk[j] == k ensures pv[j].None? { assert keys[j] == k; }
      }
      UpsertsUntouched(m0, pk, pv, k);
      assert !(keys[n] == k && vals[n].Some?);
    }
  }

  /** The last write to a key wins. */
  lemma {:induction false} UpsertsLast<K, V>(m0: map<K, V>, keys: seq<K>, vals: seq<Option<V>>, k: K, i: nat)
    requires |keys| == |vals| && i < |keys| && keys[i] == k && vals[i].Some?
    requires NoWriteFrom(keys, vals, k, i + 1)
    ensures k in Upserts(m0, keys, vals) && Upserts(m0, keys, vals)[k] == vals[i].value
    decreases |keys|
  {
    var n := |keys| - 1;
    var pk, pv := keys[..n], vals[..n];
    var prev := Upserts(m0, pk, pv);
    if i < n {
      assert !(keys[n] == k && vals[n].Some?);
      assert NoWriteFrom(pk, pv, k, i + 1) by {
        forall j | i + 1 <= j < |pk| && pk[j] == k ensures pv[j].None? { assert keys[j] == k; }
      }
      UpsertsLast(m0, pk, pv, k, i);
      assert Upserts(m0, keys, vals) == if vals[n].Some? then prev[keys[n] := vals[n].value] else prev;
    }
  }

  /** The ascending positions at which `b` holds: the indices of the elements
      that a `filter` with predicate `b` keeps, in the order it keeps them. */
  function Positions(b: seq<bool>): (r: seq<nat>)
    ensures forall k :: 0 <= k < |r| ==> r[k] < |b| && b[r[k]]
    ensures forall j, k :: 0 <= j < k < |r| ==> r[j] < r[k]
    ensures forall i :: 0 <= i < |b| && b[i] ==> i in r
    decreases |b|
  {
    if b == [] then []
    else
      var n := |b| - 1;
      Positions(b[..n]) + (if b[n] then [n] else [])
  }
}
