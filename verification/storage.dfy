/** The Durable Object storage operations both companion stores use: put, delete and a reverse list. */
module Storage {
  import opened KeyOrder

  /** `list({reverse: true, limit: 100})` in the stores' `/latest` routes. */
  const ListLimit := 100

  /** The `{message: 'ok' | 'failed'}` body of a `/delete` response. */
  datatype DeleteResult = Ok | Failed

  /** `storage.delete(key)`: the store without `key`, and whether the key was there. */
  function Delete<V>(m: map<string, V>, key: string): (r: (map<string, V>, DeleteResult))
    ensures r.1 == Ok <==> key in m
    ensures r.0.Keys == m.Keys - {key}
    ensures forall k :: k in r.0 ==> r.0[k] == m[k]
  {
    (m - {key}, if key in m then Ok else Failed)
  }

  /** Deleting a key twice: the second call reports `Failed` and changes nothing. */
  lemma DeleteTwice<V>(m: map<string, V>, key: string)
    ensures Delete(Delete(m, key).0, key).1 == Failed
    ensures Delete(Delete(m, key).0, key).0 == Delete(m, key).0
  {
  }

  function Min(a: int, b: int): int {
    if a < b then a else b
  }

  /** The keys `list({reverse: true, limit})` visits: the `limit` greatest keys, greatest first. */
  function ListKeys<V>(m: map<string, V>, limit: nat): (ks: seq<string>)
    ensures |ks| == Min(limit, |m|)
    ensures forall i :: 0 <= i < |ks| ==> ks[i] in m
    ensures Descending(ks)
    ensures forall k :: k in m && k !in ks ==> forall i :: 0 <= i < |ks| ==> Below(k, ks[i])
  {
    var all := SortedDesc(m.Keys);
    assert |m.Keys| == |m|;
    var n := Min(limit, |m|);
    var ks := all[..n];
    forall k | k in m && k !in ks
      ensures forall i :: 0 <= i < |ks| ==> Below(k, ks[i])
    {
      var j :| 0 <= j < |all| && all[j] == k;
      assert j >= n;
      forall i | 0 <= i < |ks| ensures Below(k, ks[i]) {
        assert ks[i] == all[i];
      }
    }
    ks
  }

  /** The values stored under `keys`, in the same order. */
  function ValuesAt<V>(m: map<string, V>, keys: seq<string>): (vs: seq<V>)
    requires forall i :: 0 <= i < |keys| ==> keys[i] in m
    ensures |vs| == |keys|
    ensures forall i :: 0 <= i < |keys| ==> vs[i] == m[keys[i]]
  {
    if keys == [] then [] else [m[keys[0]]] + ValuesAt(m, keys[1..])
  }

  /** The values of `list({reverse: true, limit: 100})`. */
  function Latest<V>(m: map<string, V>): (r: seq<V>)
    ensures |r| == Min(ListLimit, |m|)
    ensures forall i :: 0 <= i < |r| ==> r[i] == m[ListKeys(m, ListLimit)[i]]
  {
    ValuesAt(m, ListKeys(m, ListLimit))
  }
}
