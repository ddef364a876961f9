/**
 * A JavaScript object as the application sees it through `Object.entries`
 * and spread: a list of key/value pairs in insertion order with distinct keys.
 */
module Records {
  import opened Wrappers

  type Entries<V> = seq<(string, V)>

  function Keys<V>(e: Entries<V>): (ks: seq<string>)
    ensures |ks| == |e|
    ensures forall i :: 0 <= i < |e| ==> ks[i] == e[i].0
  {
    if e == [] then [] else [e[0].0] + Keys(e[1..])
  }

  predicate DistinctKeys<V>(e: Entries<V>) {
    forall i, j :: 0 <= i < j < |e| ==> e[i].0 != e[j].0
  }

  /** `obj[k]`: the value stored under `k`, or None for `undefined`. */
  function Get<V>(e: Entries<V>, k: string): (r: Option<V>)
    ensures r.Some? <==> k in Keys(e)
  {
    if e == [] then None else if e[0].0 == k then Some(e[0].1) else Get(e[1..], k)
  }

  /**
   * `{...obj, [k]: v}`: an existing key keeps its position and takes the new
   * value; a new key goes at the end.
   */
  function Put<V>(e: Entries<V>, k: string, v: V): (r: Entries<V>)
    ensures k in Keys(e) ==> Keys(r) == Keys(e)
    ensures k !in Keys(e) ==> r == e + [(k, v)]
  {
    if e == [] then [(k, v)]
    else if e[0].0 == k then [(k, v)] + e[1..]
    else
      var rest := Put(e[1..], k, v);
      assert k !in Keys(e[1..]) ==> [e[0]] + (e[1..] + [(k, v)]) == e + [(k, v)];
      [e[0]] + rest
  }

  /** After the spread, `k` reads the new value and every other key reads what it did before. */
  lemma {:induction false} PutGet<V>(e: Entries<V>, k: string, v: V)
    ensures Get(Put(e, k, v), k) == Some(v)
    ensures forall k' :: k' != k ==> Get(Put(e, k, v), k') == Get(e, k')
  {
    if e != [] && e[0].0 != k {
      PutGet(e[1..], k, v);
      assert Put(e, k, v)[1..] == Put(e[1..], k, v);
    }
  }

  /** The spread never introduces a duplicate key. */
  lemma PutDistinct<V>(e: Entries<V>, k: string, v: V)
    ensures DistinctKeys(e) ==> DistinctKeys(Put(e, k, v))
  {
    var r := Put(e, k, v);
    if !DistinctKeys(e) {
    } else if k in Keys(e) {
      assert forall i :: 0 <= i < |r| ==> r[i].0 == Keys(r)[i] == Keys(e)[i] == e[i].0;
    } else {
      assert forall i :: 0 <= i < |e| ==> e[i].0 == Keys(e)[i] != k;
    }
  }
}
