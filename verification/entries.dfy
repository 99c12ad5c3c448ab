/**
 * Key/value records: the shape shared by the records of an IndexedDB object store
 * and the entries of a JavaScript `Map`. A lookup returns the first record under a
 * key; both users keep keys distinct, so "first" is "only".
 */
module Entries {
  import opened Wrappers
  import opened Seqs

  datatype Entry<V> = Entry(key: string, value: V)

  function Keys<V>(es: seq<Entry<V>>): (ks: seq<string>)
    ensures |ks| == |es|
    ensures forall i :: 0 <= i < |es| ==> ks[i] == es[i].key
  {
    if es == [] then [] else [es[0].key] + Keys(es[1..])
  }

  function Values<V>(es: seq<Entry<V>>): (vs: seq<V>)
    ensures |vs| == |es|
    ensures forall i :: 0 <= i < |es| ==> vs[i] == es[i].value
  {
    if es == [] then [] else [es[0].value] + Values(es[1..])
  }

  /** The value of the first record under `k`, if any. */
  function Lookup<V>(es: seq<Entry<V>>, k: string): (r: Option<V>)
    ensures r.Some? <==> k in Keys(es)
    ensures r.Some? ==> Entry(k, r.value) in es
  {
    if es == [] then None
    else if es[0].key == k then Some(es[0].value)
    else
      assert Keys(es) == [es[0].key] + Keys(es[1..]);
      Lookup(es[1..], k)
  }

  /** `r` holds `v` under `k` (`None`: no record) and agrees with `es` on every other key. */
  ghost predicate ChangedAt<V>(es: seq<Entry<V>>, r: seq<Entry<V>>, k: string, v: Option<V>) {
    forall k' :: Lookup(r, k') == if k' == k then v else Lookup(es, k')
  }

  /** The keys present after a change at `k`: `k` as `v` says, every other key as before. */
  lemma ChangedAtKeys<V>(es: seq<Entry<V>>, r: seq<Entry<V>>, k: string, v: Option<V>)
    requires ChangedAt(es, r, k, v)
    ensures k in Keys(r) <==> v.Some?
    ensures forall k' :: k' != k ==> (k' in Keys(r) <==> k' in Keys(es))
  {
    assert Lookup(r, k).Some? <==> k in Keys(r);
    forall k' | k' != k ensures k' in Keys(r) <==> k' in Keys(es) {
      assert Lookup(r, k') == Lookup(es, k');
    }
  }

  /** With distinct keys, every record is the one a lookup of its key finds. */
  lemma {:induction false} LookupEntry<V>(es: seq<Entry<V>>, e: Entry<V>)
    requires NoDup(Keys(es)) && e in es
    ensures Lookup(es, e.key) == Some(e.value)
  {
    if es[0] != e {
      assert es[0].key != e.key by {
        var j :| 0 <= j < |es| && es[j] == e;
        assert Keys(es)[0] != Keys(es)[j];
      }
      assert NoDup(Keys(es[1..])) by {
        assert forall i :: 0 <= i < |es| - 1 ==> Keys(es[1..])[i] == Keys(es)[i + 1];
      }
      LookupEntry(es[1..], e);
    }
  }
}
