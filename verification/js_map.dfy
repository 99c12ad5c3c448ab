/**
 * A JavaScript `Map<string, V>`: entries with distinct keys in insertion order.
 * `set` on a present key replaces the value in place and keeps the key's position;
 * on a new key it appends. `values()` iterates in that order.
 */
module JsMap {
  import opened Wrappers
  import opened Seqs
  import opened Entries

  datatype Map<V> = Map(entries: seq<Entry<V>>)

  ghost predicate Valid<V>(m: Map<V>) {
    NoDup(Keys(m.entries))
  }

  function Empty<V>(): (m: Map<V>)
    ensures Valid(m) && forall k :: Get(m, k) == None
  {
    Map([])
  }

  /** `map.get(k)`: the value filed under `k`, present exactly for the keys the map holds. */
  function Get<V>(m: Map<V>, k: string): (r: Option<V>)
    ensures r.Some? <==> k in KeyOrder(m)
    ensures r.Some? ==> Entry(k, r.value) in m.entries
  {
    Lookup(m.entries, k)
  }

  /** The keys in insertion order. */
  function KeyOrder<V>(m: Map<V>): seq<string> {
    Keys(m.entries)
  }

  /** `r` holds `v` under `k` (`None`: no entry) and agrees with `m` on every other key. */
  ghost predicate ChangedAt<V>(m: Map<V>, r: Map<V>, k: string, v: Option<V>) {
    Entries.ChangedAt(m.entries, r.entries, k, v)
  }

  /** `Array.from(map.values())`: one value per key, in key order, and every stored value. */
  function ValueList<V>(m: Map<V>): (vs: seq<V>)
    requires Valid(m)
    ensures |vs| == |KeyOrder(m)|
    ensures forall i :: 0 <= i < |vs| ==> Get(m, KeyOrder(m)[i]) == Some(vs[i])
    ensures forall k :: Get(m, k).Some? ==> Get(m, k).value in vs
  {
    forall i | 0 <= i < |m.entries| ensures Get(m, KeyOrder(m)[i]) == Some(m.entries[i].value) {
      LookupEntry(m.entries, m.entries[i]);
    }
    forall k | Get(m, k).Some? ensures Get(m, k).value in Values(m.entries) {
      var j :| 0 <= j < |m.entries| && m.entries[j] == Entry(k, Get(m, k).value);
      assert Values(m.entries)[j] == Get(m, k).value;
    }
    Values(m.entries)
  }

  /** `xs.forEach(x => map.set(key(x), x))`, with the keys `ks` listed beside the values. */
  function SetAll<V>(m: Map<V>, ks: seq<string>, vs: seq<V>): (r: Map<V>)
    requires Valid(m) && |ks| == |vs|
    decreases |ks|
    ensures Valid(r)
    ensures forall k :: k !in ks ==> Get(r, k) == Get(m, k)
  {
    if ks == [] then m
    else
      assert forall k :: k in ks ==> k == ks[0] || k in ks[1..];
      SetAll(Set(m, ks[0], vs[0]), ks[1..], vs[1..])
  }

  lemma NoDupTail(ks: seq<string>)
    requires NoDup(ks) && ks != []
    ensures NoDup(ks[1..]) && ks[0] !in ks[1..]
  {
    assert forall i :: 0 <= i < |ks| - 1 ==> ks[1..][i] == ks[i + 1];
  }

  /** With distinct keys, every key ends up mapped to its own value. */
  lemma {:induction false} SetAllMaps<V>(m: Map<V>, ks: seq<string>, vs: seq<V>)
    requires Valid(m) && |ks| == |vs| && NoDup(ks)
    decreases |ks|
    ensures forall i :: 0 <= i < |ks| ==> Get(SetAll(m, ks, vs), ks[i]) == Some(vs[i])
  {
    if ks != [] {
      NoDupTail(ks);
      var m1 := Set(m, ks[0], vs[0]);
      SetAllMaps(m1, ks[1..], vs[1..]);
      forall i | 0 <= i < |ks| ensures Get(SetAll(m, ks, vs), ks[i]) == Some(vs[i]) {
        if i > 0 {
          assert ks[i] == ks[1..][i - 1] && vs[i] == vs[1..][i - 1];
        }
      }
    }
  }

  /** With distinct keys that are all new, the keys are appended in the order given. */
  lemma {:induction false} SetAllOrder<V>(m: Map<V>, ks: seq<string>, vs: seq<V>)
    requires Valid(m) && |ks| == |vs| && NoDup(ks)
    requires forall k :: k in ks ==> k !in KeyOrder(m)
    decreases |ks|
    ensures KeyOrder(SetAll(m, ks, vs)) == KeyOrder(m) + ks
  {
    if ks != [] {
      NoDupTail(ks);
      var m1 := Set(m, ks[0], vs[0]);
      assert KeyOrder(m1) == KeyOrder(m) + [ks[0]];
      assert forall k :: k in ks[1..] ==> k in ks && k != ks[0];
      assert forall k :: k in ks[1..] ==> k !in KeyOrder(m1);
      SetAllOrder(m1, ks[1..], vs[1..]);
      AppendHead(KeyOrder(m), ks);
    }
  }

  lemma AppendHead(a: seq<string>, s: seq<string>)
    requires s != []
    ensures a + [s[0]] + s[1..] == a + s
  {
    assert s == [s[0]] + s[1..];
  }

  /** `map.set(k, v)`. */
  function Set<V>(m: Map<V>, k: string, v: V): (r: Map<V>)
    requires Valid(m)
    ensures Valid(r)
    ensures forall k' :: Get(r, k') == if k' == k then Some(v) else Get(m, k')
    ensures KeyOrder(r) == if k in KeyOrder(m) then KeyOrder(m) else KeyOrder(m) + [k]
  {
    Map(Replace(m.entries, k, v))
  }

  /** Replaces the value under `k` in place, or appends a new entry. */
  function Replace<V>(es: seq<Entry<V>>, k: string, v: V): (r: seq<Entry<V>>)
    requires NoDup(Keys(es))
    ensures NoDup(Keys(r))
    ensures forall k' :: Lookup(r, k') == if k' == k then Some(v) else Lookup(es, k')
    ensures Keys(r) == if k in Keys(es) then Keys(es) else Keys(es) + [k]
  {
    if es == [] then [Entry(k, v)]
    else
      assert Keys(es) == [es[0].key] + Keys(es[1..]);
      if es[0].key == k then
        [Entry(k, v)] + es[1..]
      else
        var rest := Replace(es[1..], k, v);
        assert Keys([es[0]] + rest) == [es[0].key] + Keys(rest);
        assert es[0].key !in Keys(es[1..]) by {
          assert forall i :: 0 <= i < |es| - 1 ==> Keys(es[1..])[i] == Keys(es)[i + 1];
        }
        assert es[0].key !in Keys(rest);
        [es[0]] + rest
  }

  /** `map.delete(k)`: the other keys keep their relative order. */
  function Delete<V>(m: Map<V>, k: string): (r: Map<V>)
    requires Valid(m)
    ensures Valid(r)
    ensures forall k' :: Get(r, k') == if k' == k then None else Get(m, k')
    ensures IsSubsequence(KeyOrder(r), KeyOrder(m))
  {
    Map(Drop(m.entries, k))
  }

  function Drop<V>(es: seq<Entry<V>>, k: string): (r: seq<Entry<V>>)
    requires NoDup(Keys(es))
    ensures NoDup(Keys(r)) && IsSubsequence(Keys(r), Keys(es))
    ensures forall k' :: Lookup(r, k') == if k' == k then None else Lookup(es, k')
  {
    if es == [] then []
    else
      assert Keys(es) == [es[0].key] + Keys(es[1..]);
      if es[0].key == k then
        SubsequenceOfCons(k, Keys(es[1..]));
        SubsequenceNoDup(Keys(es[1..]), Keys(es));
        es[1..]
      else
        var rest := Drop(es[1..], k);
        assert Keys([es[0]] + rest) == [es[0].key] + Keys(rest);
        SubsequenceNoDup(Keys(rest), Keys(es[1..]));
        assert es[0].key !in Keys(rest) by {
          assert es[0].key !in Keys(es[1..]) by {
            assert forall i :: 0 <= i < |es| - 1 ==> Keys(es[1..])[i] == Keys(es)[i + 1];
          }
        }
        assert ([es[0].key] + Keys(rest))[1..] == Keys(rest);
        assert ([es[0].key] + Keys(es[1..]))[1..] == Keys(es[1..]);
        [es[0]] + rest
  }
}
