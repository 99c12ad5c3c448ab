/**
 * An IndexedDB object store with in-line keys, as the three DAOs use it: records kept
 * in ascending key order (so `getAll` yields key order), `add` and `put` following the
 * "store a record into an object store" operation of section 5.1 of the W3C Indexed
 * Database API, and at most one index whose uniqueness `add`/`put` enforce.
 */
module ObjectStore {
  import opened Wrappers
  import opened Seqs
  import opened KeyOrder
  import opened Entries

  /** Records in strictly ascending key order. */
  ghost predicate Sorted<V>(es: seq<Entry<V>>) {
    forall i, j :: 0 <= i < j < |es| ==> Less(es[i].key, es[j].key)
  }

  lemma SortedDistinct<V>(es: seq<Entry<V>>)
    requires Sorted(es)
    ensures NoDup(Keys(es))
  {
    forall i, j | 0 <= i < j < |es|
      ensures Keys(es)[i] != Keys(es)[j]
    {
      LessIrreflexive(es[i].key);
    }
  }

  /** Records above `a`: every key compares greater than `a`. */
  ghost predicate Above<V>(a: string, es: seq<Entry<V>>) {
    forall e :: e in es ==> Less(a, e.key)
  }

  lemma SortedTail<V>(es: seq<Entry<V>>)
    requires Sorted(es) && es != []
    ensures Sorted(es[1..]) && Above(es[0].key, es[1..])
  {
    forall e | e in es[1..]
      ensures Less(es[0].key, e.key)
    {
      var j :| 0 <= j < |es[1..]| && es[1..][j] == e;
      assert es[j + 1] == e;
    }
  }

  lemma SortedCons<V>(e: Entry<V>, es: seq<Entry<V>>)
    requires Sorted(es) && Above(e.key, es)
    ensures Sorted([e] + es)
  {
    forall i, j | 0 <= i < j < |[e] + es|
      ensures Less(([e] + es)[i].key, ([e] + es)[j].key)
    {
      if i == 0 {
        assert ([e] + es)[j] == es[j - 1];
      }
    }
  }

  /**
   * Writes `v` under `k`: an existing record with that key is replaced, otherwise the
   * record is inserted at its place in key order.
   */
  function Store<V>(es: seq<Entry<V>>, k: string, v: V): (r: seq<Entry<V>>)
    requires Sorted(es)
    ensures Sorted(r)
    ensures forall e :: e in r ==> e == Entry(k, v) || (e in es && e.key != k)
    ensures forall k' :: Lookup(r, k') == if k' == k then Some(v) else Lookup(es, k')
  {
    if es == [] then [Entry(k, v)]
    else
      SortedTail(es);
      if Less(k, es[0].key) then
        assert Above(k, es) by {
          forall e | e in es[1..]
            ensures Less(k, e.key)
          {
            LessTransitive(k, es[0].key, e.key);
          }
        }
        assert !(k in Keys(es)) by {
          LessIrreflexive(k);
        }
        SortedCons(Entry(k, v), es);
        [Entry(k, v)] + es
      else if k == es[0].key then
        assert Above(k, es[1..]);
        LessIrreflexive(k);
        assert k !in Keys(es[1..]);
        SortedCons(Entry(k, v), es[1..]);
        [Entry(k, v)] + es[1..]
      else
        LessTotal(k, es[0].key);
        var rest := Store(es[1..], k, v);
        assert Above(es[0].key, rest);
        SortedCons(es[0], rest);
        assert forall k' :: Lookup(es, k') == if k' == es[0].key then Some(es[0].value) else Lookup(es[1..], k');
        [es[0]] + rest
  }

  /** Deletes the record under `k`, if any. */
  function Remove<V>(es: seq<Entry<V>>, k: string): (r: seq<Entry<V>>)
    requires Sorted(es)
    ensures Sorted(r)
    ensures forall e :: e in r ==> e in es && e.key != k
    ensures forall e :: e in es && e.key != k ==> e in r
    ensures forall k' :: Lookup(r, k') == if k' == k then None else Lookup(es, k')
  {
    if es == [] then []
    else
      SortedTail(es);
      if es[0].key == k then
        LessIrreflexive(k);
        assert k !in Keys(es[1..]);
        es[1..]
      else
        var rest := Remove(es[1..], k);
        assert Above(es[0].key, rest);
        SortedCons(es[0], rest);
        [es[0]] + rest
  }

  /** Some record other than the one under `k` has index key `ix(v)`. */
  predicate Clashes<V>(es: seq<Entry<V>>, ix: V -> string, k: string, v: V) {
    exists i :: 0 <= i < |es| && es[i].key != k && ix(es[i].value) == ix(v)
  }

  /** No two records share an index key: the invariant of a `unique: true` index. */
  ghost predicate UniqueIndex<V>(es: seq<Entry<V>>, ix: V -> string) {
    forall e1, e2 :: e1 in es && e2 in es && e1.key != e2.key ==> ix(e1.value) != ix(e2.value)
  }

  /**
   * `store.add(value)`: the storage operation with the no-overwrite flag. An existing
   * record under the key, or another record with the same key in a unique index, makes
   * it fail with a ConstraintError and leave the store as it was.
   */
  function Add<V>(es: seq<Entry<V>>, k: string, v: V, unique: Option<V -> string>): (r: Result<seq<Entry<V>>>)
    requires Sorted(es)
    ensures r.Failure? <==> k in Keys(es) || (unique.Some? && Clashes(es, unique.value, k, v))
    ensures r.Failure? ==> r.error == ConstraintError
    ensures r.Success? ==> Sorted(r.value)
    ensures r.Success? && unique.Some? && UniqueIndex(es, unique.value) ==> UniqueIndex(r.value, unique.value)
    ensures r.Success? ==> forall e :: e in r.value ==> e == Entry(k, v) || (e in es && e.key != k)
    ensures r.Success? ==> forall k' :: Lookup(r.value, k') == if k' == k then Some(v) else Lookup(es, k')
  {
    if Lookup(es, k).Some? then Failure(ConstraintError)
    else if unique.Some? && Clashes(es, unique.value, k, v) then Failure(ConstraintError)
    else
      assert unique.Some? && UniqueIndex(es, unique.value) ==> UniqueIndex(Store(es, k, v), unique.value) by {
        if unique.Some? && UniqueIndex(es, unique.value) {
          StoreKeepsUnique(es, unique.value, k, v);
        }
      }
      Success(Store(es, k, v))
  }

  /**
   * `store.put(value)`: the storage operation without the no-overwrite flag. The old
   * record under the key is replaced; only a unique-index clash with another record
   * makes it fail.
   */
  function Put<V>(es: seq<Entry<V>>, k: string, v: V, unique: Option<V -> string>): (r: Result<seq<Entry<V>>>)
    requires Sorted(es)
    ensures r.Failure? <==> unique.Some? && Clashes(es, unique.value, k, v)
    ensures r.Failure? ==> r.error == ConstraintError
    ensures r.Success? ==> Sorted(r.value)
    ensures r.Success? && unique.Some? && UniqueIndex(es, unique.value) ==> UniqueIndex(r.value, unique.value)
    ensures r.Success? ==> forall e :: e in r.value ==> e == Entry(k, v) || (e in es && e.key != k)
    ensures r.Success? ==> forall k' :: Lookup(r.value, k') == if k' == k then Some(v) else Lookup(es, k')
  {
    if unique.Some? && Clashes(es, unique.value, k, v) then Failure(ConstraintError)
    else
      assert unique.Some? && UniqueIndex(es, unique.value) ==> UniqueIndex(Store(es, k, v), unique.value) by {
        if unique.Some? && UniqueIndex(es, unique.value) {
          StoreKeepsUnique(es, unique.value, k, v);
        }
      }
      Success(Store(es, k, v))
  }

  /** A successful write keeps a unique index unique. */
  lemma StoreKeepsUnique<V>(es: seq<Entry<V>>, ix: V -> string, k: string, v: V)
    requires Sorted(es) && UniqueIndex(es, ix) && !Clashes(es, ix, k, v)
    ensures UniqueIndex(Store(es, k, v), ix)
  {
  }

  lemma RemoveKeepsUnique<V>(es: seq<Entry<V>>, ix: V -> string, k: string)
    requires Sorted(es) && UniqueIndex(es, ix)
    ensures UniqueIndex(Remove(es, k), ix)
  {
  }

  /**
   * `index.get(x)`: the value of the first record, in index order, whose index key is
   * `x`. Index order breaks ties by primary key, which is the store's own order.
   */
  function IndexLookup<V>(es: seq<Entry<V>>, ix: V -> string, x: string): (r: Option<V>)
    ensures r.Some? <==> exists e :: e in es && ix(e.value) == x
    ensures r.Some? ==> ix(r.value) == x && r.value in Values(es)
  {
    if es == [] then None
    else if ix(es[0].value) == x then Some(es[0].value)
    else
      var r := IndexLookup(es[1..], ix, x);
      assert forall e :: e in es ==> e == es[0] || e in es[1..];
      assert r.Some? ==> r.value in Values(es) by {
        if r.Some? {
          var j :| 0 <= j < |es| - 1 && Values(es[1..])[j] == r.value;
          assert Values(es)[j + 1] == r.value;
        }
      }
      r
  }

  /** Under a unique index the lookup finds exactly the one record with that index key. */
  lemma IndexLookupUnique<V>(es: seq<Entry<V>>, ix: V -> string, e: Entry<V>)
    requires UniqueIndex(es, ix) && NoDup(Keys(es)) && e in es
    ensures IndexLookup(es, ix, ix(e.value)) == Some(e.value)
  {
    var r := IndexLookup(es, ix, ix(e.value));
    var j :| 0 <= j < |es| && Values(es)[j] == r.value;
    assert es[j] in es;
    assert es[j].key == e.key;
    LookupEntry(es, es[j]);
    LookupEntry(es, e);
  }
}
