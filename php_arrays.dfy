/**
 * PHP's ordered arrays, reduced to what the plugin uses: a sequence of
 * key/value entries in insertion order. Keyed assignment, lookup and
 * `array_merge` are modelled for string keys, which is how the plugin uses
 * them (a column map, taxonomy arguments).
 */
module PhpArrays {

  datatype Option<+T> = None | Some(value: T)

  /**
   * An array key: PHP turns a decimal-integer string key into an integer
   * key, so a stored `Name` never holds such a string (see `IsStoredKey` in the taxonomy module).
   */
  datatype Key = Index(i: int) | Name(s: string)

  /** The PHP values handed to WordPress: booleans, strings and nested arrays. */
  datatype Value = Bool(b: bool) | Text(s: string) | Table(entries: seq<(Key, Value)>)

  /** The keys in insertion order, the sequence `array_key_exists` searches. */
  function Keys<K, V>(a: seq<(K, V)>): (ks: seq<K>)
    ensures |ks| == |a|
    ensures forall i | 0 <= i < |a| :: ks[i] == a[i].0
  {
    if a == [] then [] else [a[0].0] + Keys(a[1..])
  }

  /** The values in insertion order, as a `foreach` over the array visits them. */
  function Values<K, V>(a: seq<(K, V)>): (vs: seq<V>)
    ensures |vs| == |a|
    ensures forall i | 0 <= i < |a| :: vs[i] == a[i].1
  {
    if a == [] then [] else [a[0].1] + Values(a[1..])
  }

  /** Appending an entry appends its value. */
  lemma ValuesAppend<K, V>(a: seq<(K, V)>, e: (K, V))
    ensures Values(a + [e]) == Values(a) + [e.1]
  {
  }

  /** Every PHP array has this: no key appears twice. */
  predicate UniqueKeys<K(==,!new), V>(a: seq<(K, V)>) {
    Distinct(Keys(a))
  }

  predicate Distinct<T(==)>(s: seq<T>) {
    forall i, j | 0 <= i < j < |s| :: s[i] != s[j]
  }

  /** `$a[$k] ?? null`, with `None` for a missing key. */
  function Lookup<K(==,!new), V>(a: seq<(K, V)>, k: K): (r: Option<V>)
    ensures r.Some? <==> k in Keys(a)
    ensures r.Some? ==> (k, r.value) in a
  {
    if a == [] then None else if a[0].0 == k then Some(a[0].1) else Lookup(a[1..], k)
  }

  /**
   * `$a[$k] = $v`: an existing key keeps its position and takes the new
   * value, a new key is appended at the end.
   */
  function Set<K(==,!new), V>(a: seq<(K, V)>, k: K, v: V): (r: seq<(K, V)>)
    ensures Keys(r) == if k in Keys(a) then Keys(a) else Keys(a) + [k]
    ensures Lookup(r, k) == Some(v)
    ensures forall k' | k' != k :: Lookup(r, k') == Lookup(a, k')
  {
    if a == [] then [(k, v)]
    else if a[0].0 == k then [(k, v)] + a[1..]
    else [a[0]] + Set(a[1..], k, v)
  }

  /** Assignment keeps a PHP array's keys unique. */
  lemma SetKeepsUniqueKeys<K(!new), V>(a: seq<(K, V)>, k: K, v: V)
    ensures UniqueKeys(a) ==> UniqueKeys(Set(a, k, v))
  {
    var ks := Keys(a);
    if UniqueKeys(a) && k !in ks {
      assert forall i | 0 <= i < |ks| :: (ks + [k])[i] == ks[i];
    }
  }

  /** In a PHP array each entry is what a lookup of its key finds. */
  lemma {:induction false} LookupEntry<K(!new), V>(a: seq<(K, V)>, i: nat)
    requires UniqueKeys(a) && i < |a|
    ensures Lookup(a, a[i].0) == Some(a[i].1)
  {
    if i > 0 {
      UniqueKeysTail(a);
      assert a[1..][i - 1] == a[i];
      LookupEntry(a[1..], i - 1);
      assert Keys(a)[0] != Keys(a)[i];
    }
  }

  /** The rest of a PHP array is one too, and does not repeat its first key. */
  lemma UniqueKeysTail<K(!new), V>(a: seq<(K, V)>)
    requires UniqueKeys(a) && a != []
    ensures UniqueKeys(a[1..])
    ensures Keys(a) == [a[0].0] + Keys(a[1..])
    ensures a[0].0 !in Keys(a[1..])
  {
    assert forall i | 0 <= i < |a| - 1 :: Keys(a[1..])[i] == Keys(a)[i + 1];
  }

  /** Assigning the same value to the same key twice changes nothing the second time. */
  lemma {:induction false} SetIdempotent<K(!new), V>(a: seq<(K, V)>, k: K, v: V)
    ensures Set(Set(a, k, v), k, v) == Set(a, k, v)
  {
    if a != [] && a[0].0 != k {
      SetIdempotent(a[1..], k, v);
      assert Set(a, k, v)[1..] == Set(a[1..], k, v);
    }
  }

  /** Assigning a new key appends the entry. */
  lemma {:induction false} SetNewKey<K(!new), V>(a: seq<(K, V)>, k: K, v: V)
    requires k !in Keys(a)
    ensures Set(a, k, v) == a + [(k, v)]
  {
    if a != [] {
      assert Keys(a) == [a[0].0] + Keys(a[1..]);
      SetNewKey(a[1..], k, v);
      ConcatAssociative([a[0]], a[1..], [(k, v)]);
      assert [a[0]] + a[1..] == a;
    }
  }

  /** Assigning a key the value it already has changes nothing. */
  lemma {:induction false} SetSameValue<K(!new), V>(a: seq<(K, V)>, k: K, v: V)
    requires Lookup(a, k) == Some(v)
    ensures Set(a, k, v) == a
  {
    if a[0].0 != k {
      SetSameValue(a[1..], k, v);
    }
  }

  /** The keys of `ks` that are not in `excluded`, in their order. */
  function FilterOut<K(==,!new)>(ks: seq<K>, excluded: seq<K>): (r: seq<K>)
    ensures forall x :: x in r <==> x in ks && x !in excluded
    ensures |r| <= |ks|
  {
    if ks == [] then []
    else (if ks[0] in excluded then [] else [ks[0]]) + FilterOut(ks[1..], excluded)
  }

  /** Filtering only looks at whether each key is excluded. */
  lemma {:induction false} FilterOutSameExclusion<K(!new)>(ks: seq<K>, e1: seq<K>, e2: seq<K>)
    requires forall x | x in ks :: x in e1 <==> x in e2
    ensures FilterOut(ks, e1) == FilterOut(ks, e2)
  {
    if ks != [] {
      FilterOutSameExclusion(ks[1..], e1, e2);
    }
  }

  /** A key that is excluded contributes nothing in front. */
  lemma FilterOutSkipsExcludedHead<K(!new)>(k: K, ks: seq<K>, excluded: seq<K>)
    requires k in excluded
    ensures FilterOut([k] + ks, excluded) == FilterOut(ks, excluded)
  {
    assert ([k] + ks)[1..] == ks;
  }

  /**
   * `array_merge($a, $b)` for string keys: the entries of `$b` are assigned
   * into `$a` one by one, so a key already in `$a` keeps its place and takes
   * the value from `$b`, and the other keys of `$b` follow in their order.
   * (A PHP array literal that repeats a key is built the same way.)
   */
  function Merge<K(==,!new), V>(a: seq<(K, V)>, b: seq<(K, V)>): (r: seq<(K, V)>)
    ensures UniqueKeys(a) ==> UniqueKeys(r)
    decreases |b|
  {
    if b == [] then a
    else
      SetKeepsUniqueKeys(a, b[0].0, b[0].1);
      Merge(Set(a, b[0].0, b[0].1), b[1..])
  }

  /** Merging entries whose keys are all new appends them. */
  lemma {:induction false} MergeFreshKeys<K(!new), V>(a: seq<(K, V)>, b: seq<(K, V)>)
    requires UniqueKeys(a + b)
    ensures Merge(a, b) == a + b
    decreases |b|
  {
    if b != [] {
      MergeFreshStep(a, b);
      MergeFreshKeys(a + [b[0]], b[1..]);
    }
  }

  /** One step of a merge of fresh keys: the first entry is appended. */
  lemma MergeFreshStep<K(!new), V>(a: seq<(K, V)>, b: seq<(K, V)>)
    requires UniqueKeys(a + b) && b != []
    ensures Merge(a, b) == Merge(a + [b[0]], b[1..])
    ensures (a + [b[0]]) + b[1..] == a + b
  {
    FreshFirstKey(a, b);
    SetNewKey(a, b[0].0, b[0].1);
    assert [b[0]] + b[1..] == b;
    ConcatAssociative(a, [b[0]], b[1..]);
  }

  /** When `$a + $b` has unique keys, the first key of `$b` is not one of `$a`. */
  lemma FreshFirstKey<K(!new), V>(a: seq<(K, V)>, b: seq<(K, V)>)
    requires UniqueKeys(a + b) && b != []
    ensures b[0].0 !in Keys(a)
  {
    var ab := a + b;
    forall j | 0 <= j < |a|
      ensures Keys(a)[j] != b[0].0
    {
      assert Keys(a)[j] == Keys(ab)[j] && b[0].0 == Keys(ab)[|a|];
    }
  }

  /** Merging one more entry is one more assignment. */
  lemma {:induction false} MergeAppend<K(!new), V>(a: seq<(K, V)>, b: seq<(K, V)>, e: (K, V))
    ensures Merge(a, b + [e]) == Set(Merge(a, b), e.0, e.1)
    decreases |b|
  {
    if b == [] {
      assert ([] + [e])[1..] == [];
    } else {
      assert (b + [e])[1..] == b[1..] + [e];
      MergeAppend(Set(a, b[0].0, b[0].1), b[1..], e);
    }
  }

  /** The keys of a merge: those of `$a`, then the new ones of `$b`. */
  lemma {:induction false} MergeKeys<K(!new), V>(a: seq<(K, V)>, b: seq<(K, V)>)
    requires UniqueKeys(b)
    ensures Keys(Merge(a, b)) == Keys(a) + FilterOut(Keys(b), Keys(a))
    decreases |b|
  {
    if b != [] {
      var k := b[0].0;
      var a', b' := Set(a, k, b[0].1), b[1..];
      var added := if k in Keys(a) then [] else [k];
      UniqueKeysTail(b);
      MergeKeys(a', b');
      FilterOutSameExclusion(Keys(b'), Keys(a'), Keys(a));
      assert Keys(a') == Keys(a) + added;
      assert Keys(b)[0] == k && Keys(b)[1..] == Keys(b');
      assert FilterOut(Keys(b), Keys(a)) == added + FilterOut(Keys(b'), Keys(a));
      ConcatAssociative(Keys(a), added, FilterOut(Keys(b'), Keys(a)));
    }
  }

  lemma ConcatAssociative<T>(x: seq<T>, y: seq<T>, z: seq<T>)
    ensures x + y + z == x + (y + z)
  {
  }

  /** The values of a merge: the later array wins for every key it has. */
  lemma {:induction false} MergeLookup<K(!new), V>(a: seq<(K, V)>, b: seq<(K, V)>, k: K)
    requires UniqueKeys(b)
    ensures Lookup(Merge(a, b), k) == if k in Keys(b) then Lookup(b, k) else Lookup(a, k)
    decreases |b|
  {
    if b != [] {
      var a', b' := Set(a, b[0].0, b[0].1), b[1..];
      UniqueKeysTail(b);
      MergeLookup(a', b', k);
    }
  }
}
