/**
 * A PHP array with string keys: an ordered map. Assigning to a key that is present
 * replaces its value where it stands; assigning to a new key appends it.
 */
module OrderedMap {
  import opened Wrappers

  type Entries<V> = seq<(string, V)>

  function Keys<V>(m: Entries<V>): (ks: seq<string>)
    ensures |ks| == |m|
    ensures forall i :: 0 <= i < |m| ==> ks[i] == m[i].0
  {
    if |m| == 0 then [] else [m[0].0] + Keys(m[1..])
  }

  ghost predicate NoDuplicates(ks: seq<string>) {
    forall i, j :: 0 <= i < j < |ks| ==> ks[i] != ks[j]
  }

  /** A PHP array never holds a key twice. */
  ghost predicate DistinctKeys<V>(m: Entries<V>) {
    NoDuplicates(Keys(m))
  }

  /** `$m[$k] ?? null`. */
  function Get<V>(m: Entries<V>, k: string): (r: Option<V>)
    ensures r.None? <==> k !in Keys(m)
  {
    if |m| == 0 then None
    else if m[0].0 == k then Some(m[0].1)
    else
      assert Keys(m) == [m[0].0] + Keys(m[1..]);
      Get(m[1..], k)
  }

  /** In a PHP array, looking up the key of entry `i` gives entry `i`'s value. */
  lemma {:induction false} GetAt<V>(m: Entries<V>, i: nat)
    requires DistinctKeys(m) && i < |m|
    ensures Get(m, m[i].0) == Some(m[i].1)
  {
    if i > 0 {
      assert Keys(m)[0] != Keys(m)[i];
      DistinctTail(m);
      GetAt(m[1..], i - 1);
    }
  }

  /** `$m[$k] = $v`. */
  function Put<V>(m: Entries<V>, k: string, v: V): Entries<V> {
    if |m| == 0 then [(k, v)]
    else if m[0].0 == k then [(k, v)] + m[1..]
    else [m[0]] + Put(m[1..], k, v)
  }

  /**
   * After `$m[$k] = $v`, `k` maps to `v` and every other key to what it mapped to; a present
   * key keeps its place and a new key comes last.
   */
  lemma {:induction false} PutSpec<V>(m: Entries<V>, k: string, v: V)
    ensures Get(Put(m, k, v), k) == Some(v)
    ensures forall k' :: k' != k ==> Get(Put(m, k, v), k') == Get(m, k')
    ensures Keys(Put(m, k, v)) == if k in Keys(m) then Keys(m) else Keys(m) + [k]
  {
    var r := Put(m, k, v);
    if |m| > 0 {
      assert Keys(m) == [m[0].0] + Keys(m[1..]);
      assert r[1..] == if m[0].0 == k then m[1..] else Put(m[1..], k, v);
      assert Keys(r) == [r[0].0] + Keys(r[1..]);
      if m[0].0 != k {
        PutSpec(m[1..], k, v);
      }
    }
  }

  /** Assignment keeps the keys of a PHP array distinct. */
  lemma PutDistinct<V>(m: Entries<V>, k: string, v: V)
    requires DistinctKeys(m)
    ensures DistinctKeys(Put(m, k, v))
  {
    PutSpec(m, k, v);
    var ks := Keys(m);
    if k !in ks {
      forall i, j | 0 <= i < j < |ks| + 1 ensures (ks + [k])[i] != (ks + [k])[j] {
        if j == |ks| { assert ks[i] in ks; }
      }
    }
  }

  /** The keys of `b` that `a` does not have, in `b`'s order. */
  function NewKeys<V>(a: seq<string>, b: Entries<V>): seq<string>
    decreases |b|
  {
    if |b| == 0 then []
    else if b[0].0 in a then NewKeys(a, b[1..])
    else [b[0].0] + NewKeys(a + [b[0].0], b[1..])
  }

  /** `array_merge($a, $b)` for string keys: `b`'s entries are assigned into `a` in order. */
  function Merge<V>(a: Entries<V>, b: Entries<V>): Entries<V>
    decreases |b|
  {
    if |b| == 0 then a else Merge(Put(a, b[0].0, b[0].1), b[1..])
  }

  lemma DistinctTail<V>(b: Entries<V>)
    requires |b| > 0 && DistinctKeys(b)
    ensures DistinctKeys(b[1..])
    ensures b[0].0 !in Keys(b[1..])
  {
    assert Keys(b) == [b[0].0] + Keys(b[1..]);
  }

  /** `array_merge` of PHP arrays is a PHP array: no key twice. */
  lemma {:induction false} MergeDistinct<V>(a: Entries<V>, b: Entries<V>)
    requires DistinctKeys(a)
    ensures DistinctKeys(Merge(a, b))
    decreases |b|
  {
    if |b| > 0 {
      PutDistinct(a, b[0].0, b[0].1);
      MergeDistinct(Put(a, b[0].0, b[0].1), b[1..]);
    }
  }

  /** In `array_merge($a, $b)` a key of `b` takes `b`'s value; any other key keeps `a`'s. */
  lemma {:induction false} MergeGet<V>(a: Entries<V>, b: Entries<V>, k: string)
    requires DistinctKeys(b)
    ensures Get(Merge(a, b), k) == if k in Keys(b) then Get(b, k) else Get(a, k)
    decreases |b|
  {
    if |b| > 0 {
      DistinctTail(b);
      PutSpec(a, b[0].0, b[0].1);
      MergeGet(Put(a, b[0].0, b[0].1), b[1..], k);
      assert Keys(b) == [b[0].0] + Keys(b[1..]);
    }
  }

  /**
   * In `array_merge($a, $b)` the keys of `a` keep their places, and the keys only `b` has
   * follow them in `b`'s order.
   */
  lemma {:induction false} MergeKeys<V>(a: Entries<V>, b: Entries<V>)
    ensures Keys(Merge(a, b)) == Keys(a) + NewKeys(Keys(a), b)
    decreases |b|
  {
    if |b| > 0 {
      var a' := Put(a, b[0].0, b[0].1);
      PutSpec(a, b[0].0, b[0].1);
      MergeKeys(a', b[1..]);
      assert Merge(a, b) == Merge(a', b[1..]);
      if b[0].0 in Keys(a) {
        assert NewKeys(Keys(a), b) == NewKeys(Keys(a), b[1..]);
      } else {
        assert NewKeys(Keys(a), b) == [b[0].0] + NewKeys(Keys(a'), b[1..]);
        assert Keys(a') + NewKeys(Keys(a'), b[1..]) == Keys(a) + ([b[0].0] + NewKeys(Keys(a'), b[1..]));
      }
    }
  }

  /** The new keys all come from `b`. */
  lemma {:induction false} NewKeysFrom<V>(a: seq<string>, b: Entries<V>, k: string)
    requires k in NewKeys(a, b)
    ensures k in Keys(b)
    decreases |b|
  {
    assert Keys(b) == [b[0].0] + Keys(b[1..]);
    if k != b[0].0 {
      NewKeysFrom(if b[0].0 in a then a else a + [b[0].0], b[1..], k);
    }
  }

  lemma {:induction false} NewKeysOfFresh<V>(a: seq<string>, b: Entries<V>)
    requires DistinctKeys(b)
    requires forall i :: 0 <= i < |b| ==> b[i].0 !in a
    ensures NewKeys(a, b) == Keys(b)
    decreases |b|
  {
    if |b| > 0 {
      assert DistinctKeys(b[1..]);
      forall i | 0 <= i < |b| - 1 ensures b[1..][i].0 !in a + [b[0].0] {
        assert b[i + 1].0 != b[0].0;
      }
      NewKeysOfFresh(a + [b[0].0], b[1..]);
      assert Keys(b) == [b[0].0] + Keys(b[1..]);
    }
  }

  /** Assigning a key the array does not have appends the entry. */
  lemma {:induction false} PutNew<V>(m: Entries<V>, k: string, v: V)
    requires k !in Keys(m)
    ensures Put(m, k, v) == m + [(k, v)]
  {
    if |m| > 0 {
      assert Keys(m) == [m[0].0] + Keys(m[1..]);
      PutNew(m[1..], k, v);
      assert m + [(k, v)] == [m[0]] + (m[1..] + [(k, v)]);
    }
  }
}
