/**
 * A PHP array used as an ordered dictionary: a sequence of (key, value)
 * entries with distinct keys, in insertion order. Assigning to an existing
 * key replaces its value in place; assigning to a new key appends it.
 */
module PhpArrays {
  import opened Outcomes

  type Entries<K, V> = seq<(K, V)>

  predicate DistinctKeys<K(==), V>(a: Entries<K, V>)
  {
    forall i, j :: 0 <= i < j < |a| ==> a[i].0 != a[j].0
  }

  /** Position of `k` in `a`, or `|a|` when absent. */
  function IndexOf<K(==), V>(a: Entries<K, V>, k: K): (i: nat)
    ensures i <= |a|
    ensures i < |a| ==> a[i].0 == k
    ensures forall j :: 0 <= j < i ==> a[j].0 != k
    decreases |a|
  {
    if |a| == 0 then 0
    else if a[0].0 == k then 0
    else 1 + IndexOf(a[1..], k)
  }

  predicate HasKey<K(==), V>(a: Entries<K, V>, k: K)
  {
    IndexOf(a, k) < |a|
  }

  function Get<K(==), V>(a: Entries<K, V>, k: K): (r: Option<V>)
    ensures r.Some? <==> exists j :: 0 <= j < |a| && a[j].0 == k
  {
    var i := IndexOf(a, k);
    if i < |a| then Some(a[i].1) else None
  }

  /** `$a[$k] = $v`. */
  function Put<K(==), V>(a: Entries<K, V>, k: K, v: V): (r: Entries<K, V>)
    ensures HasKey(a, k) ==> |r| == |a|
    ensures !HasKey(a, k) ==> r == a + [(k, v)]
  {
    var i := IndexOf(a, k);
    if i < |a| then a[i := (k, v)] else a + [(k, v)]
  }

  function Keys<K(==), V>(a: Entries<K, V>): (r: seq<K>)
    ensures |r| == |a|
    ensures forall j :: 0 <= j < |a| ==> r[j] == a[j].0
  {
    seq(|a|, j requires 0 <= j < |a| => a[j].0)
  }

  /** `array_pop($a)` read for its value: the value of the last entry, or null when empty. */
  function LastValue<K(==), V>(a: Entries<K, V>): (r: Option<V>)
    ensures r.Some? <==> |a| > 0
    ensures |a| > 0 ==> r.value == a[|a| - 1].1
  {
    if |a| == 0 then None else Some(a[|a| - 1].1)
  }

  /** The three properties in the contract of `IndexOf` determine it. */
  lemma IndexOfUnique<K, V>(a: Entries<K, V>, k: K, i: nat)
    requires i <= |a|
    requires i < |a| ==> a[i].0 == k
    requires forall j :: 0 <= j < i ==> a[j].0 != k
    ensures IndexOf(a, k) == i
  {
  }

  /** Assigning to a key makes the key read back the new value and leaves every other key alone. */
  lemma PutGet<K, V>(a: Entries<K, V>, k: K, v: V, k': K)
    ensures Get(Put(a, k, v), k) == Some(v)
    ensures k' != k ==> Get(Put(a, k, v), k') == Get(a, k')
  {
    var i := IndexOf(a, k);
    var r := Put(a, k, v);
    var x := IndexOf(a, k');
    IndexOfUnique(r, k, i);
    if k' != k {
      if x < |a| || i < |a| {
        IndexOfUnique(r, k', x);
      } else {
        IndexOfUnique(r, k', |r|);
      }
    }
  }

  /** Assigning keeps the key order, adding a new key at the end. */
  lemma PutKeys<K, V>(a: Entries<K, V>, k: K, v: V)
    ensures HasKey(a, k) ==> Keys(Put(a, k, v)) == Keys(a)
    ensures !HasKey(a, k) ==> Keys(Put(a, k, v)) == Keys(a) + [k]
    ensures DistinctKeys(a) ==> DistinctKeys(Put(a, k, v))
  {
  }
}
