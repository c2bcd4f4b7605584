/** The least-recently-used cache: a hash map from keys to the nodes of a recency list. */
module LruCache {
  datatype Option<+T> = None | Some(value: T)

  type Entries<K, V> = seq<(K, V)>

  /* The recency-ordered map the cache stands for, most recent entry first */

  ghost predicate HasKey<K, V>(c: Entries<K, V>, k: K) {
    exists i :: 0 <= i < |c| && c[i].0 == k
  }

  ghost predicate DistinctKeys<K, V>(c: Entries<K, V>) {
    forall i, j :: 0 <= i < j < |c| ==> c[i].0 != c[j].0
  }

  function Without<K(==), V>(c: Entries<K, V>, k: K): Entries<K, V> {
    if c == [] then []
    else if c[0].0 == k then Without(c[1..], k)
    else [c[0]] + Without(c[1..], k)
  }

  function Find<K(==), V>(c: Entries<K, V>, k: K): Option<V> {
    if c == [] then None
    else if c[0].0 == k then Some(c[0].1)
    else Find(c[1..], k)
  }

  /** The entry of `k`, if there is one, becomes the most recent. */
  function Touched<K(==), V>(c: Entries<K, V>, k: K): Entries<K, V> {
    if Find(c, k).Some? then [(k, Find(c, k).value)] + Without(c, k) else c
  }

  function Pruned<K, V>(c: Entries<K, V>, maxSize: nat, elasticity: nat): Entries<K, V> {
    if maxSize == 0 || |c| < maxSize + elasticity then c else c[..maxSize]
  }

  function Inserted<K(==), V>(c: Entries<K, V>, k: K, v: V, maxSize: nat, elasticity: nat): Entries<K, V> {
    var updated := [(k, v)] + Without(c, k);
    if Find(c, k).Some? then updated else Pruned(updated, maxSize, elasticity)
  }

  lemma {:induction false} FindIs<K, V>(c: Entries<K, V>, k: K)
    ensures Find(c, k).Some? <==> HasKey(c, k)
    ensures Find(c, k).Some? ==> exists i :: 0 <= i < |c| && c[i] == (k, Find(c, k).value)
  {
    if c != [] {
      FindIs(c[1..], k);
      if Find(c[1..], k).Some? {
        var i :| 0 <= i < |c[1..]| && c[1..][i] == (k, Find(c[1..], k).value);
        assert c[i + 1].0 == k;
      }
      if HasKey(c, k) && c[0].0 != k {
        var i :| 0 <= i < |c| && c[i].0 == k;
        assert c[1..][i - 1].0 == k;
      }
    }
  }

  /** What is left is every entry of another key, in the old order. */
  lemma {:induction false} WithoutIs<K, V>(c: Entries<K, V>, k: K)
    ensures !HasKey(Without(c, k), k)
    ensures forall x :: x != k ==> Find(Without(c, k), x) == Find(c, x)
    ensures !HasKey(c, k) ==> Without(c, k) == c
  {
    if c != [] {
      WithoutIs(c[1..], k);
      if !HasKey(c, k) {
        assert c[0].0 != k;
        forall i | 0 <= i < |c[1..]| ensures c[1..][i].0 != k {
          assert c[i + 1].0 != k;
        }
        assert c == [c[0]] + c[1..];
      }
    }
  }

  class Node<K, V> {
    const key: K
    var value: V

    constructor (k: K, v: V)
      ensures key == k && value == v
    {
      key, value := k, v;
    }
  }

  /** Removes the first occurrence, as the list does when it erases or splices out an iterator. */
  function Erase<T(==)>(s: seq<T>, x: T): seq<T> {
    if s == [] then [] else if s[0] == x then s[1..] else [s[0]] + Erase(s[1..], x)
  }

  ghost function Listed<K, V>(nodes: seq<Node<K, V>>): Entries<K, V>
    reads nodes
  {
    if nodes == [] then [] else [(nodes[0].key, nodes[0].value)] + Listed(nodes[1..])
  }

  twostate lemma {:induction false} ListedFrame<K, V>(nodes: seq<Node<K, V>>)
    requires forall n :: n in nodes ==> n.value == old(n.value)
    ensures Listed(nodes) == old(Listed(nodes))
  {
    if nodes != [] {
      ListedFrame(nodes[1..]);
    }
  }

  lemma {:induction false} ListedAt<K, V>(nodes: seq<Node<K, V>>)
    ensures |Listed(nodes)| == |nodes|
    ensures forall i :: 0 <= i < |nodes| ==> Listed(nodes)[i] == (nodes[i].key, nodes[i].value)
  {
    if nodes != [] {
      ListedAt(nodes[1..]);
    }
  }

  ghost predicate DistinctNodes<K, V>(nodes: seq<Node<K, V>>) {
    forall i, j :: 0 <= i < j < |nodes| ==> nodes[i].key != nodes[j].key
  }

  lemma {:induction false} EraseIs<K, V>(nodes: seq<Node<K, V>>, n: Node<K, V>)
    requires DistinctNodes(nodes) && n in nodes
    ensures Listed(Erase(nodes, n)) == Without(Listed(nodes), n.key)
    ensures Find(Listed(nodes), n.key) == Some(n.value)
    ensures |Erase(nodes, n)| == |nodes| - 1 && DistinctNodes(Erase(nodes, n))
    ensures forall i :: 0 <= i < |Erase(nodes, n)| ==> Erase(nodes, n)[i] in nodes && Erase(nodes, n)[i].key != n.key
    ensures forall i :: 0 <= i < |nodes| && nodes[i] != n ==> nodes[i] in Erase(nodes, n)
  {
    assert nodes == [nodes[0]] + nodes[1..];
    assert forall i :: 1 <= i < |nodes| ==> nodes[i] == nodes[1..][i - 1];
    if nodes[0] == n {
      ListedAt(nodes[1..]);
      NothingToRemove(Listed(nodes[1..]), n.key);
      assert Listed(nodes)[1..] == Listed(nodes[1..]);
    } else {
      EraseIs(nodes[1..], n);
      assert Listed(nodes)[1..] == Listed(nodes[1..]);
      var e := Erase(nodes[1..], n);
      forall i | 0 <= i < |e| ensures e[i].key != nodes[0].key {
        assert e[i] in nodes[1..];
      }
      assert ([nodes[0]] + e)[1..] == e;
    }
  }

  lemma {:induction false} NothingToRemove<K, V>(c: Entries<K, V>, k: K)
    requires forall i :: 0 <= i < |c| ==> c[i].0 != k
    ensures Without(c, k) == c && Find(c, k).None?
  {
    if c != [] {
      NothingToRemove(c[1..], k);
    }
  }

  lemma {:induction false} ListedPrefix<K, V>(nodes: seq<Node<K, V>>, n: nat)
    requires n <= |nodes|
    ensures |Listed(nodes)| == |nodes| && Listed(nodes[..n]) == Listed(nodes)[..n]
  {
    ListedAt(nodes);
    ListedAt(nodes[..n]);
  }

  /** Map and list hold the same keys, and each entry of the map is its own key's node. */
  ghost predicate Indexed<K, V>(cache: map<K, Node<K, V>>, keys: seq<Node<K, V>>) {
    && DistinctNodes(keys)
    && (forall i :: 0 <= i < |keys| ==> keys[i].key in cache && cache[keys[i].key] == keys[i])
    && (forall k :: k in cache ==> cache[k] in keys && cache[k].key == k)
  }

  lemma {:induction false} IndexedSize<K, V>(cache: map<K, Node<K, V>>, keys: seq<Node<K, V>>)
    requires Indexed(cache, keys)
    ensures |cache| == |keys|
  {
    if keys == [] {
      assert cache == map[];
    } else {
      var n := keys[0];
      assert Erase(keys, n) == keys[1..];
      IndexedErase(cache, keys, n);
      IndexedSize(cache - {n.key}, keys[1..]);
      assert |cache.Keys - {n.key}| == |cache.Keys| - 1;
      assert (cache - {n.key}).Keys == cache.Keys - {n.key};
    }
  }

  lemma IndexedErase<K, V>(cache: map<K, Node<K, V>>, keys: seq<Node<K, V>>, n: Node<K, V>)
    requires Indexed(cache, keys) && n in keys
    ensures Indexed(cache - {n.key}, Erase(keys, n))
  {
    EraseIs(keys, n);
    var rest, e := cache - {n.key}, Erase(keys, n);
    forall i | 0 <= i < |e| ensures e[i].key in rest && rest[e[i].key] == e[i] {
      assert e[i] in keys;
    }
    forall k | k in rest ensures rest[k] in e && rest[k].key == k {
      assert cache[k] in keys && cache[k].key == k;
    }
  }

  lemma IndexedFront<K, V>(cache: map<K, Node<K, V>>, keys: seq<Node<K, V>>, n: Node<K, V>)
    requires Indexed(cache, keys) && n.key !in cache
    ensures Indexed(cache[n.key := n], [n] + keys)
    ensures Listed([n] + keys) == [(n.key, n.value)] + Listed(keys)
  {
    var front := [n] + keys;
    assert front[1..] == keys;
    forall i, j | 0 <= i < j < |front| ensures front[i].key != front[j].key {
      assert front[j] in keys;
    }
  }

  lemma IndexedMove<K, V>(cache: map<K, Node<K, V>>, keys: seq<Node<K, V>>, n: Node<K, V>)
    requires Indexed(cache, keys) && n in keys
    ensures Indexed(cache, [n] + Erase(keys, n))
    ensures Listed([n] + Erase(keys, n)) == [(n.key, n.value)] + Listed(Erase(keys, n))
  {
    IndexedErase(cache, keys, n);
    PutBack(cache, n.key);
    IndexedFront(cache - {n.key}, Erase(keys, n), n);
  }

  lemma PutBack<K, V>(cache: map<K, V>, k: K)
    requires k in cache
    ensures (cache - {k})[k := cache[k]] == cache
  {
  }

  lemma {:induction false} EraseLast<K, V>(keys: seq<Node<K, V>>)
    requires DistinctNodes(keys) && keys != []
    ensures Erase(keys, keys[|keys| - 1]) == keys[..|keys| - 1]
  {
    if |keys| > 1 {
      EraseLast(keys[1..]);
      assert keys[0] != keys[|keys| - 1];
    }
  }

  lemma IndexedLookup<K, V>(cache: map<K, Node<K, V>>, keys: seq<Node<K, V>>, k: K)
    requires Indexed(cache, keys)
    ensures k in cache <==> Find(Listed(keys), k).Some?
    ensures k in cache ==> Find(Listed(keys), k) == Some(cache[k].value)
    ensures DistinctKeys(Listed(keys))
    ensures k !in cache ==> Without(Listed(keys), k) == Listed(keys)
  {
    ListedAt(keys);
    if k in cache {
      EraseIs(keys, cache[k]);
    } else {
      forall i | 0 <= i < |keys| ensures Listed(keys)[i].0 != k {
        assert keys[i] in keys;
      }
      NothingToRemove(Listed(keys), k);
    }
  }

  class Cache<K(==), V> {
    var cache: map<K, Node<K, V>>
    var keys: seq<Node<K, V>>
    const maxSize: nat
    const elasticity: nat

    ghost predicate Valid()
      reads this
    {
      Indexed(cache, keys)
    }

    ghost function Contents(): Entries<K, V>
      reads this, keys
    {
      Listed(keys)
    }

    constructor (maxSize: nat, elasticity: nat)
      ensures Valid() && Contents() == []
      ensures this.maxSize == maxSize && this.elasticity == elasticity && keys == []
    {
      this.maxSize, this.elasticity := maxSize, elasticity;
      cache, keys := map[], [];
    }

    method Clear()
      requires Valid()
      modifies this
      ensures Valid() && Contents() == [] && keys == []
    {
      cache := map[];
      keys := [];
    }

    method Insert(k: K, v: V)
      requires Valid()
      modifies this, keys
      ensures Valid()
      ensures Contents() == Inserted(old(Contents()), k, v, maxSize, elasticity)
      ensures forall n :: n in keys ==> n in old(keys) || fresh(n)
    {
      IndexedLookup(cache, keys, k);
      if k in cache {
        var n := cache[k];
        EraseIs(keys, n);
        n.value := v;
        ListedFrame(Erase(keys, n));
        EraseIs(keys, n);
        Splice(n);
        return;
      }
      EmplaceFront(k, v);
      var _ := Prune();
    }

    /** `keys_.emplace_front(k, v); cache_[k] = keys_.begin();` */
    method EmplaceFront(k: K, v: V)
      requires Valid() && k !in cache
      modifies this
      ensures Valid() && Contents() == [(k, v)] + old(Contents())
      ensures |keys| == |old(keys)| + 1 && keys[1..] == old(keys) && fresh(keys[0])
    {
      var n := new Node(k, v);
      IndexedFront(cache, keys, n);
      keys := [n] + keys;
      cache := cache[k := n];
      ListedFrame(old(keys));
    }

    /** Moves a node of the list to its front. */
    method Splice(n: Node<K, V>)
      requires Valid() && n in keys
      modifies this`keys
      ensures Valid() && keys == [n] + Erase(old(keys), n)
      ensures Contents() == [(n.key, n.value)] + Without(old(Contents()), n.key)
      ensures forall x :: x in keys <==> x in old(keys)
    {
      hide Listed;
      IndexedMove(cache, keys, n);
      EraseIs(keys, n);
      keys := [n] + Erase(keys, n);
      ListedFrame(keys);
    }

    method Prune() returns (count: nat)
      requires Valid()
      modifies this
      ensures Valid()
      ensures Contents() == Pruned(old(Contents()), maxSize, elasticity)
      ensures count == |old(Contents())| - |Contents()|
      ensures keys <= old(keys)
    {
      var maxAllowed := maxSize + elasticity;
      ListedPrefix(keys, |keys|);
      IndexedSize(cache, keys);
      if maxSize == 0 || |cache| < maxAllowed {
        return 0;
      }
      count := EvictToMaxSize();
      ListedFrame(old(keys));
      ListedPrefix(old(keys), maxSize);
    }

    /** The loop of `prune`. */
    method EvictToMaxSize() returns (count: nat)
      requires Valid() && |cache| == |keys| >= maxSize
      modifies this
      ensures Valid() && keys == old(keys)[..maxSize]
      ensures count == |old(keys)| - maxSize
    {
      count := 0;
      while |cache| > maxSize
        invariant Valid() && |cache| == |keys|
        invariant maxSize <= |keys| <= |old(keys)| && keys == old(keys)[..|keys|]
        invariant count == |old(keys)| - |keys|
      {
        EvictLast();
        count := count + 1;
      }
    }

    /** `cache_.erase(keys_.back().key); keys_.pop_back();` */
    method EvictLast()
      requires Valid() && keys != []
      modifies this
      ensures Valid() && |cache| == |keys|
      ensures keys == old(keys)[..|old(keys)| - 1]
    {
      EraseLast(keys);
      IndexedErase(cache, keys, keys[|keys| - 1]);
      cache := cache - {keys[|keys| - 1].key};
      keys := keys[..|keys| - 1];
      IndexedSize(cache, keys);
    }

    method TryGet(k: K) returns (found: Option<V>)
      requires Valid()
      modifies this`keys
      ensures Valid()
      ensures found == Find(old(Contents()), k)
      ensures Contents() == Touched(old(Contents()), k)
      ensures forall n :: n in keys <==> n in old(keys)
    {
      IndexedLookup(cache, keys, k);
      if k !in cache {
        return None;
      }
      EraseIs(keys, cache[k]);
      Splice(cache[k]);
      return Some(cache[k].value);
    }

    /** As `TryGet`, where the source throws KeyNotFound instead of returning false. */
    method Get(k: K) returns (value: Option<V>)
      requires Valid()
      modifies this`keys
      ensures Valid()
      ensures value == Find(old(Contents()), k)
      ensures Contents() == Touched(old(Contents()), k)
      ensures forall n :: n in keys <==> n in old(keys)
    {
      IndexedLookup(cache, keys, k);
      if k in cache {
        EraseIs(keys, cache[k]);
        Splice(cache[k]);
        return Some(cache[k].value);
      }
      return None;
    }

    method Remove(k: K) returns (removed: bool)
      requires Valid()
      modifies this
      ensures Valid()
      ensures removed <==> Find(old(Contents()), k).Some?
      ensures Contents() == Without(old(Contents()), k)
      ensures forall n :: n in keys ==> n in old(keys)
    {
      IndexedLookup(cache, keys, k);
      if k !in cache {
        return false;
      }
      var n := cache[k];
      EraseIs(keys, n);
      IndexedErase(cache, keys, n);
      keys := Erase(keys, n);
      cache := cache - {k};
      return true;
    }

    method Contains(k: K) returns (present: bool)
      requires Valid()
      ensures present <==> HasKey(Contents(), k)
    {
      IndexedLookup(cache, keys, k);
      FindIs(Contents(), k);
      present := k in cache;
    }
  }
}
