/** A second account of the cache, by time of last use, and the proof that the recency list agrees
    with it over every run. */
module LruReference {
  import opened LruCache

  datatype Op<K, V> =
    | Put(key: K, value: V)   // insert
    | Use(key: K)             // tryGet or get
    | Drop(key: K)            // remove
    | Reset                   // clear

  function Apply<K(==), V>(c: Entries<K, V>, op: Op<K, V>, maxSize: nat, elasticity: nat): Entries<K, V> {
    match op
    case Put(k, v) => Inserted(c, k, v, maxSize, elasticity)
    case Use(k) => Touched(c, k)
    case Drop(k) => Without(c, k)
    case Reset => []
  }

  function Run<K(==), V>(ops: seq<Op<K, V>>, maxSize: nat, elasticity: nat): Entries<K, V> {
    if ops == [] then []
    else Apply(Run(ops[..|ops| - 1], maxSize, elasticity), ops[|ops| - 1], maxSize, elasticity)
  }

  /** A value with the time of its last use. */
  datatype Stamped<V> = Stamped(value: V, used: nat)

  type Stamps<K, V> = map<K, Stamped<V>>

  ghost predicate LeastRecent<K, V>(m: Stamps<K, V>, k: K) {
    k in m && forall x :: x in m ==> m[k].used <= m[x].used
  }

  /** Removes a least recently used key until `size` keys are left. */
  ghost function Evict<K, V>(m: Stamps<K, V>, size: nat): Stamps<K, V>
    decreases |m|
  {
    if |m| <= size || !(exists k :: k in m && LeastRecent(m, k)) then m else
    var k :| k in m && LeastRecent(m, k);
    Evict(m - {k}, size)
  }

  /** The same operations on stamped keys, performed at time `now`. */
  ghost function Reference<K, V>(m: Stamps<K, V>, op: Op<K, V>, now: nat, maxSize: nat, elasticity: nat): Stamps<K, V> {
    match op
    case Put(k, v) =>
      var put := m[k := Stamped(v, now)];
      if k in m || maxSize == 0 || |put| < maxSize + elasticity then put else Evict(put, maxSize)
    case Use(k) => if k in m then m[k := Stamped(m[k].value, now)] else m
    case Drop(k) => m - {k}
    case Reset => map[]
  }

  ghost function RunReference<K, V>(ops: seq<Op<K, V>>, maxSize: nat, elasticity: nat): Stamps<K, V> {
    if ops == [] then map[]
    else Reference(RunReference(ops[..|ops| - 1], maxSize, elasticity), ops[|ops| - 1], |ops| - 1, maxSize, elasticity)
  }

  /** The list holds exactly the stamped entries, latest use first, all used before `now`. */
  ghost predicate Agrees<K, V>(c: Entries<K, V>, m: Stamps<K, V>, now: nat) {
    if c == [] then m == map[] else
    && c[0].0 in m && m[c[0].0].value == c[0].1 && m[c[0].0].used < now
    && Agrees(c[1..], m - {c[0].0}, m[c[0].0].used)
  }

  lemma {:induction false} AgreesLater<K, V>(c: Entries<K, V>, m: Stamps<K, V>, now: nat, later: nat)
    requires Agrees(c, m, now) && now <= later
    ensures Agrees(c, m, later)
  {
  }

  /** List and map have the same number of entries, give the same answers, and the list has no key twice. */
  lemma {:induction false} AgreesFind<K, V>(c: Entries<K, V>, m: Stamps<K, V>, now: nat, k: K)
    requires Agrees(c, m, now)
    ensures |c| == |m|
    ensures Find(c, k) == if k in m then Some(m[k].value) else None
    ensures k in m ==> m[k].used < now
  {
    if c != [] {
      var h := c[0].0;
      AgreesFind(c[1..], m - {h}, m[h].used, k);
      assert (m - {h}).Keys == m.Keys - {h};
    }
  }

  lemma {:induction false} AgreesDrop<K, V>(c: Entries<K, V>, m: Stamps<K, V>, now: nat, k: K)
    requires Agrees(c, m, now)
    ensures Agrees(Without(c, k), m - {k}, now)
    ensures k !in m ==> Without(c, k) == c
  {
    if c != [] {
      var h := c[0].0;
      AgreesDrop(c[1..], m - {h}, m[h].used, k);
      if h == k {
        AgreesLater(c[1..], m - {k}, m[h].used, now);
        assert m - {k} - {k} == m - {k};
      } else {
        assert m - {h} - {k} == m - {k} - {h};
        var w := [c[0]] + Without(c[1..], k);
        assert w[1..] == Without(c[1..], k);
      }
    }
  }

  lemma AgreesFront<K, V>(c: Entries<K, V>, m: Stamps<K, V>, now: nat, k: K, v: V)
    requires Agrees(c, m, now) && k !in m
    ensures Agrees([(k, v)] + c, m[k := Stamped(v, now)], now + 1)
  {
    assert m[k := Stamped(v, now)] - {k} == m;
    assert ([(k, v)] + c)[1..] == c;
  }

  /** Moving `k` to the front with a new value is stamping it now. */
  lemma AgreesRefresh<K, V>(c: Entries<K, V>, m: Stamps<K, V>, now: nat, k: K, v: V)
    requires Agrees(c, m, now)
    ensures Agrees([(k, v)] + Without(c, k), m[k := Stamped(v, now)], now + 1)
  {
    AgreesDrop(c, m, now, k);
    AgreesFront(Without(c, k), m - {k}, now, k, v);
    assert (m - {k})[k := Stamped(v, now)] == m[k := Stamped(v, now)];
  }

  /** The last key of the list is the one least recently used. */
  lemma {:induction false} LastIsLeastRecent<K, V>(c: Entries<K, V>, m: Stamps<K, V>, now: nat)
    requires Agrees(c, m, now) && c != []
    ensures LeastRecent(m, c[|c| - 1].0)
    ensures forall k :: k in m && k != c[|c| - 1].0 ==> m[k].used > m[c[|c| - 1].0].used
  {
    var h := c[0].0;
    if |c| == 1 {
      assert forall k :: k in m ==> k == h || k in m - {h};
    } else {
      LastIsLeastRecent(c[1..], m - {h}, m[h].used);
      AgreesFind(c[1..], m - {h}, m[h].used, c[|c| - 1].0);
      assert forall k :: k in m ==> k == h || k in m - {h};
    }
  }

  lemma {:induction false} AgreesCut<K, V>(c: Entries<K, V>, m: Stamps<K, V>, now: nat)
    requires Agrees(c, m, now) && c != []
    ensures Agrees(c[..|c| - 1], m - {c[|c| - 1].0}, now)
  {
    var h, last := c[0].0, c[|c| - 1].0;
    if |c| == 1 {
      assert m - {h} == map[];
    } else {
      AgreesCut(c[1..], m - {h}, m[h].used);
      LastIsLeastRecent(c[1..], m - {h}, m[h].used);
      assert c[1..][..|c| - 2] == c[..|c| - 1][1..];
      assert m - {h} - {last} == m - {last} - {h};
    }
  }

  /** Eviction by stamp is cutting off the tail of the list: exactly the least recently used keys go. */
  lemma {:induction false} AgreesEvict<K, V>(c: Entries<K, V>, m: Stamps<K, V>, now: nat, size: nat)
    requires Agrees(c, m, now) && size <= |c|
    ensures Agrees(c[..size], Evict(m, size), now)
    decreases |c|
  {
    if |c| == size {
      assert c[..size] == c;
      if c != [] { AgreesFind(c, m, now, c[0].0); }
    } else {
      AgreesFind(c, m, now, c[0].0);
      LastIsLeastRecent(c, m, now);
      var k := c[|c| - 1].0;
      assert forall x :: LeastRecent(m, x) ==> x == k;
      AgreesCut(c, m, now);
      AgreesEvict(c[..|c| - 1], m - {k}, now, size);
      assert c[..|c| - 1][..size] == c[..size];
    }
  }

  lemma AgreesApply<K, V>(c: Entries<K, V>, m: Stamps<K, V>, op: Op<K, V>, now: nat, maxSize: nat, elasticity: nat)
    requires Agrees(c, m, now)
    ensures Agrees(Apply(c, op, maxSize, elasticity), Reference(m, op, now, maxSize, elasticity), now + 1)
  {
    match op
    case Put(k, v) =>
      AgreesFind(c, m, now, k);
      AgreesRefresh(c, m, now, k, v);
      var put := [(k, v)] + Without(c, k);
      AgreesFind(put, m[k := Stamped(v, now)], now + 1, k);
      if k !in m && maxSize != 0 && |put| >= maxSize + elasticity {
        AgreesEvict(put, m[k := Stamped(v, now)], now + 1, maxSize);
      }
    case Use(k) =>
      AgreesFind(c, m, now, k);
      if k in m {
        AgreesRefresh(c, m, now, k, m[k].value);
      } else {
        AgreesLater(c, m, now, now + 1);
      }
    case Drop(k) =>
      AgreesDrop(c, m, now, k);
      AgreesLater(Without(c, k), m - {k}, now, now + 1);
    case Reset =>
  }

  /** Over every run the recency list and the stamped map agree: list order is order of last use. */
  lemma {:induction false} RunsAgree<K, V>(ops: seq<Op<K, V>>, maxSize: nat, elasticity: nat)
    ensures Agrees(Run(ops, maxSize, elasticity), RunReference(ops, maxSize, elasticity), |ops|)
  {
    if ops != [] {
      var before := ops[..|ops| - 1];
      RunsAgree(before, maxSize, elasticity);
      AgreesApply(Run(before, maxSize, elasticity), RunReference(before, maxSize, elasticity),
                  ops[|ops| - 1], |ops| - 1, maxSize, elasticity);
    }
  }

  /** After any run, every lookup gives the value of the last insertion that is still cached. */
  lemma LookupsAgree<K, V>(ops: seq<Op<K, V>>, maxSize: nat, elasticity: nat, k: K)
    ensures var m := RunReference(ops, maxSize, elasticity);
            Find(Run(ops, maxSize, elasticity), k) == if k in m then Some(m[k].value) else None
  {
    RunsAgree(ops, maxSize, elasticity);
    AgreesFind(Run(ops, maxSize, elasticity), RunReference(ops, maxSize, elasticity), |ops|, k);
  }

  lemma {:induction false} WithoutShrinks<K, V>(c: Entries<K, V>, k: K)
    ensures |Without(c, k)| <= |c| - (if Find(c, k).Some? then 1 else 0)
  {
    if c != [] {
      WithoutShrinks(c[1..], k);
    }
  }

  /** A bounded cache stays within maxSize keys, or maxSize + elasticity - 1 when elasticity is set. */
  lemma {:induction false} SizeIsBounded<K, V>(ops: seq<Op<K, V>>, maxSize: nat, elasticity: nat)
    requires maxSize > 0
    ensures |Run(ops, maxSize, elasticity)| <= if elasticity == 0 then maxSize else maxSize + elasticity - 1
  {
    if ops != [] {
      var before := ops[..|ops| - 1];
      SizeIsBounded(before, maxSize, elasticity);
      if !ops[|ops| - 1].Reset? {
        WithoutShrinks(Run(before, maxSize, elasticity), ops[|ops| - 1].key);
      }
    }
  }
}
