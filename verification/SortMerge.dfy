/** The merge sort of cJSON_Utils as functions of a chain, and the order of what it gives. */
module SortMerge {
  import opened SortOrder

  /* What the sort does, as functions of a chain of things with keys */

  /** Every key is smaller than the next one. */
  predicate Ascending<T>(s: seq<T>, key: T -> Key, caseSensitive: bool) {
    forall k :: 0 < k < |s| ==> Compared(key(s[k - 1]), key(s[k]), caseSensitive) < 0
  }

  /** Merging always compares without regard to case, and takes the second of two equal keys first. */
  function Merged<T>(a: seq<T>, b: seq<T>, key: T -> Key): seq<T>
    decreases |a| + |b|
  {
    if a == [] then b
    else if b == [] then a
    else if Compared(key(a[0]), key(b[0]), false) < 0 then [a[0]] + Merged(a[1..], b, key)
    else [b[0]] + Merged(a, b[1..], key)
  }

  /** The start of the second half. */
  function Middle(n: nat): (m: nat)
    ensures m <= n && (n > 1 ==> 0 < m < n)
  {
    (n + 1) / 2
  }

  function Sorted<T>(s: seq<T>, key: T -> Key, caseSensitive: bool): seq<T>
    decreases |s|
  {
    if |s| <= 1 || Ascending(s, key, caseSensitive) then s
    else Merged(Sorted(s[..Middle(|s|)], key, caseSensitive), Sorted(s[Middle(|s|)..], key, caseSensitive), key)
  }

  /* What it promises */

  predicate InOrder<T>(s: seq<T>, key: T -> Key) {
    forall i, j :: 0 <= i < j < |s| ==> AtMost(key(s[i]), key(s[j]))
  }

  predicate HaveKeys<T>(s: seq<T>, key: T -> Key) {
    forall k :: 0 <= k < |s| ==> key(s[k]).Key?
  }

  lemma {:induction false} MergedKeeps<T>(a: seq<T>, b: seq<T>, key: T -> Key)
    ensures multiset(Merged(a, b, key)) == multiset(a) + multiset(b)
    decreases |a| + |b|
  {
    hide Compared;
    if a != [] && b != [] {
      if Compared(key(a[0]), key(b[0]), false) < 0 {
        MergedKeeps(a[1..], b, key);
        assert a == [a[0]] + a[1..];
      } else {
        MergedKeeps(a, b[1..], key);
        assert b == [b[0]] + b[1..];
      }
    }
  }

  /** The result is a rearrangement of the nodes, in either mode and with or without keys. */
  lemma {:induction false} SortedKeeps<T>(s: seq<T>, key: T -> Key, caseSensitive: bool)
    ensures multiset(Sorted(s, key, caseSensitive)) == multiset(s)
    decreases |s|
  {
    hide Ascending, Merged;
    if |s| > 1 && !Ascending(s, key, caseSensitive) {
      var m := Middle(|s|);
      SortedKeeps(s[..m], key, caseSensitive);
      SortedKeeps(s[m..], key, caseSensitive);
      MergedKeeps(Sorted(s[..m], key, caseSensitive), Sorted(s[m..], key, caseSensitive), key);
      assert s == s[..m] + s[m..];
    }
  }

  lemma Rearranged<T>(s: seq<T>, t: seq<T>, k: nat)
    requires multiset(t) == multiset(s) && k < |t|
    ensures t[k] in s
  {
    assert t[k] in multiset(t);
  }

  /** `x` comes no later than anything in `s`. */
  predicate Least<T>(x: T, s: seq<T>, key: T -> Key) {
    forall k :: 0 <= k < |s| ==> AtMost(key(x), key(s[k]))
  }

  lemma LeastOfMerged<T>(x: T, a: seq<T>, b: seq<T>, key: T -> Key)
    requires Least(x, a, key) && Least(x, b, key)
    ensures Least(x, Merged(a, b, key), key)
  {
    MergedKeeps(a, b, key);
    forall k | 0 <= k < |Merged(a, b, key)| ensures AtMost(key(x), key(Merged(a, b, key)[k])) {
      assert Merged(a, b, key)[k] in multiset(Merged(a, b, key));
      assert Merged(a, b, key)[k] in multiset(a) || Merged(a, b, key)[k] in multiset(b);
    }
  }

  lemma LeastBehind<T>(x: T, s: seq<T>, key: T -> Key)
    requires s != [] && InOrder(s, key) && AtMost(key(x), key(s[0]))
    ensures Least(x, s, key)
  {
    forall k | 0 < k < |s| ensures AtMost(key(x), key(s[k])) {
      AtMostChains(key(x), key(s[0]), key(s[k]));
    }
  }

  lemma {:induction false} MergedInOrder<T>(a: seq<T>, b: seq<T>, key: T -> Key)
    requires InOrder(a, key) && InOrder(b, key) && HaveKeys(a, key) && HaveKeys(b, key)
    ensures InOrder(Merged(a, b, key), key)
    decreases |a| + |b|
  {
    if a != [] && b != [] {
      ComparedDecides(key(a[0]), key(b[0]));
      if Compared(key(a[0]), key(b[0]), false) < 0 {
        LeastBehind(a[0], b, key);
        MergedInOrder(a[1..], b, key);
        LeastOfMerged(a[0], a[1..], b, key);
      } else {
        LeastBehind(b[0], a, key);
        MergedInOrder(a, b[1..], key);
        LeastOfMerged(b[0], a, b[1..], key);
      }
    }
  }

  lemma {:induction false} AscendingInOrder<T>(s: seq<T>, key: T -> Key)
    requires Ascending(s, key, false) && HaveKeys(s, key)
    ensures InOrder(s, key)
  {
    if |s| > 1 {
      AscendingInOrder(s[1..], key);
      ComparedDecides(key(s[0]), key(s[1]));
      LeastBehind(s[0], s[1..], key);
    }
  }

  /** Without regard to case the result is in the order of the lower-cased keys. */
  lemma {:induction false} SortedInOrder<T>(s: seq<T>, key: T -> Key)
    requires HaveKeys(s, key)
    ensures InOrder(Sorted(s, key, false), key)
    decreases |s|
  {
    if |s| > 1 {
      if Ascending(s, key, false) {
        AscendingInOrder(s, key);
      } else {
        var m := Middle(|s|);
        SortedInOrder(s[..m], key);
        SortedInOrder(s[m..], key);
        SortedHaveKeys(s[..m], key);
        SortedHaveKeys(s[m..], key);
        MergedInOrder(Sorted(s[..m], key, false), Sorted(s[m..], key, false), key);
      }
    }
  }

  lemma SortedHaveKeys<T>(s: seq<T>, key: T -> Key)
    requires HaveKeys(s, key)
    ensures HaveKeys(Sorted(s, key, false), key)
  {
    SortedKeeps(s, key, false);
    forall k | 0 <= k < |Sorted(s, key, false)| ensures key(Sorted(s, key, false)[k]).Key? {
      Rearranged(s, Sorted(s, key, false), k);
    }
  }
}
