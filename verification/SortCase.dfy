/** When the case-sensitive mode of the list sort does sort with regard to case, though its merge compares without. */
module SortCase {
  import opened SortMerge
  import opened SortOrder

  ghost predicate KeysAmong<T>(s: seq<T>, key: T -> Key, texts: iset<Text>) {
    forall k :: 0 <= k < |s| ==> key(s[k]).Key? && key(s[k]).text in texts
  }

  /** No key is behind one that it is smaller than, upper-case letters being what they are. */
  predicate InCaseOrder<T>(s: seq<T>, key: T -> Key) {
    forall i, j :: 0 <= i < j < |s| ==> Compared(key(s[i]), key(s[j]), true) <= 0
  }

  /** Of any two of the texts the smaller one is also the smaller without regard to case. */
  ghost predicate OrdersAgree(texts: iset<Text>) {
    forall x, y :: x in texts && y in texts ==> PairAgrees(x, y)
  }

  predicate PairAgrees(x: Text, y: Text) {
    Difference(x, y) < 0 ==> Difference(Lowered(x), Lowered(y)) < 0
  }

  lemma SignsAgree(texts: iset<Text>, x: Text, y: Text)
    requires OrdersAgree(texts) && x in texts && y in texts
    ensures Difference(x, y) < 0 <==> Difference(Lowered(x), Lowered(y)) < 0
    ensures Difference(x, y) <= 0 <==> Difference(Lowered(x), Lowered(y)) <= 0
  {
    hide Difference, Lowered;
    DifferenceSwaps(x, y);
    DifferenceSwaps(Lowered(x), Lowered(y));
    DifferenceOrders(x, y);
    DifferenceOrders(Lowered(x), Lowered(y));
    assert PairAgrees(x, y) && PairAgrees(y, x);
  }

  lemma AscendingAgrees<T>(s: seq<T>, key: T -> Key, texts: iset<Text>)
    requires OrdersAgree(texts) && KeysAmong(s, key, texts)
    ensures Ascending(s, key, true) <==> Ascending(s, key, false)
  {
    hide OrdersAgree, Difference, Lowered;
    forall k | 0 < k < |s|
      ensures Compared(key(s[k - 1]), key(s[k]), true) < 0 <==> Compared(key(s[k - 1]), key(s[k]), false) < 0
    {
      SignsAgree(texts, key(s[k - 1]).text, key(s[k]).text);
    }
  }

  lemma {:induction false} SameInBothModes<T>(s: seq<T>, key: T -> Key, texts: iset<Text>)
    requires OrdersAgree(texts) && KeysAmong(s, key, texts)
    ensures Sorted(s, key, true) == Sorted(s, key, false)
    decreases |s|
  {
    hide OrdersAgree, Ascending, Merged;
    AscendingAgrees(s, key, texts);
    if |s| > 1 && !Ascending(s, key, true) {
      SameInBothModes(s[..Middle(|s|)], key, texts);
      SameInBothModes(s[Middle(|s|)..], key, texts);
    }
  }

  /** With keys on which the two orders agree both modes do the same, and sort with regard to case. */
  lemma CaseSensitiveOrder<T>(s: seq<T>, key: T -> Key, texts: iset<Text>)
    requires OrdersAgree(texts) && KeysAmong(s, key, texts)
    ensures Sorted(s, key, true) == Sorted(s, key, false)
    ensures InCaseOrder(Sorted(s, key, true), key)
  {
    hide OrdersAgree, Difference, Lowered, Sorted;
    SameInBothModes(s, key, texts);
    SortedInOrder(s, key);
    SortedKeeps(s, key, false);
    var t := Sorted(s, key, false);
    forall i, j | 0 <= i < j < |t| ensures Compared(key(t[i]), key(t[j]), true) <= 0 {
      Rearranged(s, t, i);
      Rearranged(s, t, j);
      SignsAgree(texts, key(t[i]).text, key(t[j]).text);
    }
  }

  /* Texts on which the orders do not agree */

  function Self(k: Key): Key {
    k
  }

  /** `x` is the smaller text, but not without regard to case: then [y, x] or [x, y, y] is left out of order. */
  function LeftUnsorted(x: Text, y: Text): seq<Key> {
    if Difference(Lowered(x), Lowered(y)) > 0 then [Key(y), Key(x)] else [Key(x), Key(y), Key(y)]
  }

  lemma MergeOfTwo(a: Key, b: Key)
    ensures Merged([a], [b], Self) == if Compared(a, b, false) < 0 then [a, b] else [b, a]
  {
    hide Compared;
    assert Merged([a][1..], [b], Self) == [b] && Merged([a], [b][1..], Self) == [a];
  }

  lemma LaterFirst(x: Text, y: Text)
    requires Difference(x, y) < 0 && Difference(Lowered(x), Lowered(y)) > 0
    ensures Sorted([Key(y), Key(x)], Self, true) == [Key(y), Key(x)]
  {
    hide Difference, Lowered;
    DifferenceSwaps(x, y);
    DifferenceSwaps(Lowered(x), Lowered(y));
    var s := [Key(y), Key(x)];
    assert s[..1] == [Key(y)] && s[1..] == [Key(x)];
    assert Compared(Self(s[0]), Self(s[1]), true) > 0;
    MergeOfTwo(Key(y), Key(x));
  }

  lemma SameFirst(x: Text, y: Text)
    requires Difference(x, y) < 0 && Difference(Lowered(x), Lowered(y)) == 0
    ensures Sorted([Key(x), Key(y), Key(y)], Self, true) == [Key(y), Key(x), Key(y)]
  {
    hide Difference, Lowered;
    DifferenceOrders(y, y);
    var s := [Key(x), Key(y), Key(y)];
    assert s[..2] == [Key(x), Key(y)] && s[2..] == [Key(y)];
    assert Compared(Self(s[1]), Self(s[2]), true) == 0;
    var a := [Key(x), Key(y)];
    assert Ascending(a, Self, true) && Sorted(a, Self, true) == a;
    assert Merged(a, [Key(y)], Self) == [Key(y)] + Merged(a, [Key(y)][1..], Self);
  }

  lemma LeftOutOfOrder(x: Text, y: Text)
    requires !PairAgrees(x, y)
    ensures !InCaseOrder(Sorted(LeftUnsorted(x, y), Self, true), Self)
  {
    hide Difference, Lowered, Sorted;
    DifferenceSwaps(x, y);
    var t := Sorted(LeftUnsorted(x, y), Self, true);
    if Difference(Lowered(x), Lowered(y)) > 0 { LaterFirst(x, y); } else { SameFirst(x, y); }
    assert Compared(Self(t[0]), Self(t[1]), true) > 0;
  }

  /** Every list with its keys among `texts` comes out in the case-sensitive order exactly if the two orders
      agree on `texts`. */
  lemma SortsByCaseExactly(texts: iset<Text>)
    ensures (forall s: seq<Key> :: KeysAmong(s, Self, texts) ==> InCaseOrder(Sorted(s, Self, true), Self))
            <==> OrdersAgree(texts)
  {
    hide PairAgrees, Sorted, InCaseOrder;
    if OrdersAgree(texts) {
      forall s: seq<Key> | KeysAmong(s, Self, texts) ensures InCaseOrder(Sorted(s, Self, true), Self) {
        CaseSensitiveOrder(s, Self, texts);
      }
    } else {
      var x, y :| x in texts && y in texts && !PairAgrees(x, y);
      LeftOutOfOrder(x, y);
      assert KeysAmong(LeftUnsorted(x, y), Self, texts);
    }
  }

  /** Of "a" and "B" the case-sensitive mode puts "a" first. */
  lemma CaseSensitiveOrderFails()
    ensures !InCaseOrder(Sorted([Key([97]), Key([66])], Self, true), Self)
  {
    assert Lowered([97]) == [97] && Lowered([66]) == [98];
    LeftOutOfOrder([66], [97]);
  }

  /** Keys without upper-case letters are among those that are sorted. */
  lemma LowerCaseAgrees(texts: iset<Text>)
    requires forall x :: x in texts ==> Lowered(x) == x
    ensures OrdersAgree(texts)
  {
  }
}
