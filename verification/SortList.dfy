/** The in-place merge sort of a doubly linked list of nodes with keys. */
module SortList {
  import opened SortMerge
  import opened SortOrder

  class Node {
    const key: Key
    var next: Node?
    var prev: Node?

    constructor (k: Key)
      ensures key == k && next == null && prev == null
    {
      key, next, prev := k, null, null;
    }
  }

  function KeyOf(node: Node): Key {
    node.key
  }

  /* The linked list */

  ghost predicate Distinct(s: seq<Node>) {
    forall i, j :: 0 <= i < j < |s| ==> s[i] != s[j]
  }

  ghost predicate Apart(s: seq<Node>, t: seq<Node>) {
    forall i, j :: 0 <= i < |s| && 0 <= j < |t| ==> s[i] != t[j]
  }

  function NodeAt(s: seq<Node>, k: nat): Node? {
    if k < |s| then s[k] else null
  }

  /** The nodes of `s` are distinct, and each but the last leads to the next one and back. */
  ghost predicate Chained(s: seq<Node>)
    reads s
  {
    Distinct(s) && forall k :: 0 < k < |s| ==> s[k - 1].next == s[k] && s[k].prev == s[k - 1]
  }

  /** The list that starts at `head` consists of the nodes of `s`; the head may have any predecessor. */
  ghost predicate Linked(head: Node?, s: seq<Node>)
    reads s
  {
    Chained(s) && head == NodeAt(s, 0) && (s != [] ==> s[|s| - 1].next == null)
  }

  ghost predicate Inside(s: seq<Node>, all: set<Node>) {
    forall k :: 0 <= k < |s| ==> s[k] in all
  }

  lemma PartsChained(s: seq<Node>, t: seq<Node>, n: nat)
    requires Chained(s + t) && n <= |t|
    ensures Chained(s + t[..n]) && Chained(t[n..])
  {
    var all := s + t;
    assert forall k :: 0 <= k < |s| + n ==> (s + t[..n])[k] == all[k];
    assert forall k :: 0 <= k < |t| - n ==> t[n..][k] == all[|s| + n + k];
  }

  /** `tail->next = head; head->prev = tail`, where the tail ends one chain and the head starts another. */
  method Join(tail: Node, head: Node, ghost s: seq<Node>, ghost t: seq<Node>)
    requires Chained(s) && Chained(t) && Apart(s, t)
    requires s != [] && tail == s[|s| - 1] && t != [] && head == t[0]
    modifies tail`next, head`prev
    ensures Chained(s + t)
  {
    tail.next := head;
    head.prev := tail;
    var all := s + t;
    forall k | 0 < k < |all| ensures all[k - 1].next == all[k] && all[k].prev == all[k - 1] {
      if k < |s| {
        assert all[k - 1] == s[k - 1] && all[k] == s[k];
      } else if k > |s| {
        assert all[k - 1] == t[k - |s| - 1] && all[k] == t[k - |s|];
      }
    }
  }

  /** The merged part is `done`; the rest of the lists is `x` and `y`. */
  ghost predicate Merging(result: Node?, tail: Node?, done: seq<Node>, x: seq<Node>, y: seq<Node>)
    reads done
  {
    && Chained(done) && Apart(done, x) && Apart(done, y) && Apart(x, y)
    && result == NodeAt(done, 0) && tail == (if done == [] then null else done[|done| - 1])
  }

  lemma OutOfY(done: seq<Node>, x: seq<Node>, y: seq<Node>)
    requires x != [] && Apart(done, y) && Apart(x, y)
    ensures forall k :: 0 <= k < |y| ==> y[k] != x[0] && (done != [] ==> y[k] != done[|done| - 1])
  {
  }

  lemma EndsApart(s: seq<Node>, t: seq<Node>)
    requires s != [] && t != [] && Apart(s, t)
    ensures s[|s| - 1] != t[0] && s[|s| - 1] != t[|t| - 1]
  {
  }

  lemma MovedApart(done: seq<Node>, x: seq<Node>, y: seq<Node>)
    requires x != [] && Distinct(done + x) && Apart(done, y) && Apart(x, y)
    ensures Apart(done + [x[0]], x[1..]) && Apart(done + [x[0]], y) && Apart(x[1..], y) && Apart(y, x[1..])
  {
    var all := done + x;
    forall i, j | 0 <= i < |done| + 1 && 0 <= j < |x| - 1 ensures (done + [x[0]])[i] != x[1..][j] {
      assert all[i] == (done + [x[0]])[i] && all[|done| + 1 + j] == x[1..][j];
    }
  }

  lemma MergingStarts(x: seq<Node>, y: seq<Node>, all: set<Node>)
    requires Apart(x, y)
    ensures Merging(null, null, [], x, y) && Inside([], all)
  {
  }

  lemma MergingSwaps(result: Node?, tail: Node?, done: seq<Node>, x: seq<Node>, y: seq<Node>)
    requires Merging(result, tail, done, x, y)
    ensures Merging(result, tail, done, y, x)
  {
  }

  lemma MovedInside(result: Node?, tail: Node?, done: seq<Node>, x: seq<Node>, y: seq<Node>, all: set<Node>)
    requires Merging(result, tail, done, x, y) && Inside(done, all) && Inside(x, all) && x != []
    ensures (tail != null ==> tail in all) && x[0] in all
    ensures Inside(done + [x[0]], all) && Inside(x[1..], all)
  {
  }

  /** One turn of the merge: the node `smaller`, which is the first of `x`, is moved to the end of `done`. */
  method Move(result0: Node?, tail0: Node?, smaller: Node, ghost other: Node, ghost done: seq<Node>,
              ghost x: seq<Node>, ghost y: seq<Node>)
    returns (result: Node?, tail: Node?)
    requires Merging(result0, tail0, done, x, y) && Linked(smaller, x) && Linked(other, y) && x != []
    modifies if tail0 == null then {smaller} else {tail0, smaller}
    ensures Merging(result, tail, done + [x[0]], x[1..], y)
    ensures Merging(result, tail, done + [x[0]], y, x[1..])
    ensures Linked(smaller.next, x[1..]) && Linked(other, y)
  {
    hide Apart, Distinct;
    OutOfY(done, x, y);
    NextIs(smaller, x, 0);
    result, tail := result0, smaller;
    if result == null {
      result := smaller;
    } else {
      EndsApart(done, x);
      Join(tail0, smaller, done, x);
    }
    assert Chained(done + x) by { assert done == [] ==> done + x == x; }
    assert smaller.next == NodeAt(x, 1);
    MovedApart(done, x, y);
    PartsChained(done, x, 1);
    assert done + x[..1] == done + [x[0]];
  }

  lemma MergedStep(done: seq<Node>, x: seq<Node>, y: seq<Node>)
    requires x != [] && y != []
    ensures
      if Compared(x[0].key, y[0].key, false) < 0
      then done + Merged(x, y, KeyOf) == done + [x[0]] + Merged(x[1..], y, KeyOf)
      else done + Merged(x, y, KeyOf) == done + [y[0]] + Merged(x, y[1..], KeyOf)
  {
  }

  method Merge(first0: Node?, second0: Node?, ghost a: seq<Node>, ghost b: seq<Node>, ghost all: set<Node>)
    returns (result: Node?)
    requires Linked(first0, a) && Linked(second0, b) && Apart(a, b) && Inside(a, all) && Inside(b, all)
    modifies all
    ensures Linked(result, Merged(a, b, KeyOf))
  {
    hide Merged, Compared, Apart, Chained, Inside;
    var first, second, tail := first0, second0, null;
    result := null;
    ghost var done, x, y := [], a, b;
    MergingStarts(a, b, all);
    while first != null && second != null
      invariant Merging(result, tail, done, x, y) && Linked(first, x) && Linked(second, y)
      invariant Inside(done, all) && Inside(x, all) && Inside(y, all)
      invariant done + Merged(x, y, KeyOf) == Merged(a, b, KeyOf)
      invariant x == [] && y == [] ==> done == []
      decreases |x| + |y|
    {
      MergedStep(done, x, y);
      var r := CompareStrings(first.key, second.key, false);
      if r < 0 {
        MovedInside(result, tail, done, x, y, all);
        result, tail := Move(result, tail, first, second, done, x, y);
        first := first.next;
        done, x := done + [x[0]], x[1..];
      } else {
        MergingSwaps(result, tail, done, x, y);
        MovedInside(result, tail, done, y, x, all);
        result, tail := Move(result, tail, second, first, done, y, x);
        second := second.next;
        done, y := done + [y[0]], y[1..];
      }
    }
    MergedEmpty(x, y);
    if first != null {
      MovedInside(result, tail, done, x, y, all);
      result := Attach(result, tail, first, done, x, y);
    }
    if second != null {
      MergingSwaps(result, tail, done, x, y);
      MovedInside(result, tail, done, y, x, all);
      result := Attach(result, tail, second, done, y, x);
    }
    assert done + [] == done;
  }

  /** What is left of one list is put behind the merged part. */
  method Attach(result0: Node?, tail: Node?, rest: Node, ghost done: seq<Node>, ghost x: seq<Node>, ghost y: seq<Node>)
    returns (result: Node)
    requires Merging(result0, tail, done, x, y) && Linked(rest, x) && x != []
    modifies if tail == null then {} else {tail, rest}
    ensures Linked(result, done + x)
  {
    hide Distinct;
    if result0 == null {
      assert done + x == x;
      result := rest;
    } else {
      EndsApart(done, x);
      Join(tail, rest, done, x);
      assert (done + x)[|done + x| - 1] == x[|x| - 1];
      result := result0;
    }
  }

  lemma NextIs(head: Node?, s: seq<Node>, k: nat)
    requires Linked(head, s) && k < |s|
    ensures s[k].next == NodeAt(s, k + 1)
  {
    if k + 1 < |s| { assert s[k + 1 - 1].next == s[k + 1]; }
  }

  lemma MergedEmpty(x: seq<Node>, y: seq<Node>)
    ensures x == [] ==> Merged(x, y, KeyOf) == y
    ensures y == [] ==> Merged(x, y, KeyOf) == x
  {
  }

  /** Whether every key is smaller than the next one. */
  method IsAscending(list: Node, caseSensitive: bool, ghost s: seq<Node>) returns (ascending: bool)
    requires Linked(list, s)
    ensures ascending == Ascending(s, KeyOf, caseSensitive)
  {
    hide Compared;
    var current := list;
    ghost var k := 0;
    while current.next != null
      invariant k < |s| && current == s[k] && Ascending(s[..k + 1], KeyOf, caseSensitive)
      decreases |s| - k
    {
      NextIs(list, s, k);
      var r := CompareStrings(current.key, current.next.key, caseSensitive);
      if r >= 0 { return false; }
      current := current.next;
      k := k + 1;
    }
    NextIs(list, s, k);
    assert s[..k + 1] == s;
    return true;
  }

  /** The first node of the second half: one pointer walks two steps for each step of the other. */
  method FindMiddle(list: Node, ghost s: seq<Node>) returns (second: Node?)
    requires Linked(list, s)
    ensures second == NodeAt(s, Middle(|s|))
  {
    var current: Node? := list;
    second := list;
    ghost var k := 0;
    while current != null
      invariant k <= Middle(|s|) && second == NodeAt(s, k) && current == NodeAt(s, 2 * k)
      decreases |s| - k
    {
      NextIs(list, s, k);
      NextIs(list, s, 2 * k);
      if 2 * k + 1 < |s| { NextIs(list, s, 2 * k + 1); }
      second := second.next;
      current := current.next;
      if current != null { current := current.next; }
      k := k + 1;
    }
  }

  lemma PiecesApart(s: seq<Node>, m: nat)
    requires Chained(s) && m <= |s|
    ensures Apart(s[..m], s[m..])
  {
  }

  lemma RearrangedApart(s: seq<Node>, t: seq<Node>, u: seq<Node>, v: seq<Node>)
    requires Apart(s, t) && multiset(u) == multiset(s) && multiset(v) == multiset(t)
    ensures Apart(u, v)
  {
    forall i, j | 0 <= i < |u| && 0 <= j < |v| ensures u[i] != v[j] {
      Rearranged(s, u, i);
      Rearranged(t, v, j);
    }
  }

  lemma RearrangedInside(s: seq<Node>, t: seq<Node>, all: set<Node>)
    requires multiset(t) == multiset(s) && Inside(s, all)
    ensures Inside(t, all)
  {
    forall k | 0 <= k < |t| ensures t[k] in all {
      Rearranged(s, t, k);
    }
  }

  lemma SortedIs(s: seq<Node>, caseSensitive: bool)
    ensures |s| <= 1 || Ascending(s, KeyOf, caseSensitive) ==> Sorted(s, KeyOf, caseSensitive) == s
    ensures
      |s| > 1 && !Ascending(s, KeyOf, caseSensitive) ==>
      Sorted(s, KeyOf, caseSensitive)
      == Merged(Sorted(s[..Middle(|s|)], KeyOf, caseSensitive), Sorted(s[Middle(|s|)..], KeyOf, caseSensitive), KeyOf)
  {
  }

  /** `second->prev->next = NULL` cuts the list in two. */
  method Split(list: Node, second: Node?, ghost s: seq<Node>, ghost m: nat)
    requires Linked(list, s) && 0 < m < |s| && second == s[m]
    modifies s[m - 1]
    ensures Linked(list, s[..m]) && Linked(second, s[m..])
  {
    if second != null && second.prev != null {
      second.prev.next := null;
    }
  }

  /** sort_list: relinks the nodes of the list, and no others, into the sorted chain. */
  method Sort(list: Node?, caseSensitive: bool, ghost s: seq<Node>) returns (result: Node?)
    requires Linked(list, s)
    modifies s
    ensures Linked(result, Sorted(s, KeyOf, caseSensitive))
    decreases |s|
  {
    hide Ascending, Merged, Sorted, Chained, Distinct, Middle;
    SortedIs(s, caseSensitive);
    if list == null { return list; }
    NextIs(list, s, 0);
    if list.next == null { return list; }
    var ascending := IsAscending(list, caseSensitive, s);
    if ascending { return list; }
    var second := FindMiddle(list, s);
    ghost var m := Middle(|s|);
    ghost var s1, s2 := s[..m], s[m..];
    PiecesApart(s, m);
    assert forall n :: n in s1 || n in s2 ==> n in s;
    Split(list, second, s, m);
    ghost var t1, t2, all := Sorted(s1, KeyOf, caseSensitive), Sorted(s2, KeyOf, caseSensitive), set n | n in s;
    SortedKeeps(s1, KeyOf, caseSensitive);
    SortedKeeps(s2, KeyOf, caseSensitive);
    RearrangedApart(s1, s2, t1, s2);
    RearrangedApart(s1, s2, t1, t2);
    RearrangedInside(s1, t1, all);
    RearrangedInside(s2, t2, all);
    var first := Sort(list, caseSensitive, s1);
    second := Sort(second, caseSensitive, s2);
    result := Merge(first, second, t1, t2, all);
  }
}
