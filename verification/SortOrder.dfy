/** The comparison of keys that the list sort uses, and the order it stands for. */
module SortOrder {
  /** The bytes of a C string, without its terminator. */
  type KeyByte = b: int | 1 <= b < 256 witness 1
  type Text = seq<KeyByte>

  /** A list node may have no key. */
  datatype Key = NoKey | Key(text: Text)

  /** tolower in the C locale */
  function Lower(b: int): int {
    if 65 <= b <= 90 then b + 32 else b
  }

  /** Byte n of "A..Z" becomes byte n of "a..z", and every other byte stays. */
  lemma LowerIs(b: int)
    ensures forall n :: 0 <= n < 26 && b == UPPER_CASE[n] ==> Lower(b) == LOWER_CASE[n]
    ensures b !in UPPER_CASE ==> Lower(b) == b
  {
    if 65 <= b <= 90 {
      assert UPPER_CASE[b - 65] == b;
    }
  }

  const UPPER_CASE: seq<int> :=
    [65, 66, 67, 68, 69, 70, 71, 72, 73, 74, 75, 76, 77, 78, 79, 80, 81, 82, 83, 84, 85, 86, 87, 88, 89, 90]

  const LOWER_CASE: seq<int> :=
    [97, 98, 99, 100, 101, 102, 103, 104, 105, 106, 107, 108, 109, 110, 111, 112, 113, 114, 115, 116, 117, 118, 119,
     120, 121, 122]

  function Lowered(text: Text): (r: Text)
    ensures |r| == |text| && forall k :: 0 <= k < |r| ==> r[k] == Lower(text[k])
  {
    if text == [] then [] else [Lower(text[0])] + Lowered(text[1..])
  }

  /** `string[i]`, which is 0 at the end of the string. */
  function CharAt(text: Text, i: nat): int
    requires i <= |text|
  {
    if i < |text| then text[i] else 0
  }

  /** The difference of the first bytes that differ, counting the terminator. */
  function Difference(a: Text, b: Text): int {
    if a == [] then (if b == [] then 0 else -b[0])
    else if b == [] then a[0]
    else if a[0] != b[0] then a[0] - b[0]
    else Difference(a[1..], b[1..])
  }

  /** What compare_strings computes; keys that are missing are never found equal. */
  function Compared(a: Key, b: Key, caseSensitive: bool): int {
    if a.NoKey? || b.NoKey? then 1
    else if caseSensitive then Difference(a.text, b.text)
    else Difference(Lowered(a.text), Lowered(b.text))
  }

  lemma {:induction false} DifferenceFrom(a: Text, b: Text, k: nat)
    requires k <= |a| && k <= |b| && a[..k] == b[..k]
    ensures Difference(a, b) == Difference(a[k..], b[k..])
    decreases k
  {
    if k == 0 {
      assert a[0..] == a && b[0..] == b;
    } else {
      assert a[0] == a[..k][0] && b[0] == b[..k][0];
      assert a[1..][..k - 1] == a[..k][1..] && b[1..][..k - 1] == b[..k][1..];
      DifferenceFrom(a[1..], b[1..], k - 1);
      assert a[1..][k - 1..] == a[k..] && b[1..][k - 1..] == b[k..];
    }
  }

  method CompareStrings(a: Key, b: Key, caseSensitive: bool) returns (r: int)
    ensures r == Compared(a, b, caseSensitive)
  {
    if a.NoKey? || b.NoKey? { return 1; }
    if caseSensitive { return Difference(a.text, b.text); }
    ghost var low1, low2 := Lowered(a.text), Lowered(b.text);
    var i := 0;
    while Lower(CharAt(a.text, i)) == Lower(CharAt(b.text, i))
      invariant i <= |a.text| && i <= |b.text| && low1[..i] == low2[..i]
      decreases |a.text| - i
    {
      if CharAt(a.text, i) == 0 {
        assert low1 == low1[..i] && low2 == low2[..i];
        DifferenceFrom(low1, low2, i);
        return 0;
      }
      assert low1[..i + 1] == low1[..i] + [low1[i]] && low2[..i + 1] == low2[..i] + [low2[i]];
      i := i + 1;
    }
    DifferenceFrom(low1, low2, i);
    assert i < |a.text| ==> low1[i..][0] == Lower(a.text[i]);
    assert i < |b.text| ==> low2[i..][0] == Lower(b.text[i]);
    return Lower(CharAt(a.text, i)) - Lower(CharAt(b.text, i));
  }

  /* The order */

  /** `a` comes before `b` in the dictionary: it is a proper prefix, or smaller where they first differ. */
  ghost predicate Precedes(a: Text, b: Text) {
    exists k :: FirstSmaller(a, b, k)
  }

  ghost predicate FirstSmaller(a: Text, b: Text, k: nat) {
    k <= |a| && k < |b| && a[..k] == b[..k] && (k < |a| ==> a[k] < b[k])
  }

  /** The sign of the difference is the dictionary order, and it is zero on equal strings only. */
  lemma {:induction false} DifferenceOrders(a: Text, b: Text)
    ensures Difference(a, b) < 0 <==> Precedes(a, b)
    ensures Difference(a, b) == 0 <==> a == b
  {
    if a == [] {
      if b != [] { assert FirstSmaller(a, b, 0); }
    } else if b == [] {
    } else if a[0] != b[0] {
      if a[0] < b[0] { assert FirstSmaller(a, b, 0); }
      forall k: nat | FirstSmaller(a, b, k) ensures a[0] < b[0] {
        if k > 0 { assert a[..k][0] == b[..k][0]; }
      }
    } else {
      DifferenceOrders(a[1..], b[1..]);
      forall k: nat | FirstSmaller(a[1..], b[1..], k) ensures FirstSmaller(a, b, k + 1) {
        assert a[..k + 1] == [a[0]] + a[1..][..k] && b[..k + 1] == [b[0]] + b[1..][..k];
      }
      forall k: nat | FirstSmaller(a, b, k) ensures k > 0 && FirstSmaller(a[1..], b[1..], k - 1) {
        if k > 0 { assert a[1..][..k - 1] == a[..k][1..] && b[1..][..k - 1] == b[..k][1..]; }
      }
      assert a == [a[0]] + a[1..] && b == [b[0]] + b[1..];
    }
  }

  lemma {:induction false} DifferenceSwaps(a: Text, b: Text)
    ensures Difference(b, a) == -Difference(a, b)
  {
    if a != [] && b != [] && a[0] == b[0] {
      DifferenceSwaps(a[1..], b[1..]);
    }
  }

  lemma {:induction false} DifferenceChains(a: Text, b: Text, c: Text)
    requires Difference(a, b) <= 0 && Difference(b, c) <= 0
    ensures Difference(a, c) <= 0
  {
    if a != [] && b != [] && c != [] && a[0] == b[0] && b[0] == c[0] {
      DifferenceChains(a[1..], b[1..], c[1..]);
    }
  }

  /** The order of the sort: no later than, by lower-cased key. */
  predicate AtMost(a: Key, b: Key) {
    a.Key? && b.Key? && Difference(Lowered(a.text), Lowered(b.text)) <= 0
  }

  lemma AtMostChains(a: Key, b: Key, c: Key)
    requires AtMost(a, b) && AtMost(b, c)
    ensures AtMost(a, c)
  {
    DifferenceChains(Lowered(a.text), Lowered(b.text), Lowered(c.text));
  }

  /** The comparison decides the order of two keys. */
  lemma ComparedDecides(a: Key, b: Key)
    requires a.Key? && b.Key?
    ensures if Compared(a, b, false) < 0 then AtMost(a, b) else AtMost(b, a)
  {
    DifferenceSwaps(Lowered(a.text), Lowered(b.text));
  }
}
