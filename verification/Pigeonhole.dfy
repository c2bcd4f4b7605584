/** As many distinct numbers below a bound as there are, are all of them. */
module Pigeonhole {
  ghost function Below(n: nat): set<nat> {
    if n == 0 then {} else Below(n - 1) + {n - 1}
  }

  lemma {:induction false} BelowIs(n: nat)
    ensures |Below(n)| == n && forall p: nat :: p in Below(n) <==> p < n
  {
    if n > 0 {
      BelowIs(n - 1);
    }
  }

  lemma SameSize(a: set<nat>, b: set<nat>)
    requires a <= b && |a| == |b|
    ensures a == b
  {
    if a != b {
      assert a < b;
      var x :| x in b && x !in a;
      SubsetSize(a, b - {x});
    }
  }

  lemma {:induction false} SubsetSize(a: set<nat>, b: set<nat>)
    requires a <= b
    ensures |a| <= |b|
  {
    if a != {} {
      var x :| x in a;
      SubsetSize(a - {x}, b - {x});
    }
  }

  ghost function Elements(xs: seq<nat>): set<nat> {
    if xs == [] then {} else Elements(xs[..|xs| - 1]) + {xs[|xs| - 1]}
  }

  lemma {:induction false} ElementsAre(xs: seq<nat>)
    requires forall j, k :: 0 <= j < k < |xs| ==> xs[j] != xs[k]
    ensures |Elements(xs)| == |xs| && forall x :: x in Elements(xs) <==> x in xs
  {
    if xs != [] {
      var front := xs[..|xs| - 1];
      var last := xs[|xs| - 1];
      ElementsAre(front);
      assert xs == front + [last];
      assert Elements(xs) == Elements(front) + {last};
      forall k | 0 <= k < |front| ensures front[k] != last {
        assert xs[k] != xs[|xs| - 1];
      }
    }
  }

  lemma AllBelow(xs: seq<nat>, n: nat, i: nat)
    requires |xs| == n && i < n && forall k :: 0 <= k < n ==> xs[k] < n
    requires forall j, k :: 0 <= j < k < n ==> xs[j] != xs[k]
    ensures i in xs
  {
    ElementsAre(xs);
    BelowIs(n);
    SameSize(Elements(xs), Below(n));
    assert i in Elements(xs);
  }
}
