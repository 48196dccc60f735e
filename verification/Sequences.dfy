/** Sequences without repetition and the sets they enumerate. */
module Sequences {

  ghost predicate Distinct(q: seq<nat>) {
    forall i, j | 0 <= i < j < |q| :: q[i] != q[j]
  }

  function Elements(q: seq<nat>): (s: set<nat>)
    ensures forall x :: x in s <==> x in q
    ensures Distinct(q) ==> |s| == |q|
  {
    if |q| == 0 then {}
    else
      assert q == q[..|q| - 1] + [q[|q| - 1]];
      Elements(q[..|q| - 1]) + {q[|q| - 1]}
  }

  function Below(n: nat): (s: set<nat>)
    ensures forall x: nat :: x in s <==> x < n
    ensures |s| == n
  {
    if n == 0 then {} else Below(n - 1) + {n - 1}
  }

  /** A sequence without repetition over `0..n` has at most `n` elements, and has
      `n` exactly when nothing is missing. */
  lemma DistinctInRange(q: seq<nat>, n: nat)
    requires Distinct(q)
    requires forall i | 0 <= i < |q| :: q[i] < n
    ensures |q| <= n
    ensures |q| == n <==> forall x: nat | x < n :: x in q
  {
    var s, r := Elements(q), Below(n);
    SubsetCount(s, r);
    if |q| == n {
      forall x: nat | x < n ensures x in q {
        if x !in q {
          SubsetCount(s, r - {x});
        }
      }
    }
    assert (forall x: nat | x < n :: x in q) ==> s == r;
  }

  /** A subset is no larger, and equal when as large. */
  lemma SubsetCount<T>(a: set<T>, b: set<T>)
    requires a <= b
    ensures |a| <= |b| && (|a| == |b| ==> a == b)
  {
    assert b == a + (b - a);
    assert |b| == |a| + |b - a|;
  }

  lemma ElementsSnoc(p: seq<nat>, x: nat)
    ensures Elements(p + [x]) == Elements(p) + {x}
    ensures |Elements(p + [x])| == |Elements(p)| + (if x in p then 0 else 1)
  {
    assert (p + [x])[..|p|] == p;
    if x in p { assert Elements(p) + {x} == Elements(p); }
  }

  lemma DistinctSnoc(p: seq<nat>, x: nat)
    requires Distinct(p) && x !in p
    ensures Distinct(p + [x])
  {
  }

  /** Repetition is what makes a sequence longer than its set of elements. */
  lemma {:induction false} RepeatsShrink(q: seq<nat>)
    ensures |Elements(q)| <= |q|
    ensures |Elements(q)| == |q| ==> Distinct(q)
  {
    if |q| > 0 {
      var p, x := q[..|q| - 1], q[|q| - 1];
      assert q == p + [x];
      RepeatsShrink(p);
      ElementsSnoc(p, x);
      if |Elements(q)| == |q| { DistinctSnoc(p, x); }
    }
  }

  function Reversed(q: seq<nat>): (r: seq<nat>)
    ensures |r| == |q| && forall i | 0 <= i < |q| :: r[i] == q[|q| - 1 - i]
  {
    if |q| == 0 then [] else Reversed(q[1..]) + [q[0]]
  }
}
