/** Partial routes of the exact solver and what their visited masks say about them. */
module Routes {
  import opened Domain
  import opened Masks
  import opened Sequences
  import opened Simulation
  import opened Objective

  /** A partial route: no repetition, and the destination can only come last. */
  ghost predicate PartialRoute(input: Input, q: seq<nat>) {
    FromStart(input, q) && Distinct(q) &&
    forall i | 0 <= i < |q| - 1 :: q[i] != input.problem.End()
  }

  /** `q` without its last stop is again a partial route. */
  lemma PartialRouteInit(input: Input, q: seq<nat>)
    requires PartialRoute(input, q) && |q| > 1
    ensures PartialRoute(input, q[..|q| - 1]) && q[|q| - 2] != input.problem.End()
    ensures !Bit(MaskOf(q[..|q| - 1]), q[|q| - 1]) && 1 <= q[|q| - 1]
    ensures MaskOf(q) == SetBit(MaskOf(q[..|q| - 1]), q[|q| - 1])
  {
    var p, x := q[..|q| - 1], q[|q| - 1];
    assert p[|p| - 1] == q[|q| - 2];
    BitOfMaskOf(p, x);
    assert q[0] == 0 != x;
  }

  lemma PartialRouteExtend(input: Input, p: seq<nat>, x: nat)
    requires PartialRoute(input, p) && p[|p| - 1] != input.problem.End()
    requires x < input.Count() && !Bit(MaskOf(p), x)
    ensures PartialRoute(input, p + [x]) && (p + [x])[..|p|] == p
    ensures MaskOf(p + [x]) == SetBit(MaskOf(p), x)
  {
    assert (p + [x])[..|p|] == p;
    BitOfMaskOf(p, x);
  }

  /** The mask of all required locations. */
  function RequiredMask(locations: seq<Location>): nat {
    if |locations| == 0 then 0
    else
      var before := RequiredMask(locations[..|locations| - 1]);
      if locations[|locations| - 1].required then SetBit(before, |locations| - 1) else before
  }

  lemma {:induction false} BitOfRequiredMask(locations: seq<Location>, i: nat)
    ensures Bit(RequiredMask(locations), i) <==> i < |locations| && locations[i].required
  {
    if |locations| == 0 {
      BitOfZero(i);
    } else {
      var k := |locations| - 1;
      BitOfRequiredMask(locations[..k], i);
      BitOfSetBit(RequiredMask(locations[..k]), k, i);
    }
  }

  /** The destination may close a mask: it completes the route the policy asks for. */
  predicate MayEnd(problem: Problem, terminalMask: nat) {
    !(problem.visitPolicy == AllRequired && terminalMask != FullMask(|problem.locations|)) &&
    And(terminalMask, RequiredMask(problem.locations)) == RequiredMask(problem.locations)
  }

  /** The required test on masks asks exactly for every required location. */
  lemma RequiredTest(problem: Problem, q: seq<nat>)
    ensures And(MaskOf(q), RequiredMask(problem.locations)) == RequiredMask(problem.locations) <==>
            forall x: nat | x < |problem.locations| && problem.locations[x].required :: x in q
  {
    var mask, required := MaskOf(q), RequiredMask(problem.locations);
    if And(mask, required) == required {
      forall x: nat | x < |problem.locations| && problem.locations[x].required ensures x in q {
        BitOfRequiredMask(problem.locations, x);
        AndKeeps(mask, required, x);
        BitOfMaskOf(q, x);
      }
    } else {
      var x := AndLoses(mask, required);
      BitOfRequiredMask(problem.locations, x);
      BitOfMaskOf(q, x);
    }
  }

  /** A partial route that ends at the destination is a valid order exactly when
      its mask may end. */
  lemma MayEndIsValidOrder(input: Input, q: seq<nat>)
    requires input.problem.Valid()
    requires PartialRoute(input, q) && q[|q| - 1] == input.problem.End()
    ensures MayEnd(input.problem, MaskOf(q)) <==> ValidOrder(input.problem, q)
  {
    var n := input.Count();
    RequiredTest(input.problem, q);
    DistinctInRange(q, n);
    MaskOfBound(q, n);
    forall i: nat | i < n ensures Bit(FullMask(n), i) <==> true { BitOfFull(n, i); }
    forall i: nat ensures Bit(MaskOf(q), i) <==> i in q { BitOfMaskOf(q, i); }
    if |q| == n { SameBits(MaskOf(q), FullMask(n), n); }
  }

  /** A valid order is a partial route. */
  lemma ValidOrderIsPartialRoute(input: Input, q: seq<nat>)
    requires ValidOrder(input.problem, q)
    ensures PartialRoute(input, q)
  {
  }
}
