/** Visited sets as the exact solver stores them: one natural number whose bit
    `i` says that location `i` has been visited. */
module Masks {
  import opened Sequences

  function Pow2(n: nat): (r: nat)
    ensures r >= 1
  {
    if n == 0 then 1 else 2 * Pow2(n - 1)
  }

  /** `mask & (1 << i) != 0`. */
  predicate Bit(mask: nat, i: nat) {
    if i == 0 then mask % 2 == 1 else Bit(mask / 2, i - 1)
  }

  /** `mask | (1 << i)`. */
  function SetBit(mask: nat, i: nat): nat {
    if i == 0 then mask / 2 * 2 + 1 else SetBit(mask / 2, i - 1) * 2 + mask % 2
  }

  /** `a & b`. */
  function And(a: nat, b: nat): nat {
    if a == 0 || b == 0 then 0 else And(a / 2, b / 2) * 2 + (if a % 2 == 1 && b % 2 == 1 then 1 else 0)
  }

  /** The mask with the bits `0..n` set. */
  function FullMask(n: nat): nat { Pow2(n) - 1 }

  lemma {:induction false} BitOfSetBit(mask: nat, i: nat, j: nat)
    ensures Bit(SetBit(mask, i), j) <==> i == j || Bit(mask, j)
  {
    if i > 0 && j > 0 {
      assert SetBit(mask, i) / 2 == SetBit(mask / 2, i - 1);
      BitOfSetBit(mask / 2, i - 1, j - 1);
    } else if i == 0 && j > 0 {
      assert SetBit(mask, i) / 2 == mask / 2;
    }
  }

  /** Adding a new location moves to a strictly larger mask, still within `n` bits. */
  lemma {:induction false} SetBitGrows(mask: nat, i: nat, n: nat)
    requires i < n && mask < Pow2(n) && !Bit(mask, i)
    ensures mask < SetBit(mask, i) < Pow2(n)
  {
    assert mask == mask / 2 * 2 + mask % 2;
    if i > 0 {
      var half, grown := mask / 2, SetBit(mask / 2, i - 1);
      assert half < Pow2(n - 1) && SetBit(mask, i) == grown * 2 + mask % 2;
      SetBitGrows(half, i - 1, n - 1);
      assert half < grown < Pow2(n - 1);
    }
  }

  lemma {:induction false} BitInRange(mask: nat, i: nat, n: nat)
    requires mask < Pow2(n) && Bit(mask, i)
    ensures i < n
  {
    if n == 0 {
      BitOfZero(i);
    } else if i > 0 {
      BitInRange(mask / 2, i - 1, n - 1);
    }
  }

  lemma {:induction false} BitOfZero(i: nat)
    ensures !Bit(0, i)
  {
    if i > 0 {
      BitOfZero(i - 1);
    }
  }

  lemma {:induction false} BitOfFull(n: nat, i: nat)
    requires i < n
    ensures Bit(FullMask(n), i)
  {
    if i > 0 {
      assert FullMask(n) / 2 == FullMask(n - 1);
      BitOfFull(n - 1, i - 1);
    }
  }

  /** A mask is determined by its bits. */
  lemma {:induction false} SameBits(a: nat, b: nat, n: nat)
    requires a < Pow2(n) && b < Pow2(n)
    requires forall i: nat | i < n :: Bit(a, i) <==> Bit(b, i)
    ensures a == b
  {
    if n > 0 {
      forall i: nat | i < n - 1
        ensures Bit(a / 2, i) <==> Bit(b / 2, i)
      {
        assert Bit(a, i + 1) <==> Bit(b, i + 1);
      }
      assert Bit(a, 0) <==> Bit(b, 0);
      SameBits(a / 2, b / 2, n - 1);
    }
  }

  /** `a & b == b` asks that every bit of `b` is a bit of `a`. */
  lemma {:induction false} AndKeeps(a: nat, b: nat, i: nat)
    requires And(a, b) == b && Bit(b, i)
    ensures Bit(a, i)
  {
    if b == 0 {
      BitOfZero(i);
    } else if i > 0 {
      assert And(a / 2, b / 2) == b / 2;
      AndKeeps(a / 2, b / 2, i - 1);
    }
  }

  lemma {:induction false} AndLoses(a: nat, b: nat) returns (i: nat)
    requires And(a, b) != b
    ensures Bit(b, i) && !Bit(a, i)
  {
    if b % 2 == 1 && a % 2 == 0 {
      i := 0;
    } else if a == 0 {
      i := LowestBit(b);
      BitOfZero(i);
    } else {
      var j := AndLoses(a / 2, b / 2);
      i := j + 1;
    }
  }

  lemma {:induction false} LowestBit(b: nat) returns (i: nat)
    requires b > 0
    ensures Bit(b, i)
  {
    if b % 2 == 1 {
      i := 0;
    } else {
      var j := LowestBit(b / 2);
      i := j + 1;
    }
  }

  /** The total weight of the locations in a mask. */
  function MaskSum(w: seq<nat>, mask: nat): nat {
    if |w| == 0 then 0 else (if mask % 2 == 1 then w[0] else 0) + MaskSum(w[1..], mask / 2)
  }

  lemma {:induction false} MaskSumSetBit(w: seq<nat>, mask: nat, i: nat)
    requires i < |w| && !Bit(mask, i)
    ensures MaskSum(w, SetBit(mask, i)) == MaskSum(w, mask) + w[i]
  {
    if i == 0 {
      assert SetBit(mask, i) / 2 == mask / 2;
    } else {
      assert SetBit(mask, i) / 2 == SetBit(mask / 2, i - 1);
      MaskSumSetBit(w[1..], mask / 2, i - 1);
    }
  }

  lemma {:induction false} MaskSumZero(w: seq<nat>)
    ensures MaskSum(w, 0) == 0
  {
    if |w| > 0 {
      MaskSumZero(w[1..]);
    }
  }

  /** The mask of the locations occurring in a sequence. */
  function MaskOf(q: seq<nat>): nat {
    if |q| == 0 then 0 else SetBit(MaskOf(q[..|q| - 1]), q[|q| - 1])
  }

  lemma {:induction false} BitOfMaskOf(q: seq<nat>, i: nat)
    ensures Bit(MaskOf(q), i) <==> i in q
  {
    if |q| == 0 {
      BitOfZero(i);
    } else {
      var p, x := q[..|q| - 1], q[|q| - 1];
      assert q == p + [x];
      BitOfMaskOf(p, i);
      BitOfSetBit(MaskOf(p), x, i);
    }
  }

  lemma {:induction false} MaskOfBound(q: seq<nat>, n: nat)
    requires Distinct(q)
    requires forall i | 0 <= i < |q| :: q[i] < n
    ensures MaskOf(q) < Pow2(n)
    ensures |q| > 0 ==> MaskOf(q) >= 1
  {
    if |q| > 0 {
      var p, x := q[..|q| - 1], q[|q| - 1];
      MaskOfBound(p, n);
      BitOfMaskOf(p, x);
      SetBitGrows(MaskOf(p), x, n);
    }
  }

  /** The total weight met along a sequence. */
  function SumAlong(w: seq<nat>, q: seq<nat>): nat
    requires forall i | 0 <= i < |q| :: q[i] < |w|
  {
    if |q| == 0 then 0 else SumAlong(w, q[..|q| - 1]) + w[q[|q| - 1]]
  }

  /** Along a sequence without repetition, the total depends on the visited set only. */
  lemma {:induction false} SumAlongIsMaskSum(w: seq<nat>, q: seq<nat>)
    requires forall i | 0 <= i < |q| :: q[i] < |w|
    requires Distinct(q)
    ensures SumAlong(w, q) == MaskSum(w, MaskOf(q))
  {
    if |q| == 0 {
      MaskSumZero(w);
    } else {
      var p, x := q[..|q| - 1], q[|q| - 1];
      SumAlongIsMaskSum(w, p);
      BitOfMaskOf(p, x);
      MaskSumSetBit(w, MaskOf(p), x);
    }
  }

  /** The position of the cell of (mask, last) in a row-major table of `n` columns. */
  function CellIndex(mask: nat, last: nat, n: nat): nat { mask * n + last }

  lemma CellIndexBound(mask: nat, last: nat, n: nat, states: nat)
    requires mask < states && last < n
    ensures CellIndex(mask, last, n) < states * n
  {
    assert (mask + 1) * n <= states * n;
  }

  lemma CellIndexInjective(mask: nat, last: nat, mask': nat, last': nat, n: nat)
    requires last < n && last' < n
    requires CellIndex(mask, last, n) == CellIndex(mask', last', n)
    ensures mask == mask' && last == last'
  {
    assert mask < mask' ==> (mask + 1) * n <= mask' * n;
    assert mask' < mask ==> (mask' + 1) * n <= mask * n;
  }
}
