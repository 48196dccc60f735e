/** The validation tool's permutation step: the next arrangement in lexicographic
    order, in place. */
module Permutation {
  import opened Domain
  import opened Sequences

  /** `a` comes before `b`: they agree up to a position where `a` is smaller. */
  ghost predicate Precedes(a: seq<nat>, b: seq<nat>) {
    |a| == |b| && exists d :: 0 <= d < |a| && PrecedesAt(a, b, d)
  }

  ghost predicate PrecedesAt(a: seq<nat>, b: seq<nat>, d: nat)
    requires d < |a| == |b|
  {
    AgreeBelow(a, b, d) && a[d] < b[d]
  }

  ghost predicate AgreeBelow(a: seq<nat>, b: seq<nat>, d: nat)
    requires d <= |a| == |b|
  {
    forall k | 0 <= k < d :: a[k] == b[k]
  }

  ghost predicate Rearranges(a: seq<nat>, b: seq<nat>) {
    |a| == |b| && multiset(a) == multiset(b)
  }

  lemma FirstDifference(a: seq<nat>, b: seq<nat>) returns (d: nat)
    requires |a| == |b| && a != b
    ensures d < |a| && AgreeBelow(a, b, d) && a[d] != b[d]
  {
    d := 0;
    while a[d] == b[d]
      invariant d < |a| && AgreeBelow(a, b, d)
      decreases |a| - d
    {
      assert d + 1 < |a| || a == b;
      d := d + 1;
    }
  }

  /** Different arrangements are ordered one way or the other, never both. */
  lemma PrecedesIsTotal(a: seq<nat>, b: seq<nat>)
    requires |a| == |b|
    ensures a == b || Precedes(a, b) || Precedes(b, a)
    ensures !(Precedes(a, b) && Precedes(b, a))
  {
    if a != b {
      var d := FirstDifference(a, b);
      assert if a[d] < b[d] then PrecedesAt(a, b, d) else PrecedesAt(b, a, d);
    }
  }

  lemma PrecedesTransitive(a: seq<nat>, b: seq<nat>, c: seq<nat>)
    requires Precedes(a, b) && Precedes(b, c)
    ensures Precedes(a, c)
  {
    var d: nat :| d < |a| && PrecedesAt(a, b, d);
    var e: nat :| e < |b| && PrecedesAt(b, c, e);
    assert PrecedesAt(a, c, if d < e then d else e);
  }

  /** Arrangements that agree up to `d` hold the same values from `d` on. */
  lemma TailsRearrange(a: seq<nat>, b: seq<nat>, d: nat)
    requires Rearranges(a, b) && d <= |a| && AgreeBelow(a, b, d)
    ensures multiset(a[d..]) == multiset(b[d..])
  {
    assert a[..d] == b[..d];
    SplitCounts(a, d);
    SplitCounts(b, d);
  }

  lemma SplitCounts(s: seq<nat>, d: nat)
    requires d <= |s|
    ensures multiset(s[d..]) == multiset(s) - multiset(s[..d])
  {
    assert s == s[..d] + s[d..];
  }

  /** The value at `d` of one arrangement occurs from `d` on in the other. */
  lemma TailHas(a: seq<nat>, b: seq<nat>, d: nat) returns (k: nat)
    requires Rearranges(a, b) && d < |a| && AgreeBelow(a, b, d)
    ensures d <= k < |a| && a[k] == b[d]
  {
    TailsRearrange(a, b, d);
    assert b[d..][0] == b[d];
    assert b[d] in multiset(b[d..]);
    assert b[d] in a[d..];
    var i :| 0 <= i < |a[d..]| && a[d..][i] == b[d];
    assert a[d..][i] == a[d + i];
    k := d + i;
    assert a[k] == b[d];
  }

  ghost predicate FallingFrom(s: seq<nat>, low: nat) { forall i, j | low <= i <= j < |s| :: s[i] >= s[j] }

  ghost predicate RisingFrom(s: seq<nat>, low: nat) { forall i, j | low <= i <= j < |s| :: s[i] <= s[j] }

  /** Inside a falling tail the first difference can only go down. */
  lemma FallingTailGoesDown(a: seq<nat>, b: seq<nat>, low: nat, d: nat)
    requires Rearranges(a, b) && FallingFrom(a, low) && low <= d < |a| && AgreeBelow(a, b, d)
    ensures b[d] <= a[d]
  {
    var k := TailHas(a, b, d);
  }

  /** Inside a rising tail the first difference can only go up. */
  lemma RisingTailGoesUp(a: seq<nat>, b: seq<nat>, low: nat, d: nat)
    requires Rearranges(a, b) && RisingFrom(a, low) && low <= d < |a| && AgreeBelow(a, b, d)
    ensures a[d] <= b[d]
  {
    var k := TailHas(a, b, d);
  }

  /** A falling arrangement is the last one. */
  lemma FallingIsLast(a: seq<nat>, b: seq<nat>)
    requires Rearranges(a, b) && FallingFrom(a, 0)
    ensures !Precedes(a, b)
  {
    forall d: nat | d < |a| ensures !PrecedesAt(a, b, d) {
      if AgreeBelow(a, b, d) { FallingTailGoesDown(a, b, 0, d); }
    }
  }

  /** Agreeing up to a rising tail leaves no earlier arrangement. */
  lemma RisingTailIsFirst(a: seq<nat>, b: seq<nat>, low: nat)
    requires Rearranges(a, b) && low <= |a| && RisingFrom(a, low) && AgreeBelow(a, b, low)
    ensures a == b || Precedes(a, b)
  {
    if a != b {
      var d := FirstDifference(a, b);
      RisingTailGoesUp(a, b, low, d);
      assert PrecedesAt(a, b, d);
    }
  }

  /** `b` is the arrangement right after `a`. */
  ghost predicate Successor(a: seq<nat>, b: seq<nat>) {
    Rearranges(a, b) && Precedes(a, b) &&
    forall c | Rearranges(a, c) && Precedes(a, c) :: b == c || Precedes(b, c)
  }

  /** Before the successor come the arrangement itself and everything before it. */
  lemma BeforeSuccessor(a: seq<nat>, b: seq<nat>, c: seq<nat>)
    requires Successor(a, b) && Rearranges(a, c)
    ensures Precedes(c, b) <==> c == a || Precedes(c, a)
  {
    PrecedesIsTotal(c, b);
    PrecedesIsTotal(c, a);
    if Precedes(c, a) { PrecedesTransitive(c, a, b); }
  }

  function Power(base: nat, exponent: nat): (r: nat)
    ensures base > 0 ==> r > 0
  {
    if exponent == 0 then 1 else base * Power(base, exponent - 1)
  }

  /** An arrangement read as a number with digits below `base`. */
  function Reading(s: seq<nat>, base: nat): nat {
    if |s| == 0 then 0 else s[0] * Power(base, |s| - 1) + Reading(s[1..], base)
  }

  ghost predicate Digits(s: seq<nat>, base: nat) { forall i | 0 <= i < |s| :: s[i] < base }

  lemma LeadingDigitDecides(x: nat, y: nat, rest: nat, power: nat)
    requires x < y && rest < power
    ensures x * power + rest < y * power
  {
    var gap: nat := y - x - 1;
    calc {
      y * power;
      (x + 1 + gap) * power;
      x * power + power + gap * power;
    }
  }

  lemma {:induction false} ReadingBound(s: seq<nat>, base: nat)
    requires Digits(s, base)
    ensures Reading(s, base) < Power(base, |s|)
  {
    if |s| > 0 {
      ReadingBound(s[1..], base);
      LeadingDigitDecides(s[0], base, Reading(s[1..], base), Power(base, |s| - 1));
    }
  }

  /** A later arrangement reads as a larger number, so stepping must end. */
  lemma {:induction false} ReadsLess(a: seq<nat>, b: seq<nat>, d: nat, base: nat)
    requires d < |a| == |b| && PrecedesAt(a, b, d) && Digits(a, base) && Digits(b, base)
    ensures Reading(a, base) < Reading(b, base)
  {
    if d == 0 {
      ReadingBound(a[1..], base);
      LeadingDigitDecides(a[0], b[0], Reading(a[1..], base), Power(base, |a| - 1));
    } else {
      ReadsLess(a[1..], b[1..], d - 1, base);
    }
  }

  lemma PrecedesReadsLess(a: seq<nat>, b: seq<nat>, base: nat)
    requires Precedes(a, b) && Digits(a, base) && Digits(b, base)
    ensures Reading(a, base) < Reading(b, base)
  {
    var d: nat :| d < |a| && PrecedesAt(a, b, d);
    ReadsLess(a, b, d, base);
  }

  /** What one step makes of an arrangement: the pivot takes the least larger value
      behind it and the rest becomes rising. */
  ghost predicate Steps(a: seq<nat>, b: seq<nat>, pivot: nat) {
    && pivot + 1 < |a| && Rearranges(a, b)
    && FallingFrom(a, pivot + 1)
    && AgreeBelow(a, b, pivot) && a[pivot] < b[pivot]
    && (forall k | pivot < k < |a| && a[k] > a[pivot] :: a[k] >= b[pivot])
    && RisingFrom(b, pivot + 1)
  }

  lemma StepIsSuccessor(a: seq<nat>, b: seq<nat>, pivot: nat)
    requires Steps(a, b, pivot)
    ensures Successor(a, b)
  {
    assert PrecedesAt(a, b, pivot);
    forall c | Rearranges(a, c) && Precedes(a, c) ensures b == c || Precedes(b, c) {
      var d: nat :| d < |a| && PrecedesAt(a, c, d);
      if d > pivot { FallingTailGoesDown(a, c, pivot + 1, d); }
      var k := TailHas(a, c, d);
      if d < pivot || b[pivot] < c[pivot] {
        assert PrecedesAt(b, c, d);
      } else {
        RisingTailIsFirst(b, c, pivot + 1);
      }
    }
  }

  lemma {:induction false} ReversedRearranges(s: seq<nat>)
    ensures Rearranges(s, Reversed(s))
  {
    if |s| > 0 {
      assert s == [s[0]] + s[1..];
      ReversedRearranges(s[1..]);
    }
  }

  /** `b` is `s` with the slice from `low` on reversed. */
  ghost predicate Reverses(s: seq<nat>, b: seq<nat>, low: nat) {
    && low <= |s| == |b|
    && (forall k | 0 <= k < low :: b[k] == s[k])
    && forall k | low <= k < |s| :: b[k] == s[low + |s| - 1 - k]
  }

  lemma ReversesRearranges(s: seq<nat>, b: seq<nat>, low: nat)
    requires Reverses(s, b, low)
    ensures Rearranges(s, b)
  {
    ReversedRearranges(s[low..]);
    assert s == s[..low] + s[low..];
    assert b == s[..low] + Reversed(s[low..]);
  }

  method ReverseFrom(a: array<nat>, low: nat)
    requires low <= a.Length
    modifies a
    ensures Reverses(old(a[..]), a[..], low)
  {
    ghost var s := a[..];
    var i, j := low, a.Length;
    while i + 1 < j
      invariant low <= i && i + j == low + a.Length && i <= j + 1
      invariant forall k | 0 <= k < low :: a[k] == s[k]
      invariant forall k | low <= k < i :: a[k] == s[low + a.Length - 1 - k]
      invariant forall k | i <= k < j :: a[k] == s[k]
      invariant forall k | j <= k < a.Length && low <= k :: a[k] == s[low + a.Length - 1 - k]
      decreases j - i
    {
      j := j - 1;
      var x := a[i];
      a[i] := a[j];
      a[j] := x;
      i := i + 1;
    }
  }

  function Exchanged(s: seq<nat>, i: nat, j: nat): (r: seq<nat>)
    requires i < j < |s|
    ensures |r| == |s| && r[i] == s[j] && r[j] == s[i]
    ensures forall k | 0 <= k < |s| && k != i && k != j :: r[k] == s[k]
  {
    s[i := s[j]][j := s[i]]
  }

  /** Exchanging two positions rearranges. */
  lemma ExchangedRearranges(a: seq<nat>, i: nat, j: nat)
    requires i < j < |a|
    ensures Rearranges(a, Exchanged(a, i, j))
  {
    assert a == a[..i] + [a[i]] + a[i + 1..j] + [a[j]] + a[j + 1..];
    assert Exchanged(a, i, j) == a[..i] + [a[j]] + a[i + 1..j] + [a[i]] + a[j + 1..];
  }

  /** The last position whose value is below the next one. */
  ghost predicate PivotAt(s: seq<nat>, pivot: nat) {
    pivot + 1 < |s| && s[pivot] < s[pivot + 1] && FallingFrom(s, pivot + 1)
  }

  /** The last position whose value exceeds the pivot's. */
  ghost predicate LastAbove(s: seq<nat>, pivot: nat, last: nat) {
    pivot < last < |s| && s[pivot] < s[last] && forall k | last < k < |s| :: s[k] <= s[pivot]
  }

  /** Exchanging the pivot with the last larger value keeps the tail falling. */
  lemma ExchangeKeepsTail(a: seq<nat>, pivot: nat, last: nat)
    requires PivotAt(a, pivot) && LastAbove(a, pivot, last)
    ensures FallingFrom(Exchanged(a, pivot, last), pivot + 1)
  {
  }

  /** Reversing a falling tail makes it rise. */
  lemma ReversedTailRises(s: seq<nat>, b: seq<nat>, low: nat)
    requires FallingFrom(s, low) && Reverses(s, b, low)
    ensures RisingFrom(b, low)
  {
  }

  lemma ExchangeIsSuccessor(a: seq<nat>, b: seq<nat>, pivot: nat, last: nat)
    requires PivotAt(a, pivot) && LastAbove(a, pivot, last)
    requires Reverses(Exchanged(a, pivot, last), b, pivot + 1)
    ensures Successor(a, b)
  {
    ExchangedRearranges(a, pivot, last);
    ReversesRearranges(Exchanged(a, pivot, last), b, pivot + 1);
    ExchangeKeepsTail(a, pivot, last);
    ReversedTailRises(Exchanged(a, pivot, last), b, pivot + 1);
    StepIsSuccessor(a, b, pivot);
  }

  /** Exchange the pivot with a later position and reverse what follows the pivot. */
  method ExchangeAndReverse(a: array<nat>, pivot: nat, last: nat)
    requires pivot < last < a.Length
    modifies a
    ensures Reverses(Exchanged(old(a[..]), pivot, last), a[..], pivot + 1)
  {
    ghost var s := a[..];
    a[pivot], a[last] := a[last], a[pivot];
    assert a[..] == Exchanged(s, pivot, last);
    ReverseFrom(a, pivot + 1);
  }

  /** No arrangement of the same values comes after `a`. */
  ghost predicate IsLast(a: seq<nat>) {
    forall c | Rearranges(a, c) :: !Precedes(a, c)
  }

  /** The pivot, searched from the back. */
  method FindPivot(a: array<nat>) returns (pivot: Option<nat>)
    ensures pivot.None? ==> IsLast(a[..])
    ensures pivot.Some? ==> PivotAt(a[..], pivot.value)
  {
    var head := if a.Length == 0 then 0 else a.Length - 1;
    while head > 0 && a[head - 1] >= a[head]
      invariant 0 <= head <= a.Length && (a.Length > 0 ==> head < a.Length)
      invariant FallingFrom(a[..], head)
    {
      head := head - 1;
    }
    if head == 0 {
      forall c | Rearranges(a[..], c) ensures !Precedes(a[..], c) { FallingIsLast(a[..], c); }
      return None;
    }
    pivot := Some(head - 1);
  }

  method FindSuccessor(a: array<nat>, pivot: nat) returns (last: nat)
    requires PivotAt(a[..], pivot)
    ensures LastAbove(a[..], pivot, last)
  {
    last := a.Length - 1;
    while a[pivot] >= a[last]
      invariant pivot < last < a.Length && forall k | last < k < a.Length :: a[k] <= a[pivot]
      decreases last
    {
      last := last - 1;
    }
  }

  /** Advance to the next arrangement; at the last one nothing changes. */
  method NextPermutation(a: array<nat>) returns (more: bool)
    modifies a
    ensures more ==> Successor(old(a[..]), a[..])
    ensures !more ==> a[..] == old(a[..]) && IsLast(a[..])
  {
    ghost var before := a[..];
    var pivot := FindPivot(a);
    if pivot.None? {
      return false;
    }
    var last := FindSuccessor(a, pivot.value);
    ExchangeAndReverse(a, pivot.value, last);
    ExchangeIsSuccessor(before, a[..], pivot.value, last);
    more := true;
  }
}
