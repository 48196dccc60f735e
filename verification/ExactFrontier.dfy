/** What the finished frontiers are: in every cell exactly the Pareto front of the
    walkable prefixes, and pruning a prefix loses no completion. */
module ExactFrontier {
  import opened Domain
  import opened Masks
  import opened Sequences
  import opened Simulation
  import opened Objective
  import opened Routes
  import opened ExactSearch
  import opened ExactRun

  /** A prefix the search must represent: walkable, and complete when it reaches the end. */
  ghost predicate Prefix(input: Input, start: nat, q: seq<nat>) {
    && PartialRoute(input, q) && Walk(input, start, q).Some?
    && (q[|q| - 1] == input.problem.End() ==> ValidOrder(input.problem, q))
  }

  /** State `id` of the finished table stands for the prefix `q`: it is filed in
      the cell of `q`, stands for a real prefix, and its point dominates. */
  ghost predicate Represents(input: Input, start: nat, t: Table, routes: seq<seq<nat>>, id: nat, q: seq<nat>)
    requires Prefix(input, start, q) && |t.frontiers| == Pow2(input.Count()) * input.Count()
    requires MaskOf(q) < Pow2(input.Count())
  {
    && id in Cell(input, t, MaskOf(q), q[|q| - 1])
    && id < |t.arena| == |routes|
    && Records(input, start, t.arena, routes, id)
    && MaskOf(routes[id]) == MaskOf(q) && routes[id][|routes[id]| - 1] == q[|q| - 1]
    && Dominates(t.arena[id].Point(), PointOf(Walk(input, start, q).value))
  }

  /** Two walkable routes over the same locations: the packed test means no later
      and no more travel. */
  lemma DominatesBetweenRoutes(input: Input, start: nat, p: seq<nat>, q: seq<nat>)
    requires PartialRoute(input, p) && PartialRoute(input, q) && MaskOf(p) == MaskOf(q)
    requires Walk(input, start, p).Some? && Walk(input, start, q).Some?
    ensures var a, b := Walk(input, start, p).value, Walk(input, start, q).value;
      Dominates(PointOf(a), PointOf(b)) <==> a.time <= b.time && a.travel <= b.travel
  {
    SameMaskSameSum(Stays(input.problem), p, q);
    Conservation(input, start, p);
    Conservation(input, start, q);
    DominatesIff(Walk(input, start, p).value, Walk(input, start, q).value, start + SumAlong(Stays(input.problem), q));
  }

  lemma FiledInCell(input: Input, start: nat, t: Table, routes: seq<seq<nat>>, mask: nat, last: nat, id: nat)
    requires WellFormed(input, start, t, routes)
    requires mask < Pow2(input.Count()) && last < input.Count() && id in Cell(input, t, mask, last)
    ensures id < |t.arena| && Records(input, start, t.arena, routes, id)
    ensures MaskOf(routes[id]) == mask && routes[id][|routes[id]| - 1] == last
    ensures Walk(input, start, routes[id]) == Some(t.arena[id].ToClock()) && t.arena[id].Point() == PointOf(t.arena[id].ToClock())
  {
    assert Filed(input, t, routes, mask, last, id);
    assert Records(input, start, t.arena, routes, id);
  }

  /** Every prefix the search must represent is dominated by a surviving state of
      its own cell, which stands for a real prefix with exactly its clock. */
  lemma EveryPrefixIsRepresented(input: Input, start: nat, t: Table, routes: seq<seq<nat>>, q: seq<nat>) returns (id: nat)
    requires Finished(input, start, t) && WellFormed(input, start, t, routes)
    requires Prefix(input, start, q)
    ensures MaskOf(q) < Pow2(input.Count())
    ensures Represents(input, start, t, routes, id, q)
  {
    EveryRouteIsCovered(input, start, t, q);
    var clock := Walk(input, start, q).value;
    id :| id in Cell(input, t, MaskOf(q), q[|q| - 1]) && id < |t.arena| &&
      t.arena[id].time <= clock.time && t.arena[id].travel <= clock.travel;
    FiledInCell(input, start, t, routes, MaskOf(q), q[|q| - 1], id);
    DominatesBetweenRoutes(input, start, routes[id], q);
  }

  /** And no prefix beats a survivor: one that dominates a survivor ties with it. */
  lemma SurvivorsAreMinimal(input: Input, start: nat, t: Table, routes: seq<seq<nat>>, q: seq<nat>, id: nat)
    requires Finished(input, start, t) && WellFormed(input, start, t, routes) && Pareto(input, TimeCost(), t)
    requires Prefix(input, start, q) && MaskOf(q) < Pow2(input.Count())
    requires id in Cell(input, t, MaskOf(q), q[|q| - 1]) && id < |t.arena|
    requires Dominates(PointOf(Walk(input, start, q).value), t.arena[id].Point())
    ensures Walk(input, start, q) == Some(t.arena[id].ToClock())
  {
    var mask, last := MaskOf(q), q[|q| - 1];
    var e := EveryPrefixIsRepresented(input, start, t, routes, q);
    FiledInCell(input, start, t, routes, mask, last, id);
    DominatesThrough(t.arena[e].Point(), PointOf(Walk(input, start, q).value), t.arena[id].Point());
    assert Undominated(TimeCost(), Cell(input, t, mask, last), t.arena);
    assert e == id;
    Conservation(input, start, q);
    Conservation(input, start, routes[id]);
    MutualDominance(t.arena[id].ToClock(), Walk(input, start, q).value);
  }

  lemma DominatesThrough(a: FrontierPoint, b: FrontierPoint, c: FrontierPoint)
    requires Dominates(a, b) && Dominates(b, c)
    ensures Dominates(a, c)
  {
  }

  lemma MutualDominance(a: Clock, b: Clock)
    requires a.wait < U32_LIMIT && b.wait < U32_LIMIT
    requires Dominates(PointOf(a), PointOf(b)) && Dominates(PointOf(b), PointOf(a))
    ensures a == b
  {
  }

  /** Whatever can follow a prefix can follow one that is no later and has
      travelled no more, and still is. */
  lemma {:induction false} CompletionCarriesOver(input: Input, start: nat, p: seq<nat>, q: seq<nat>, rest: seq<nat>)
    requires FromStart(input, p) && FromStart(input, q) && p[|p| - 1] == q[|q| - 1]
    requires FromStart(input, q + rest) && FromStart(input, p + rest)
    requires Walk(input, start, p).Some? && Walk(input, start, q + rest).Some?
    requires Walk(input, start, q).Some? && Walk(input, start, p).value.time <= Walk(input, start, q).value.time
    requires Walk(input, start, p).value.travel <= Walk(input, start, q).value.travel
    ensures Walk(input, start, p + rest).Some?
    ensures Walk(input, start, p + rest).value.time <= Walk(input, start, q + rest).value.time
    ensures Walk(input, start, p + rest).value.travel <= Walk(input, start, q + rest).value.travel
  {
    if |rest| == 0 {
      assert p + rest == p && q + rest == q;
    } else {
      var before, x := rest[..|rest| - 1], rest[|rest| - 1];
      assert q + rest == q + before + [x] && p + rest == p + before + [x];
      InitFromStart(input, q + before, x);
      InitFromStart(input, p + before, x);
      WalkSnoc(input, start, q + before, x);
      CompletionCarriesOver(input, start, p, q, before);
      WalkSnoc(input, start, p + before, x);
      SameLast(p, q, before);
      MoveMonotone(input, Walk(input, start, p + before).value, Walk(input, start, q + before).value,
                   (q + before)[|q + before| - 1], x);
    }
  }

  lemma InitFromStart(input: Input, q: seq<nat>, x: nat)
    requires |q| > 0 && FromStart(input, q + [x])
    ensures FromStart(input, q)
  {
    assert forall i | 0 <= i < |q| :: (q + [x])[i] == q[i];
  }

  lemma WalkSnoc(input: Input, start: nat, q: seq<nat>, x: nat)
    requires FromStart(input, q) && x < input.Count()
    ensures FromStart(input, q + [x])
    ensures Walk(input, start, q + [x]) ==
      match Walk(input, start, q) case None => None case Some(clock) => Move(input, clock, q[|q| - 1], x)
  {
    assert (q + [x])[..|q|] == q;
  }

  lemma SameLast(p: seq<nat>, q: seq<nat>, rest: seq<nat>)
    requires |p| > 0 && |q| > 0 && p[|p| - 1] == q[|q| - 1]
    ensures (p + rest)[|p + rest| - 1] == (q + rest)[|q + rest| - 1]
  {
  }

  lemma {:induction false} SameMaskThrough(p: seq<nat>, q: seq<nat>, rest: seq<nat>)
    requires MaskOf(p) == MaskOf(q)
    ensures MaskOf(p + rest) == MaskOf(q + rest)
  {
    if |rest| == 0 {
      assert p + rest == p && q + rest == q;
    } else {
      assert (p + rest)[..|p + rest| - 1] == p + rest[..|rest| - 1];
      assert (q + rest)[..|q + rest| - 1] == q + rest[..|rest| - 1];
      SameMaskThrough(p, q, rest[..|rest| - 1]);
    }
  }

  /** A prefix over the same locations can be completed in the same ways. */
  lemma CompletionStaysValid(problem: Problem, p: seq<nat>, q: seq<nat>, rest: seq<nat>)
    requires MaskOf(p) == MaskOf(q) && Distinct(p) && Distinct(q)
    requires |p| > 0 && |q| > 0 && p[0] == 0 && p[|p| - 1] == q[|q| - 1]
    requires ValidOrder(problem, q + rest)
    ensures ValidOrder(problem, p + rest)
  {
    forall x: nat ensures x in p <==> x in q {
      BitOfMaskOf(p, x);
      BitOfMaskOf(q, x);
    }
    assert Elements(p) == Elements(q);
    DistinctParts(q, rest);
    DistinctJoin(p, rest);
    SameLast(p, q, rest);
    assert forall x: nat :: x in p + rest <==> x in q + rest;
    assert forall i | 0 <= i < |p + rest| :: (p + rest)[i] in p + rest;
  }

  lemma DistinctParts(a: seq<nat>, b: seq<nat>)
    requires Distinct(a + b)
    ensures Distinct(a) && Distinct(b) && forall x | x in a :: x !in b
  {
    var all := a + b;
    assert forall i | 0 <= i < |a| :: all[i] == a[i];
    assert forall j | 0 <= j < |b| :: all[|a| + j] == b[j];
    forall x | x in a ensures x !in b {
      var i :| 0 <= i < |a| && a[i] == x;
      forall j | 0 <= j < |b| ensures b[j] != x { assert all[i] != all[|a| + j]; }
    }
  }

  lemma DistinctJoin(a: seq<nat>, b: seq<nat>)
    requires Distinct(a) && Distinct(b) && forall x | x in a :: x !in b
    ensures Distinct(a + b)
  {
    forall i, j | 0 <= i < j < |a + b| ensures (a + b)[i] != (a + b)[j] {
      if i < |a| <= j { assert a[i] in a && b[j - |a|] in b; }
    }
  }

  /** Any completion of a pruned prefix completes no worse from its representative. */
  lemma PruningLosesNothing(input: Input, start: nat, t: Table, routes: seq<seq<nat>>, id: nat, q: seq<nat>, rest: seq<nat>)
    requires input.Valid() && |t.frontiers| == Pow2(input.Count()) * input.Count()
    requires Prefix(input, start, q) && MaskOf(q) < Pow2(input.Count()) && Represents(input, start, t, routes, id, q)
    requires WalksFrom(input, start, q + rest)
    ensures WalksFrom(input, start, routes[id] + rest)
    ensures NoWorse(Evaluate(input, start, routes[id] + rest).value, Evaluate(input, start, q + rest).value)
  {
    var p := routes[id];
    CompletionStaysValid(input.problem, p, q, rest);
    DominatesBetweenRoutes(input, start, p, q);
    CompletionCarriesOver(input, start, p, q, rest);
    SameMaskThrough(p, q, rest);
    CoveringIsNoWorse(input, start, p + rest, q + rest);
  }
}
