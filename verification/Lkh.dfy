/** The open-path encoding for an external ATSP solver: a dummy node joins the
    fixed end back to the fixed start, and one weight too large to be worth
    using marks every arc that must not appear. */
module Lkh {
  import opened Domain
  import opened Sequences

  const I32_MAX := 0x7FFF_FFFF

  datatype OpenPath = OpenPath(dimension: nat, start: nat, end: nat, dummy: nat, weights: seq<seq<nat>>)

  function Weight(input: Input, forbidden: nat, from: nat, to: nat): nat {
    if from == input.problem.End() && to == input.Count() then 1
    else if from == input.Count() && to == 0 then 1
    else if HasArc(input, from, to) then input.matrix.Travel(from, to).value + 1
    else forbidden
  }

  /** The largest arc of the matrix, and at least one. */
  ghost predicate IsMaxArc(input: Input, most: nat) {
    && most >= 1
    && (forall i: nat, j: nat | input.matrix.Travel(i, j).Some? :: input.matrix.Travel(i, j).value <= most)
    && (most == 1 || exists i: nat, j: nat :: input.matrix.Travel(i, j) == Some(most))
  }

  method MaxArc(input: Input) returns (most: nat)
    requires input.Valid() && input.Matched()
    ensures IsMaxArc(input, most) && most < U32_LIMIT
  {
    var n := input.Count();
    most := 1;
    for i := 0 to n
      invariant 1 <= most < U32_LIMIT
      invariant most == 1 || exists a: nat, b: nat :: input.matrix.Travel(a, b) == Some(most)
      invariant forall a: nat, b: nat | a < i && input.matrix.Travel(a, b).Some? :: input.matrix.Travel(a, b).value <= most
    {
      for j := 0 to n
        invariant 1 <= most < U32_LIMIT
        invariant most == 1 || exists a: nat, b: nat :: input.matrix.Travel(a, b) == Some(most)
        invariant forall a: nat, b: nat | (a < i || (a == i && b < j)) && input.matrix.Travel(a, b).Some? ::
          input.matrix.Travel(a, b).value <= most
      {
        var travel := input.matrix.Travel(i, j);
        if travel.Some? && travel.value > most {
          most := travel.value;
          assert input.matrix.Travel(i, j) == Some(most);
        }
      }
    }
  }

  ghost predicate Encodes(input: Input, t: OpenPath, forbidden: nat) {
    && 1 <= input.Count()
    && t.dimension == input.Count() + 1 && t.start == 0 && t.end == input.problem.End() && t.dummy == input.Count()
    && |t.weights| == t.dimension
    && (forall i | 0 <= i < t.dimension :: |t.weights[i]| == t.dimension)
    && (forall i, j | 0 <= i < t.dimension && 0 <= j < t.dimension :: t.weights[i][j] == Weight(input, forbidden, i, j))
    && IsForbidden(input, forbidden)
  }

  /** More than any open path can weigh: one above the largest arc, times one above
      the dimension. */
  ghost predicate IsForbidden(input: Input, forbidden: nat) {
    exists most: nat :: IsMaxArc(input, most) && forbidden == (most + 1) * (input.Count() + 2)
  }

  /** Build the weight table. It refuses instances whose forbidden weight leaves
      32-bit precision. */
  method NewOpenPath(input: Input) returns (r: Result<OpenPath, SolverError>)
    requires input.Valid() && input.Matched()
    ensures r.Ok? ==> exists forbidden: nat :: forbidden <= I32_MAX && Encodes(input, r.value, forbidden)
    ensures r.Err? ==> r.error == Unsupported
    ensures r.Err? ==> exists forbidden: nat :: IsForbidden(input, forbidden) && forbidden > I32_MAX
  {
    var n := input.Count();
    var dimension, end, dummy := n + 1, input.problem.End(), n;
    var most := MaxArc(input);
    var limit: nat := (most + 1) * (dimension + 1);
    assert IsForbidden(input, limit);
    if limit > I32_MAX {
      return Err(Unsupported);
    }
    var table := ArcTable(input, limit);
    ClosingEncodes(input, limit, table);
    var weights := table[end := table[end][dummy := 1]];
    weights := weights[dummy := weights[dummy][0 := 1]];
    r := Ok(OpenPath(dimension, 0, end, dummy, weights));
  }

  /** The table of all arcs between locations, everything else forbidden. */
  method ArcTable(input: Input, forbidden: nat) returns (table: seq<seq<nat>>)
    requires input.Valid() && input.Matched()
    ensures TableEncodes(input, forbidden, table)
  {
    var n := input.Count();
    table := [];
    for from := 0 to n
      invariant |table| == from && forall i | 0 <= i < from :: RowEncodes(input, forbidden, table[i], i)
    {
      var row := WeightRow(input, forbidden, from);
      table := table + [row];
    }
    var last := seq(n + 1, _ => forbidden);
    assert RowEncodes(input, forbidden, last, n);
    table := table + [last];
  }

  ghost predicate TableEncodes(input: Input, forbidden: nat, table: seq<seq<nat>>) {
    |table| == input.Count() + 1 && forall i | 0 <= i < |table| :: RowEncodes(input, forbidden, table[i], i)
  }

  /** Setting the dummy's two arcs completes the encoding. */
  lemma ClosingEncodes(input: Input, forbidden: nat, table: seq<seq<nat>>)
    requires 1 <= input.Count() && IsForbidden(input, forbidden) && TableEncodes(input, forbidden, table)
    ensures var n, end := input.Count(), input.problem.End();
      var first := table[end := table[end][n := 1]];
      Encodes(input, OpenPath(n + 1, 0, end, n, first[n := first[n][0 := 1]]), forbidden)
  {
    var n, end := input.Count(), input.problem.End();
    var first := table[end := table[end][n := 1]];
    var weights := first[n := first[n][0 := 1]];
    forall i | 0 <= i <= n ensures |weights[i]| == n + 1 && forall j | 0 <= j <= n :: weights[i][j] == Weight(input, forbidden, i, j) {
      assert RowEncodes(input, forbidden, table[i], i);
    }
  }

  /** A row of the table before the dummy's two arcs are set. */
  ghost predicate RowEncodes(input: Input, forbidden: nat, row: seq<nat>, from: nat) {
    |row| == input.Count() + 1 && forall to | 0 <= to < |row| ::
      row[to] == if HasArc(input, from, to) then input.matrix.Travel(from, to).value + 1 else forbidden
  }

  /** The weights of the arcs out of one location. */
  method WeightRow(input: Input, forbidden: nat, from: nat) returns (row: seq<nat>)
    requires input.Valid() && input.Matched() && from < input.Count()
    ensures RowEncodes(input, forbidden, row, from)
  {
    var n := input.Count();
    row := seq(n + 1, _ => forbidden);
    for to := 0 to n
      invariant |row| == n + 1
      invariant forall j | 0 <= j <= n ::
        row[j] == if j < to && HasArc(input, from, j) then input.matrix.Travel(from, j).value + 1 else forbidden
    {
      var travel := input.matrix.Travel(from, to);
      if from != to && to != 0 && from != input.problem.End() && travel.Some? {
        var weight: nat := travel.value;
        row := row[to := weight + 1];
      }
    }
  }

  /** A closed tour: every node once. */
  ghost predicate Tour(c: seq<nat>, dimension: nat) {
    |c| == dimension && Distinct(c) && forall i | 0 <= i < |c| :: c[i] < dimension
  }

  /** The arc out of position `i` is reachable. */
  predicate Hop(input: Input, q: seq<nat>, i: nat)
    requires i + 1 < |q|
  {
    input.matrix.Travel(q[i], q[i + 1]).Some?
  }

  ghost predicate Linked(input: Input, q: seq<nat>) {
    forall i: nat | i + 1 < |q| :: Hop(input, q, i)
  }

  /** An open path over all locations, between the fixed endpoints, along reachable arcs. */
  ghost predicate Path(input: Input, p: seq<nat>) {
    && |p| == input.Count() && Distinct(p)
    && (forall i | 0 <= i < |p| :: p[i] < input.Count())
    && |p| > 0 && p[0] == 0 && p[|p| - 1] == input.problem.End()
    && Linked(input, p)
  }

  function ArcSum(input: Input, forbidden: nat, q: seq<nat>): nat {
    if |q| < 2 then 0
    else ArcSum(input, forbidden, q[..|q| - 1]) + Weight(input, forbidden, q[|q| - 2], q[|q| - 1])
  }

  function CycleWeight(input: Input, forbidden: nat, c: seq<nat>): nat {
    if |c| == 0 then 0
    else ArcSum(input, forbidden, c) + Weight(input, forbidden, c[|c| - 1], c[0])
  }

  lemma LinkedInit(input: Input, p: seq<nat>)
    requires Linked(input, p) && |p| > 0
    ensures Linked(input, p[..|p| - 1])
  {
    var front := p[..|p| - 1];
    forall i: nat | i + 1 < |front| ensures Hop(input, front, i) { assert Hop(input, p, i); }
  }

  function TravelSum(input: Input, p: seq<nat>): nat
    requires Linked(input, p)
  {
    if |p| < 2 then 0
    else
      LinkedInit(input, p);
      assert Hop(input, p, |p| - 2);
      TravelSum(input, p[..|p| - 1]) + input.matrix.Travel(p[|p| - 2], p[|p| - 1]).value
  }

  function Rotate(c: seq<nat>, k: nat): seq<nat>
    requires k < |c|
  {
    c[k..] + c[..k]
  }

  lemma {:induction false} ArcSumConcat(input: Input, forbidden: nat, a: seq<nat>, b: seq<nat>)
    requires |a| > 0 && |b| > 0
    ensures ArcSum(input, forbidden, a + b) ==
      ArcSum(input, forbidden, a) + Weight(input, forbidden, a[|a| - 1], b[0]) + ArcSum(input, forbidden, b)
  {
    var whole := a + b;
    if |b| == 1 {
      assert whole[..|whole| - 1] == a;
    } else {
      assert whole[..|whole| - 1] == a + b[..|b| - 1];
      ArcSumConcat(input, forbidden, a, b[..|b| - 1]);
    }
  }

  /** Where a cycle is cut does not change its weight. */
  lemma RotateKeepsWeight(input: Input, forbidden: nat, c: seq<nat>, k: nat)
    requires k < |c|
    ensures CycleWeight(input, forbidden, Rotate(c, k)) == CycleWeight(input, forbidden, c)
  {
    if k == 0 {
      assert Rotate(c, k) == c;
    } else {
      assert c == c[..k] + c[k..];
      ArcSumConcat(input, forbidden, c[..k], c[k..]);
      ArcSumConcat(input, forbidden, c[k..], c[..k]);
    }
  }

  lemma RotateKeepsTour(c: seq<nat>, k: nat, dimension: nat)
    requires Tour(c, dimension) && k < |c|
    ensures Tour(Rotate(c, k), dimension)
  {
  }

  /** Every single arc weighs no more than the arcs together. */
  lemma {:induction false} ArcBelowSum(input: Input, forbidden: nat, q: seq<nat>, i: nat)
    requires i + 1 < |q|
    ensures Weight(input, forbidden, q[i], q[i + 1]) <= ArcSum(input, forbidden, q)
  {
    if i + 2 < |q| {
      ArcBelowSum(input, forbidden, q[..|q| - 1], i);
    }
  }

  lemma ArcFromPath(input: Input, p: seq<nat>, i: nat)
    requires Path(input, p) && i + 1 < |p|
    ensures HasArc(input, p[i], p[i + 1])
  {
    assert Hop(input, p, i);
  }

  lemma PathIsLinked(input: Input, p: seq<nat>, k: nat)
    requires 1 <= input.Count() && Path(input, p) && 1 <= k <= |p|
    ensures Linked(input, p[..k])
  {
    forall i: nat | i + 1 < k ensures Hop(input, p[..k], i) { assert Hop(input, p, i); }
  }

  /** The last hop adds its minutes to the travel and one more to the arc weights. */
  lemma LastHop(input: Input, forbidden: nat, q: seq<nat>, most: nat) returns (minutes: nat)
    requires 1 <= input.Count() && |q| >= 2 && Linked(input, q)
    requires HasArc(input, q[|q| - 2], q[|q| - 1]) && IsMaxArc(input, most)
    ensures minutes <= most && Linked(input, q[..|q| - 1])
    ensures TravelSum(input, q) == TravelSum(input, q[..|q| - 1]) + minutes
    ensures ArcSum(input, forbidden, q) == ArcSum(input, forbidden, q[..|q| - 1]) + minutes + 1
  {
    LinkedInit(input, q);
    minutes := input.matrix.Travel(q[|q| - 2], q[|q| - 1]).value;
  }

  lemma {:induction false} ArcSumOfPath(input: Input, forbidden: nat, p: seq<nat>, k: nat, most: nat)
    requires 1 <= input.Count() && Path(input, p) && IsMaxArc(input, most) && 1 <= k <= |p|
    requires Linked(input, p[..k])
    ensures ArcSum(input, forbidden, p[..k]) == TravelSum(input, p[..k]) + k - 1
    ensures TravelSum(input, p[..k]) <= most * (k - 1)
  {
    if k > 1 {
      ArcFromPath(input, p, k - 2);
      var minutes := LastHop(input, forbidden, p[..k], most);
      assert p[..k][..k - 1] == p[..k - 1];
      ArcSumOfPath(input, forbidden, p, k - 1, most);
      OneMoreHop(most, k);
    }
  }

  lemma OneMoreHop(most: nat, k: nat)
    requires k >= 2
    ensures most * (k - 1) == most * (k - 2) + most
  {
  }

  /** Every open path arises: closed through the dummy it is a tour that weighs
      its travel plus the dimension, below the forbidden weight. */
  lemma PathEncodes(input: Input, t: OpenPath, forbidden: nat, p: seq<nat>)
    requires Encodes(input, t, forbidden) && Path(input, p)
    ensures Tour(p + [t.dummy], t.dimension)
    ensures CycleWeight(input, forbidden, p + [t.dummy]) == TravelSum(input, p) + t.dimension < forbidden
  {
    var most: nat :| IsMaxArc(input, most) && forbidden == (most + 1) * (input.Count() + 2);
    assert p[..|p|] == p;
    PathIsLinked(input, p, |p|);
    ArcSumOfPath(input, forbidden, p, |p|, most);
    assert (p + [t.dummy])[..|p|] == p;
    ForbiddenIsLarge(most, t.dimension, TravelSum(input, p));
  }

  lemma ForbiddenIsLarge(most: nat, dimension: nat, travel: nat)
    requires 2 <= dimension && travel <= most * (dimension - 2)
    ensures travel + dimension < (most + 1) * (dimension + 1)
  {
    assert (most + 1) * (dimension + 1) == most * (dimension - 2) + 3 * most + dimension + 1;
  }

  /** The last node is the dummy and the one before it the fixed end. */
  predicate Closes(t: OpenPath, rotated: seq<nat>) {
    |rotated| >= 2 && rotated[|rotated| - 1] == t.dummy && rotated[|rotated| - 2] == t.end
  }

  /** The first occurrence of the start node. */
  ghost predicate FirstAt(t: OpenPath, cycle: seq<nat>, k: nat) {
    k < |cycle| && cycle[k] == t.start && forall j | 0 <= j < k :: cycle[j] != t.start
  }

  /** What decoding a cycle must deliver: the cycle cut before the fixed start,
      without the dummy, when the cut closes from the end through the dummy. */
  ghost predicate Decoded(t: OpenPath, cycle: seq<nat>, r: Result<seq<nat>, SolverError>) {
    match r
    case Ok(path) => exists k: nat :: FirstAt(t, cycle, k) && Closes(t, Rotate(cycle, k)) && path + [t.dummy] == Rotate(cycle, k)
    case Err(error) => error.Failed? && forall k: nat | FirstAt(t, cycle, k) :: !Closes(t, Rotate(cycle, k))
  }

  /** Rotate to the fixed start, check the closing arcs and drop the dummy. */
  method Decode(t: OpenPath, cycle: seq<nat>) returns (r: Result<seq<nat>, SolverError>)
    ensures Decoded(t, cycle, r)
  {
    var k := 0;
    while k < |cycle| && cycle[k] != t.start
      invariant 0 <= k <= |cycle| && forall j | 0 <= j < k :: cycle[j] != t.start
    {
      k := k + 1;
    }
    if k == |cycle| {
      return Err(Failed("tour omitted the fixed start node"));
    }
    assert FirstAt(t, cycle, k);
    var rotated := Rotate(cycle, k);
    if !Closes(t, rotated) {
      return Err(Failed("tour violated the fixed open-path end transformation"));
    }
    var path := rotated[..|rotated| - 1];
    assert path + [t.dummy] == rotated;
    r := Ok(path);
  }

  /** In a tour the start occurs once, so all rotations of one tour decode alike. */
  lemma RotationsDecodeAlike(t: OpenPath, cycle: seq<nat>, k: nat,
                             r: Result<seq<nat>, SolverError>, r': Result<seq<nat>, SolverError>)
    requires Tour(cycle, t.dimension) && k < |cycle|
    requires Decoded(t, cycle, r) && Decoded(t, Rotate(cycle, k), r')
    ensures r.Ok? <==> r'.Ok?
    ensures r.Ok? ==> r == r'
  {
    var turned := Rotate(cycle, k);
    RotateKeepsTour(cycle, k, t.dimension);
    if a: nat :| FirstAt(t, cycle, a) {
      var b := if a >= k then a - k else a + |cycle| - k;
      assert turned[b] == t.start && FirstAt(t, turned, b);
      SameStartSameRotation(cycle, k, a, b);
      DecodedAt(t, cycle, r, a);
      DecodedAt(t, turned, r', b);
    } else {
      StartTurns(t, cycle, k);
    }
  }

  /** A rotation has no start node when the cycle has none. */
  lemma StartTurns(t: OpenPath, cycle: seq<nat>, k: nat)
    requires Distinct(cycle) && k < |cycle| && forall a: nat :: !FirstAt(t, cycle, a)
    ensures forall b: nat :: !FirstAt(t, Rotate(cycle, k), b)
  {
    forall b: nat ensures !FirstAt(t, Rotate(cycle, k), b) {
      if b < |cycle| {
        var a := if b + k < |cycle| then b + k else b + k - |cycle|;
        assert Rotate(cycle, k)[b] == cycle[a];
        assert cycle[a] == t.start ==> FirstAt(t, cycle, a);
      }
    }
  }

  /** Decoding cuts before the one start node. */
  lemma DecodedAt(t: OpenPath, cycle: seq<nat>, r: Result<seq<nat>, SolverError>, k: nat)
    requires Decoded(t, cycle, r) && FirstAt(t, cycle, k)
    ensures r.Ok? <==> Closes(t, Rotate(cycle, k))
    ensures r.Ok? ==> r.value == Rotate(cycle, k)[..|cycle| - 1]
    ensures r.Err? ==> r.error.Failed?
  {
    if r.Ok? {
      var a: nat :| FirstAt(t, cycle, a) && Closes(t, Rotate(cycle, a)) && r.value + [t.dummy] == Rotate(cycle, a);
      assert a == k;
      assert r.value == (r.value + [t.dummy])[..|r.value|];
    }
  }

  lemma SameStartSameRotation(cycle: seq<nat>, k: nat, a: nat, b: nat)
    requires Distinct(cycle) && k < |cycle| && a < |cycle| && b < |cycle|
    requires cycle[a] == Rotate(cycle, k)[b]
    ensures Rotate(cycle, a) == Rotate(Rotate(cycle, k), b)
  {
    assert a == if b + k < |cycle| then b + k else b + k - |cycle|;
    var x, y := Rotate(cycle, a), Rotate(Rotate(cycle, k), b);
    assert |x| == |y|;
    forall i | 0 <= i < |x| ensures x[i] == y[i] {
      assert x[i] == cycle[if i + a < |cycle| then i + a else i + a - |cycle|];
    }
  }

  /** A tour below the forbidden weight, cut before the start, can only close from
      the end through the dummy, and all its other arcs are reachable. */
  lemma LightRotation(input: Input, t: OpenPath, forbidden: nat, c: seq<nat>)
    requires Encodes(input, t, forbidden)
    requires Tour(c, t.dimension) && c[0] == t.start && CycleWeight(input, forbidden, c) < forbidden
    ensures Closes(t, c) && Path(input, c[..|c| - 1])
    ensures CycleWeight(input, forbidden, c) == TravelSum(input, c[..|c| - 1]) + t.dimension
  {
    var d := |c|;
    assert Weight(input, forbidden, c[d - 1], c[0]) < forbidden;
    assert c[d - 1] == t.dummy;
    ArcBelowSum(input, forbidden, c, d - 2);
    assert c[d - 2] == t.end;
    var p := c[..d - 1];
    forall i: nat | i + 1 < |p| ensures Hop(input, p, i) {
      ArcBelowSum(input, forbidden, c, i);
      assert c[i] != t.dummy && c[i + 1] != t.dummy && p[i] == c[i] && p[i + 1] == c[i + 1];
    }
    PathEncodes(input, t, forbidden, p);
    assert p + [t.dummy] == c;
  }

  /** A tour below the forbidden weight decodes to an open path over reachable arcs
      that visits every location once; the tour weighs its travel plus the dimension. */
  lemma LightTourDecodes(input: Input, t: OpenPath, forbidden: nat, c: seq<nat>, r: Result<seq<nat>, SolverError>)
    requires Encodes(input, t, forbidden)
    requires Tour(c, t.dimension) && CycleWeight(input, forbidden, c) < forbidden
    requires Decoded(t, c, r)
    ensures r.Ok? && Path(input, r.value)
    ensures CycleWeight(input, forbidden, c) == TravelSum(input, r.value) + t.dimension
  {
    var k := StartPosition(t, c);
    LightCut(input, t, forbidden, c, k);
    DecodedAt(t, c, r, k);
  }

  lemma LightCut(input: Input, t: OpenPath, forbidden: nat, c: seq<nat>, k: nat)
    requires Encodes(input, t, forbidden)
    requires Tour(c, t.dimension) && CycleWeight(input, forbidden, c) < forbidden
    requires FirstAt(t, c, k)
    ensures Closes(t, Rotate(c, k)) && Path(input, Rotate(c, k)[..|c| - 1])
    ensures CycleWeight(input, forbidden, c) == TravelSum(input, Rotate(c, k)[..|c| - 1]) + t.dimension
  {
    RotateKeepsTour(c, k, t.dimension);
    RotateKeepsWeight(input, forbidden, c, k);
    LightRotation(input, t, forbidden, Rotate(c, k));
  }

  lemma StartPosition(t: OpenPath, c: seq<nat>) returns (k: nat)
    requires Tour(c, t.dimension) && t.start < t.dimension
    ensures FirstAt(t, c, k)
  {
    DistinctInRange(c, t.dimension);
    assert t.start in c;
    k :| k < |c| && c[k] == t.start;
  }

  /** Some tour stays below the forbidden weight exactly when an open path exists. */
  lemma LightTourIffPath(input: Input, t: OpenPath, forbidden: nat)
    requires Encodes(input, t, forbidden)
    ensures (exists c :: Tour(c, t.dimension) && CycleWeight(input, forbidden, c) < forbidden) <==>
            (exists p :: Path(input, p))
  {
    if p :| Path(input, p) {
      PathEncodes(input, t, forbidden, p);
      assert Tour(p + [t.dummy], t.dimension);
    }
    if c :| Tour(c, t.dimension) && CycleWeight(input, forbidden, c) < forbidden {
      var k := StartPosition(t, c);
      LightCut(input, t, forbidden, c, k);
      assert Path(input, Rotate(c, k)[..|c| - 1]);
    }
  }

  /** A minimum tour decodes to a minimum-travel open path whenever one exists. */
  lemma MinimumTourIsMinimumPath(input: Input, t: OpenPath, forbidden: nat, c: seq<nat>, r: Result<seq<nat>, SolverError>)
    requires Encodes(input, t, forbidden) && Tour(c, t.dimension)
    requires forall c' | Tour(c', t.dimension) :: CycleWeight(input, forbidden, c) <= CycleWeight(input, forbidden, c')
    requires exists p :: Path(input, p)
    requires Decoded(t, c, r)
    ensures r.Ok? && Path(input, r.value)
    ensures forall p | Path(input, p) :: TravelSum(input, r.value) <= TravelSum(input, p)
  {
    forall p | Path(input, p)
      ensures CycleWeight(input, forbidden, c) <= TravelSum(input, p) + t.dimension < forbidden
    {
      PathEncodes(input, t, forbidden, p);
    }
    LightTourDecodes(input, t, forbidden, c, r);
  }
}
