/** Choosing among the candidates of a portfolio: the best one kept online by
    strict improvement, and the first one of a stable ranking. */
module Selection {
  import opened Domain
  import opened Objective

  datatype Candidate = Candidate(strategy: string, route: Option<seq<nat>>, feasible: bool, score: Option<Metrics>)

  /** Feasible, with a route and a score: what the tracker considers. */
  predicate Eligible(c: Candidate) { c.feasible && c.route.Some? && c.score.Some? }

  ghost predicate Comparable(cs: seq<Candidate>, policy: StartPolicy) {
    forall c | c in cs && c.score.Some? :: c.score.value.startPolicy == policy
  }

  ghost predicate Complete(cs: seq<Candidate>) {
    forall c | c in cs && c.feasible :: Eligible(c)
  }

  predicate Better(a: Candidate, b: Candidate)
    requires Eligible(a) && Eligible(b)
  {
    Compare(a.score.value, b.score.value).Less?
  }

  /** Candidate `k` is better than every eligible one before it. */
  ghost predicate Improves(cs: seq<Candidate>, k: nat)
    requires k < |cs|
  {
    Eligible(cs[k]) && forall j | 0 <= j < k && Eligible(cs[j]) :: Better(cs[k], cs[j])
  }

  /** The first of the best: none is better, and those before it are worse. */
  ghost predicate FirstBest(cs: seq<Candidate>, k: nat) {
    k < |cs| && Improves(cs, k) && forall j | 0 <= j < |cs| && Eligible(cs[j]) :: !Better(cs[j], cs[k])
  }

  ghost predicate NoneEligible(cs: seq<Candidate>) { forall c | c in cs :: !Eligible(c) }

  /** How many candidates improved on everything before them. */
  ghost function RunningMinima(cs: seq<Candidate>): nat {
    if |cs| == 0 then 0
    else RunningMinima(cs[..|cs| - 1]) + (if Improves(cs, |cs| - 1) then 1 else 0)
  }

  lemma FirstBestIsUnique(cs: seq<Candidate>, j: nat, k: nat)
    requires FirstBest(cs, j) && FirstBest(cs, k)
    ensures j == k
  {
  }

  /** Appending a candidate moves the best to it exactly when it improves on the best. */
  lemma AppendBest(cs: seq<Candidate>, k: nat, c: Candidate, policy: StartPolicy)
    requires FirstBest(cs, k) && Comparable(cs + [c], policy)
    ensures Eligible(c) && Better(c, cs[k]) ==> FirstBest(cs + [c], |cs|)
    ensures !(Eligible(c) && Better(c, cs[k])) ==> FirstBest(cs + [c], k) && !Improves(cs + [c], |cs|)
  {
    var all := cs + [c];
    assert forall j | 0 <= j < |cs| :: all[j] == cs[j];
    if Eligible(c) && Better(c, cs[k]) {
      forall j | 0 <= j < |cs| && Eligible(cs[j]) ensures Better(c, cs[j]) && !Better(cs[j], c) {
        BetterThanBest(cs, k, c, j, policy);
      }
      assert Compare(c.score.value, c.score.value).Equal?;
    }
  }

  lemma BetterThanBest(cs: seq<Candidate>, k: nat, c: Candidate, j: nat, policy: StartPolicy)
    requires FirstBest(cs, k) && Comparable(cs + [c], policy)
    requires Eligible(c) && Better(c, cs[k]) && j < |cs| && Eligible(cs[j])
    ensures Better(c, cs[j]) && !Better(cs[j], c)
  {
    assert cs[k] in cs + [c] && cs[j] in cs + [c] && c in cs + [c];
    CompareIsTotalPreorder(cs[k].score.value, cs[j].score.value, c.score.value);
    CompareIsTotalPreorder(c.score.value, cs[k].score.value, cs[j].score.value);
  }

  lemma AppendFirst(cs: seq<Candidate>, c: Candidate)
    requires NoneEligible(cs)
    ensures Eligible(c) ==> FirstBest(cs + [c], |cs|)
    ensures !Eligible(c) ==> NoneEligible(cs + [c]) && !Improves(cs + [c], |cs|)
  {
    assert forall j | 0 <= j < |cs| :: cs[j] in cs;
    assert Eligible(c) ==> Compare(c.score.value, c.score.value).Equal?;
  }

  lemma AppendMinima(cs: seq<Candidate>, c: Candidate)
    ensures RunningMinima(cs + [c]) == RunningMinima(cs) + if Improves(cs + [c], |cs|) then 1 else 0
  {
    assert (cs + [c])[..|cs|] == cs;
  }

  datatype TrackedBest = TrackedBest(index: nat, objective: Metrics)

  datatype BestUpdate = BestUpdate(previous: Option<TrackedBest>, current: TrackedBest, firstFeasible: bool)

  class BestSolutionTracker {
    var best: Option<TrackedBest>

    constructor ()
      ensures best == None
    {
      best := None;
    }

    /** Strict improvement replaces the tracked best; a tie keeps the earlier one. */
    method ConsiderValidated(index: nat, candidate: Candidate) returns (update: Option<BestUpdate>)
      modifies this
      ensures update.Some? <==> (
        Eligible(candidate) &&
        (old(best).None? || Compare(candidate.score.value, old(best).value.objective).Less?))
      ensures update.None? ==> best == old(best)
      ensures update.Some? ==> best == Some(TrackedBest(index, candidate.score.value))
      ensures update.Some? ==> update.value == BestUpdate(old(best), best.value, old(best).None?)
    {
      if !candidate.feasible || candidate.route.None? || candidate.score.None? {
        return None;
      }
      var objective := candidate.score.value;
      if best.Some? && !Compare(objective, best.value.objective).Less? {
        return None;
      }
      var previous, current := best, TrackedBest(index, objective);
      best := Some(current);
      update := Some(BestUpdate(previous, current, previous.None?));
    }
  }

  class CandidateAccumulator {
    var candidates: seq<Candidate>
    var bestIndex: Option<nat>
    var globalBestUpdates: nat
    const tracker: BestSolutionTracker

    /** The bookkeeping describes the candidates `cs` exactly. */
    ghost predicate Describes(cs: seq<Candidate>)
      reads this, tracker
    {
      && (bestIndex.None? ==> tracker.best.None? && NoneEligible(cs))
      && (bestIndex.Some? ==> FirstBest(cs, bestIndex.value))
      && (bestIndex.Some? ==> tracker.best == Some(TrackedBest(bestIndex.value, cs[bestIndex.value].score.value)))
      && globalBestUpdates == RunningMinima(cs)
    }

    ghost predicate Valid()
      reads this, tracker
    {
      Describes(candidates)
    }

    constructor ()
      ensures Valid() && candidates == [] && fresh(tracker)
    {
      candidates, bestIndex, globalBestUpdates := [], None, 0;
      tracker := new BestSolutionTracker();
    }

    /** Account for the next candidate before it becomes visible. */
    method Consider(candidate: Candidate, ghost policy: StartPolicy) returns (improved: bool)
      requires Valid() && Comparable(candidates + [candidate], policy)
      modifies this, tracker
      ensures candidates == old(candidates)
      ensures Describes(candidates + [candidate])
      ensures improved <==> Improves(candidates + [candidate], |candidates|)
    {
      ghost var before := bestIndex;
      if bestIndex.Some? {
        AppendBest(candidates, bestIndex.value, candidate, policy);
      } else {
        AppendFirst(candidates, candidate);
      }
      AppendMinima(candidates, candidate);
      var index := |candidates|;
      var update := tracker.ConsiderValidated(index, candidate);
      improved := update.Some?;
      if improved {
        bestIndex := Some(index);
        globalBestUpdates := globalBestUpdates + 1;
      }
    }

    method Push(candidate: Candidate)
      requires Describes(candidates + [candidate])
      modifies this`candidates
      ensures Valid() && candidates == old(candidates) + [candidate]
    {
      candidates := candidates + [candidate];
    }

    /** Later annealing runs start from the first of the best routes so far. */
    method WarmStart() returns (route: Option<seq<nat>>)
      requires Valid()
      ensures route.None? <==> NoneEligible(candidates)
      ensures route.Some? ==> exists k: nat :: FirstBest(candidates, k) && candidates[k].route == route
    {
      if bestIndex.None? {
        return None;
      }
      assert FirstBest(candidates, bestIndex.value) && candidates[bestIndex.value] in candidates;
      route := candidates[bestIndex.value].route;
    }
  }

  function CompareCandidates(left: Candidate, right: Candidate): Ordering {
    match (left.feasible, right.feasible)
    case (true, false) => Less
    case (false, true) => Greater
    case (false, false) => Equal
    case (true, true) =>
      match (left.score, right.score)
      case (Some(a), Some(b)) => Compare(a, b)
      case (Some(_), None) => Less
      case (None, Some(_)) => Greater
      case (None, None) => Equal
  }

  lemma CompareCandidatesIsTotalPreorder(a: Candidate, b: Candidate, c: Candidate, policy: StartPolicy)
    requires Comparable([a, b, c], policy)
    ensures CompareCandidates(a, b).Less? <==> CompareCandidates(b, a).Greater?
    ensures !CompareCandidates(a, b).Greater? && !CompareCandidates(b, c).Greater? ==> !CompareCandidates(a, c).Greater?
  {
    assert a in [a, b, c] && b in [a, b, c] && c in [a, b, c];
    if a.score.Some? && b.score.Some? && c.score.Some? {
      CompareIsTotalPreorder(a.score.value, b.score.value, c.score.value);
    } else if a.score.Some? && b.score.Some? {
      CompareIsTotalPreorder(a.score.value, b.score.value, b.score.value);
    }
  }

  /** `order` lists the positions of `cs` as a stable sort leaves them. */
  ghost predicate StableRank(cs: seq<Candidate>, order: seq<nat>) {
    && |order| == |cs|
    && (forall k: nat :: k in order <==> k < |cs|)
    && AllInOrder(cs, order)
  }

  /** `a` may precede `b`: it compares lower, or equal and came first. */
  ghost predicate InOrder(cs: seq<Candidate>, a: nat, b: nat) {
    a < |cs| && b < |cs| &&
    match CompareCandidates(cs[a], cs[b])
    case Less => true
    case Equal => a < b
    case Greater => false
  }

  /** A ranking puts feasible candidates before infeasible ones, scored before unscored
      ones, better scores before worse, and keeps the order of arrival otherwise. */
  lemma RankMeans(cs: seq<Candidate>, order: seq<nat>, i: nat, j: nat)
    requires StableRank(cs, order) && i < j < |order|
    ensures order[i] < |cs| && order[j] < |cs|
    ensures var a, b := cs[order[i]], cs[order[j]];
      && (b.feasible ==> a.feasible)
      && (a.feasible && b.feasible && b.score.Some? ==> a.score.Some? && NoWorse(a.score.value, b.score.value))
      && (!a.feasible && !b.feasible ==> order[i] < order[j])
      && (a.feasible && b.feasible && a.score.None? && b.score.None? ==> order[i] < order[j])
      && (a.feasible && b.feasible && a.score.Some? && b.score.Some? ==>
           Compare(a.score.value, b.score.value).Equal? ==> order[i] < order[j])
  {
    assert InOrder(cs, order[i], order[j]);
  }

  /** The candidates in ranked order. */
  function Arranged(cs: seq<Candidate>, order: seq<nat>): (r: seq<Candidate>)
    requires forall i | 0 <= i < |order| :: order[i] < |cs|
    ensures |r| == |order| && forall i | 0 <= i < |r| :: r[i] == cs[order[i]]
  {
    seq(|order|, i requires 0 <= i < |order| => cs[order[i]])
  }

  /** The first ranked candidate that is feasible and scored. */
  method Select(ranked: seq<Candidate>) returns (r: Result<nat, SolverError>)
    ensures r.Ok? ==> r.value < |ranked| && ranked[r.value].feasible && ranked[r.value].score.Some?
    ensures r.Ok? ==> forall i | 0 <= i < r.value :: !(ranked[i].feasible && ranked[i].score.Some?)
    ensures r.Err? ==> r.error == NoFeasibleRoute && forall c | c in ranked :: !(c.feasible && c.score.Some?)
  {
    for i := 0 to |ranked|
      invariant forall j | 0 <= j < i :: !(ranked[j].feasible && ranked[j].score.Some?)
    {
      if ranked[i].feasible && ranked[i].score.Some? {
        return Ok(i);
      }
    }
    r := Err(NoFeasibleRoute);
  }

  /** Online best and stable ranking agree: the first eligible candidate of a stable
      ranking is the first of the best, whatever the order of arrival. */
  lemma RankingSelectsFirstBest(cs: seq<Candidate>, order: seq<nat>, i: nat, policy: StartPolicy)
    requires Comparable(cs, policy) && Complete(cs) && StableRank(cs, order)
    requires i < |order| && order[i] < |cs| && Eligible(cs[order[i]])
    requires forall j | 0 <= j < i :: order[j] < |cs| && !Eligible(cs[order[j]])
    ensures FirstBest(cs, order[i])
  {
    var k := order[i];
    assert cs[k] in cs;
    forall j: nat | j < |cs| && Eligible(cs[j])
      ensures !Better(cs[j], cs[k]) && (j < k ==> Better(cs[k], cs[j]))
    {
      assert j in order && cs[j] in cs;
      var p :| 0 <= p < |order| && order[p] == j;
      CompareIsTotalPreorder(cs[k].score.value, cs[j].score.value, cs[k].score.value);
      if p != i { assert i < p && InOrder(cs, order[i], order[p]); }
    }
  }

  /** Insert position `k` behind everything that does not compare higher. */
  function Insert(cs: seq<Candidate>, order: seq<nat>, k: nat): (r: seq<nat>)
    requires k < |cs| && forall i | 0 <= i < |order| :: order[i] < |cs|
    ensures |r| == |order| + 1 && forall x: nat :: x in r <==> x == k || x in order
  {
    if |order| == 0 then [k]
    else
      var before, last := order[..|order| - 1], order[|order| - 1];
      assert order == before + [last];
      if CompareCandidates(cs[last], cs[k]).Greater? then Insert(cs, before, k) + [last] else order + [k]
  }

  ghost predicate AllInOrder(cs: seq<Candidate>, order: seq<nat>) {
    forall i, j | 0 <= i < j < |order| :: InOrder(cs, order[i], order[j])
  }

  lemma InOrderThrough(cs: seq<Candidate>, a: nat, b: nat, k: nat, policy: StartPolicy)
    requires Comparable(cs, policy) && a < k && b < k < |cs|
    requires a == b || InOrder(cs, a, b)
    requires !CompareCandidates(cs[b], cs[k]).Greater?
    ensures InOrder(cs, a, k)
  {
    CompareCandidatesIsTotalPreorder(cs[a], cs[b], cs[k], policy);
  }

  lemma {:induction false} InsertKeepsOrder(cs: seq<Candidate>, order: seq<nat>, k: nat, policy: StartPolicy)
    requires Comparable(cs, policy) && k < |cs|
    requires AllInOrder(cs, order) && forall i | 0 <= i < |order| :: order[i] < k
    ensures AllInOrder(cs, Insert(cs, order, k))
  {
    if |order| > 0 {
      var before, last := order[..|order| - 1], order[|order| - 1];
      assert order == before + [last];
      CompareCandidatesIsTotalPreorder(cs[last], cs[k], cs[k], policy);
      if CompareCandidates(cs[last], cs[k]).Greater? {
        InsertKeepsOrder(cs, before, k, policy);
        var r := Insert(cs, before, k);
        forall i | 0 <= i < |r| ensures InOrder(cs, r[i], last) {
          assert r[i] in r;
          if r[i] != k {
            var p :| 0 <= p < |before| && before[p] == r[i];
            assert InOrder(cs, order[p], order[|order| - 1]);
          }
        }
      } else {
        forall i | 0 <= i < |order| ensures InOrder(cs, order[i], k) {
          InOrderThrough(cs, order[i], last, k, policy);
        }
      }
    }
  }

  /** The order in which a stable sort leaves the first `n` candidates. */
  function RankOrder(cs: seq<Candidate>, n: nat): (order: seq<nat>)
    requires n <= |cs|
    ensures |order| == n && forall x: nat :: x in order <==> x < n
  {
    if n == 0 then []
    else
      var before := RankOrder(cs, n - 1);
      assert forall i | 0 <= i < |before| :: before[i] in before;
      Insert(cs, before, n - 1)
  }

  lemma RankOrderBelow(cs: seq<Candidate>, n: nat)
    requires n <= |cs|
    ensures forall i | 0 <= i < n :: RankOrder(cs, n)[i] < n
  {
    var order := RankOrder(cs, n);
    assert forall i | 0 <= i < |order| :: order[i] in order;
  }

  lemma {:induction false} RankOrderInOrder(cs: seq<Candidate>, n: nat, policy: StartPolicy)
    requires Comparable(cs, policy) && n <= |cs|
    ensures AllInOrder(cs, RankOrder(cs, n))
  {
    if n > 0 {
      RankOrderInOrder(cs, n - 1, policy);
      RankOrderBelow(cs, n - 1);
      InsertKeepsOrder(cs, RankOrder(cs, n - 1), n - 1, policy);
    }
  }

  /** `rank` followed by `select`: the position of the chosen candidate on arrival. */
  method RankAndSelect(cs: seq<Candidate>, ghost policy: StartPolicy) returns (r: Result<nat, SolverError>)
    requires Comparable(cs, policy) && Complete(cs)
    ensures r.Ok? ==> FirstBest(cs, r.value)
    ensures r.Err? ==> r.error == NoFeasibleRoute && NoneEligible(cs)
  {
    var order := RankOrder(cs, |cs|);
    RankOrderInOrder(cs, |cs|, policy);
    assert forall i | 0 <= i < |order| :: order[i] in order;
    var ranked := Arranged(cs, order);
    var chosen := Select(ranked);
    if chosen.Err? {
      forall c | c in cs ensures !Eligible(c) {
        var k :| 0 <= k < |cs| && cs[k] == c;
        assert k in order;
        var p :| 0 <= p < |order| && order[p] == k;
        assert ranked[p] in ranked;
      }
      return Err(chosen.error);
    }
    assert cs[order[chosen.value]] in cs;
    RankingSelectsFirstBest(cs, order, chosen.value, policy);
    r := Ok(order[chosen.value]);
  }

  /** The candidate kept online is the one a stable ranking selects. */
  lemma OnlineAgreesWithRanking(cs: seq<Candidate>, online: nat, order: seq<nat>, i: nat, policy: StartPolicy)
    requires Comparable(cs, policy) && Complete(cs) && FirstBest(cs, online)
    requires StableRank(cs, order) && i < |order| && order[i] < |cs| && Eligible(cs[order[i]])
    requires forall j | 0 <= j < i :: order[j] < |cs| && !Eligible(cs[order[j]])
    ensures order[i] == online
  {
    RankingSelectsFirstBest(cs, order, i, policy);
    FirstBestIsUnique(cs, online, order[i]);
  }
}
