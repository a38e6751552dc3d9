/** `paired_error_margins` up to the system it solves: both matrices, the rows that are solved for, and why the
    variances it takes the root of are never negative. */
module Margins {
  import opened Wrappers
  import opened Sums
  import opened EloCurve
  import opened Laplacian
  import opened Covariance
  import opened Pairing
  import opened RatingBounds

  // ---------------------------------------------------------------- the buckets that occur

  predicate FitBucket(b: Bucket, n: nat) {
    b.first < b.second < n && 1 <= b.length <= 2
  }

  ghost predicate AllFit(log: seq<Mark>, n: nat) {
    forall i | 0 <= i < |log| :: FitBucket(log[i].bucket, n)
  }

  lemma {:induction false} TallyBuckets(log: seq<Mark>, n: nat)
    requires AllFit(log, n)
    ensures forall b | b in Tally(log) :: FitBucket(b, n)
  {
    if log != [] {
      TallyBuckets(log[..|log| - 1], n);
    }
  }

  lemma {:induction false} RecordedFit(ms: seq<Meeting>, n: nat)
    requires forall i | 0 <= i < |ms| :: ValidMeeting(ms[i], n)
    ensures AllFit(Recorded(ms), n)
  {
    if ms != [] {
      RecordedFit(ms[..|ms| - 1], n);
    }
  }

  lemma {:induction false} ScoresHaveKey(ms: seq<Meeting>, key: Key, white: bool)
    requires Scores(ms, key, white) != []
    ensures exists i :: 0 <= i < |ms| && ms[i].opening.Some? && KeyOf(ms[i]) == key
  {
    var m := ms[|ms| - 1];
    if !(m.opening.Some? && KeyOf(m) == key) {
      ScoresHaveKey(ms[..|ms| - 1], key, white);
    }
  }

  /** Only pairs that played wait. */
  lemma PendingFit(pending: map<Key, Queues>, ms: seq<Meeting>, n: nat)
    requires PendingOk(pending, ms) && forall i | 0 <= i < |ms| :: ValidMeeting(ms[i], n)
    ensures forall key | key in pending :: key.first < key.second < n
  {
    forall key | key in pending
      ensures key.first < key.second < n
    {
      assert PendingKeyOk(pending, ms, key);
      ScoresHaveKey(ms, key, Scores(ms, key, true) != []);
    }
  }

  lemma {:induction false} LeftoversFit(order: seq<Key>, pending: map<Key, Queues>, n: nat)
    requires forall key <- order :: key in pending
    requires forall key | key in pending :: key.first < key.second < n
    ensures AllFit(Leftovers(order, pending), n)
  {
    if order != [] {
      assert order[|order| - 1] in order;
      LeftoversFit(order[..|order| - 1], pending, n);
    }
  }

  // ---------------------------------------------------------------- the noise matrix

  /** What one bucket adds: its count times its variance, between its two engines. */
  function NoiseEdge(b: Bucket, counts: Counts, ratings: seq<real>, curve: Logistic): Edge
    requires FitBucket(b, |ratings|)
  {
    var kept := Truncated(counts, b.length);
    Edge(b.first, b.second,
         Multiple(CountTotal(kept), Variance(kept, b.length, Expected(ratings, curve, b.first, b.second))))
  }

  function Multiple(count: nat, variance: real): (weight: real)
    ensures variance >= 0.0 ==> weight >= 0.0
  {
    count as real * variance
  }

  lemma NoiseEdgeNonNegative(b: Bucket, counts: Counts, ratings: seq<real>, curve: Logistic)
    requires FitBucket(b, |ratings|)
    ensures NoiseEdge(b, counts, ratings, curve).weight >= 0.0
  {
    VarianceNonNegative(Truncated(counts, b.length), b.length, Expected(ratings, curve, b.first, b.second));
  }

  /** A multiple is a repeated sum. */
  lemma MultipleAdds(count: nat, variance: real)
    ensures Multiple(0, variance) == 0.0
    ensures Multiple(count + 1, variance) == Multiple(count, variance) + variance
  {
  }

  lemma KeptIsTruncated(counts: Counts, length: nat)
    requires length <= 2
    ensures Truncated(counts, length) == counts[..2 * length + 1]
  {
  }

  lemma NoiseIsMultiple(b: Bucket, counts: Counts, ratings: seq<real>, curve: Logistic, kept: seq<nat>, variance: real)
    requires FitBucket(b, |ratings|) && kept == Truncated(counts, b.length) && kept != []
    requires variance == Variance(kept, b.length, Expected(ratings, curve, b.first, b.second))
    ensures NoiseEdge(b, counts, ratings, curve) == Edge(b.first, b.second, Multiple(CountTotal(kept), variance))
  {
  }

  /** What a bucket with a single game or pair adds: its length times p(1 - p), with p the expected score. */
  lemma NoiseOfOne(b: Bucket, counts: Counts, ratings: seq<real>, curve: Logistic, p: real, weight: real)
    requires FitBucket(b, |ratings|) && CountTotal(counts[..2 * b.length + 1]) == 1
    requires p == ExpectedScore(curve, ratings[b.first], ratings[b.second])
    requires weight == b.length as real * (p * (1.0 - p))
    ensures NoiseEdge(b, counts, ratings, curve) == Edge(b.first, b.second, weight)
  {
    KeptIsTruncated(counts, b.length);
    NoiseIsMultiple(b, counts, ratings, curve, counts[..2 * b.length + 1], weight);
    MultipleAdds(0, weight);
  }

  /** What any other bucket adds: its count times the least mean squared error of the scores its length allows. */
  lemma NoiseOfMany(b: Bucket, counts: Counts, ratings: seq<real>, curve: Logistic, kept: seq<nat>, total: real)
      returns (variance: real, mean: real, least: real)
    requires FitBucket(b, |ratings|) && kept == counts[..2 * b.length + 1] && CountTotal(kept) != 1
    requires total == SumOf(Weights(kept))
    ensures NoiseEdge(b, counts, ratings, curve) == Edge(b.first, b.second, Multiple(CountTotal(kept), variance))
    ensures total > 0.0 && variance * total == least && least == SumOf(SquaredErrors(kept, mean))
    ensures forall c :: least <= SumOf(SquaredErrors(kept, c))
  {
    var expected := Expected(ratings, curve, b.first, b.second);
    variance := Variance(kept, b.length, expected);
    mean, least := VarianceIsLeast(kept, b.length, expected, variance, total);
    KeptIsTruncated(counts, b.length);
    NoiseIsMultiple(b, counts, ratings, curve, kept, variance);
  }

  ghost predicate FitBuckets(order: seq<Bucket>, f: Frequencies, n: nat) {
    forall i | 0 <= i < |order| :: order[i] in f && FitBucket(order[i], n)
  }

  function NoiseEdges(order: seq<Bucket>, f: Frequencies, ratings: seq<real>, curve: Logistic): (edges: seq<Edge>)
    requires FitBuckets(order, f, |ratings|)
    ensures |edges| == |order|
  {
    seq(|order|, i requires 0 <= i < |order| => NoiseEdge(order[i], f[order[i]], ratings, curve))
  }

  lemma NoiseIsNonNegative(order: seq<Bucket>, f: Frequencies, ratings: seq<real>, curve: Logistic)
    requires FitBuckets(order, f, |ratings|)
    ensures ValidEdges(NoiseEdges(order, f, ratings, curve), |ratings|)
    ensures forall e <- NoiseEdges(order, f, ratings, curve) :: e.weight >= 0.0
  {
    forall i | 0 <= i < |order|
      ensures NoiseEdges(order, f, ratings, curve)[i].weight >= 0.0
    {
      NoiseEdgeNonNegative(order[i], f[order[i]], ratings, curve);
    }
  }

  ghost predicate EachOnce(order: seq<Bucket>, all: set<Bucket>) {
    (forall b :: b in order <==> b in all) && forall i, j | 0 <= i < j < |order| :: order[i] != order[j]
  }

  /** The loop over the frequency lists: every bucket once, in whatever order they come. */
  method Noise(f: Frequencies, ratings: seq<real>, curve: Logistic)
      returns (noise: array2<real>, ghost order: seq<Bucket>)
    requires forall b | b in f :: FitBucket(b, |ratings|)
    ensures fresh(noise) && noise.Length0 == noise.Length1 == |ratings|
    ensures EachOnce(order, f.Keys)
    ensures FitBuckets(order, f, |ratings|)
    ensures MatrixOk(noise, NoiseEdges(order, f, ratings, curve))
  {
    var size := |ratings|;
    noise := new real[size, size]((i, j) => 0.0);
    order := [];
    var rest := f.Keys;
    while rest != {}
      invariant rest <= f.Keys && EachOnce(order, f.Keys - rest)
      invariant FitBuckets(order, f, size)
      invariant MatrixOk(noise, NoiseEdges(order, f, ratings, curve))
      decreases rest
    {
      var b :| b in rest;
      var edge := NoiseEdge(b, f[b], ratings, curve);
      ghost var edges := NoiseEdges(order, f, ratings, curve);
      assert (edges + [edge])[..|edges|] == edges;
      AddWeight(noise, edge);
      assert NoiseEdges(order + [b], f, ratings, curve) == edges + [edge];
      order, rest := order + [b], rest - {b};
    }
  }

  // ---------------------------------------------------------------- the whole system

  /**
   * The information and noise matrices of all accepted games, and the rows and columns that are solved for: the
   * engines reachable from the fixed one, without it. Without an anchor among the engines there is nothing to solve
   * exactly when some engine is out of reach.
   */
  method PairedSystem(games: seq<Game>, indices: map<int, nat>, ratings: seq<real>, curve: Logistic,
                      anchor: Option<nat>)
      returns (information: array2<real>, noise: array2<real>, adjustable: Option<seq<nat>>,
               ghost ms: seq<Meeting>, ghost graph: Graph, ghost f: Frequencies, ghost order: seq<Bucket>)
    requires |ratings| > 0 && (anchor.Some? ==> anchor.value < |ratings|)
    requires forall id <- indices :: indices[id] < |ratings|
    ensures ms == Meetings(games, indices) && forall m <- ms :: ValidMeeting(m, |ratings|)
    ensures fresh(information) && fresh(noise)
    ensures |graph| == |ratings| && GraphOf(graph, EdgesOf(ms, ratings, curve))
    ensures information.Length0 == information.Length1 == noise.Length0 == noise.Length1 == |ratings|
    ensures MatrixOk(information, EdgesOf(ms, ratings, curve))
    ensures CountsOf(f, ms) && Total(GamesPerBucket(f)) == |ms|
    ensures EachOnce(order, f.Keys) && FitBuckets(order, f, |ratings|)
    ensures MatrixOk(noise, NoiseEdges(order, f, ratings, curve))
    ensures adjustable.None? <==> anchor.None? && exists v: nat :: v < |ratings| && !Reaches(graph, 0, v)
    ensures adjustable.Some? ==>
              && Distinct(adjustable.value, |ratings|)
              && forall v :: v in adjustable.value <==> Reaches(graph, FixedIndex(anchor), v) && v != FixedIndex(anchor)
  {
    var frequencies, adjacency;
    information, adjacency, frequencies, ms := CountGames(games, indices, ratings, curve);
    graph, f := adjacency[..], frequencies;
    noise, order := Noise(frequencies, ratings, curve);
    EdgesArePositive(ms, ratings, curve);
    NeighboursBelow(graph, EdgesOf(ms, ratings, curve));
    var fixed := FixedIndex(anchor);
    var component := Component(adjacency[..], fixed);
    ReachedBelow(graph, EdgesOf(ms, ratings, curve), fixed, component);
    AllReached(graph, fixed, component, |ratings|);
    adjustable := None;
    if anchor.Some? || component == Below(|ratings|) {
      var list := Adjustable(component, |ratings|, fixed);
      adjustable := Some(list);
    }
  }

  lemma NeighboursBelow(graph: Graph, edges: seq<Edge>)
    requires GraphOf(graph, edges) && forall e <- edges :: e.first < e.second < |graph|
    ensures forall u, v | 0 <= u < |graph| && v in graph[u] :: v < |graph|
  {
  }

  lemma ReachedBelow(graph: Graph, edges: seq<Edge>, fixed: nat, component: set<nat>)
    requires GraphOf(graph, edges) && (forall e <- edges :: e.first < e.second < |graph|) && fixed < |graph|
    requires forall v :: v in component <==> Reaches(graph, fixed, v)
    ensures forall v | v in component :: v < |graph|
  {
    forall v | v in component
      ensures v < |graph|
    {
      var walk :| WalkJoins(graph, walk, fixed, v);
    }
  }

  lemma AllReached(graph: Graph, fixed: nat, component: set<nat>, n: nat)
    requires (forall v | v in component :: v < n) && forall v :: v in component <==> Reaches(graph, fixed, v)
    ensures component != Below(n) <==> exists v: nat :: v < n && !Reaches(graph, fixed, v)
  {
    if component != Below(n) {
      var v: nat :| v in Below(n) && v !in component;
      assert !Reaches(graph, fixed, v);
    }
  }

  /** The frequency lists of the pairs and singles of all games, those left waiting flushed in some order of the
      keys. */
  ghost predicate CountsOf(f: Frequencies, ms: seq<Meeting>) {
    exists pending, order :: PendingOk(pending, ms) && Enumerates(order, pending.Keys)
      && f == Tally(Recorded(ms) + Leftovers(order, pending))
  }

  /** The pass over the games, and the games left waiting at its end. */
  method CountGames(games: seq<Game>, indices: map<int, nat>, ratings: seq<real>, curve: Logistic)
      returns (information: array2<real>, adjacency: array<set<nat>>, frequencies: Frequencies, ghost ms: seq<Meeting>)
    requires forall id <- indices :: indices[id] < |ratings|
    ensures fresh(information) && fresh(adjacency)
    ensures ms == Meetings(games, indices) && forall m <- ms :: ValidMeeting(m, |ratings|)
    ensures information.Length0 == information.Length1 == adjacency.Length == |ratings|
    ensures MatrixOk(information, EdgesOf(ms, ratings, curve)) && GraphOf(adjacency[..], EdgesOf(ms, ratings, curve))
    ensures forall b | b in frequencies :: FitBucket(b, |ratings|)
    ensures Total(GamesPerBucket(frequencies)) == |ms|
    ensures CountsOf(frequencies, ms)
  {
    var pending, recorded;
    information, adjacency, pending, recorded, ms := Collect(games, indices, ratings, curve);
    ghost var order;
    frequencies, order := Flush(recorded, pending, Recorded(ms));
    LeftoversWeigh(order, pending);
    GamesRecordedAppend(Recorded(ms), Leftovers(order, pending));
    BucketsConserveGames(Recorded(ms) + Leftovers(order, pending));
    forall i | 0 <= i < |ms|
      ensures ValidMeeting(ms[i], |ratings|)
    {
      assert ms[i] in ms;
    }
    RecordedFit(ms, |ratings|);
    PendingFit(pending, ms, |ratings|);
    LeftoversFit(order, pending, |ratings|);
    TallyBuckets(Recorded(ms) + Leftovers(order, pending), |ratings|);
  }

  /**
   * The variance of a rating is a diagonal entry of inverse · noise · inverse transposed, centred when there is no
   * anchor. Whatever matrix the solver returned, it is never negative for the noise that the program builds.
   */
  lemma RatingVarianceNonNegative(
    order: seq<Bucket>, f: Frequencies, ratings: seq<real>, curve: Logistic, list: seq<nat>, inverse: Matrix, i: nat)
    requires FitBuckets(order, f, |ratings|) && Distinct(list, |ratings|)
    ensures var covariance := Extended(ReducedCovariance(inverse, NoiseEdges(order, f, ratings, curve), list), list);
      covariance(i, i) >= 0.0 && Centered(covariance, |ratings|)(i, i) >= 0.0
  {
    NoiseIsNonNegative(order, f, ratings, curve);
    VariancesNeverNegative(inverse, NoiseEdges(order, f, ratings, curve), |ratings|, list, i);
  }
}
