/** The rating iteration of `_calculate_ratings_together`, in exact arithmetic and before the final rounding. */
module Elo {
  import opened Wrappers
  import opened EloCurve
  import opened Sums
  import opened Pruning

  const ELO_SCALE := 400.0
  const DEFAULT_ELO := 1500.0
  const RATING_CONVERGENCE := 0.000001
  const RATING_ITERATIONS := 100000

  /** How often the engines with indices `first <= second` met. */
  datatype Pairing = Pairing(first: nat, second: nat, count: nat)

  datatype RatingError = AnchorMissing | Unstable

  datatype Ratings = Ratings(engines: seq<Engine>, elo: seq<real>, counts: seq<nat>)

  // ---------------------------------------------------------------- specification

  /** Games whose players are indices below `n`, each index playing at least once. */
  ghost predicate Indexed(games: seq<Game>, n: nat) {
    && Finished(games)
    && Below(games, n)
    && (forall i: nat | i < n :: i in Engines(games))
  }

  predicate Below(games: seq<Game>, n: nat) {
    forall k | 0 <= k < |games| :: 0 <= games[k].white < n && 0 <= games[k].black < n
  }

  function Lower(g: Game): Engine {
    if g.white < g.black then g.white else g.black
  }

  function Upper(g: Game): Engine {
    if g.white < g.black then g.black else g.white
  }

  /** What engine `i` is expected to score when `first` meets `second`. */
  function Share(ratings: seq<real>, curve: Logistic, first: Engine, second: Engine, i: Engine): real
    requires 0 <= first < |ratings| && 0 <= second < |ratings|
  {
    var expected := ExpectedScore(curve, ratings[first], ratings[second]);
    (if first == i then expected else 0.0) + if second == i then 1.0 - expected else 0.0
  }

  /** A game shares out one point: to each of two engines what it is expected to score against the other. */
  lemma OnePointIsShared(ratings: seq<real>, curve: Logistic, first: Engine, second: Engine, i: Engine)
    requires 0 <= first < |ratings| && 0 <= second < |ratings|
    ensures first != second ==>
      && Share(ratings, curve, first, second, first) == ExpectedScore(curve, ratings[first], ratings[second])
      && Share(ratings, curve, first, second, first) + Share(ratings, curve, first, second, second) == 1.0
    ensures first == second ==> Share(ratings, curve, first, second, first) == 1.0
    ensures i !in {first, second} ==> Share(ratings, curve, first, second, i) == 0.0
  {
  }

  /** The expected total of engine `i`, game by game. */
  function Expected(games: seq<Game>, ratings: seq<real>, curve: Logistic, i: Engine): real
    requires Below(games, |ratings|)
  {
    if games == [] then 0.0
    else
      var g := games[|games| - 1];
      Expected(games[..|games| - 1], ratings, curve, i) + Share(ratings, curve, Lower(g), Upper(g), i)
  }

  ghost predicate ValidPairs(pairs: seq<Pairing>, n: nat) {
    forall k | 0 <= k < |pairs| :: pairs[k].first < n && pairs[k].second < n
  }

  /** What each pairing contributes to engine `i`. */
  function Terms(pairs: seq<Pairing>, ratings: seq<real>, curve: Logistic, i: Engine): seq<real>
    requires ValidPairs(pairs, |ratings|)
  {
    seq(|pairs|, k requires 0 <= k < |pairs| =>
      Weighted(pairs[k].count, Share(ratings, curve, pairs[k].first, pairs[k].second, i)))
  }

  /** The expected total of engine `i`, pairing by pairing. */
  function ExpectedByPairs(pairs: seq<Pairing>, ratings: seq<real>, curve: Logistic, i: Engine): real
    requires ValidPairs(pairs, |ratings|)
  {
    if pairs == [] then 0.0
    else
      var p := pairs[|pairs| - 1];
      ExpectedByPairs(pairs[..|pairs| - 1], ratings, curve, i)
      + Weighted(p.count, Share(ratings, curve, p.first, p.second, i))
  }

  /** What a pairing tells of engine `i`; a game of an engine with itself tells nothing. */
  function Told(p: Pairing, ratings: seq<real>, curve: Logistic, i: Engine): real
    requires p.first < |ratings| && p.second < |ratings|
  {
    if p.first != p.second && (p.first == i || p.second == i) then
      Weighted(p.count, Spread(ExpectedScore(curve, ratings[p.first], ratings[p.second])))
    else 0.0
  }

  /** The variance of one game's result around its expected score. */
  function Spread(expected: real): real {
    expected * (1.0 - expected)
  }

  /** The information about engine `i`, pairing by pairing. */
  function Information(pairs: seq<Pairing>, ratings: seq<real>, curve: Logistic, i: Engine): real
    requires ValidPairs(pairs, |ratings|)
  {
    if pairs == [] then 0.0
    else Information(pairs[..|pairs| - 1], ratings, curve, i) + Told(pairs[|pairs| - 1], ratings, curve, i)
  }

  lemma {:induction false} ByPairsIsSum(pairs: seq<Pairing>, ratings: seq<real>, curve: Logistic, i: Engine)
    requires ValidPairs(pairs, |ratings|)
    ensures ExpectedByPairs(pairs, ratings, curve, i) == SumOf(Terms(pairs, ratings, curve, i))
  {
    if pairs != [] {
      var front := pairs[..|pairs| - 1];
      ByPairsIsSum(front, ratings, curve, i);
      assert Terms(pairs, ratings, curve, i)[..|front|] == Terms(front, ratings, curve, i);
    }
  }

  /** `count` times `x`, as repeated addition. */
  function Weighted(count: nat, x: real): real {
    if count == 0 then 0.0 else Weighted(count - 1, x) + x
  }

  function GamesIn(pairs: seq<Pairing>): nat {
    if pairs == [] then 0 else GamesIn(pairs[..|pairs| - 1]) + pairs[|pairs| - 1].count
  }

  /** The games of all engines but one. */
  function OtherGames(counts: seq<nat>, fixed: nat): nat {
    if counts == [] then 0
    else OtherGames(counts[..|counts| - 1], fixed) + if |counts| - 1 == fixed then 0 else counts[|counts| - 1]
  }

  function Abs(r: real): real {
    if r < 0.0 then -r else r
  }

  // ---------------------------------------------------------------- sums

  lemma {:induction false} SumUpdate(values: seq<real>, i: nat, v: real)
    requires i < |values|
    ensures SumOf(values[i := v]) == SumOf(values) - values[i] + v
  {
    var last := |values| - 1;
    if i < last {
      assert values[i := v][..last] == values[..last][i := v];
      SumUpdate(values[..last], i, v);
    } else {
      assert values[i := v][..last] == values[..last];
    }
  }

  lemma {:induction false} SumZeros(n: nat)
    ensures SumOf(seq(n, i => 0.0)) == 0.0
  {
    if n > 0 {
      assert seq(n, i => 0.0)[..n - 1] == seq(n - 1, i => 0.0);
      SumZeros(n - 1);
    }
  }

  lemma {:induction false} SumShift(values: seq<real>, shifted: seq<real>, offset: real)
    requires |shifted| == |values| && forall i | 0 <= i < |values| :: shifted[i] == values[i] + offset
    ensures SumOf(shifted) == SumOf(values) + Weighted(|values|, offset)
  {
    if values != [] {
      var last := |values| - 1;
      SumShift(values[..last], shifted[..last], offset);
    }
  }

  lemma OneMore(count: nat, x: real)
    ensures (count + 1) as real * x == count as real * x + x
  {
  }

  lemma {:induction false} WeightedIsProduct(count: nat, x: real)
    ensures Weighted(count, x) == count as real * x
  {
    if count > 0 {
      WeightedIsProduct(count - 1, x);
      OneMore(count - 1, x);
    }
  }

  lemma {:induction false} WeightedPlus(count: nat, x: real, y: real)
    ensures Weighted(count, x + y) == Weighted(count, x) + Weighted(count, y)
    ensures Weighted(count, 1.0) == count as real && Weighted(count, 0.0) == 0.0
  {
    if count > 0 {
      WeightedPlus(count - 1, x, y);
    }
  }

  // ---------------------------------------------------------------- collecting the games

  /** The position of a pair's entry, or the length when it has none. */
  function Find(pairs: seq<Pairing>, first: nat, second: nat): (k: nat)
    ensures k <= |pairs|
    ensures k < |pairs| ==> pairs[k].first == first && pairs[k].second == second
  {
    if pairs == [] then 0
    else if pairs[0].first == first && pairs[0].second == second then 0
    else 1 + Find(pairs[1..], first, second)
  }

  /** One more meeting of a pair. */
  function Met(pairs: seq<Pairing>, first: nat, second: nat): seq<Pairing> {
    var k := Find(pairs, first, second);
    if k < |pairs| then pairs[k := Pairing(first, second, pairs[k].count + 1)] else pairs + [Pairing(first, second, 1)]
  }

  function Pairings(games: seq<Game>, n: nat): seq<Pairing>
    requires Below(games, n)
  {
    if games == [] then []
    else
      var g := games[|games| - 1];
      Met(Pairings(games[..|games| - 1], n), Lower(g), Upper(g))
  }

  lemma CountedAgain(pairs: seq<Pairing>, k: nat, p: Pairing, ratings: seq<real>, curve: Logistic, i: Engine)
    requires ValidPairs(pairs, |ratings|) && k < |pairs| && p == pairs[k].(count := pairs[k].count + 1)
    requires ValidPairs(pairs[k := p], |ratings|)
    ensures ExpectedByPairs(pairs[k := p], ratings, curve, i)
         == ExpectedByPairs(pairs, ratings, curve, i) + Share(ratings, curve, p.first, p.second, i)
  {
    var terms := Terms(pairs, ratings, curve, i);
    var share := Share(ratings, curve, p.first, p.second, i);
    WeightedMore(pairs[k].count, share);
    assert Terms(pairs[k := p], ratings, curve, i) == terms[k := terms[k] + share];
    SumUpdate(terms, k, terms[k] + share);
    ByPairsIsSum(pairs, ratings, curve, i);
    ByPairsIsSum(pairs[k := p], ratings, curve, i);
  }

  lemma WeightedMore(count: nat, x: real)
    ensures Weighted(count + 1, x) == Weighted(count, x) + x
  {
  }

  lemma OnePairMore(pairs: seq<Pairing>, p: Pairing, ratings: seq<real>, curve: Logistic, i: Engine)
    requires ValidPairs(pairs, |ratings|) && p.first < |ratings| && p.second < |ratings|
    ensures ValidPairs(pairs + [p], |ratings|)
    ensures ExpectedByPairs(pairs + [p], ratings, curve, i)
         == ExpectedByPairs(pairs, ratings, curve, i) + Weighted(p.count, Share(ratings, curve, p.first, p.second, i))
  {
    assert (pairs + [p])[..|pairs|] == pairs;
  }

  lemma {:induction false} OneMoreGame(pairs: seq<Pairing>, k: nat, p: Pairing)
    requires k < |pairs| && p == pairs[k].(count := pairs[k].count + 1)
    ensures GamesIn(pairs[k := p]) == GamesIn(pairs) + 1
  {
    var last := |pairs| - 1;
    if k < last {
      assert pairs[k := p][..last] == pairs[..last][k := p];
      OneMoreGame(pairs[..last], k, p);
    } else {
      assert pairs[k := p][..last] == pairs[..last];
    }
  }

  lemma MetIsValid(pairs: seq<Pairing>, first: nat, second: nat, n: nat)
    requires ValidPairs(pairs, n) && first < n && second < n
    ensures ValidPairs(Met(pairs, first, second), n)
    ensures GamesIn(Met(pairs, first, second)) == GamesIn(pairs) + 1
  {
    var k := Find(pairs, first, second);
    if k < |pairs| {
      OneMoreGame(pairs, k, Pairing(first, second, pairs[k].count + 1));
    } else {
      assert (pairs + [Pairing(first, second, 1)])[..|pairs|] == pairs;
    }
  }

  lemma MetStep(pairs: seq<Pairing>, first: nat, second: nat, ratings: seq<real>, curve: Logistic, i: Engine)
    requires ValidPairs(pairs, |ratings|) && first < |ratings| && second < |ratings|
    requires ValidPairs(Met(pairs, first, second), |ratings|)
    ensures ExpectedByPairs(Met(pairs, first, second), ratings, curve, i)
         == ExpectedByPairs(pairs, ratings, curve, i) + Share(ratings, curve, first, second, i)
  {
    var k := Find(pairs, first, second);
    if k < |pairs| {
      assert Met(pairs, first, second) == pairs[k := Pairing(first, second, pairs[k].count + 1)];
      CountedAgain(pairs, k, Pairing(first, second, pairs[k].count + 1), ratings, curve, i);
    } else {
      assert Met(pairs, first, second) == pairs + [Pairing(first, second, 1)];
      OnePairMore(pairs, Pairing(first, second, 1), ratings, curve, i);
      WeightedOnce(Share(ratings, curve, first, second, i));
    }
  }

  lemma WeightedOnce(x: real)
    ensures Weighted(1, x) == x
  {
    assert Weighted(0, x) == 0.0;
  }

  /** Grouping the games into pairings changes no engine's expected total. */
  lemma {:induction false} PairingsKeepExpected(games: seq<Game>, ratings: seq<real>, curve: Logistic, i: Engine)
    requires Below(games, |ratings|)
    ensures ValidPairs(Pairings(games, |ratings|), |ratings|)
    ensures ExpectedByPairs(Pairings(games, |ratings|), ratings, curve, i) == Expected(games, ratings, curve, i)
    ensures GamesIn(Pairings(games, |ratings|)) == |games|
  {
    if games != [] {
      var front, g := games[..|games| - 1], games[|games| - 1];
      PairingsKeepExpected(front, ratings, curve, i);
      MetIsValid(Pairings(front, |ratings|), Lower(g), Upper(g), |ratings|);
      MetStep(Pairings(front, |ratings|), Lower(g), Upper(g), ratings, curve, i);
    }
  }

  lemma {:induction false} NotFoundBefore(pairs: seq<Pairing>, first: nat, second: nat, k: nat)
    requires k <= |pairs| && forall d | 0 <= d < k :: !(pairs[d].first == first && pairs[d].second == second)
    ensures Find(pairs, first, second) >= k
    ensures k < |pairs| && pairs[k].first == first && pairs[k].second == second ==> Find(pairs, first, second) == k
  {
    if k > 0 {
      NotFoundBefore(pairs[1..], first, second, k - 1);
    }
  }

  method AddMeeting(pairs: seq<Pairing>, first: nat, second: nat) returns (pairs': seq<Pairing>)
    ensures pairs' == Met(pairs, first, second)
  {
    var k := 0;
    while k < |pairs| && !(pairs[k].first == first && pairs[k].second == second)
      invariant k <= |pairs| && forall d | 0 <= d < k :: !(pairs[d].first == first && pairs[d].second == second)
    {
      k := k + 1;
    }
    NotFoundBefore(pairs, first, second, k);
    if k < |pairs| {
      pairs' := pairs[k := pairs[k].(count := pairs[k].count + 1)];
    } else {
      pairs' := pairs + [Pairing(first, second, 1)];
    }
  }

  lemma HalfPoints(games: seq<Game>, k: nat, i: nat)
    requires k < |games|
    ensures Score(games[..k + 1], i) as real / 2.0 == Score(games[..k], i) as real / 2.0
      + (if games[k].white == i then games[k].half as real / 2.0 else 0.0)
      + if games[k].black == i then 1.0 - games[k].half as real / 2.0 else 0.0
  {
    assert games[..k + 1][..k] == games[..k];
  }

  /** Scores and game counts after the first `k` games. */
  ghost predicate Tallied(games: seq<Game>, k: nat, n: nat, scores: seq<real>, counts: seq<nat>)
    requires k <= |games|
  {
    && |scores| == |counts| == n
    && (forall i: nat | i < n :: scores[i] == Score(games[..k], i) as real / 2.0 && counts[i] == Count(games[..k], i))
    && SumOf(scores) == k as real
  }

  /** One game more: its two scores add up to one point. */
  method TallyGame(games: seq<Game>, k: nat, n: nat, scores: seq<real>, counts: seq<nat>)
      returns (scores': seq<real>, counts': seq<nat>)
    requires Indexed(games, n) && k < |games| && Tallied(games, k, n, scores, counts)
    ensures Tallied(games, k + 1, n, scores', counts')
  {
    var g := games[k];
    var whiteScore := g.half as real / 2.0;
    assert games[..k + 1][..k] == games[..k];
    forall i: nat | i < n
      ensures Score(games[..k + 1], i) as real / 2.0 == Score(games[..k], i) as real / 2.0
        + (if g.white == i then whiteScore else 0.0) + if g.black == i then 1.0 - whiteScore else 0.0
    {
      HalfPoints(games, k, i);
    }
    scores' := AddBoth(scores, g.white, g.black, whiteScore, 1.0 - whiteScore);
    counts' := counts[g.white := counts[g.white] + 1];
    counts' := counts'[g.black := counts'[g.black] + 1];
  }

  /** Scores, game counts and pairings in one pass. Every game hands out one point in all. */
  method Collect(games: seq<Game>, n: nat) returns (scores: seq<real>, counts: seq<nat>, pairs: seq<Pairing>)
    requires Indexed(games, n)
    ensures |scores| == |counts| == n && pairs == Pairings(games, n)
    ensures forall i: nat | i < n ::
              scores[i] == Score(games, i) as real / 2.0 && counts[i] == Count(games, i) && counts[i] > 0
    ensures SumOf(scores) == |games| as real
  {
    scores, counts, pairs := seq(n, i => 0.0), seq(n, i => 0), [];
    SumZeros(n);
    for k := 0 to |games|
      invariant Tallied(games, k, n, scores, counts) && pairs == Pairings(games[..k], n)
    {
      assert games[..k + 1][..k] == games[..k];
      scores, counts := TallyGame(games, k, n, scores, counts);
      pairs := AddMeeting(pairs, Lower(games[k]), Upper(games[k]));
    }
    assert games[..|games|] == games;
    forall i: nat | i < n
      ensures counts[i] > 0
    {
      CountIsPresence(games, i);
    }
  }

  // ---------------------------------------------------------------- one evaluation

  lemma ShareOfPairing(count: nat, ratings: seq<real>, curve: Logistic, first: nat, second: nat, i: Engine, p: real)
    requires first < |ratings| && second < |ratings| && p == ExpectedScore(curve, ratings[first], ratings[second])
    ensures Weighted(count, Share(ratings, curve, first, second, i))
         == (if first == i then Weighted(count, p) else 0.0) + (if second == i then Weighted(count, 1.0 - p) else 0.0)
  {
    WeightedPlus(count, p, 1.0 - p);
    assert p + (1.0 - p) == 1.0;
  }

  /** One side's expectation and the other's add up to one point a game. */
  lemma WeightedSplit(count: nat, expected: real)
    ensures Weighted(count, expected) + Weighted(count, 1.0 - expected) == count as real
  {
    WeightedPlus(count, expected, 1.0 - expected);
    assert expected + (1.0 - expected) == 1.0;
  }

  /** The expected totals of one pairing, added in place. */
  method AddExpected(expected: seq<real>, p: Pairing, ratings: seq<real>, curve: Logistic)
      returns (expected': seq<real>)
    requires |expected| == |ratings| && p.first < |ratings| && p.second < |ratings|
    ensures |expected'| == |expected|
    ensures forall i: nat | i < |ratings| ::
              expected'[i] == expected[i] + Weighted(p.count, Share(ratings, curve, p.first, p.second, i))
    ensures SumOf(expected') == SumOf(expected) + p.count as real
  {
    var firstExpected := ExpectedScore(curve, ratings[p.first], ratings[p.second]);
    var first := Times(p.count, firstExpected);
    var second := Times(p.count, 1.0 - firstExpected);
    expected' := AddBoth(expected, p.first, p.second, first, second);
    WeightedSplit(p.count, firstExpected);
    forall i: nat | i < |ratings|
      ensures expected'[i] == expected[i] + Weighted(p.count, Share(ratings, curve, p.first, p.second, i))
    {
      ShareOfPairing(p.count, ratings, curve, p.first, p.second, i, firstExpected);
    }
  }

  method Times(count: nat, x: real) returns (product: real)
    ensures product == Weighted(count, x)
  {
    WeightedIsProduct(count, x);
    product := count as real * x;
  }

  method AddBoth(values: seq<real>, i: nat, j: nat, first: real, second: real) returns (values': seq<real>)
    requires i < |values| && j < |values|
    ensures |values'| == |values|
    ensures forall k: nat | k < |values| ::
              values'[k] == values[k] + (if i == k then first else 0.0) + if j == k then second else 0.0
    ensures SumOf(values') == SumOf(values) + first + second
  {
    SumUpdate(values, i, values[i] + first);
    values' := values[i := values[i] + first];
    SumUpdate(values', j, values'[j] + second);
    values' := values'[j := values'[j] + second];
  }

  /** The information of one pairing, added in place. */
  method AddInformation(information: seq<real>, p: Pairing, ratings: seq<real>, curve: Logistic)
      returns (information': seq<real>)
    requires |information| == |ratings| && p.first < |ratings| && p.second < |ratings|
    ensures |information'| == |information|
    ensures forall i: nat | i < |ratings| :: information'[i] == information[i] + Told(p, ratings, curve, i)
  {
    information' := information;
    if p.first != p.second {
      var firstExpected := ExpectedScore(curve, ratings[p.first], ratings[p.second]);
      var amount := Times(p.count, Spread(firstExpected));
      information' := AddBoth(information, p.first, p.second, amount, amount);
    }
  }

  /** Expected totals and information of every engine; the totals add up to the number of games. */
  ghost predicate Evaluated(
    pairs: seq<Pairing>, ratings: seq<real>, curve: Logistic, expected: seq<real>, information: seq<real>)
  {
    && ValidPairs(pairs, |ratings|) && |expected| == |information| == |ratings|
    && (forall i: nat | i < |ratings| :: expected[i] == ExpectedByPairs(pairs, ratings, curve, i))
    && (forall i: nat | i < |ratings| :: information[i] == Information(pairs, ratings, curve, i))
    && SumOf(expected) == GamesIn(pairs) as real
  }

  lemma EvaluatedMore(pairs: seq<Pairing>, k: nat, ratings: seq<real>, curve: Logistic, expected: seq<real>,
                      information: seq<real>, expected': seq<real>, information': seq<real>)
    requires ValidPairs(pairs, |ratings|) && k < |pairs|
    requires Evaluated(pairs[..k], ratings, curve, expected, information)
    requires |expected'| == |information'| == |ratings|
    requires forall i: nat | i < |ratings| ::
               expected'[i] == expected[i]
                 + Weighted(pairs[k].count, Share(ratings, curve, pairs[k].first, pairs[k].second, i))
    requires forall i: nat | i < |ratings| :: information'[i] == information[i] + Told(pairs[k], ratings, curve, i)
    requires SumOf(expected') == SumOf(expected) + pairs[k].count as real
    ensures Evaluated(pairs[..k + 1], ratings, curve, expected', information')
  {
    var more := pairs[..k + 1];
    assert more[..k] == pairs[..k] && more[k] == pairs[k];
  }

  /** Expected totals and information under the current ratings, whatever they are. */
  method Evaluate(pairs: seq<Pairing>, ratings: seq<real>, curve: Logistic)
      returns (expected: seq<real>, information: seq<real>)
    requires ValidPairs(pairs, |ratings|)
    ensures Evaluated(pairs, ratings, curve, expected, information)
  {
    var n := |ratings|;
    expected, information := seq(n, i => 0.0), seq(n, i => 0.0);
    SumZeros(n);
    for k := 0 to |pairs|
      invariant Evaluated(pairs[..k], ratings, curve, expected, information)
    {
      var expected' := AddExpected(expected, pairs[k], ratings, curve);
      var information' := AddInformation(information, pairs[k], ratings, curve);
      EvaluatedMore(pairs, k, ratings, curve, expected, information, expected', information');
      expected, information := expected', information';
    }
    assert pairs[..|pairs|] == pairs;
  }

  // ---------------------------------------------------------------- the loop

  predicate Converged(residual: real, count: nat)
    requires count > 0
  {
    Abs(ELO_SCALE * residual / count as real) < RATING_CONVERGENCE
  }

  /** The test in product form: four hundred times the residual is below a millionth of the games, either way. */
  lemma ConvergedExactlyWhen(residual: real, count: nat)
    requires count > 0
    ensures Converged(residual, count)
      <==> -0.000001 * count as real < 400.0 * residual < 0.000001 * count as real
  {
    var c := count as real;
    var q := ELO_SCALE * residual / c;
    assert q * c == 400.0 * residual;
    assert Converged(residual, count) <==> -0.000001 < q < 0.000001;
    Scaled(q, 0.000001, c);
    Scaled(-0.000001, q, c);
  }

  lemma Scaled(a: real, b: real, c: real)
    requires c > 0.0
    ensures a < b <==> a * c < b * c
  {
    if a < b {
      Positive(b - a, c, (b - a) * c);
    } else if b < a {
      Positive(a - b, c, (a - b) * c);
    }
  }

  lemma ConvergedResidual(residual: real, count: nat)
    requires count > 0 && Converged(residual, count)
    ensures Abs(residual) < count as real * RATING_CONVERGENCE / ELO_SCALE
  {
    var c := count as real;
    var q := ELO_SCALE * residual / c;
    assert q * c == ELO_SCALE * residual;
    ScaledBound(q, RATING_CONVERGENCE, c, q * c);
  }

  lemma ScaledBound(q: real, bound: real, c: real, product: real)
    requires Abs(q) < bound && c > 0.0 && product == q * c
    ensures Abs(product) < bound * c
  {
    assert (bound - q) * c > 0.0;
    assert (bound + q) * c > 0.0;
  }

  /** Residuals that are small everywhere but at one index add up to little more than the one. */
  lemma {:induction false} OthersBound(residuals: seq<real>, counts: seq<nat>, fixed: nat)
    requires |residuals| == |counts|
    requires forall i: nat | i < |counts| && i != fixed :: counts[i] > 0 && Converged(residuals[i], counts[i])
    ensures
      var rest := if fixed < |residuals| then residuals[fixed] else 0.0;
      var bound := OtherGames(counts, fixed) as real * RATING_CONVERGENCE / ELO_SCALE;
      Abs(SumOf(residuals) - rest) <= bound
      && (OtherGames(counts, fixed) > 0 ==> Abs(SumOf(residuals) - rest) < bound)
  {
    if counts != [] {
      var last := |counts| - 1;
      OthersBound(residuals[..last], counts[..last], fixed);
      if last != fixed {
        ConvergedResidual(residuals[last], counts[last]);
      }
    }
  }

  lemma {:induction false} SumDifference(a: seq<real>, b: seq<real>, d: seq<real>)
    requires |a| == |b| == |d| && forall i | 0 <= i < |a| :: d[i] == a[i] - b[i]
    ensures SumOf(d) == SumOf(a) - SumOf(b)
  {
    if a != [] {
      var last := |a| - 1;
      SumDifference(a[..last], b[..last], d[..last]);
    }
  }

  function CountOf(games: seq<Game>, i: nat): nat {
    CountIsPresence(games, i);
    Count(games, i)
  }

  function Counts(games: seq<Game>, n: nat): seq<nat> {
    seq(n, i requires 0 <= i < n => CountOf(games, i))
  }

  /** Actual minus expected total of every engine. */
  function Residuals(games: seq<Game>, ratings: seq<real>, curve: Logistic): seq<real>
    requires Below(games, |ratings|)
  {
    seq(|ratings|, i requires 0 <= i < |ratings| => Score(games, i) as real / 2.0 - Expected(games, ratings, curve, i))
  }

  /** All engines but the fixed one pass the test, and the fixed one, which is never tested, is off by less than
      the others could be together. */
  ghost predicate Balanced(residuals: seq<real>, counts: seq<nat>, fixed: nat)
    requires |residuals| == |counts| && fixed < |residuals|
  {
    var bound := OtherGames(counts, fixed) as real * RATING_CONVERGENCE / ELO_SCALE;
    && (forall i: nat | i < |counts| && i != fixed :: counts[i] > 0 && Converged(residuals[i], counts[i]))
    && Abs(residuals[fixed]) <= bound
    && (|residuals| > 1 ==> Abs(residuals[fixed]) < bound)
  }

  /** When the residuals add up to zero, the fixed engine's is bounded by the others. */
  lemma ZeroSumBalances(residuals: seq<real>, counts: seq<nat>, fixed: nat)
    requires |residuals| == |counts| && fixed < |residuals| && SumOf(residuals) == 0.0
    requires forall i: nat | i < |counts| && i != fixed :: counts[i] > 0 && Converged(residuals[i], counts[i])
    ensures Balanced(residuals, counts, fixed)
  {
    OthersBound(residuals, counts, fixed);
    if |residuals| > 1 {
      OthersPlay(counts, fixed, if fixed == 0 then 1 else 0);
    }
  }

  lemma {:induction false} OthersPlay(counts: seq<nat>, fixed: nat, i: nat)
    requires i < |counts| && i != fixed && counts[i] > 0
    ensures OtherGames(counts, fixed) > 0
  {
    if i < |counts| - 1 {
      OthersPlay(counts[..|counts| - 1], fixed, i);
    }
  }

  function Limited(adjustment: real): real {
    if adjustment > ELO_SCALE then ELO_SCALE else if adjustment < -ELO_SCALE then -ELO_SCALE else adjustment
  }

  /** The largest adjustment that the old formula would make, over all engines but the fixed one. */
  method LargestAdjustment(residuals: seq<real>, counts: seq<nat>, fixed: nat) returns (largest: real)
    requires |residuals| == |counts| && forall i | 0 <= i < |counts| :: counts[i] > 0
    ensures largest < RATING_CONVERGENCE <==>
            forall i | 0 <= i < |counts| && i != fixed :: Converged(residuals[i], counts[i])
  {
    largest := 0.0;
    for i := 0 to |counts|
      invariant largest < RATING_CONVERGENCE <==>
                forall d | 0 <= d < i && d != fixed :: Converged(residuals[d], counts[d])
    {
      if i != fixed {
        var adjustment := Abs(ELO_SCALE * residuals[i] / counts[i] as real);
        if adjustment > largest {
          largest := adjustment;
        }
      }
    }
  }

  /** Half a Newton step, limited either way; without information an engine stays where it is. */
  function Step(rating: real, residual: real, information: real, factor: real): real
    requires factor > 0.0
  {
    if information == 0.0 then rating
    else
      NonZeroProduct(factor, information, factor * information);
      rating + Limited(0.5 * residual / (factor * information))
  }

  /** Half of residual over slope, where that is no more than 400 points, and 400 points where it is more. */
  predicate HalfNewton(move: real, residual: real, slope: real) {
    && slope > 0.0
    && if -800.0 * slope <= residual <= 800.0 * slope then 2.0 * (slope * move) == residual
       else move == if residual > 0.0 then 400.0 else -400.0
  }

  /** The length of a step; without information there is none. */
  lemma StepIsHalfNewton(rating: real, residual: real, information: real, factor: real)
    requires factor > 0.0 && information >= 0.0
    ensures var move := Step(rating, residual, information, factor) - rating;
      if information == 0.0 then move == 0.0 else HalfNewton(move, residual, factor * information)
  {
    if information > 0.0 {
      var slope := factor * information;
      Positive(factor, information, slope);
      var q := 0.5 * residual / slope;
      assert slope * q == 0.5 * residual;
      Compared(q, slope, residual);
    }
  }

  lemma Compared(q: real, slope: real, residual: real)
    requires slope > 0.0 && slope * q == 0.5 * residual
    ensures q > 400.0 <==> residual > 800.0 * slope
    ensures q < -400.0 <==> residual < -800.0 * slope
  {
    assert slope * (q - 400.0) == 0.5 * residual - 400.0 * slope;
    assert slope * (q + 400.0) == 0.5 * residual + 400.0 * slope;
    if q > 400.0 {
      Positive(slope, q - 400.0, slope * (q - 400.0));
    } else if q < 400.0 {
      Positive(slope, 400.0 - q, slope * (400.0 - q));
      assert slope * (400.0 - q) == -(slope * (q - 400.0));
    }
    if q < -400.0 {
      Positive(slope, -400.0 - q, slope * (-400.0 - q));
      assert slope * (-400.0 - q) == -(slope * (q + 400.0));
    } else if q > -400.0 {
      Positive(slope, q + 400.0, slope * (q + 400.0));
    }
  }

  /** No step exceeds the limit, and with information it goes the way of the residual. */
  lemma StepIsLimited(rating: real, residual: real, information: real, factor: real)
    requires factor > 0.0
    ensures Abs(Step(rating, residual, information, factor) - rating) <= ELO_SCALE
    ensures residual == 0.0 ==> Step(rating, residual, information, factor) == rating
    ensures information > 0.0 ==>
              && (residual > 0.0 <==> Step(rating, residual, information, factor) > rating)
              && (residual < 0.0 <==> Step(rating, residual, information, factor) < rating)
  {
    if information != 0.0 {
      NonZeroProduct(factor, information, factor * information);
      QuotientSign(residual, factor * information);
      if information > 0.0 {
        Positive(factor, information, factor * information);
      }
    }
  }

  lemma Positive(a: real, b: real, product: real)
    requires a > 0.0 && b > 0.0 && product == a * b
    ensures product > 0.0
  {
  }

  lemma QuotientSign(residual: real, slope: real)
    requires slope != 0.0
    ensures residual == 0.0 ==> 0.5 * residual / slope == 0.0
    ensures slope > 0.0 ==> (residual > 0.0 <==> 0.5 * residual / slope > 0.0)
    ensures slope > 0.0 ==> (residual < 0.0 <==> 0.5 * residual / slope < 0.0)
  {
    var q := 0.5 * residual / slope;
    assert q * slope == 0.5 * residual;
    if slope > 0.0 {
      if q > 0.0 {
        Positive(q, slope, 0.5 * residual);
      } else if q < 0.0 {
        Positive(-q, slope, -0.5 * residual);
      }
    }
  }

  /** A game of engine `i` against another engine. */
  predicate Meets(g: Game, i: Engine) {
    g.white != g.black && (g.white == i || g.black == i)
  }

  predicate MeetsAnother(games: seq<Game>, i: Engine) {
    exists k :: 0 <= k < |games| && Meets(games[k], i)
  }

  predicate Joins(p: Pairing, i: Engine) {
    p.first != p.second && (p.first == i || p.second == i)
  }

  predicate JoinsAnother(pairs: seq<Pairing>, i: Engine) {
    exists k :: 0 <= k < |pairs| && Joins(pairs[k], i)
  }

  lemma MeetsMore(games: seq<Game>, i: Engine)
    requires games != []
    ensures MeetsAnother(games, i) <==> MeetsAnother(games[..|games| - 1], i) || Meets(games[|games| - 1], i)
  {
    var last := |games| - 1;
    if k :| 0 <= k < |games| && Meets(games[k], i) {
      assert k == last || Meets(games[..last][k], i);
    }
    if k :| 0 <= k < last && Meets(games[..last][k], i) {
      assert Meets(games[k], i);
    }
  }

  /** An engine has an entry with another exactly if they met, and every entry counts at least one game. */
  lemma {:induction false} PairingsJoin(games: seq<Game>, n: nat, i: Engine)
    requires Below(games, n)
    ensures forall k | 0 <= k < |Pairings(games, n)| :: Pairings(games, n)[k].count > 0
    ensures JoinsAnother(Pairings(games, n), i) <==> MeetsAnother(games, i)
  {
    if games != [] {
      var front, g := games[..|games| - 1], games[|games| - 1];
      PairingsJoin(front, n, i);
      JoinsMore(Pairings(front, n), Lower(g), Upper(g), i);
      MeetsMore(games, i);
    }
  }

  lemma JoinsMore(pairs: seq<Pairing>, first: nat, second: nat, i: Engine)
    requires forall k | 0 <= k < |pairs| :: pairs[k].count > 0
    ensures forall k | 0 <= k < |Met(pairs, first, second)| :: Met(pairs, first, second)[k].count > 0
    ensures JoinsAnother(Met(pairs, first, second), i) <==>
      JoinsAnother(pairs, i) || Joins(Pairing(first, second, 1), i)
  {
    var at, met := Find(pairs, first, second), Met(pairs, first, second);
    if k :| 0 <= k < |pairs| && Joins(pairs[k], i) {
      assert Joins(met[k], i);
    }
    assert Joins(met[at], i) <==> Joins(Pairing(first, second, 1), i);
    assert forall k | 0 <= k < |met| && k != at :: met[k] == pairs[k];
  }

  lemma {:induction false} WeightedPositive(count: nat, x: real)
    requires x > 0.0
    ensures Weighted(count, x) >= 0.0 && (count > 0 ==> Weighted(count, x) > 0.0)
  {
    if count > 0 {
      WeightedPositive(count - 1, x);
    }
  }

  lemma SpreadPositive(expected: real)
    requires 0.0 < expected < 1.0
    ensures Spread(expected) > 0.0
  {
    Positive(expected, 1.0 - expected, Spread(expected));
  }

  /** Information is never negative, and there is some exactly if the engine has an entry with another. */
  lemma {:induction false} InformationPositive(pairs: seq<Pairing>, ratings: seq<real>, curve: Logistic, i: Engine)
    requires ValidPairs(pairs, |ratings|) && forall k | 0 <= k < |pairs| :: pairs[k].count > 0
    ensures Information(pairs, ratings, curve, i) >= 0.0
    ensures Information(pairs, ratings, curve, i) > 0.0 <==> JoinsAnother(pairs, i)
  {
    if pairs != [] {
      var last := |pairs| - 1;
      var front, p := pairs[..last], pairs[last];
      InformationPositive(front, ratings, curve, i);
      var expected := ExpectedScore(curve, ratings[p.first], ratings[p.second]);
      SpreadPositive(expected);
      WeightedPositive(p.count, Spread(expected));
      if k :| 0 <= k < last && Joins(front[k], i) {
        assert Joins(pairs[k], i);
      }
      if k :| 0 <= k < |pairs| && Joins(pairs[k], i) {
        assert k == last || Joins(front[k], i);
      }
    }
  }

  /**
   * A round moves every engine but the fixed one that has met another engine strictly toward the score it made, by
   * no more than 400 points; an engine that scores as expected stays.
   */
  lemma RoundMovesTowardTheScore(
    games: seq<Game>, ratings: seq<real>, fixed: nat, curve: Logistic, factor: real, i: nat)
    requires Below(games, |ratings|) && factor > 0.0 && i < |ratings|
    ensures var next, residual := Round(games, ratings, fixed, curve, factor)[i], Residuals(games, ratings, curve)[i];
      && Abs(next - ratings[i]) <= 400.0
      && (i == fixed || residual == 0.0 ==> next == ratings[i])
      && (i != fixed && MeetsAnother(games, i) ==>
            (residual > 0.0 <==> next > ratings[i]) && (residual < 0.0 <==> next < ratings[i]))
  {
    PairingsKeepExpected(games, ratings, curve, i);
    PairingsJoin(games, |ratings|, i);
    InformationPositive(Pairings(games, |ratings|), ratings, curve, i);
    StepIsLimited(ratings[i], Residuals(games, ratings, curve)[i],
                  Information(Pairings(games, |ratings|), ratings, curve, i), factor);
  }

  /** One round of steps; the fixed engine does not move. */
  method Adjust(ratings: seq<real>, residuals: seq<real>, information: seq<real>, fixed: nat, factor: real)
      returns (ratings': seq<real>)
    requires |ratings| == |residuals| == |information| && fixed < |ratings| && factor > 0.0
    ensures |ratings'| == |ratings|
    ensures forall i: nat | i < |ratings| ::
              ratings'[i] == if i == fixed then ratings[i] else Step(ratings[i], residuals[i], information[i], factor)
  {
    ratings' := ratings;
    for i := 0 to |ratings|
      invariant |ratings'| == |ratings|
      invariant forall d | i <= d < |ratings| :: ratings'[d] == ratings[d]
      invariant forall d | 0 <= d < i ::
                  ratings'[d] == if d == fixed then ratings[d]
                    else Step(ratings[d], residuals[d], information[d], factor)
    {
      if i != fixed && information[i] != 0.0 {
        var slope := factor * information[i];
        NonZeroProduct(factor, information[i], slope);
        ratings' := ratings'[i := ratings'[i] + Limited(0.5 * residuals[i] / slope)];
      }
    }
  }

  lemma NonZeroProduct(a: real, b: real, product: real)
    requires a != 0.0 && b != 0.0 && product == a * b
    ensures product != 0.0
  {
  }

  lemma ResidualsMatch(games: seq<Game>, ratings: seq<real>, curve: Logistic, scores: seq<real>, expected: seq<real>,
                       residuals: seq<real>)
    requires Indexed(games, |ratings|) && |scores| == |expected| == |residuals| == |ratings|
    requires ValidPairs(Pairings(games, |ratings|), |ratings|)
    requires forall i: nat | i < |ratings| :: scores[i] == Score(games, i) as real / 2.0
    requires forall i: nat | i < |ratings| ::
      expected[i] == ExpectedByPairs(Pairings(games, |ratings|), ratings, curve, i)
    requires forall i | 0 <= i < |ratings| :: residuals[i] == scores[i] - expected[i]
    ensures residuals == Residuals(games, ratings, curve)
    ensures SumOf(residuals) == SumOf(scores) - SumOf(expected)
  {
    SumDifference(scores, expected, residuals);
    forall i: nat | i < |ratings|
      ensures residuals[i] == Residuals(games, ratings, curve)[i]
    {
      PairingsKeepExpected(games, ratings, curve, i);
    }
  }

  method Differences(a: seq<real>, b: seq<real>) returns (d: seq<real>)
    requires |a| == |b|
    ensures |d| == |a| && forall i | 0 <= i < |a| :: d[i] == a[i] - b[i]
  {
    d := seq(|a|, i requires 0 <= i < |a| => a[i] - b[i]);
  }

  // ---------------------------------------------------------------- the iteration

  /** The ratings after one more round. */
  function Round(games: seq<Game>, ratings: seq<real>, fixed: nat, curve: Logistic, factor: real): (next: seq<real>)
    requires Below(games, |ratings|) && factor > 0.0
    ensures |next| == |ratings|
  {
    PairingsKeepExpected(games, ratings, curve, 0);
    seq(|ratings|, i requires 0 <= i < |ratings| =>
      if i == fixed then ratings[i]
      else Step(ratings[i], Residuals(games, ratings, curve)[i],
                Information(Pairings(games, |ratings|), ratings, curve, i), factor))
  }

  /** The ratings after `k` rounds, starting from zero. */
  function RatingsAfter(games: seq<Game>, n: nat, fixed: nat, curve: Logistic, factor: real, k: nat)
    : (ratings: seq<real>)
    requires Below(games, n) && factor > 0.0
    ensures |ratings| == n && (fixed < n ==> ratings[fixed] == 0.0)
  {
    if k == 0 then seq(n, i => 0.0)
    else Round(games, RatingsAfter(games, n, fixed, curve, factor, k - 1), fixed, curve, factor)
  }

  /** The rounds start from zero, and from each to the next every engine that met another moves toward its score. */
  lemma RoundsFollow(games: seq<Game>, n: nat, fixed: nat, curve: Logistic, factor: real, k: nat, i: nat)
    requires Below(games, n) && factor > 0.0 && i < n
    ensures RatingsAfter(games, n, fixed, curve, factor, 0)[i] == 0.0
    ensures var now := RatingsAfter(games, n, fixed, curve, factor, k);
      var next, residual := RatingsAfter(games, n, fixed, curve, factor, k + 1), Residuals(games, now, curve)[i];
      && (i == fixed ==> next[i] == 0.0)
      && (i != fixed && MeetsAnother(games, i) ==>
            (residual > 0.0 <==> next[i] > now[i]) && (residual < 0.0 <==> next[i] < now[i]))
  {
    RoundMovesTowardTheScore(games, RatingsAfter(games, n, fixed, curve, factor, k), fixed, curve, factor, i);
  }

  /** Every engine but the fixed one passes the convergence test. */
  ghost predicate Settled(games: seq<Game>, ratings: seq<real>, fixed: nat, curve: Logistic)
    requires Below(games, |ratings|)
  {
    forall i: nat | i < |ratings| && i != fixed ::
      CountOf(games, i) > 0 && Converged(Residuals(games, ratings, curve)[i], CountOf(games, i))
  }

  /** The first `k` rounds leave unsettled ratings. */
  ghost predicate UnsettledFor(games: seq<Game>, n: nat, fixed: nat, curve: Logistic, factor: real, k: nat)
    requires Below(games, n) && factor > 0.0
  {
    forall j: nat | j < k :: !Settled(games, RatingsAfter(games, n, fixed, curve, factor, j), fixed, curve)
  }

  /** Round `k` is the first whose ratings settle, and it comes within the limit. */
  ghost predicate SettlesAt(games: seq<Game>, n: nat, fixed: nat, curve: Logistic, factor: real, limit: nat, k: nat)
    requires Below(games, n) && factor > 0.0
  {
    && k < limit && UnsettledFor(games, n, fixed, curve, factor, k)
    && Settled(games, RatingsAfter(games, n, fixed, curve, factor, k), fixed, curve)
  }

  /**
   * Every round's expected total is the total score, the number of games: whatever the ratings are, the residuals
   * add up to zero.
   */
  lemma ResidualsAddToZero(games: seq<Game>, ratings: seq<real>, curve: Logistic, scores: seq<real>,
                           expected: seq<real>, residuals: seq<real>)
    requires Indexed(games, |ratings|) && |scores| == |expected| == |residuals| == |ratings|
    requires ValidPairs(Pairings(games, |ratings|), |ratings|)
    requires forall i: nat | i < |ratings| :: scores[i] == Score(games, i) as real / 2.0
    requires forall i: nat | i < |ratings| ::
      expected[i] == ExpectedByPairs(Pairings(games, |ratings|), ratings, curve, i)
    requires forall i | 0 <= i < |ratings| :: residuals[i] == scores[i] - expected[i]
    requires SumOf(scores) == |games| as real && SumOf(expected) == GamesIn(Pairings(games, |ratings|)) as real
    ensures residuals == Residuals(games, ratings, curve) && SumOf(residuals) == 0.0
  {
    ResidualsMatch(games, ratings, curve, scores, expected, residuals);
    PairingsKeepExpected(games, ratings, curve, 0);
  }

  lemma RoundIs(games: seq<Game>, ratings: seq<real>, fixed: nat, curve: Logistic, factor: real,
                residuals: seq<real>, information: seq<real>, next: seq<real>)
    requires Below(games, |ratings|) && factor > 0.0 && |information| == |next| == |ratings|
    requires residuals == Residuals(games, ratings, curve)
    requires ValidPairs(Pairings(games, |ratings|), |ratings|)
    requires forall i: nat | i < |ratings| ::
      information[i] == Information(Pairings(games, |ratings|), ratings, curve, i)
    requires forall i: nat | i < |ratings| ::
               next[i] == if i == fixed then ratings[i] else Step(ratings[i], residuals[i], information[i], factor)
    ensures next == Round(games, ratings, fixed, curve, factor)
  {
  }

  lemma SettledIs(games: seq<Game>, ratings: seq<real>, fixed: nat, curve: Logistic, residuals: seq<real>,
                  counts: seq<nat>)
    requires Below(games, |ratings|) && residuals == Residuals(games, ratings, curve)
    requires counts == Counts(games, |ratings|) && forall i | 0 <= i < |counts| :: counts[i] > 0
    ensures Settled(games, ratings, fixed, curve) <==>
      forall i | 0 <= i < |counts| && i != fixed :: Converged(residuals[i], counts[i])
  {
    assert forall i | 0 <= i < |counts| :: counts[i] == CountOf(games, i);
  }

  lemma UnsettledMore(games: seq<Game>, n: nat, fixed: nat, curve: Logistic, factor: real, k: nat)
    requires Below(games, n) && factor > 0.0 && UnsettledFor(games, n, fixed, curve, factor, k)
    requires !Settled(games, RatingsAfter(games, n, fixed, curve, factor, k), fixed, curve)
    ensures UnsettledFor(games, n, fixed, curve, factor, k + 1)
  {
  }

  /** Scores, game counts and pairings are those of the games; the scores hand out one point a game. */
  ghost predicate Collected(games: seq<Game>, n: nat, scores: seq<real>, counts: seq<nat>, pairs: seq<Pairing>)
    requires Below(games, n)
  {
    && |scores| == n && counts == Counts(games, n) && pairs == Pairings(games, n)
    && (forall i: nat | i < n :: scores[i] == Score(games, i) as real / 2.0 && counts[i] > 0)
    && SumOf(scores) == |games| as real
  }

  /** One turn of the loop: the convergence test, and the next ratings when it fails. */
  method Turn(games: seq<Game>, ratings: seq<real>, scores: seq<real>, counts: seq<nat>, pairs: seq<Pairing>,
              fixed: nat, curve: Logistic, factor: real)
      returns (settled: bool, next: seq<real>)
    requires Indexed(games, |ratings|) && fixed < |ratings| && factor > 0.0
    requires Collected(games, |ratings|, scores, counts, pairs)
    ensures settled <==> Settled(games, ratings, fixed, curve)
    ensures settled ==> Balanced(Residuals(games, ratings, curve), counts, fixed)
    ensures !settled ==> next == Round(games, ratings, fixed, curve, factor)
  {
    PairingsKeepExpected(games, ratings, curve, 0);
    var expected, information := Evaluate(pairs, ratings, curve);
    var residuals := Differences(scores, expected);
    ResidualsAddToZero(games, ratings, curve, scores, expected, residuals);
    var largest := LargestAdjustment(residuals, counts, fixed);
    SettledIs(games, ratings, fixed, curve, residuals, counts);
    settled, next := largest < RATING_CONVERGENCE, ratings;
    if settled {
      ZeroSumBalances(residuals, counts, fixed);
    } else {
      next := Adjust(ratings, residuals, information, fixed, factor);
      RoundIs(games, ratings, fixed, curve, factor, residuals, information, next);
    }
  }

  /** The ratings of the first settled round, which are balanced and have the fixed engine at zero. */
  ghost predicate Solves(games: seq<Game>, n: nat, fixed: nat, curve: Logistic, factor: real, limit: nat,
                         ratings: seq<real>)
    requires Below(games, n) && factor > 0.0
  {
    && |ratings| == n && fixed < n && ratings[fixed] == 0.0
    && Balanced(Residuals(games, ratings, curve), Counts(games, n), fixed)
    && exists k: nat :: SettlesAt(games, n, fixed, curve, factor, limit, k)
         && ratings == RatingsAfter(games, n, fixed, curve, factor, k)
  }

  lemma SolvesWhenSettled(games: seq<Game>, n: nat, fixed: nat, curve: Logistic, factor: real, limit: nat, k: nat)
    requires Below(games, n) && factor > 0.0 && fixed < n && k < limit
    requires UnsettledFor(games, n, fixed, curve, factor, k)
    requires Settled(games, RatingsAfter(games, n, fixed, curve, factor, k), fixed, curve)
    requires Balanced(Residuals(games, RatingsAfter(games, n, fixed, curve, factor, k), curve), Counts(games, n), fixed)
    ensures Solves(games, n, fixed, curve, factor, limit, RatingsAfter(games, n, fixed, curve, factor, k))
  {
    assert SettlesAt(games, n, fixed, curve, factor, limit, k);
  }

  /** The iteration: the ratings of the first settled round, with the fixed engine at zero, or a report that none of
      the rounds settled. */
  method Iterate(games: seq<Game>, n: nat, fixed: nat, curve: Logistic, factor: real)
      returns (r: Result<(seq<real>, seq<nat>), RatingError>)
    requires Indexed(games, n) && fixed < n && factor > 0.0
    ensures r.Error? ==> r.error == Unstable && UnsettledFor(games, n, fixed, curve, factor, 100000)
    ensures r.Ok? ==>
              Solves(games, n, fixed, curve, factor, 100000, r.value.0) && r.value.1 == Counts(games, n)
  {
    var scores, counts, pairs := Collect(games, n);
    assert counts == Counts(games, n);
    r := Rounds(games, n, scores, counts, pairs, fixed, curve, factor, RATING_ITERATIONS);
  }

  /** The loop has come to this round without settling. */
  ghost predicate Running(games: seq<Game>, n: nat, fixed: nat, curve: Logistic, factor: real, round: nat,
                          ratings: seq<real>)
    requires Below(games, n) && factor > 0.0
  {
    && ratings == RatingsAfter(games, n, fixed, curve, factor, round)
    && UnsettledFor(games, n, fixed, curve, factor, round)
  }

  method TurnAt(games: seq<Game>, n: nat, scores: seq<real>, counts: seq<nat>, pairs: seq<Pairing>,
                fixed: nat, curve: Logistic, factor: real, ghost limit: nat, ghost round: nat, ratings: seq<real>)
      returns (settled: bool, next: seq<real>)
    requires Indexed(games, n) && fixed < n && factor > 0.0 && round < limit
    requires Collected(games, n, scores, counts, pairs)
    requires Running(games, n, fixed, curve, factor, round, ratings)
    ensures settled ==> Solves(games, n, fixed, curve, factor, limit, ratings)
    ensures !settled ==> Running(games, n, fixed, curve, factor, round + 1, next)
  {
    settled, next := Turn(games, ratings, scores, counts, pairs, fixed, curve, factor);
    if settled {
      SolvesWhenSettled(games, n, fixed, curve, factor, limit, round);
    } else {
      UnsettledMore(games, n, fixed, curve, factor, round);
    }
  }

  method Rounds(games: seq<Game>, n: nat, scores: seq<real>, counts: seq<nat>, pairs: seq<Pairing>,
                fixed: nat, curve: Logistic, factor: real, limit: nat)
      returns (r: Result<(seq<real>, seq<nat>), RatingError>)
    requires Indexed(games, n) && fixed < n && factor > 0.0
    requires Collected(games, n, scores, counts, pairs)
    ensures r.Error? ==> r.error == Unstable && UnsettledFor(games, n, fixed, curve, factor, limit)
    ensures r.Ok? ==> Solves(games, n, fixed, curve, factor, limit, r.value.0) && r.value.1 == counts
  {
    var ratings := seq(n, i => 0.0);
    for round := 0 to limit
      invariant Running(games, n, fixed, curve, factor, round, ratings)
    {
      var settled, next := TurnAt(games, n, scores, counts, pairs, fixed, curve, factor, limit, round, ratings);
      if settled {
        return Ok((ratings, counts));
      }
      ratings := next;
    }
    return Error(Unstable);
  }

  /**
   * What a round does to an engine: the fixed one stays, and so does one that met nobody else; any other moves by half
   * its residual over its slope, at most 400 points either way.
   */
  lemma RoundIsHalfNewton(
    games: seq<Game>, ratings: seq<real>, fixed: nat, curve: Logistic, factor: real, i: nat, next: real,
    residual: real, information: real)
    requires Below(games, |ratings|) && factor > 0.0 && i < |ratings|
    requires ValidPairs(Pairings(games, |ratings|), |ratings|)
    requires next == Round(games, ratings, fixed, curve, factor)[i] && residual == Residuals(games, ratings, curve)[i]
    requires information == Information(Pairings(games, |ratings|), ratings, curve, i)
    ensures if i == fixed || !MeetsAnother(games, i) then next == ratings[i]
            else HalfNewton(next - ratings[i], residual, factor * information)
  {
    MetIsInformed(games, ratings, curve, i);
    RoundAt(games, ratings, fixed, curve, factor, i);
    MovedIsHalfNewton(next, ratings[i], residual, information, factor, i == fixed, MeetsAnother(games, i));
  }

  lemma MetIsInformed(games: seq<Game>, ratings: seq<real>, curve: Logistic, i: nat)
    requires Below(games, |ratings|) && ValidPairs(Pairings(games, |ratings|), |ratings|)
    ensures Information(Pairings(games, |ratings|), ratings, curve, i) >= 0.0
    ensures Information(Pairings(games, |ratings|), ratings, curve, i) > 0.0 <==> MeetsAnother(games, i)
  {
    PairingsJoin(games, |ratings|, i);
    InformationPositive(Pairings(games, |ratings|), ratings, curve, i);
  }

  lemma RoundAt(games: seq<Game>, ratings: seq<real>, fixed: nat, curve: Logistic, factor: real, i: nat)
    requires Below(games, |ratings|) && factor > 0.0 && i < |ratings|
    requires ValidPairs(Pairings(games, |ratings|), |ratings|)
    ensures Round(games, ratings, fixed, curve, factor)[i] ==
      if i == fixed then ratings[i]
      else Step(ratings[i], Residuals(games, ratings, curve)[i],
                Information(Pairings(games, |ratings|), ratings, curve, i), factor)
  {
  }

  lemma MovedIsHalfNewton(
    next: real, rating: real, residual: real, information: real, factor: real, fixed: bool, meets: bool)
    requires factor > 0.0 && information >= 0.0 && (information > 0.0 <==> meets)
    requires next == if fixed then rating else Step(rating, residual, information, factor)
    ensures if fixed || !meets then next == rating else HalfNewton(next - rating, residual, factor * information)
  {
    StepIsHalfNewton(rating, residual, information, factor);
  }

  /** The residual of an engine: what it scored, a point a win, less what was expected of it. */
  lemma ResidualIs(games: seq<Game>, ratings: seq<real>, curve: Logistic, i: nat)
    requires Below(games, |ratings|) && i < |ratings|
    ensures 2.0 * (Residuals(games, ratings, curve)[i] + Expected(games, ratings, curve, i)) == Score(games, i) as real
  {
  }

  // ---------------------------------------------------------------- the offset

  lemma {:induction false} ShiftKeepsExpected(games: seq<Game>, a: seq<real>, b: seq<real>, offset: real,
                                              curve: Logistic, i: Engine)
    requires |a| == |b| && forall j | 0 <= j < |a| :: b[j] == a[j] + offset
    requires Below(games, |a|)
    ensures Expected(games, a, curve, i) == Expected(games, b, curve, i)
  {
    if games != [] {
      var g := games[|games| - 1];
      ShiftKeepsExpected(games[..|games| - 1], a, b, offset, curve, i);
      assert a[Lower(g)] - a[Upper(g)] == b[Lower(g)] - b[Upper(g)];
    }
  }

  lemma ShiftKeepsResiduals(games: seq<Game>, a: seq<real>, b: seq<real>, offset: real, curve: Logistic)
    requires |a| == |b| && forall j | 0 <= j < |a| :: b[j] == a[j] + offset
    requires Below(games, |a|)
    ensures Residuals(games, a, curve) == Residuals(games, b, curve)
  {
    forall i: nat | i < |a|
      ensures Residuals(games, a, curve)[i] == Residuals(games, b, curve)[i]
    {
      ShiftKeepsExpected(games, a, b, offset, curve, i);
    }
  }

  /** The differences between the published ratings are those of the first settled round. */
  ghost predicate RatedBy(games: seq<Game>, n: nat, fixed: nat, curve: Logistic, factor: real, limit: nat,
                          elo: seq<real>)
    requires Below(games, n) && factor > 0.0
  {
    |elo| == n && fixed < n
    && exists k: nat :: SettlesAt(games, n, fixed, curve, factor, limit, k)
         && forall i | 0 <= i < n :: elo[i] - elo[fixed] == RatingsAfter(games, n, fixed, curve, factor, k)[i]
  }

  lemma ShiftedIsRated(games: seq<Game>, n: nat, fixed: nat, curve: Logistic, factor: real, limit: nat,
                       ratings: seq<real>, offset: real, elo: seq<real>)
    requires Below(games, n) && factor > 0.0 && |ratings| == |elo| == n && fixed < n
    requires exists k: nat :: SettlesAt(games, n, fixed, curve, factor, limit, k)
               && ratings == RatingsAfter(games, n, fixed, curve, factor, k)
    requires forall i | 0 <= i < n :: elo[i] == ratings[i] + offset
    ensures RatedBy(games, n, fixed, curve, factor, limit, elo)
  {
    var k: nat :| SettlesAt(games, n, fixed, curve, factor, limit, k)
      && ratings == RatingsAfter(games, n, fixed, curve, factor, k);
    assert forall i | 0 <= i < n :: elo[i] - elo[fixed] == RatingsAfter(games, n, fixed, curve, factor, k)[i];
  }

  /** The ratings as published, before rounding: the anchor gets exactly its Elo, or without an effective anchor
      the mean is exactly the default, and the balance of scores and expectations is that of the iteration. */
  ghost predicate Published(games: seq<Game>, n: nat, anchor: Option<nat>, anchorElo: real, curve: Logistic,
                            factor: real, elo: seq<real>)
    requires Below(games, n) && factor > 0.0 && n > 0 && (anchor.Some? ==> anchor.value < n)
  {
    && |elo| == n
    && RatedBy(games, n, FixedIndex(anchor), curve, factor, 100000, elo)
    && (anchor.Some? ==> elo[anchor.value] == anchorElo)
    && (anchor.None? ==> SumOf(elo) == n as real * 1500.0)
    && Balanced(Residuals(games, elo, curve), Counts(games, n), FixedIndex(anchor))
  }

  /** An offset that puts the anchor or the mean in place turns a solution into ratings to publish. */
  lemma ShiftedIsPublished(
    games: seq<Game>, n: nat, anchor: Option<nat>, anchorElo: real, curve: Logistic, factor: real, ratings: seq<real>,
    offset: real, elo: seq<real>)
    requires Below(games, n) && factor > 0.0 && n > 0 && (anchor.Some? ==> anchor.value < n)
    requires Solves(games, n, FixedIndex(anchor), curve, factor, RATING_ITERATIONS, ratings)
    requires |elo| == n && forall i | 0 <= i < n :: elo[i] == ratings[i] + offset
    requires anchor.Some? ==> offset == anchorElo - ratings[anchor.value]
    requires anchor.None? ==> SumOf(ratings) + Weighted(n, offset) == n as real * DEFAULT_ELO
    ensures Published(games, n, anchor, anchorElo, curve, factor, elo)
  {
    SumShift(ratings, elo, offset);
    ShiftKeepsResiduals(games, ratings, elo, offset, curve);
    ShiftedIsRated(games, n, FixedIndex(anchor), curve, factor, RATING_ITERATIONS, ratings, offset, elo);
  }

  method Rate(games: seq<Game>, n: nat, anchor: Option<nat>, anchorElo: real, curve: Logistic, factor: real)
      returns (r: Result<(seq<real>, seq<nat>), RatingError>)
    requires Indexed(games, n) && n > 0 && factor > 0.0 && (anchor.Some? ==> anchor.value < n)
    ensures r.Error? ==>
              r.error == Unstable && UnsettledFor(games, n, FixedIndex(anchor), curve, factor, 100000)
    ensures r.Ok? ==>
              Published(games, n, anchor, anchorElo, curve, factor, r.value.0) && r.value.1 == Counts(games, n)
  {
    var iterated := Iterate(games, n, FixedIndex(anchor), curve, factor);
    if iterated.Error? {
      return Error(iterated.error);
    }
    var ratings, counts := iterated.value.0, iterated.value.1;
    var offset := Offset(ratings, anchor, anchorElo);
    var elo := seq(n, i requires 0 <= i < n => ratings[i] + offset);
    ShiftedIsPublished(games, n, anchor, anchorElo, curve, factor, ratings, offset, elo);
    return Ok((elo, counts));
  }

  method Offset(ratings: seq<real>, anchor: Option<nat>, anchorElo: real) returns (offset: real)
    requires |ratings| > 0 && (anchor.Some? ==> anchor.value < |ratings|)
    ensures anchor.Some? ==> offset == anchorElo - ratings[anchor.value]
    ensures anchor.None? ==> SumOf(ratings) + Weighted(|ratings|, offset) == |ratings| as real * DEFAULT_ELO
  {
    if anchor.Some? {
      return anchorElo - ratings[anchor.value];
    }
    var mean := SumOf(ratings) / |ratings| as real;
    offset := DEFAULT_ELO - mean;
    WeightedIsProduct(|ratings|, offset);
    MeanOffset(|ratings| as real, SumOf(ratings), mean);
  }

  lemma MeanOffset(count: real, sum: real, mean: real)
    requires count > 0.0 && mean == sum / count
    ensures sum + count * (DEFAULT_ELO - mean) == count * DEFAULT_ELO
  {
    assert mean * count == sum;
    assert count * (DEFAULT_ELO - mean) == count * DEFAULT_ELO - count * mean;
  }
}
