/** `_calculate_ratings_together` as a whole: pruning, positions, iteration, offset. */
module EloRatings {
  import opened Wrappers
  import opened EloCurve
  import opened Ordering
  import opened Pruning
  import opened Sums
  import opened Elo

  /** The games with engines replaced by their positions in the list. */
  function Renamed(games: seq<Game>, index: map<Engine, nat>): seq<Game>
    requires forall i | 0 <= i < |games| :: games[i].white in index && games[i].black in index
  {
    seq(|games|, i requires 0 <= i < |games| => Game(index[games[i].white], index[games[i].black], games[i].half))
  }

  function Members(list: seq<Engine>): (s: set<Engine>)
    ensures forall e :: e in s <==> e in list
  {
    set e | e in list
  }

  ghost predicate Indexes(index: map<Engine, nat>, list: seq<Engine>) {
    && (forall e <- index :: index[e] < |list| && list[index[e]] == e)
    && forall i | 0 <= i < |list| :: list[i] in index && index[list[i]] == i
  }

  lemma {:induction false} RenamedScores(games: seq<Game>, index: map<Engine, nat>, list: seq<Engine>, i: nat)
    requires Indexes(index, list) && i < |list|
    requires forall k | 0 <= k < |games| :: games[k].white in index && games[k].black in index
    ensures Score(Renamed(games, index), i) == Score(games, list[i])
    ensures Count(Renamed(games, index), i) == Count(games, list[i])
  {
    if games != [] {
      var front := games[..|games| - 1];
      assert Renamed(games, index)[..|front|] == Renamed(front, index);
      RenamedScores(front, index, list, i);
    }
  }

  lemma {:induction false} PlayersAreEngines(games: seq<Game>, k: nat)
    requires k < |games|
    ensures games[k].white in Engines(games) && games[k].black in Engines(games)
  {
    if k < |games| - 1 {
      PlayersAreEngines(games[..|games| - 1], k);
    }
  }

  lemma RenamedIsIndexed(games: seq<Game>, index: map<Engine, nat>, list: seq<Engine>)
    requires Finished(games) && Indexes(index, list)
    requires forall e :: e in list <==> e in Engines(games)
    requires forall k | 0 <= k < |games| :: games[k].white in index && games[k].black in index
    ensures Indexed(Renamed(games, index), |list|)
  {
    forall i: nat | i < |list|
      ensures i in Engines(Renamed(games, index))
    {
      RenamedScores(games, index, list, i);
      assert list[i] in list;
      CountIsPresence(games, list[i]);
      CountIsPresence(Renamed(games, index), i);
    }
  }

  /** `_calculate_ratings_together`: ratings for exactly the surviving engines. */
  method CalculateTogether(games: seq<Game>, anchor: Option<Engine>, anchorElo: real, curve: Logistic, factor: real)
      returns (r: Result<Ratings, RatingError>)
    requires Finished(games) && factor > 0.0
    ensures r == Error(AnchorMissing) <==> games != [] && anchor.Some? && anchor.value !in Engines(games)
    ensures r == Error(Unstable) <==> r != Error(AnchorMissing) && NeverSettles(games, anchor, curve, factor)
    ensures r.Ok? ==>
              RatingsOk(games, anchor, anchorElo, r.value) && SettledRatings(games, anchor, curve, factor, r.value)
  {
    var original := EnginesOf(games);
    if original == {} {
      NoEnginesNoGames(games);
      EmptySurvives();
      r := Ok(Ratings([], [], []));
      SettledOrNever(games, anchor, curve, factor, anchorElo, r.value);
      return;
    }
    if anchor.Some? && anchor.value !in original {
      return Error(AnchorMissing);
    }
    var remaining := CalculableGames(games);
    r := RateSurvivors(games, remaining, anchor, anchorElo, curve, factor);
    if r.Ok? {
      SettledOrNever(games, anchor, curve, factor, anchorElo, r.value);
    }
  }

  method RateSurvivors(ghost games: seq<Game>, remaining: seq<Game>, anchor: Option<Engine>, anchorElo: real,
                       curve: Logistic, factor: real) returns (r: Result<Ratings, RatingError>)
    requires Finished(games) && factor > 0.0
    requires remaining == Induced(games, Engines(remaining)) && Survivors(games, Engines(remaining))
    ensures r.Error? ==> r.error == Unstable && NeverSettles(games, anchor, curve, factor)
    ensures r.Ok? ==>
              RatingsOk(games, anchor, anchorElo, r.value) && SettledRatings(games, anchor, curve, factor, r.value)
  {
    InducedFinished(games, Engines(remaining));
    var playing := EnginesOf(remaining);
    var engines := Sorted(playing);
    assert Members(engines) == playing;
    if engines == [] {
      return Ok(Ratings([], [], []));
    }
    var index, indexed := IndexGames(remaining, engines);
    TranslatesAll(games, remaining, engines, index, indexed);
    var effective := if anchor.Some? && anchor.value in index then Some(index[anchor.value]) else None;
    var rated := Rate(indexed, |engines|, effective, anchorElo, curve, factor);
    if rated.Error? {
      assert Translates(games, engines, index, indexed)
        && UnsettledFor(indexed, |engines|, FixedAt(anchor, index), curve, factor, 100000);
      return Error(rated.error);
    }
    r := Ok(Ratings(engines, rated.value.0, rated.value.1));
    RatingsFit(games, remaining, index, effective, anchor, anchorElo, r.value);
    SettledFit(games, index, indexed, anchor, curve, factor, r.value);
  }

  lemma TranslatesAll(games: seq<Game>, remaining: seq<Game>, list: seq<Engine>, index: map<Engine, nat>,
                      indexed: seq<Game>)
    requires remaining == Induced(games, Engines(remaining)) && Survivors(games, Engines(remaining))
    requires Ascends(list) && forall e :: e in list <==> e in Engines(remaining)
    requires Indexes(index, list)
    requires forall k | 0 <= k < |remaining| :: remaining[k].white in index && remaining[k].black in index
    requires indexed == Renamed(remaining, index) && Below(indexed, |list|)
    ensures Translates(games, list, index, indexed)
  {
    var survivors := Members(list);
    assert survivors == Engines(remaining);
    assert Induced(games, survivors) == remaining;
    assert Survivors(games, survivors);
  }

  lemma SettledFit(games: seq<Game>, index: map<Engine, nat>, indexed: seq<Game>, anchor: Option<Engine>,
                   curve: Logistic, factor: real, ratings: Ratings)
    requires factor > 0.0 && Translates(games, ratings.engines, index, indexed)
    requires RatedBy(indexed, |ratings.engines|, FixedAt(anchor, index), curve, factor, 100000, ratings.elo)
    requires Balanced(Residuals(indexed, ratings.elo, curve), Counts(indexed, |ratings.engines|),
                      FixedAt(anchor, index))
    ensures SettledRatings(games, anchor, curve, factor, ratings)
  {
    assert SettledWith(games, anchor, curve, factor, ratings, index, indexed);
  }

  /** The survivors' games with engines replaced by their positions in the ascending list of survivors. */
  ghost predicate Translates(games: seq<Game>, list: seq<Engine>, index: map<Engine, nat>, indexed: seq<Game>) {
    var survivors := Members(list);
    var remaining := Induced(games, survivors);
    && Ascends(list) && Survivors(games, survivors) && Indexes(index, list)
    && (forall k | 0 <= k < |remaining| :: remaining[k].white in index && remaining[k].black in index)
    && indexed == Renamed(remaining, index) && Below(indexed, |list|)
  }

  /** The position that stays fixed: the anchor's when it survives, and otherwise the first. */
  function FixedAt(anchor: Option<Engine>, index: map<Engine, nat>): nat {
    if anchor.Some? && anchor.value in index then index[anchor.value] else 0
  }

  lemma SurvivingAnchorIsFixed(engines: seq<Engine>, index: map<Engine, nat>, anchor: Engine)
    requires Indexes(index, engines) && anchor in index
    ensures FixedAt(Some(anchor), index) < |engines| && engines[FixedAt(Some(anchor), index)] == anchor
    ensures FixedAt(None, index) == 0
  {
  }

  /** No round of the iteration over the survivors' games settles. */
  ghost predicate NeverSettles(games: seq<Game>, anchor: Option<Engine>, curve: Logistic, factor: real)
    requires factor > 0.0
  {
    exists list, index, indexed :: Translates(games, list, index, indexed)
      && UnsettledFor(indexed, |list|, FixedAt(anchor, index), curve, factor, 100000)
  }

  /**
   * The ratings differ from one another as those of the first settled round do, and scores and expectations balance:
   * every engine passes the test or, if fixed and so never tested, is off by less than the others together.
   */
  ghost predicate SettledRatings(games: seq<Game>, anchor: Option<Engine>, curve: Logistic, factor: real,
                                 ratings: Ratings)
    requires factor > 0.0
  {
    ratings.engines == [] || exists index, indexed :: SettledWith(games, anchor, curve, factor, ratings, index, indexed)
  }

  ghost predicate SettledWith(games: seq<Game>, anchor: Option<Engine>, curve: Logistic, factor: real, ratings: Ratings,
                              index: map<Engine, nat>, indexed: seq<Game>)
    requires factor > 0.0
  {
    && Translates(games, ratings.engines, index, indexed)
    && RatedBy(indexed, |ratings.engines|, FixedAt(anchor, index), curve, factor, 100000, ratings.elo)
    && Balanced(Residuals(indexed, ratings.elo, curve), Counts(indexed, |ratings.engines|), FixedAt(anchor, index))
  }

  // ---------------------------------------------------------------- the result is determined

  lemma SameSurvivors(games: seq<Game>, a: seq<Engine>, b: seq<Engine>)
    requires Ascends(a) && Survivors(games, Members(a))
    requires Ascends(b) && Survivors(games, Members(b))
    ensures a == b
  {
    assert SelfSustaining(games, Members(a)) && SelfSustaining(games, Members(b));
    assert Members(a) <= Members(b) <= Members(a);
    forall e
      ensures e in a <==> e in b
    {
      assert e in Members(a) <==> e in Members(b);
    }
    AscendingIsUnique(a, b);
  }

  /** The survivors' games are translated in one way only. */
  lemma TranslatesOnce(games: seq<Game>, list: seq<Engine>, index: map<Engine, nat>, indexed: seq<Game>,
                       list': seq<Engine>, index': map<Engine, nat>, indexed': seq<Game>)
    requires Translates(games, list, index, indexed) && Translates(games, list', index', indexed')
    ensures list == list' && index == index' && indexed == indexed'
  {
    SameSurvivors(games, list, list');
    forall e
      ensures e in index <==> e in list
      ensures e in index' <==> e in list
    {
    }
    forall e | e in index
      ensures index[e] == index'[e]
    {
      assert list[index[e]] == e;
    }
    assert index == index';
  }

  /** Ratings are given out only when the iteration settles. */
  lemma SettledOrNever(
    games: seq<Game>, anchor: Option<Engine>, curve: Logistic, factor: real, anchorElo: real, ratings: Ratings)
    requires factor > 0.0
    requires RatingsOk(games, anchor, anchorElo, ratings) && SettledRatings(games, anchor, curve, factor, ratings)
    ensures !NeverSettles(games, anchor, curve, factor)
  {
    forall list, index, indexed | Translates(games, list, index, indexed)
      ensures !UnsettledFor(indexed, |list|, FixedAt(anchor, index), curve, factor, 100000)
    {
      var fixed := FixedAt(anchor, index);
      if ratings.engines == [] {
        SameSurvivors(games, list, ratings.engines);
        assert Settled(indexed, RatingsAfter(indexed, |list|, fixed, curve, factor, 0), fixed, curve);
      } else {
        var index', indexed' :| SettledWith(games, anchor, curve, factor, ratings, index', indexed');
        TranslatesOnce(games, list, index, indexed, ratings.engines, index', indexed');
      }
    }
  }

  /** The first settled round is one round. */
  lemma SettlesOnce(games: seq<Game>, n: nat, fixed: nat, curve: Logistic, factor: real, limit: nat, k: nat, k': nat)
    requires Below(games, n) && factor > 0.0
    requires SettlesAt(games, n, fixed, curve, factor, limit, k) && SettlesAt(games, n, fixed, curve, factor, limit, k')
    ensures k == k'
  {
  }

  /** Nothing about the ratings is left open: the games, the anchor and the curve determine them. */
  lemma RatingsAreDetermined(
    games: seq<Game>, anchor: Option<Engine>, curve: Logistic, factor: real, anchorElo: real, a: Ratings, b: Ratings)
    requires factor > 0.0
    requires RatingsOk(games, anchor, anchorElo, a) && SettledRatings(games, anchor, curve, factor, a)
    requires RatingsOk(games, anchor, anchorElo, b) && SettledRatings(games, anchor, curve, factor, b)
    ensures a.engines == b.engines && a.counts == b.counts && a.elo == b.elo
  {
    SameCounts(games, anchor, anchorElo, a, b);
    if a.engines != [] {
      var index, fixed := SettledAlike(games, anchor, curve, factor, a, b);
      SamePlacement(games, anchor, anchorElo, a, b, index, fixed);
    }
  }

  lemma SamePlacement(games: seq<Game>, anchor: Option<Engine>, anchorElo: real, a: Ratings, b: Ratings,
                      index: map<Engine, nat>, fixed: nat)
    requires RatingsOk(games, anchor, anchorElo, a) && RatingsOk(games, anchor, anchorElo, b)
    requires a.engines == b.engines != [] && Indexes(index, a.engines) && fixed == FixedAt(anchor, index)
    requires |a.elo| == |b.elo| == |a.engines| && fixed < |a.elo|
    requires forall i | 0 <= i < |a.elo| :: a.elo[i] - a.elo[fixed] == b.elo[i] - b.elo[fixed]
    ensures a.elo == b.elo
  {
    Placement(games, anchor, anchorElo, a, index);
    Placement(games, anchor, anchorElo, b, index);
    SameElo(a.elo, b.elo, fixed);
  }

  lemma SameCounts(games: seq<Game>, anchor: Option<Engine>, anchorElo: real, a: Ratings, b: Ratings)
    requires RatingsOk(games, anchor, anchorElo, a) && RatingsOk(games, anchor, anchorElo, b)
    ensures a.engines == b.engines && a.counts == b.counts && |a.elo| == |b.elo| == |a.engines|
  {
    SameSurvivors(games, a.engines, b.engines);
  }

  lemma SettledAlike(games: seq<Game>, anchor: Option<Engine>, curve: Logistic, factor: real, a: Ratings, b: Ratings)
    returns (index: map<Engine, nat>, fixed: nat)
    requires factor > 0.0 && a.engines == b.engines != []
    requires SettledRatings(games, anchor, curve, factor, a) && SettledRatings(games, anchor, curve, factor, b)
    ensures Indexes(index, a.engines) && fixed == FixedAt(anchor, index)
    ensures |a.elo| == |b.elo| == |a.engines| && fixed < |a.elo|
    ensures forall i | 0 <= i < |a.elo| :: a.elo[i] - a.elo[fixed] == b.elo[i] - b.elo[fixed]
  {
    var i, g :| SettledWith(games, anchor, curve, factor, a, i, g);
    var i', g' :| SettledWith(games, anchor, curve, factor, b, i', g');
    index, fixed := i, FixedAt(anchor, i);
    TranslatedAlike(games, a.engines, anchor, curve, factor, i, g, a.elo, i', g', b.elo);
  }

  lemma TranslatedAlike(
    games: seq<Game>, list: seq<Engine>, anchor: Option<Engine>, curve: Logistic, factor: real,
    index: map<Engine, nat>, indexed: seq<Game>, a: seq<real>,
    index': map<Engine, nat>, indexed': seq<Game>, b: seq<real>)
    requires factor > 0.0
    requires Translates(games, list, index, indexed) && Translates(games, list, index', indexed')
    requires RatedBy(indexed, |list|, FixedAt(anchor, index), curve, factor, 100000, a)
    requires RatedBy(indexed', |list|, FixedAt(anchor, index'), curve, factor, 100000, b)
    ensures var fixed := FixedAt(anchor, index);
      |a| == |b| == |list| && fixed < |a| && forall i | 0 <= i < |a| :: a[i] - a[fixed] == b[i] - b[fixed]
  {
    TranslatesOnce(games, list, index, indexed, list, index', indexed');
    SameDifferences(indexed, |list|, FixedAt(anchor, index), curve, factor, a, b);
  }

  /** Where the offset puts the ratings. */
  lemma Placement(games: seq<Game>, anchor: Option<Engine>, anchorElo: real, r: Ratings, index: map<Engine, nat>)
    requires RatingsOk(games, anchor, anchorElo, r) && r.engines != [] && Indexes(index, r.engines)
    ensures |r.elo| == |r.engines|
    ensures if anchor.Some? && anchor.value in index
            then index[anchor.value] < |r.elo| && r.elo[index[anchor.value]] == anchorElo
            else SumOf(r.elo) == |r.elo| as real * 1500.0
  {
    if anchor.Some? && anchor.value in index {
      assert r.engines[index[anchor.value]] == anchor.value;
    } else {
      assert forall i | 0 <= i < |r.engines| :: r.engines[i] in index;
    }
  }

  /** Ratings with the same differences are the same, if one of them is, or their sums are. */
  lemma SameElo(a: seq<real>, b: seq<real>, fixed: nat)
    requires |a| == |b| && fixed < |a| && (a[fixed] == b[fixed] || SumOf(a) == SumOf(b))
    requires forall i | 0 <= i < |a| :: a[i] - a[fixed] == b[i] - b[fixed]
    ensures a == b
  {
    if SumOf(a) == SumOf(b) {
      SameMean(a, b, fixed);
    }
  }

  lemma SameDifferences(
    games: seq<Game>, n: nat, fixed: nat, curve: Logistic, factor: real, a: seq<real>, b: seq<real>)
    requires Below(games, n) && factor > 0.0
    requires RatedBy(games, n, fixed, curve, factor, 100000, a)
    requires RatedBy(games, n, fixed, curve, factor, 100000, b)
    ensures |a| == |b| == n && fixed < n && forall i | 0 <= i < n :: a[i] - a[fixed] == b[i] - b[fixed]
  {
    var k: nat :| SettlesAt(games, n, fixed, curve, factor, 100000, k)
      && forall i | 0 <= i < n :: a[i] - a[fixed] == RatingsAfter(games, n, fixed, curve, factor, k)[i];
    var k': nat :| SettlesAt(games, n, fixed, curve, factor, 100000, k')
      && forall i | 0 <= i < n :: b[i] - b[fixed] == RatingsAfter(games, n, fixed, curve, factor, k')[i];
    SettlesOnce(games, n, fixed, curve, factor, 100000, k, k');
  }

  /** Ratings with the same differences and the same sum are the same. */
  lemma SameMean(a: seq<real>, b: seq<real>, fixed: nat)
    requires |a| == |b| && fixed < |a| && SumOf(a) == SumOf(b)
    requires forall i | 0 <= i < |a| :: a[i] - a[fixed] == b[i] - b[fixed]
    ensures a == b
  {
    var offset := b[fixed] - a[fixed];
    SumShift(a, b, offset);
    WeightedIsProduct(|a|, offset);
    NoneTimes(|a| as real, offset);
  }

  lemma NoneTimes(count: real, x: real)
    requires count > 0.0 && count * x == 0.0
    ensures x == 0.0
  {
  }

  /** Positions translated back: what holds of the positions holds of the engines. */
  lemma RatingsFit(games: seq<Game>, remaining: seq<Game>, index: map<Engine, nat>, effective: Option<nat>,
                   anchor: Option<Engine>, anchorElo: real, ratings: Ratings)
    requires remaining == Induced(games, Engines(remaining)) && Survivors(games, Engines(remaining))
    requires Ascends(ratings.engines) && forall e :: e in ratings.engines <==> e in Engines(remaining)
    requires Indexes(index, ratings.engines) && (forall e :: e in index <==> e in ratings.engines)
    requires forall k | 0 <= k < |remaining| :: remaining[k].white in index && remaining[k].black in index
    requires effective == if anchor.Some? && anchor.value in index then Some(index[anchor.value]) else None
    requires |ratings.elo| == |ratings.engines|
    requires ratings.counts == Counts(Renamed(remaining, index), |ratings.engines|)
    requires effective.Some? ==> ratings.elo[effective.value] == anchorElo
    requires effective.None? ==> SumOf(ratings.elo) == |ratings.engines| as real * DEFAULT_ELO
    ensures RatingsOk(games, anchor, anchorElo, ratings)
  {
    var survivors := Members(ratings.engines);
    assert survivors == Engines(remaining);
    forall i | 0 <= i < |ratings.engines|
      ensures ratings.counts[i] == Count(remaining, ratings.engines[i])
      ensures anchor == Some(ratings.engines[i]) ==> ratings.elo[i] == anchorElo
    {
      RenamedScores(remaining, index, ratings.engines, i);
      assert ratings.engines[i] in index && index[ratings.engines[i]] == i;
    }
    assert Survivors(games, survivors);
    assert anchor.None? || anchor.value !in survivors ==> effective.None?;
  }

  /** Replaces engines by their positions in the ascending list. */
  method IndexGames(games: seq<Game>, engines: seq<Engine>) returns (index: map<Engine, nat>, indexed: seq<Game>)
    requires Finished(games) && Ascends(engines) && forall e :: e in engines <==> e in Engines(games)
    ensures Indexes(index, engines) && Indexed(indexed, |engines|)
    ensures forall e :: e in index <==> e in engines
    ensures forall k | 0 <= k < |games| :: games[k].white in index && games[k].black in index
    ensures indexed == Renamed(games, index)
  {
    index := map e | e in engines :: IndexOf(engines, e);
    IndexesAll(engines, index, Engines(games));
    forall k | 0 <= k < |games|
      ensures games[k].white in index && games[k].black in index
    {
      PlayersAreEngines(games, k);
    }
    RenamedIsIndexed(games, index, engines);
    indexed := Renamed(games, index);
  }

  /** The survivors in ascending order with their game counts; the anchor at its Elo, or the mean at the default. */
  ghost predicate RatingsOk(games: seq<Game>, anchor: Option<Engine>, anchorElo: real, ratings: Ratings) {
    var survivors := Members(ratings.engines);
    && Ascends(ratings.engines) && |ratings.engines| == |ratings.elo| == |ratings.counts|
    && Survivors(games, survivors)
    && (forall i | 0 <= i < |ratings.engines| ::
      ratings.counts[i] == Count(Induced(games, survivors), ratings.engines[i]))
    && (forall i | 0 <= i < |ratings.engines| && anchor == Some(ratings.engines[i]) :: ratings.elo[i] == anchorElo)
    && (ratings.engines != [] && (anchor.None? || anchor.value !in survivors) ==>
          SumOf(ratings.elo) == |ratings.elo| as real * DEFAULT_ELO)
  }

  method EnginesOf(games: seq<Game>) returns (engines: set<Engine>)
    ensures engines == Engines(games)
  {
    engines := {};
    for i := 0 to |games|
      invariant engines == Engines(games[..i])
    {
      assert games[..i + 1][..i] == games[..i];
      engines := engines + {games[i].white, games[i].black};
    }
    assert games[..|games|] == games;
  }

  function IndexOf(list: seq<Engine>, e: Engine): (i: nat)
    requires e in list
    ensures i < |list| && list[i] == e
  {
    if list[0] == e then 0 else 1 + IndexOf(list[1..], e)
  }

  lemma IndexesAll(list: seq<Engine>, index: map<Engine, nat>, all: set<Engine>)
    requires Ascends(list) && forall e :: e in list <==> e in all
    requires index.Keys == all && forall e <- all :: index[e] == IndexOf(list, e)
    ensures Indexes(index, list)
  {
    forall i | 0 <= i < |list|
      ensures list[i] in index && index[list[i]] == i
    {
      assert list[i] in list;
    }
  }

  lemma NoEnginesNoGames(games: seq<Game>)
    ensures games != [] ==> Engines(games) != {}
  {
    if games != [] {
      assert games[|games| - 1].white in Engines(games);
    }
  }

  lemma EmptySurvives()
    ensures Survivors([], {})
  {
    forall s: set<Engine> | SelfSustaining([], s)
      ensures s <= {}
    {
      SustainingAreEngines([], s);
    }
  }
}
