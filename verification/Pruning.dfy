/** Which games can be rated: engines that won everything or nothing are removed until none is left. */
module Pruning {

  type Engine = nat

  /** A finished game; `half` is white's score in half points. */
  datatype Game = Game(white: Engine, black: Engine, half: nat)

  predicate Finished(games: seq<Game>) {
    forall i | 0 <= i < |games| :: games[i].half <= 2
  }

  // ---------------------------------------------------------------- specification

  /** The half points that one game gives an engine (an engine may play itself). */
  function Points(g: Game, e: Engine): int {
    (if g.white == e then g.half else 0) + if g.black == e then 2 - g.half else 0
  }

  /** A game, lost, drawn or won by white, shares out two half points: what white scored, and the rest to black. */
  lemma TwoHalves(g: Game, e: Engine)
    ensures Finished([g]) <==> g.half in {0, 1, 2}
    ensures g.white != g.black ==> Points(g, g.white) == g.half && Points(g, g.black) == 2 - g.half
    ensures g.white == g.black ==> Points(g, g.white) == 2
    ensures e !in {g.white, g.black} ==> Points(g, e) == 0
  {
    assert [g][0] == g;
  }

  function Sides(g: Game, e: Engine): int {
    (if g.white == e then 1 else 0) + if g.black == e then 1 else 0
  }

  function Score(games: seq<Game>, e: Engine): int {
    if games == [] then 0 else Score(games[..|games| - 1], e) + Points(games[|games| - 1], e)
  }

  function Count(games: seq<Game>, e: Engine): int {
    if games == [] then 0 else Count(games[..|games| - 1], e) + Sides(games[|games| - 1], e)
  }

  predicate Within(g: Game, engines: set<Engine>) {
    g.white in engines && g.black in engines
  }

  /** The games between members of a set, in order. */
  function Induced(games: seq<Game>, engines: set<Engine>): seq<Game> {
    if games == [] then []
    else
      var last := games[|games| - 1];
      Induced(games[..|games| - 1], engines) + if Within(last, engines) then [last] else []
  }

  function Engines(games: seq<Game>): set<Engine> {
    if games == [] then {} else Engines(games[..|games| - 1]) + {games[|games| - 1].white, games[|games| - 1].black}
  }

  /** The engine has scored something, and not everything. */
  ghost predicate Rated(games: seq<Game>, e: Engine) {
    0 < Score(games, e) < 2 * Count(games, e)
  }

  /** Among themselves all members have scored something and not everything. */
  ghost predicate SelfSustaining(games: seq<Game>, engines: set<Engine>) {
    forall e <- engines :: Rated(Induced(games, engines), e)
  }

  /** The self-sustaining set that contains all others. */
  ghost predicate Survivors(games: seq<Game>, engines: set<Engine>) {
    SelfSustaining(games, engines) && forall s: set<Engine> | SelfSustaining(games, s) :: s <= engines
  }

  // ---------------------------------------------------------------- facts about induced games

  lemma {:induction false} InducedFinished(games: seq<Game>, engines: set<Engine>)
    requires Finished(games)
    ensures Finished(Induced(games, engines)) && |Induced(games, engines)| <= |games|
  {
    if games != [] {
      InducedFinished(games[..|games| - 1], engines);
    }
  }

  /** Points an engine lost: what its opponents got. */
  function Lost(games: seq<Game>, e: Engine): int {
    2 * Count(games, e) - Score(games, e)
  }

  /** The engine takes a half point or more from this game. */
  predicate Gains(g: Game, e: Engine) {
    (g.white == e && g.half > 0) || (g.black == e && g.half < 2)
  }

  /** The engine gives one away. */
  predicate Concedes(g: Game, e: Engine) {
    (g.white == e && g.half < 2) || (g.black == e && g.half > 0)
  }

  lemma {:induction false} GainsAddUp(games: seq<Game>, e: Engine)
    requires Finished(games)
    ensures Score(games, e) >= 0 && Lost(games, e) >= 0
    ensures Score(games, e) > 0 <==> exists i :: 0 <= i < |games| && Gains(games[i], e)
    ensures Lost(games, e) > 0 <==> exists i :: 0 <= i < |games| && Concedes(games[i], e)
  {
    if games != [] {
      var last := |games| - 1;
      GainsAddUp(games[..last], e);
      assert forall i | 0 <= i < last :: games[..last][i] == games[i];
      assert Gains(games[last], e) <==> Points(games[last], e) > 0;
      assert Concedes(games[last], e) <==> 2 * Sides(games[last], e) - Points(games[last], e) > 0;
    }
  }

  /** An engine can be rated exactly if it has gained something in some game and conceded something in some game. */
  lemma RatedExactlyWhen(games: seq<Game>, e: Engine)
    requires Finished(games)
    ensures Rated(games, e) <==>
      && (exists i :: 0 <= i < |games| && Gains(games[i], e))
      && exists i :: 0 <= i < |games| && Concedes(games[i], e)
  {
    GainsAddUp(games, e);
  }

  lemma InducedStep(front: seq<Game>, last: Game, s: set<Engine>, e: Engine)
    ensures Score(Induced(front + [last], s), e) == Score(Induced(front, s), e)
      + if Within(last, s) then Points(last, e) else 0
    ensures Lost(Induced(front + [last], s), e)
         == Lost(Induced(front, s), e) + if Within(last, s) then 2 * Sides(last, e) - Points(last, e) else 0
  {
    assert (front + [last])[..|front|] == front;
    AppendScore(Induced(front, s), last, e);
  }

  /** More opponents give more points and lose more points. */
  lemma {:induction false} InducedMonotone(games: seq<Game>, s: set<Engine>, t: set<Engine>, e: Engine)
    requires Finished(games) && s <= t
    ensures 0 <= Score(Induced(games, s), e) <= Score(Induced(games, t), e)
    ensures 0 <= Lost(Induced(games, s), e) <= Lost(Induced(games, t), e)
  {
    if games != [] {
      var front, last := games[..|games| - 1], games[|games| - 1];
      InducedMonotone(front, s, t, e);
      assert games == front + [last];
      InducedStep(front, last, s, e);
      InducedStep(front, last, t, e);
    }
  }

  lemma AppendScore(games: seq<Game>, g: Game, e: Engine)
    ensures Score(games + [g], e) == Score(games, e) + Points(g, e)
    ensures Count(games + [g], e) == Count(games, e) + Sides(g, e)
    ensures Score(games + [], e) == Score(games, e) && Count(games + [], e) == Count(games, e)
  {
    assert (games + [g])[..|games|] == games;
    assert games + [] == games;
  }

  lemma {:induction false} InducedTwice(games: seq<Game>, t: set<Engine>, excluded: set<Engine>)
    ensures Keep(Induced(games, t), excluded) == Induced(games, t - excluded)
  {
    if games != [] {
      var front, last := games[..|games| - 1], games[|games| - 1];
      InducedTwice(front, t, excluded);
      if Within(last, t) {
        assert Induced(games, t)[..|Induced(front, t)|] == Induced(front, t);
      } else {
        assert Induced(games, t) == Induced(front, t);
      }
    }
  }

  /** The games whose players are both not excluded. */
  function Keep(games: seq<Game>, excluded: set<Engine>): seq<Game> {
    if games == [] then []
    else
      var last := games[|games| - 1];
      Keep(games[..|games| - 1], excluded) + if last.white !in excluded && last.black !in excluded then [last] else []
  }

  lemma {:induction false} KeepShrinks(games: seq<Game>, excluded: set<Engine>)
    ensures |Keep(games, excluded)| <= |games|
    ensures Engines(games) * excluded != {} ==> |Keep(games, excluded)| < |games|
  {
    if games != [] {
      KeepShrinks(games[..|games| - 1], excluded);
    }
  }

  lemma {:induction false} CountIsPresence(games: seq<Game>, e: Engine)
    ensures Count(games, e) >= 0
    ensures Count(games, e) > 0 <==> e in Engines(games)
  {
    if games != [] {
      CountIsPresence(games[..|games| - 1], e);
    }
  }

  lemma EnginesOfAppend(games: seq<Game>, g: Game)
    ensures Engines(games + [g]) == Engines(games) + {g.white, g.black}
  {
    assert (games + [g])[..|games|] == games;
  }

  lemma {:induction false} InducedEngines(games: seq<Game>, t: set<Engine>)
    ensures Engines(Induced(games, t)) <= t
  {
    if games != [] {
      var front, last := games[..|games| - 1], games[|games| - 1];
      InducedEngines(front, t);
      EnginesOfAppend(Induced(front, t), last);
      assert !Within(last, t) ==> Induced(games, t) == Induced(front, t);
    }
  }

  /** Dropping members who play no induced game changes nothing. */
  lemma {:induction false} InducedBetween(games: seq<Game>, s: set<Engine>, t: set<Engine>)
    requires Engines(Induced(games, t)) <= s <= t
    ensures Induced(games, s) == Induced(games, t)
  {
    if games != [] {
      var front, last := games[..|games| - 1], games[|games| - 1];
      EnginesOfAppend(Induced(front, t), last);
      assert !Within(last, t) ==> Induced(games, t) == Induced(front, t);
      InducedBetween(front, s, t);
    }
  }

  // ---------------------------------------------------------------- the loop

  /** `totals[e] += x`, with a missing entry counted as zero. */
  function Bump(totals: map<Engine, int>, e: Engine, x: int): map<Engine, int> {
    totals[e := (if e in totals then totals[e] else 0) + x]
  }

  ghost predicate Totals(games: seq<Game>, scores: map<Engine, int>, counts: map<Engine, int>) {
    && scores.Keys == counts.Keys == Engines(games)
    && forall e | e in scores :: scores[e] == Score(games, e) && counts[e] == Count(games, e)
  }

  lemma TotalsStep(games: seq<Game>, g: Game, scores: map<Engine, int>, counts: map<Engine, int>)
    requires Totals(games, scores, counts)
    ensures Totals(games + [g], Bump(Bump(scores, g.white, g.half), g.black, 2 - g.half),
                   Bump(Bump(counts, g.white, 1), g.black, 1))
  {
    EnginesOfAppend(games, g);
    Absent(games, g.white);
    Absent(games, g.black);
    forall e | e in Engines(games + [g])
      ensures Score(games + [g], e) == Score(games, e) + Points(g, e)
      ensures Count(games + [g], e) == Count(games, e) + Sides(g, e)
    {
      AppendScore(games, g, e);
    }
  }

  /** One pass over the remaining games: the engines without points and those with all points. */
  method Excluded(games: seq<Game>) returns (excluded: set<Engine>)
    requires Finished(games)
    ensures forall e :: e in excluded <==> e in Engines(games) && !Rated(games, e)
  {
    var scores: map<Engine, int> := map[];
    var counts: map<Engine, int> := map[];
    for i := 0 to |games|
      invariant Totals(games[..i], scores, counts)
    {
      var g := games[i];
      TotalsStep(games[..i], g, scores, counts);
      assert games[..i] + [g] == games[..i + 1];
      scores := Bump(Bump(scores, g.white, g.half), g.black, 2 - g.half);
      counts := Bump(Bump(counts, g.white, 1), g.black, 1);
    }
    assert games[..|games|] == games;
    excluded := set e | e in scores && (scores[e] == 0 || scores[e] == 2 * counts[e]);
    forall e
      ensures e in excluded <==> e in Engines(games) && !Rated(games, e)
    {
      PointsBounded(games, e);
    }
  }

  lemma Absent(games: seq<Game>, e: Engine)
    ensures e !in Engines(games) ==> Score(games, e) == 0 && Count(games, e) == 0
  {
    if games != [] {
      Absent(games[..|games| - 1], e);
    }
  }

  lemma {:induction false} PointsBounded(games: seq<Game>, e: Engine)
    requires Finished(games)
    ensures 0 <= Score(games, e) <= 2 * Count(games, e)
  {
    if games != [] {
      PointsBounded(games[..|games| - 1], e);
    }
  }

  method Filtered(games: seq<Game>, excluded: set<Engine>) returns (kept: seq<Game>)
    ensures kept == Keep(games, excluded)
  {
    kept := [];
    for i := 0 to |games|
      invariant kept == Keep(games[..i], excluded)
    {
      assert games[..i + 1][..i] == games[..i];
      if games[i].white !in excluded && games[i].black !in excluded {
        kept := kept + [games[i]];
      }
    }
    assert games[..|games|] == games;
  }

  /** A self-sustaining set loses nobody when engines without points, or with all points, are excluded. */
  lemma SustainingNotExcluded(games: seq<Game>, t: set<Engine>, s: set<Engine>, e: Engine)
    requires Finished(games) && SelfSustaining(games, s) && s <= t && e in s
    ensures Rated(Induced(games, t), e) && e in Engines(Induced(games, t))
  {
    assert Rated(Induced(games, s), e);
    InducedMonotone(games, s, t, e);
    CountIsPresence(Induced(games, t), e);
  }

  lemma AllInEngines(games: seq<Game>)
    ensures Induced(games, Engines(games)) == games
    decreases |games|
  {
    if games != [] {
      var front := games[..|games| - 1];
      AllInEngines(front);
      InducedWider(front, Engines(front), Engines(games));
    }
  }

  lemma {:induction false} InducedWider(games: seq<Game>, s: set<Engine>, t: set<Engine>)
    requires s <= t && Induced(games, s) == games
    ensures Induced(games, t) == games
    decreases |games|
  {
    if games != [] {
      var front, last := games[..|games| - 1], games[|games| - 1];
      InducedLength(front, s);
      assert Within(last, s);
      assert Induced(front, s) == Induced(games, s)[..|front|] == front;
      InducedWider(front, s, t);
    }
  }

  lemma {:induction false} InducedLength(games: seq<Game>, s: set<Engine>)
    ensures |Induced(games, s)| <= |games|
  {
    if games != [] {
      InducedLength(games[..|games| - 1], s);
    }
  }

  lemma SustainingAreEngines(games: seq<Game>, s: set<Engine>)
    requires Finished(games) && SelfSustaining(games, s)
    ensures s <= Engines(games)
  {
    AllInEngines(games);
    forall e <- s
      ensures e in Engines(games)
    {
      SustainingNotExcluded(games, s, s, e);
      InducedSubset(games, s);
    }
  }

  lemma {:induction false} InducedSubset(games: seq<Game>, s: set<Engine>)
    ensures Engines(Induced(games, s)) <= Engines(games)
  {
    if games != [] {
      var front, last := games[..|games| - 1], games[|games| - 1];
      InducedSubset(front, s);
      if Within(last, s) {
        assert Induced(games, s)[..|Induced(front, s)|] == Induced(front, s);
      } else {
        assert Induced(games, s) == Induced(front, s);
      }
    }
  }

  /** `_calculable_games`: what is left are the games among the survivors. */
  method CalculableGames(games: seq<Game>) returns (remaining: seq<Game>)
    requires Finished(games)
    ensures remaining == Induced(games, Engines(remaining))
    ensures Survivors(games, Engines(remaining))
  {
    remaining := games;
    ghost var t := Engines(games);
    AllInEngines(games);
    forall s: set<Engine> | SelfSustaining(games, s)
      ensures s <= t
    {
      SustainingAreEngines(games, s);
    }
    while remaining != []
      invariant remaining == Induced(games, t)
      invariant forall s: set<Engine> | SelfSustaining(games, s) :: s <= t
      decreases |remaining|
    {
      InducedFinished(games, t);
      var excluded := Excluded(remaining);
      if excluded == {} {
        ClosedSurvive(games, t, remaining);
        return;
      }
      var kept := Filtered(remaining, excluded);
      InducedTwice(games, t, excluded);
      KeepShrinks(remaining, excluded);
      var out :| out in excluded;
      assert out in Engines(remaining) * excluded;
      forall s: set<Engine> | SelfSustaining(games, s)
        ensures s <= t - excluded
      {
        forall e <- s
          ensures e !in excluded
        {
          SustainingNotExcluded(games, t, s, e);
        }
      }
      remaining, t := kept, t - excluded;
    }
    ClosedSurvive(games, t, remaining);
  }

  /** When nobody is excluded any more, those who still play are the survivors. */
  lemma ClosedSurvive(games: seq<Game>, t: set<Engine>, remaining: seq<Game>)
    requires Finished(games) && remaining == Induced(games, t)
    requires forall e <- Engines(remaining) :: Rated(remaining, e)
    requires forall s: set<Engine> | SelfSustaining(games, s) :: s <= t
    ensures remaining == Induced(games, Engines(remaining))
    ensures Survivors(games, Engines(remaining))
  {
    InducedEngines(games, t);
    InducedBetween(games, Engines(remaining), t);
    forall s: set<Engine> | SelfSustaining(games, s)
      ensures s <= Engines(remaining)
    {
      forall e <- s
        ensures e in Engines(remaining)
      {
        SustainingNotExcluded(games, t, s, e);
      }
    }
  }

  // ---------------------------------------------------------------- order does not matter

  lemma {:induction false} ScoreSplit(a: seq<Game>, b: seq<Game>, e: Engine)
    ensures Score(a + b, e) == Score(a, e) + Score(b, e)
    ensures Count(a + b, e) == Count(a, e) + Count(b, e)
  {
    if b == [] {
      assert a + b == a;
    } else {
      assert (a + b)[..|a + b| - 1] == a + b[..|b| - 1];
      ScoreSplit(a, b[..|b| - 1], e);
    }
  }

  lemma {:induction false} InducedSplit(a: seq<Game>, b: seq<Game>, s: set<Engine>)
    ensures Induced(a + b, s) == Induced(a, s) + Induced(b, s)
  {
    if b == [] {
      assert a + b == a;
    } else {
      assert (a + b)[..|a + b| - 1] == a + b[..|b| - 1];
      InducedSplit(a, b[..|b| - 1], s);
    }
  }

  lemma TakeOut(front: seq<Game>, last: Game, b: seq<Game>) returns (left: seq<Game>, right: seq<Game>)
    requires multiset(front + [last]) == multiset(b)
    ensures b == left + [last] + right
    ensures multiset(front) == multiset(left + right)
  {
    assert last in multiset(front + [last]);
    var i :| 0 <= i < |b| && b[i] == last;
    left, right := b[..i], b[i + 1..];
    assert b == left + [last] + right;
    assert multiset(front) + multiset{last} == multiset(left + right) + multiset{last};
    Cancel(multiset(front), multiset(left + right), last);
  }

  lemma Cancel(a: multiset<Game>, b: multiset<Game>, g: Game)
    requires a + multiset{g} == b + multiset{g}
    ensures a == b
  {
    assert a == (a + multiset{g}) - multiset{g};
    assert b == (b + multiset{g}) - multiset{g};
  }

  lemma InsertedScore(left: seq<Game>, g: Game, right: seq<Game>, s: set<Engine>, e: Engine)
    ensures Score(Induced(left + [g] + right, s), e) == Score(Induced(left + right, s), e) + Score(Induced([g], s), e)
    ensures Count(Induced(left + [g] + right, s), e) == Count(Induced(left + right, s), e) + Count(Induced([g], s), e)
  {
    InducedSplit(left + [g], right, s);
    InducedSplit(left, [g], s);
    InducedSplit(left, right, s);
    ScoreSplit(Induced(left + [g], s), Induced(right, s), e);
    ScoreSplit(Induced(left, s), Induced([g], s), e);
    ScoreSplit(Induced(left, s), Induced(right, s), e);
  }

  /** Scores among a set do not depend on the order of the games. */
  lemma {:induction false} ScoresUnordered(a: seq<Game>, b: seq<Game>, s: set<Engine>, e: Engine)
    requires multiset(a) == multiset(b)
    ensures Score(Induced(a, s), e) == Score(Induced(b, s), e)
    ensures Count(Induced(a, s), e) == Count(Induced(b, s), e)
    decreases |a|
  {
    if a == [] {
      assert |multiset(b)| == 0;
    } else {
      var front, last := a[..|a| - 1], a[|a| - 1];
      assert a == front + [last];
      var left, right := TakeOut(front, last, b);
      ScoresUnordered(front, left + right, s, e);
      InsertedScore(left, last, right, s, e);
      InsertedScore(front, last, [], s, e);
      assert front + [last] + [] == a && front + [] == front;
    }
  }

  /** The survivors are the same for every order of the games. */
  lemma SurvivorsUnordered(a: seq<Game>, b: seq<Game>, s: set<Engine>, t: set<Engine>)
    requires multiset(a) == multiset(b) && Survivors(a, s) && Survivors(b, t)
    ensures s == t
  {
    forall u: set<Engine>
      ensures SelfSustaining(a, u) <==> SelfSustaining(b, u)
    {
      forall e <- u
        ensures Rated(Induced(a, u), e) <==> Rated(Induced(b, u), e)
      {
        ScoresUnordered(a, b, u, e);
      }
    }
  }
}
