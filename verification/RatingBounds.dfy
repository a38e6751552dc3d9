/** The passes of `paired_error_margins` over games, queues and the graph of who met whom. */
module RatingBounds {
  import opened Wrappers
  import opened EloCurve
  import opened Sums
  import opened Laplacian
  import opened Pairing

  datatype GameResult = WhiteWins | BlackWins | Drawn

  datatype Game = Game(tournament: int, white: int, black: int, opening: Option<int>, result: GameResult)

  // ---------------------------------------------------------------- specification

  /** Games of unrated engines and of an engine with itself are passed over; the lower index comes first. */
  function Accept(game: Game, indices: map<int, nat>): Option<Meeting> {
    if game.white !in indices || game.black !in indices || indices[game.white] == indices[game.black] then None
    else
      var whiteFirst := indices[game.white] < indices[game.black];
      var half: Half := if game.result == WhiteWins then 2 else if game.result == BlackWins then 0 else 1;
      Some(Meeting(game.tournament,
                   if whiteFirst then indices[game.white] else indices[game.black],
                   if whiteFirst then indices[game.black] else indices[game.white],
                   whiteFirst, game.opening, if whiteFirst then half else 2 - half))
  }

  function Meetings(games: seq<Game>, indices: map<int, nat>): seq<Meeting> {
    if games == [] then []
    else
      var m := Accept(games[|games| - 1], indices);
      Meetings(games[..|games| - 1], indices) + if m.Some? then [m.value] else []
  }

  predicate ValidMeeting(m: Meeting, n: nat) {
    m.first < m.second < n
  }

  function Expected(ratings: seq<real>, curve: Logistic, first: nat, second: nat): real
    requires first < |ratings| && second < |ratings|
  {
    ExpectedScore(curve, ratings[first], ratings[second])
  }

  function EdgeOf(m: Meeting, ratings: seq<real>, curve: Logistic): Edge
    requires ValidMeeting(m, |ratings|)
  {
    var expected := Expected(ratings, curve, m.first, m.second);
    Edge(m.first, m.second, expected * (1.0 - expected))
  }

  function EdgesOf(ms: seq<Meeting>, ratings: seq<real>, curve: Logistic): seq<Edge>
    requires forall m <- ms :: ValidMeeting(m, |ratings|)
  {
    if ms == [] then []
    else
      assert ms[|ms| - 1] in ms;
      EdgesOf(ms[..|ms| - 1], ratings, curve) + [EdgeOf(ms[|ms| - 1], ratings, curve)]
  }

  lemma EdgeIsPositive(m: Meeting, ratings: seq<real>, curve: Logistic)
    requires ValidMeeting(m, |ratings|)
    ensures EdgeOf(m, ratings, curve).weight > 0.0
  {
    var expected := Expected(ratings, curve, m.first, m.second);
    Positive(expected, 1.0 - expected, expected * (1.0 - expected));
  }

  lemma {:induction false} EdgesArePositive(ms: seq<Meeting>, ratings: seq<real>, curve: Logistic)
    requires forall m <- ms :: ValidMeeting(m, |ratings|)
    ensures forall e <- EdgesOf(ms, ratings, curve) :: e.weight > 0.0 && e.first < e.second < |ratings|
  {
    if ms != [] {
      assert ms[|ms| - 1] in ms;
      EdgeIsPositive(ms[|ms| - 1], ratings, curve);
      EdgesArePositive(ms[..|ms| - 1], ratings, curve);
    }
  }

  /** What is taken of a game: its engines in ascending order, who was white, and twice the score of the first. */
  lemma AcceptedMeans(game: Game, indices: map<int, nat>)
    ensures Accept(game, indices).Some? <==>
      game.white in indices && game.black in indices && indices[game.white] != indices[game.black]
    ensures Accept(game, indices).Some? ==>
      var m, white, black := Accept(game, indices).value, indices[game.white], indices[game.black];
      && m.tournament == game.tournament && m.opening == game.opening
      && (white < black ==> m.first == white && m.second == black && m.whiteFirst)
      && (black < white ==> m.first == black && m.second == white && !m.whiteFirst)
      && (game.result == WhiteWins ==> m.score == if m.first == white then 2 else 0)
      && (game.result == BlackWins ==> m.score == if m.first == white then 0 else 2)
      && (game.result == Drawn ==> m.score == 1)
  {
  }

  /** The information in a game: p(1 - p) between its engines, with p the expected score of the first. */
  lemma GameWeighs(m: Meeting, ratings: seq<real>, curve: Logistic, p: real)
    requires ValidMeeting(m, |ratings|) && p == ExpectedScore(curve, ratings[m.first], ratings[m.second])
    ensures EdgeOf(m, ratings, curve) == Edge(m.first, m.second, p * (1.0 - p))
  {
  }

  /** The games are taken one by one, in order. */
  lemma {:induction false} MeetingsJoin(games: seq<Game>, more: seq<Game>, indices: map<int, nat>)
    ensures Meetings(games + more, indices) == Meetings(games, indices) + Meetings(more, indices)
  {
    if more == [] {
      assert games + more == games;
    } else {
      var n := |more| - 1;
      assert (games + more)[..|games| + n] == games + more[..n];
      MeetingsJoin(games, more[..n], indices);
    }
  }

  lemma MeetingOfOne(game: Game, indices: map<int, nat>)
    ensures Meetings([game], indices) == if Accept(game, indices).Some? then [Accept(game, indices).value] else []
  {
    assert [game][..0] == [];
  }

  // ---------------------------------------------------------------- the pass over the games

  /** The four updates of one game, in place. */
  method AddWeight(matrix: array2<real>, e: Edge)
    requires matrix.Length0 == matrix.Length1
    requires e.first < matrix.Length0 && e.second < matrix.Length0 && e.first != e.second
    modifies matrix
    ensures forall i, j | 0 <= i < matrix.Length0 && 0 <= j < matrix.Length1 ::
              matrix[i, j] == old(matrix[i, j]) + Contribution(e, i, j)
  {
    matrix[e.first, e.first] := matrix[e.first, e.first] + e.weight;
    matrix[e.second, e.second] := matrix[e.second, e.second] + e.weight;
    matrix[e.first, e.second] := matrix[e.first, e.second] - e.weight;
    matrix[e.second, e.first] := matrix[e.second, e.first] - e.weight;
  }

  ghost predicate MatrixOk(matrix: array2<real>, edges: seq<Edge>)
    reads matrix
  {
    forall i, j | 0 <= i < matrix.Length0 && 0 <= j < matrix.Length1 :: matrix[i, j] == Cell(edges, i, j)
  }

  /** Matrix and graph take in one game. */
  method Meet(matrix: array2<real>, adjacency: array<set<nat>>, e: Edge, ghost edges: seq<Edge>)
    requires matrix.Length0 == matrix.Length1 == adjacency.Length
    requires e.first < adjacency.Length && e.second < adjacency.Length && e.first != e.second
    requires MatrixOk(matrix, edges) && GraphOf(adjacency[..], edges)
    modifies matrix, adjacency
    ensures MatrixOk(matrix, edges + [e]) && GraphOf(adjacency[..], edges + [e])
  {
    assert (edges + [e])[..|edges|] == edges;
    AddWeight(matrix, e);
    ghost var before := adjacency[..];
    adjacency[e.first] := adjacency[e.first] + {e.second};
    adjacency[e.second] := adjacency[e.second] + {e.first};
    GraphGrows(before, adjacency[..], edges, e);
  }

  /** Queues and lists stand for the games seen so far, and together account for all of them. */
  ghost predicate PairingOk(pending: map<Key, Queues>, frequencies: Frequencies, ms: seq<Meeting>) {
    && PendingOk(pending, ms)
    && frequencies == Tally(Recorded(ms))
    && GamesRecorded(Recorded(ms)) + Total(Waiting(pending)) == |ms|
  }

  lemma RecordStep(before: seq<Meeting>, m: Meeting, e: Mark)
    requires if m.opening.None? then e == Entry(SingleBucket(m), m.score)
             else Completes(before, m) && e == Entry(PairBucket(m), PairTotal(before, m))
    ensures Tally(Recorded(before + [m])) == Bump(Tally(Recorded(before)), e)
    ensures GamesRecorded(Recorded(before + [m])) == GamesRecorded(Recorded(before)) + e.bucket.length
  {
    assert (before + [m])[..|before|] == before;
    var log := Recorded(before);
    assert Recorded(before + [m]) == log + [e];
    assert (log + [e])[..|log|] == log;
  }

  /** Records one game, or lets it wait for its reversed partner. */
  method Pair(pending: map<Key, Queues>, frequencies: Frequencies, m: Meeting, ghost before: seq<Meeting>)
      returns (pending': map<Key, Queues>, frequencies': Frequencies)
    requires PairingOk(pending, frequencies, before)
    ensures PairingOk(pending', frequencies', before + [m])
  {
    if m.opening.None? {
      RecordStep(before, m, Entry(SingleBucket(m), m.score));
      SingleStep(pending, before, m);
      return pending, Bump(frequencies, Entry(SingleBucket(m), m.score));
    }
    var key := KeyOf(m);
    QueueStep(pending, before, m);
    var queues := if key in pending then pending[key] else Queues([], []);
    var opposite := if m.whiteFirst then queues.black else queues.white;
    if opposite != [] {
      var entry: Mark := Entry(PairBucket(m), (m.score as nat) + opposite[0]);
      RecordStep(before, m, entry);
      var rest := if m.whiteFirst then queues.(black := queues.black[1..]) else queues.(white := queues.white[1..]);
      frequencies' := Bump(frequencies, entry);
      PutTotal(pending, key, rest);
      if rest.black == [] && rest.white == [] {
        pending' := pending - {key};
      } else {
        pending' := pending[key := rest];
      }
    } else {
      assert (before + [m])[..|before|] == before;
      assert Recorded(before + [m]) == Recorded(before);
      var more := if m.whiteFirst then queues.(white := queues.white + [m.score])
                  else queues.(black := queues.black + [m.score]);
      PutTotal(pending, key, more);
      pending', frequencies' := pending[key := more], frequencies;
    }
  }

  lemma EdgesStep(ms: seq<Meeting>, m: Meeting, ratings: seq<real>, curve: Logistic)
    requires (forall b <- ms :: ValidMeeting(b, |ratings|)) && ValidMeeting(m, |ratings|)
    ensures EdgesOf(ms + [m], ratings, curve) == EdgesOf(ms, ratings, curve) + [EdgeOf(m, ratings, curve)]
  {
    assert (ms + [m])[..|ms|] == ms;
  }

  lemma MeetingsStep(games: seq<Game>, indices: map<int, nat>, k: nat)
    requires k < |games|
    ensures
      var m := Accept(games[k], indices);
      Meetings(games[..k + 1], indices) == Meetings(games[..k], indices) + if m.Some? then [m.value] else []
  {
    assert games[..k + 1][..k] == games[..k];
  }

  /** Everything the pass has built stands for the games taken so far. */
  ghost predicate PassOk(information: array2<real>, adjacency: array<set<nat>>, pending: map<Key, Queues>,
                         frequencies: Frequencies, ms: seq<Meeting>, ratings: seq<real>, curve: Logistic)
    requires forall m <- ms :: ValidMeeting(m, |ratings|)
    reads information, adjacency
  {
    var edges := EdgesOf(ms, ratings, curve);
    && information.Length0 == information.Length1 == adjacency.Length == |ratings|
    && MatrixOk(information, edges)
    && GraphOf(adjacency[..], edges)
    && PairingOk(pending, frequencies, ms)
  }

  /** One accepted game. */
  method Take(information: array2<real>, adjacency: array<set<nat>>, pending: map<Key, Queues>,
              frequencies: Frequencies, m: Meeting, ratings: seq<real>, curve: Logistic, ghost ms: seq<Meeting>)
      returns (pending': map<Key, Queues>, frequencies': Frequencies)
    requires (forall b <- ms :: ValidMeeting(b, |ratings|)) && ValidMeeting(m, |ratings|)
    requires PassOk(information, adjacency, pending, frequencies, ms, ratings, curve)
    modifies information, adjacency
    ensures PassOk(information, adjacency, pending', frequencies', ms + [m], ratings, curve)
  {
    Meet(information, adjacency, EdgeOf(m, ratings, curve), EdgesOf(ms, ratings, curve));
    pending', frequencies' := Pair(pending, frequencies, m, ms);
    EdgesStep(ms, m, ratings, curve);
  }

  /** One pass: matrix, graph, queues and frequency lists together. */
  method Collect(games: seq<Game>, indices: map<int, nat>, ratings: seq<real>, curve: Logistic)
      returns (information: array2<real>, adjacency: array<set<nat>>, pending: map<Key, Queues>,
               frequencies: Frequencies, ghost ms: seq<Meeting>)
    requires forall id <- indices :: indices[id] < |ratings|
    ensures fresh(information) && fresh(adjacency)
    ensures ms == Meetings(games, indices) && forall m <- ms :: ValidMeeting(m, |ratings|)
    ensures PassOk(information, adjacency, pending, frequencies, ms, ratings, curve)
  {
    var size := |ratings|;
    information := new real[size, size]((i, j) => 0.0);
    adjacency := new set<nat>[size](i => {});
    pending, frequencies, ms := map[], map[], [];
    assert Waiting(pending) == map[];
    for k := 0 to |games|
      invariant ms == Meetings(games[..k], indices) && forall m <- ms :: ValidMeeting(m, size)
      invariant PassOk(information, adjacency, pending, frequencies, ms, ratings, curve)
    {
      MeetingsStep(games, indices, k);
      var accepted := Accept(games[k], indices);
      if accepted.Some? {
        pending, frequencies := Take(information, adjacency, pending, frequencies, accepted.value, ratings, curve, ms);
        ms := ms + [accepted.value];
      }
    }
    assert games[..|games|] == games;
  }

  lemma GraphGrows(before: Graph, after: Graph, edges: seq<Edge>, e: Edge)
    requires GraphOf(before, edges) && |after| == |before|
    requires e.first < |before| && e.second < |before| && e.first != e.second
    requires after == before[e.first := before[e.first] + {e.second}][e.second := before[e.second] + {e.first}]
    ensures GraphOf(after, edges + [e])
  {
    forall u, v | 0 <= u < |after|
      ensures v in after[u] <==>
              exists f :: f in edges + [e] && ((f.first == u && f.second == v) || (f.first == v && f.second == u))
    {
      assert e in edges + [e];
      assert forall f :: f in edges + [e] <==> f in edges || f == e;
    }
  }

  // ---------------------------------------------------------------- leftovers

  function SingleOf(key: Key, white: bool, score: Half): Mark {
    Entry(Bucket(key.tournament, key.first, key.second, 1, Some(white)), score)
  }

  function SingleEntries(key: Key, white: bool, scores: seq<Half>): seq<Mark> {
    seq(|scores|, i requires 0 <= i < |scores| => SingleOf(key, white, scores[i]))
  }

  function Leftover(key: Key, queues: Queues): seq<Mark> {
    SingleEntries(key, false, queues.black) + SingleEntries(key, true, queues.white)
  }

  /** Each waiting game becomes a single one, on the side of its queue and in order. */
  lemma LeftoverMarks(key: Key, queues: Queues, i: nat)
    ensures |Leftover(key, queues)| == |queues.black| + |queues.white|
    ensures i < |queues.black| ==>
              Leftover(key, queues)[i]
                == Entry(Bucket(key.tournament, key.first, key.second, 1, Some(false)), queues.black[i])
    ensures i < |queues.white| ==>
              Leftover(key, queues)[|queues.black| + i]
                == Entry(Bucket(key.tournament, key.first, key.second, 1, Some(true)), queues.white[i])
  {
  }

  lemma AppendNext(log: seq<Mark>, entries: seq<Mark>, i: nat)
    requires i < |entries|
    ensures log + entries[..i] + [entries[i]] == log + entries[..i + 1]
  {
  }

  method FlushQueue(frequencies: Frequencies, key: Key, white: bool, scores: seq<Half>, ghost log: seq<Mark>)
      returns (frequencies': Frequencies)
    requires frequencies == Tally(log)
    ensures frequencies' == Tally(log + SingleEntries(key, white, scores))
  {
    frequencies' := frequencies;
    ghost var entries := SingleEntries(key, white, scores);
    ghost var written := log;
    for i := 0 to |scores|
      invariant written == log + entries[..i]
      invariant frequencies' == Tally(written)
    {
      var e := SingleOf(key, white, scores[i]);
      TallyStep(written, e);
      frequencies' := Bump(frequencies', e);
      AppendNext(log, entries, i);
      written := written + [e];
    }
    assert entries[..|scores|] == entries;
  }

  lemma {:induction false} SinglesWeigh(entries: seq<Mark>)
    requires forall e <- entries :: e.bucket.length == 1
    ensures GamesRecorded(entries) == |entries|
  {
    if entries != [] {
      assert entries[|entries| - 1] in entries;
      SinglesWeigh(entries[..|entries| - 1]);
    }
  }

  lemma AppendTwo(log: seq<Mark>, a: seq<Mark>, b: seq<Mark>)
    ensures log + a + b == log + (a + b)
  {
  }

  method FlushKey(frequencies: Frequencies, key: Key, queues: Queues, ghost log: seq<Mark>)
      returns (frequencies': Frequencies)
    requires frequencies == Tally(log)
    ensures frequencies' == Tally(log + Leftover(key, queues))
  {
    frequencies' := FlushQueue(frequencies, key, false, queues.black, log);
    ghost var black := SingleEntries(key, false, queues.black);
    frequencies' := FlushQueue(frequencies', key, true, queues.white, log + black);
    AppendTwo(log, black, SingleEntries(key, true, queues.white));
  }

  ghost function Leftovers(keys: seq<Key>, pending: map<Key, Queues>): seq<Mark>
    requires forall key <- keys :: key in pending
  {
    if keys == [] then []
    else
      assert keys[|keys| - 1] in keys;
      Leftovers(keys[..|keys| - 1], pending) + Leftover(keys[|keys| - 1], pending[keys[|keys| - 1]])
  }

  ghost predicate Enumerates(keys: seq<Key>, all: set<Key>) {
    (forall key :: key in keys <==> key in all) && forall i, j | 0 <= i < j < |keys| :: keys[i] != keys[j]
  }

  /** The leftovers stand for exactly the waiting games. */
  lemma {:induction false} LeftoversWeigh(keys: seq<Key>, pending: map<Key, Queues>)
    requires Enumerates(keys, pending.Keys)
    ensures GamesRecorded(Leftovers(keys, pending)) == Total(Waiting(pending))
  {
    if keys == [] {
      assert Waiting(pending) == map[];
    } else {
      var front, last := keys[..|keys| - 1], keys[|keys| - 1];
      assert last in keys;
      var rest := pending - {last};
      EnumeratesFront(keys, pending.Keys);
      assert rest.Keys == pending.Keys - {last};
      LeftoversWeigh(front, rest);
      LeftoversSame(front, rest, pending);
      GamesRecordedAppend(Leftovers(front, pending), Leftover(last, pending[last]));
      KeyWeighs(pending, last);
    }
  }

  lemma EnumeratesFront(keys: seq<Key>, all: set<Key>)
    requires Enumerates(keys, all) && keys != []
    ensures Enumerates(keys[..|keys| - 1], all - {keys[|keys| - 1]})
  {
    var front, last := keys[..|keys| - 1], keys[|keys| - 1];
    forall key
      ensures key in front <==> key in all - {last}
    {
      if key in front {
        assert key in keys;
      } else if key in all {
        assert key in keys;
      }
    }
  }

  lemma KeyWeighs(pending: map<Key, Queues>, key: Key)
    requires key in pending
    ensures Total(Waiting(pending)) == Total(Waiting(pending - {key})) + GamesRecorded(Leftover(key, pending[key]))
  {
    SinglesWeigh(Leftover(key, pending[key]));
    TotalSplit(Waiting(pending), key);
    assert Waiting(pending - {key}) == Waiting(pending) - {key};
  }

  lemma {:induction false} LeftoversSame(keys: seq<Key>, a: map<Key, Queues>, b: map<Key, Queues>)
    requires forall key <- keys :: key in a && key in b && a[key] == b[key]
    ensures Leftovers(keys, a) == Leftovers(keys, b)
  {
    if keys != [] {
      assert keys[|keys| - 1] in keys;
      LeftoversSame(keys[..|keys| - 1], a, b);
    }
  }

  lemma LeftoversStep(log: seq<Mark>, order: seq<Key>, key: Key, pending: map<Key, Queues>)
    requires (forall k <- order :: k in pending) && key in pending
    ensures log + Leftovers(order + [key], pending) == log + Leftovers(order, pending) + Leftover(key, pending[key])
  {
    assert (order + [key])[..|order|] == order;
  }

  /** Records every game still waiting, key by key in whatever order the keys come. */
  method Flush(frequencies: Frequencies, pending: map<Key, Queues>, ghost log: seq<Mark>)
      returns (frequencies': Frequencies, ghost order: seq<Key>)
    requires frequencies == Tally(log)
    ensures Enumerates(order, pending.Keys)
    ensures frequencies' == Tally(log + Leftovers(order, pending))
  {
    frequencies', order := frequencies, [];
    var keys := pending.Keys;
    assert log + Leftovers(order, pending) == log;
    while keys != {}
      invariant keys <= pending.Keys && Enumerates(order, pending.Keys - keys)
      invariant forall key <- order :: key in pending
      invariant frequencies' == Tally(log + Leftovers(order, pending))
      decreases keys
    {
      var key :| key in keys;
      frequencies' := FlushKey(frequencies', key, pending[key], log + Leftovers(order, pending));
      LeftoversStep(log, order, key, pending);
      keys, order := keys - {key}, order + [key];
    }
    assert pending.Keys - keys == pending.Keys;
  }

  // ---------------------------------------------------------------- the component of the fixed engine

  function Below(n: nat): (s: set<nat>)
    ensures forall u: nat :: u in s <==> u < n
  {
    if n == 0 then {} else Below(n - 1) + {n - 1}
  }

  /** The search by a frontier finds exactly the engines reachable from the fixed one. */
  method Component(adjacency: Graph, fixed: nat) returns (component: set<nat>)
    requires fixed < |adjacency| && forall u, v | 0 <= u < |adjacency| && v in adjacency[u] :: v < |adjacency|
    ensures forall v :: v in component <==> Reaches(adjacency, fixed, v)
  {
    component := {fixed};
    var frontier := [fixed];
    ReachesSelf(adjacency, fixed);
    ghost var all := Below(|adjacency|);
    while frontier != []
      invariant fixed in component
      invariant forall u <- component :: u < |adjacency| && Reaches(adjacency, fixed, u)
      invariant forall u <- frontier :: u in component
      invariant forall u <- component | u !in frontier :: adjacency[u] <= component
      decreases all - component, |frontier|
    {
      ghost var outside, length := all - component, |frontier|;
      var node := frontier[|frontier| - 1];
      assert node in frontier;
      frontier := frontier[..|frontier| - 1];
      ghost var known := component;
      var fresh' := adjacency[node] - component;
      while fresh' != {}
        invariant known <= component && fixed in component
        invariant fresh' <= adjacency[node] && fresh' !! component
        invariant adjacency[node] <= component + fresh'
        invariant forall u <- component :: u < |adjacency| && Reaches(adjacency, fixed, u)
        invariant forall u <- frontier :: u in component
        invariant forall u <- component | u !in frontier && u != node :: adjacency[u] <= component
        invariant (component == known && |frontier| < length) || all - component < outside
        decreases fresh'
      {
        var neighbour :| neighbour in fresh';
        ReachesNext(adjacency, fixed, node, neighbour);
        assert neighbour in all - component;
        component := component + {neighbour};
        frontier := frontier + [neighbour];
        fresh' := fresh' - {neighbour};
      }
    }
    forall v | Reaches(adjacency, fixed, v)
      ensures v in component
    {
      var walk :| WalkJoins(adjacency, walk, fixed, v);
      ClosedHoldsReachable(adjacency, fixed, walk, component);
    }
  }

  /** The members of a set below `n`, ascending. */
  function Ascending(s: set<nat>, n: nat): (list: seq<nat>)
    ensures forall v :: v in list <==> v in s && v < n
    ensures forall i, j | 0 <= i < j < |list| :: list[i] < list[j]
  {
    if n == 0 then []
    else
      var list := Ascending(s, n - 1);
      assert forall i | 0 <= i < |list| :: list[i] in list;
      list + if n - 1 in s then [n - 1] else []
  }

  /** The rows and columns that are solved for: the component, ascending, without the fixed engine. */
  method Adjustable(component: set<nat>, n: nat, fixed: nat) returns (list: seq<nat>)
    requires forall v <- component :: v < n
    ensures Distinct(list, n) && forall v :: v in list <==> v in component && v != fixed
  {
    var members := Ascending(component, n);
    list := [];
    for i := 0 to |members|
      invariant forall v :: v in list <==> v in members[..i] && v != fixed
      invariant forall c | 0 <= c < |list| :: list[c] in members[..i]
      invariant forall c, d | 0 <= c < d < |list| :: list[c] < list[d]
    {
      assert forall c | 0 <= c < i :: members[c] < members[i];
      if members[i] != fixed {
        list := list + [members[i]];
      }
    }
    assert members[..|members|] == members;
  }

  // ---------------------------------------------------------------- the two main facts together

  /** For every set of games, ratings and anchor: the reduced information matrix is invertible. */
  lemma InformationIsInvertible(ms: seq<Meeting>, ratings: seq<real>, curve: Logistic, graph: Graph, fixed: nat,
                                list: seq<nat>, y: Vector, c: nat)
    requires forall m <- ms :: ValidMeeting(m, |ratings|)
    requires |graph| == |ratings| && GraphOf(graph, EdgesOf(ms, ratings, curve))
    requires Distinct(list, |ratings|) && forall v :: v in list <==> Reaches(graph, fixed, v) && v != fixed
    requires forall r: nat | r < |list| :: ReducedTimes(EdgesOf(ms, ratings, curve), list, y)(r) == 0.0
    requires c < |list|
    ensures y(c) == 0.0
  {
    EdgesArePositive(ms, ratings, curve);
    ReducedKernelIsTrivial(EdgesOf(ms, ratings, curve), |ratings|, graph, fixed, list, y, c);
  }

  // ---------------------------------------------------------------- the noise of a bucket

  const EMPTY_SCORE_COUNT := 0.001

  function Observed(counts: seq<nat>): seq<real> {
    seq(|counts|, i requires 0 <= i < |counts| => if counts[i] > 0 then counts[i] as real else EMPTY_SCORE_COUNT)
  }

  function Mean(observed: seq<real>): real
    requires SumOf(observed) != 0.0
  {
    SumOf(seq(|observed|, i requires 0 <= i < |observed| => (i as real / 2.0) * observed[i])) / SumOf(observed)
  }

  function Deviations(observed: seq<real>, mean: real): seq<real> {
    seq(|observed|, i requires 0 <= i < |observed| => observed[i] * Square(i as real / 2.0 - mean))
  }

  lemma {:induction false} SumNonNegative(values: seq<real>)
    requires forall i | 0 <= i < |values| :: values[i] >= 0.0
    ensures SumOf(values) >= 0.0
  {
    if values != [] {
      SumNonNegative(values[..|values| - 1]);
    }
  }

  lemma {:induction false} SumPositive(values: seq<real>)
    requires |values| > 0 && forall i | 0 <= i < |values| :: values[i] > 0.0
    ensures SumOf(values) > 0.0
  {
    SumNonNegative(values[..|values| - 1]);
  }

  /** The variance of one bucket: of the expected score for a single game, else of the observed scores, with
      scores never seen counted a little. */
  function Variance(counts: seq<nat>, length: nat, expected: real): real
    requires |counts| > 0
  {
    if CountTotal(counts) == 1 then length as real * (expected * (1.0 - expected))
    else
      SumPositive(Observed(counts));
      SumOf(Deviations(Observed(counts), Mean(Observed(counts)))) / SumOf(Observed(counts))
  }

  lemma SpreadNonNegative(observed: seq<real>, mean: real)
    requires |observed| > 0 && forall i | 0 <= i < |observed| :: observed[i] > 0.0
    ensures SumOf(Deviations(observed, mean)) >= 0.0
  {
    forall i | 0 <= i < |observed|
      ensures Deviations(observed, mean)[i] >= 0.0
    {
      WeightedSquare(observed[i], i as real / 2.0 - mean);
    }
    SumNonNegative(Deviations(observed, mean));
  }

  /** The variance of a bucket, and with it the weight it adds to the noise matrix, is never negative. */
  lemma VarianceNonNegative(counts: seq<nat>, length: nat, expected: real)
    requires |counts| > 0 && 0.0 < expected < 1.0
    ensures Variance(counts, length, expected) >= 0.0
  {
    if CountTotal(counts) == 1 {
      Positive(expected, 1.0 - expected, expected * (1.0 - expected));
      ProductNonNegative(length as real, expected * (1.0 - expected), length as real * (expected * (1.0 - expected)));
    } else {
      var observed := Observed(counts);
      SumPositive(observed);
      SpreadNonNegative(observed, Mean(observed));
      QuotientNonNegative(SumOf(Deviations(observed, Mean(observed))), SumOf(observed));
    }
  }

  lemma QuotientNonNegative(a: real, b: real)
    requires a >= 0.0 && b > 0.0
    ensures a / b >= 0.0
  {
  }

  lemma ProductNonNegative(a: real, b: real, product: real)
    requires a >= 0.0 && b >= 0.0 && product == a * b
    ensures product >= 0.0
  {
  }

  // ---------------------------------------------------------------- what the variance is

  /** The weights of the scores 0, 1/2, 1 and so on: how often each was seen, or a thousandth. */
  function Weights(counts: seq<nat>): seq<real> {
    seq(|counts|, i requires 0 <= i < |counts| => if counts[i] == 0 then 0.001 else counts[i] as real)
  }

  /** The squared distances of the scores from the value `c`, each by its weight. */
  function SquaredErrors(counts: seq<nat>, c: real): seq<real> {
    seq(|counts|, i requires 0 <= i < |counts| => Weights(counts)[i] * Square(i as real / 2.0 - c))
  }

  lemma {:induction false} SumAdded(a: seq<real>, b: seq<real>, p: seq<real>)
    requires |a| == |b| == |p| && forall i | 0 <= i < |a| :: a[i] == b[i] + p[i]
    ensures SumOf(a) == SumOf(b) + SumOf(p)
  {
    if a != [] {
      var n := |a| - 1;
      SumAdded(a[..n], b[..n], p[..n]);
    }
  }

  lemma {:induction false} SumScaled(p: seq<real>, u: seq<real>, k: real)
    requires |p| == |u| && forall i | 0 <= i < |p| :: p[i] == k * u[i]
    ensures SumOf(p) == k * SumOf(u)
  {
    if p != [] {
      var n := |p| - 1;
      SumScaled(p[..n], u[..n], k);
      Distribute(SumOf(u[..n]), u[n], k);
    }
  }

  /** A weighted square seen from `c` instead of `m`. */
  lemma Shift(w: real, score: real, m: real, c: real, d: real, p: real, q: real)
    requires d == score * w - m * w && p == (2.0 * (m - c)) * d && q == w * Square(m - c)
    ensures w * Square(score - c) == w * Square(score - m) + p + q
  {
  }

  /** The weighted distances of the scores from `m`. */
  function Distances(counts: seq<nat>, m: real): seq<real> {
    seq(|counts|, i requires 0 <= i < |counts| =>
      (i as real / 2.0) * Weights(counts)[i] - m * Weights(counts)[i])
  }

  lemma ErrorSplits(counts: seq<nat>, m: real, c: real, p: seq<real>, q: seq<real>, i: nat)
    requires i < |p| == |q| == |counts|
    requires p[i] == (2.0 * (m - c)) * Distances(counts, m)[i] && q[i] == Weights(counts)[i] * Square(m - c)
    ensures SquaredErrors(counts, c)[i] == SquaredErrors(counts, m)[i] + p[i] + q[i]
  {
    Shift(Weights(counts)[i], i as real / 2.0, m, c, Distances(counts, m)[i], p[i], q[i]);
  }

  /** The errors from `c` are those from `m` and two more sums. */
  lemma ErrorsSplit(counts: seq<nat>, m: real, c: real, p: seq<real>, q: seq<real>)
    requires |p| == |q| == |counts|
    requires forall i | 0 <= i < |counts| :: p[i] == (2.0 * (m - c)) * Distances(counts, m)[i]
    requires forall i | 0 <= i < |counts| :: q[i] == Weights(counts)[i] * Square(m - c)
    ensures SumOf(SquaredErrors(counts, c)) == SumOf(SquaredErrors(counts, m)) + SumOf(p) + SumOf(q)
  {
    forall i | 0 <= i < |counts|
      ensures SquaredErrors(counts, c)[i] == SquaredErrors(counts, m)[i] + p[i] + q[i]
    {
      ErrorSplits(counts, m, c, p, q, i);
    }
    SumAddedTwice(SquaredErrors(counts, c), SquaredErrors(counts, m), p, q);
  }

  lemma SumAddedTwice(a: seq<real>, b: seq<real>, p: seq<real>, q: seq<real>)
    requires |a| == |b| == |p| == |q| && forall i | 0 <= i < |a| :: a[i] == b[i] + p[i] + q[i]
    ensures SumOf(a) == SumOf(b) + SumOf(p) + SumOf(q)
  {
    var between := seq(|a|, i requires 0 <= i < |a| => b[i] + p[i]);
    SumAdded(between, b, p);
    SumAdded(a, between, q);
  }

  lemma Linear(counts: seq<nat>, m: real, c: real) returns (p: seq<real>)
    requires SumOf(Distances(counts, m)) == 0.0
    ensures |p| == |counts| && SumOf(p) == 0.0
    ensures forall i | 0 <= i < |counts| :: p[i] == (2.0 * (m - c)) * Distances(counts, m)[i]
  {
    p := seq(|counts|, i requires 0 <= i < |counts| => (2.0 * (m - c)) * Distances(counts, m)[i]);
    SumScaled(p, Distances(counts, m), 2.0 * (m - c));
  }

  lemma Quadratic(counts: seq<nat>, m: real, c: real) returns (q: seq<real>)
    ensures |q| == |counts| && SumOf(q) >= 0.0
    ensures forall i | 0 <= i < |counts| :: q[i] == Weights(counts)[i] * Square(m - c)
  {
    q := seq(|counts|, i requires 0 <= i < |counts| => Weights(counts)[i] * Square(m - c));
    forall i | 0 <= i < |counts|
      ensures q[i] >= 0.0
    {
      WeightedSquare(Weights(counts)[i], m - c);
    }
    SumNonNegative(q);
  }

  /** A value whose weighted distances balance has the least error. */
  lemma BalanceIsLeast(counts: seq<nat>, m: real, c: real)
    requires SumOf(Distances(counts, m)) == 0.0
    ensures SumOf(SquaredErrors(counts, m)) <= SumOf(SquaredErrors(counts, c))
  {
    var p := Linear(counts, m, c);
    var q := Quadratic(counts, m, c);
    ErrorsSplit(counts, m, c, p, q);
  }

  lemma Quotient(a: real, b: real, q: real)
    requires b > 0.0 && q == a / b
    ensures q * b == a
  {
  }

  lemma MeanTimesWeight(weights: seq<real>, moments: seq<real>, mean: real, weight: real)
    requires weight == SumOf(weights) && weight > 0.0 && mean == Mean(weights)
    requires moments == seq(|weights|, i requires 0 <= i < |weights| => (i as real / 2.0) * weights[i])
    ensures mean * weight == SumOf(moments)
  {
    Quotient(SumOf(moments), weight, mean);
  }

  lemma ScaledSum(u: seq<real>, p: seq<real>, k: real)
    requires p == seq(|u|, i requires 0 <= i < |u| => k * u[i])
    ensures SumOf(p) == k * SumOf(u)
  {
    forall i | 0 <= i < |p|
      ensures p[i] == k * u[i]
    {
    }
    SumScaled(p, u, k);
  }

  lemma Balanced(weights: seq<real>, moments: seq<real>, scaled: seq<real>, distances: seq<real>, mean: real)
    requires moments == seq(|weights|, i requires 0 <= i < |weights| => (i as real / 2.0) * weights[i])
    requires scaled == seq(|weights|, i requires 0 <= i < |weights| => mean * weights[i])
    requires distances
          == seq(|weights|, i requires 0 <= i < |weights| => (i as real / 2.0) * weights[i] - mean * weights[i])
    requires SumOf(moments) == SumOf(scaled)
    ensures SumOf(distances) == 0.0
  {
    SumAdded(moments, distances, scaled);
  }

  lemma MeanBalances(counts: seq<nat>, mean: real)
    requires SumOf(Weights(counts)) > 0.0 && mean == Mean(Weights(counts))
    ensures SumOf(Distances(counts, mean)) == 0.0
  {
    var weights := Weights(counts);
    var moments := seq(|weights|, i requires 0 <= i < |weights| => (i as real / 2.0) * weights[i]);
    var scaled := seq(|weights|, i requires 0 <= i < |weights| => mean * weights[i]);
    MeanTimesWeight(weights, moments, mean, SumOf(weights));
    ScaledSum(weights, scaled, mean);
    Balanced(weights, moments, scaled, Distances(counts, mean), mean);
  }

  lemma DeviationsAreErrors(counts: seq<nat>, c: real)
    ensures Observed(counts) == Weights(counts) && Deviations(Observed(counts), c) == SquaredErrors(counts, c)
  {
  }

  lemma VarianceIsQuotient(counts: seq<nat>, length: nat, expected: real, v: real, sum: real, weight: real)
    requires |counts| > 0 && CountTotal(counts) != 1 && v == Variance(counts, length, expected)
    requires weight == SumOf(Weights(counts)) && weight > 0.0
    requires sum == SumOf(SquaredErrors(counts, Mean(Weights(counts))))
    ensures v == sum / weight
  {
    DeviationsAreErrors(counts, Mean(Weights(counts)));
  }

  lemma VarianceTimesWeight(counts: seq<nat>, length: nat, expected: real, v: real, sum: real, weight: real)
    requires |counts| > 0 && CountTotal(counts) != 1 && v == Variance(counts, length, expected)
    requires weight == SumOf(Weights(counts)) && weight > 0.0
    requires sum == SumOf(SquaredErrors(counts, Mean(Weights(counts))))
    ensures v * weight == sum
  {
    VarianceIsQuotient(counts, length, expected, v, sum, weight);
    Quotient(sum, weight, v);
  }

  /**
   * The variance of a bucket with more or fewer than one game: times the total weight it is the least squared error,
   * that of one value and no more than that of any other.
   */
  lemma VarianceIsLeast(counts: seq<nat>, length: nat, expected: real, variance: real, total: real)
      returns (mean: real, least: real)
    requires |counts| > 0 && CountTotal(counts) != 1
    requires variance == Variance(counts, length, expected) && total == SumOf(Weights(counts))
    ensures total > 0.0 && least == SumOf(SquaredErrors(counts, mean)) && variance * total == least
    ensures forall c :: least <= SumOf(SquaredErrors(counts, c))
  {
    SumPositive(Weights(counts));
    mean := Mean(Weights(counts));
    least := SumOf(SquaredErrors(counts, mean));
    VarianceTimesWeight(counts, length, expected, variance, least, total);
    MeanBalances(counts, mean);
    forall c
      ensures least <= SumOf(SquaredErrors(counts, c))
    {
      BalanceIsLeast(counts, mean, c);
    }
  }

  /** The variance of a bucket with a single game or pair: that of its length in games of the expected score. */
  lemma SingleVariance(counts: seq<nat>, seen: nat, length: nat, expected: real)
    requires seen < |counts| && counts[seen] == 1 && forall i | 0 <= i < |counts| && i != seen :: counts[i] == 0
    ensures Variance(counts, length, expected) == length as real * (expected * (1.0 - expected))
  {
    CountedOnce(counts, seen);
  }

  lemma {:induction false} CountedOnce(counts: seq<nat>, seen: nat)
    requires seen < |counts| && counts[seen] == 1 && forall i | 0 <= i < |counts| && i != seen :: counts[i] == 0
    ensures CountTotal(counts) == 1
  {
    if seen == |counts| - 1 {
      ZerosTotalZero(counts[..seen]);
    } else {
      CountedOnce(counts[..|counts| - 1], seen);
    }
  }
}
