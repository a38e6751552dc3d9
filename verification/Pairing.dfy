/** Grouping games into colour-reversed pairs: the specification, by lists of scores, and what it conserves. */
module Pairing {
  import opened Wrappers
  import opened Sums

  /** The score of one game in half points. */
  type Half = n: nat | n <= 2

  /** An accepted game, seen from the pair's `first` engine. */
  datatype Meeting = Meeting(tournament: int, first: nat, second: nat, whiteFirst: bool, opening: Option<int>,
                             score: Half)

  datatype Key = Key(tournament: int, opening: int, first: nat, second: nat)

  datatype Bucket = Bucket(tournament: int, first: nat, second: nat, length: nat, side: Option<bool>)

  datatype Entry = Entry(bucket: Bucket, value: nat)

  /** One increment of a frequency list, at a score that the bucket's length allows. */
  type Mark = e: Entry | 1 <= e.bucket.length <= 2 && e.value <= 2 * e.bucket.length
    witness Entry(Bucket(0, 0, 0, 1, None), 0)

  /** A frequency list is created with five zeros. */
  type Counts = counts: seq<nat> | |counts| == 5 witness [0, 0, 0, 0, 0]

  type Frequencies = map<Bucket, Counts>

  /** The two waiting queues of a key: scores with `first` black, then with `first` white. */
  datatype Queues = Queues(black: seq<Half>, white: seq<Half>)

  function KeyOf(m: Meeting): Key
    requires m.opening.Some?
  {
    Key(m.tournament, m.opening.value, m.first, m.second)
  }

  /** The scores of a key's games with `first` on the given side, in order. */
  function Scores(ms: seq<Meeting>, key: Key, white: bool): seq<Half> {
    if ms == [] then []
    else
      var m := ms[|ms| - 1];
      Scores(ms[..|ms| - 1], key, white)
      + if m.opening.Some? && KeyOf(m) == key && m.whiteFirst == white then [m.score] else []
  }

  function Min(a: nat, b: nat): nat {
    if a < b then a else b
  }

  /** Game `m`, played after `before`, finds an unpaired game of its key with the colours reversed. */
  predicate Completes(before: seq<Meeting>, m: Meeting) {
    m.opening.Some? && |Scores(before, KeyOf(m), !m.whiteFirst)| > |Scores(before, KeyOf(m), m.whiteFirst)|
  }

  function SingleBucket(m: Meeting): Bucket {
    Bucket(m.tournament, m.first, m.second, 1, Some(m.whiteFirst))
  }

  function PairBucket(m: Meeting): Bucket {
    Bucket(m.tournament, m.first, m.second, 2, None)
  }

  function PairTotal(before: seq<Meeting>, m: Meeting): nat
    requires Completes(before, m)
  {
    (m.score as nat) + Scores(before, KeyOf(m), !m.whiteFirst)[|Scores(before, KeyOf(m), m.whiteFirst)|]
  }

  /** What the pass over the games records, game by game. */
  function Recorded(ms: seq<Meeting>): seq<Mark> {
    if ms == [] then []
    else
      var before, m := ms[..|ms| - 1], ms[|ms| - 1];
      Recorded(before)
      + if m.opening.None? then [Entry(SingleBucket(m), m.score)]
        else if Completes(before, m) then [Entry(PairBucket(m), PairTotal(before, m))]
        else []
  }

  /** A single game as it is recorded. */
  predicate IsSingle(e: Entry, m: Meeting) {
    m.opening.None? && e == Entry(Bucket(m.tournament, m.first, m.second, 1, Some(m.whiteFirst)), m.score)
  }

  /** A pair as it is recorded: two games of one tournament and opening between the same engines, sides reversed. */
  predicate IsPair(e: Entry, m: Meeting, n: Meeting) {
    && m.opening.Some? && m.opening == n.opening && m.tournament == n.tournament
    && m.first == n.first && m.second == n.second && m.whiteFirst != n.whiteFirst
    && e == Entry(Bucket(m.tournament, m.first, m.second, 2, None), m.score + n.score)
  }

  /** Everything recorded is a single game without an opening or a pair of two games with reversed sides. */
  lemma {:induction false} RecordedIsPlayed(ms: seq<Meeting>, e: Mark)
    requires e in Recorded(ms)
    ensures (exists i :: 0 <= i < |ms| && IsSingle(e, ms[i]))
         || (exists i, j :: 0 <= i < j < |ms| && IsPair(e, ms[i], ms[j]))
  {
    var before, m := ms[..|ms| - 1], ms[|ms| - 1];
    if e in Recorded(before) {
      RecordedIsPlayed(before, e);
    } else if m.opening.None? {
      assert IsSingle(e, ms[|ms| - 1]);
    } else {
      var k := |Scores(before, KeyOf(m), m.whiteFirst)|;
      var i := ScoredBy(before, KeyOf(m), !m.whiteFirst, k);
      assert IsPair(e, ms[i], ms[|ms| - 1]);
    }
  }

  lemma {:induction false} ScoredBy(ms: seq<Meeting>, key: Key, white: bool, k: nat) returns (i: nat)
    requires k < |Scores(ms, key, white)|
    ensures i < |ms| && ms[i].opening.Some? && KeyOf(ms[i]) == key && ms[i].whiteFirst == white
    ensures Scores(ms, key, white)[k] == ms[i].score
  {
    if k < |Scores(ms[..|ms| - 1], key, white)| {
      i := ScoredBy(ms[..|ms| - 1], key, white, k);
    } else {
      i := |ms| - 1;
    }
  }

  /** The totals of a key's completed pairs, in order of completion. */
  function PairTotals(ms: seq<Meeting>, key: Key): seq<nat> {
    if ms == [] then []
    else
      var before, m := ms[..|ms| - 1], ms[|ms| - 1];
      PairTotals(before, key)
      + if m.opening.Some? && KeyOf(m) == key && Completes(before, m) then [PairTotal(before, m)] else []
  }

  /** Pairing is maximal and first come, first served: the i-th white game of a key is paired with its i-th black
      game, and the number of pairs is the smaller of the two counts. */
  lemma {:induction false} PairsAreMaximal(ms: seq<Meeting>, key: Key)
    ensures
      var white, black := Scores(ms, key, true), Scores(ms, key, false);
      && |PairTotals(ms, key)| == Min(|white|, |black|)
      && forall i | 0 <= i < Min(|white|, |black|) :: PairTotals(ms, key)[i] == (white[i] as nat) + (black[i] as nat)
  {
    if ms != [] {
      PairsAreMaximal(ms[..|ms| - 1], key);
    }
  }

  // ---------------------------------------------------------------- the queues

  function QueuesOf(pending: map<Key, Queues>, key: Key): Queues {
    if key in pending then pending[key] else Queues([], [])
  }

  /** A key waits exactly when one side has more games than the other, and then with that side's surplus. */
  ghost predicate PendingOk(pending: map<Key, Queues>, ms: seq<Meeting>) {
    forall key :: PendingKeyOk(pending, ms, key)
  }

  ghost predicate PendingKeyOk(pending: map<Key, Queues>, ms: seq<Meeting>, key: Key) {
    var white, black := Scores(ms, key, true), Scores(ms, key, false);
    var paired := Min(|white|, |black|);
    && (key in pending <==> |white| != |black|)
    && QueuesOf(pending, key) == Queues(black[paired..], white[paired..])
  }

  /** Queues of other keys are not affected by a game. */
  lemma PendingStep(pending: map<Key, Queues>, pending': map<Key, Queues>, before: seq<Meeting>, m: Meeting)
    requires PendingOk(pending, before) && m.opening.Some?
    requires forall key | key != KeyOf(m) ::
               (key in pending' <==> key in pending) && QueuesOf(pending', key) == QueuesOf(pending, key)
    requires PendingKeyOk(pending', before + [m], KeyOf(m))
    ensures PendingOk(pending', before + [m])
  {
    assert (before + [m])[..|before|] == before;
    forall key
      ensures PendingKeyOk(pending', before + [m], key)
    {
      assert PendingKeyOk(pending, before, key);
    }
  }

  lemma SingleStep(pending: map<Key, Queues>, before: seq<Meeting>, m: Meeting)
    requires PendingOk(pending, before) && m.opening.None?
    ensures PendingOk(pending, before + [m])
  {
    assert (before + [m])[..|before|] == before;
    forall key
      ensures PendingKeyOk(pending, before + [m], key)
    {
      assert PendingKeyOk(pending, before, key);
    }
  }

  ghost function Waiting(pending: map<Key, Queues>): map<Key, nat> {
    map key | key in pending :: |pending[key].black| + |pending[key].white|
  }

  function Put(pending: map<Key, Queues>, key: Key, queues: Queues): map<Key, Queues> {
    if queues.black == [] && queues.white == [] then pending - {key} else pending[key := queues]
  }

  function Opposite(queues: Queues, m: Meeting): seq<Half> {
    if m.whiteFirst then queues.black else queues.white
  }

  /** The queues of a key after one more game of it. */
  function NextQueues(queues: Queues, m: Meeting): Queues {
    if Opposite(queues, m) != [] then
      if m.whiteFirst then queues.(black := queues.black[1..]) else queues.(white := queues.white[1..])
    else
      if m.whiteFirst then queues.(white := queues.white + [m.score]) else queues.(black := queues.black + [m.score])
  }

  /** The queues hold what the score lists say: a partner waits exactly when the game completes a pair. */
  lemma QueueStep(pending: map<Key, Queues>, before: seq<Meeting>, m: Meeting)
    requires PendingOk(pending, before) && m.opening.Some?
    ensures
      var queues := QueuesOf(pending, KeyOf(m));
      && (Opposite(queues, m) != [] <==> Completes(before, m))
      && (Opposite(queues, m) != [] ==> (m.score as nat) + Opposite(queues, m)[0] == PairTotal(before, m))
      && PendingOk(Put(pending, KeyOf(m), NextQueues(queues, m)), before + [m])
  {
    var key := KeyOf(m);
    assert PendingKeyOk(pending, before, key);
    assert (before + [m])[..|before|] == before;
    var pending' := Put(pending, key, NextQueues(QueuesOf(pending, key), m));
    PendingStep(pending, pending', before, m);
  }

  lemma PutTotal(pending: map<Key, Queues>, key: Key, queues: Queues)
    ensures
      var before := QueuesOf(pending, key);
      Total(Waiting(Put(pending, key, queues))) + |before.black| + |before.white|
      == Total(Waiting(pending)) + |queues.black| + |queues.white|
  {
    var size := |queues.black| + |queues.white|;
    if size == 0 {
      TotalDrop(Waiting(pending), Waiting(Put(pending, key, queues)), key);
    } else {
      TotalPut(Waiting(pending), Waiting(Put(pending, key, queues)), key, size);
    }
  }

  // ---------------------------------------------------------------- frequency lists

  function Counted(frequencies: Frequencies, bucket: Bucket): Counts {
    if bucket in frequencies then frequencies[bucket] else [0, 0, 0, 0, 0]
  }

  function Bump(frequencies: Frequencies, e: Mark): Frequencies {
    var counts := Counted(frequencies, e.bucket);
    frequencies[e.bucket := counts[e.value := counts[e.value] + 1]]
  }

  function Tally(log: seq<Mark>): Frequencies {
    if log == [] then map[] else Bump(Tally(log[..|log| - 1]), log[|log| - 1])
  }

  lemma TallyStep(log: seq<Mark>, e: Mark)
    ensures Tally(log + [e]) == Bump(Tally(log), e)
  {
    assert (log + [e])[..|log|] == log;
  }

  function Occurrences(log: seq<Mark>, e: Entry): nat {
    if log == [] then 0 else Occurrences(log[..|log| - 1], e) + if log[|log| - 1] == e then 1 else 0
  }

  /** A frequency list holds how often each score was recorded, and nothing beyond the scores its length allows. */
  lemma {:induction false} TallyCounts(log: seq<Mark>, bucket: Bucket, value: nat)
    requires value < 5
    ensures Counted(Tally(log), bucket)[value] == Occurrences(log, Entry(bucket, value))
    ensures value > 2 * bucket.length ==> Counted(Tally(log), bucket)[value] == 0
  {
    if log != [] {
      TallyCounts(log[..|log| - 1], bucket, value);
    }
  }

  function CountTotal(counts: seq<nat>): nat {
    if counts == [] then 0 else CountTotal(counts[..|counts| - 1]) + counts[|counts| - 1]
  }

  lemma {:induction false} CountTotalBump(counts: seq<nat>, i: nat)
    requires i < |counts|
    ensures CountTotal(counts[i := counts[i] + 1]) == CountTotal(counts) + 1
  {
    var last := |counts| - 1;
    if i < last {
      assert counts[i := counts[i] + 1][..last] == counts[..last][i := counts[i] + 1];
      CountTotalBump(counts[..last], i);
    } else {
      assert counts[i := counts[i] + 1][..last] == counts[..last];
    }
  }

  /** The counts as truncated to the scores that a bucket of this length can have. */
  function Truncated(counts: seq<nat>, length: nat): seq<nat> {
    if 2 * length + 1 <= |counts| then counts[..2 * length + 1] else counts
  }

  /** For every bucket, the number of games that its truncated counts stand for. */
  ghost function GamesPerBucket(frequencies: Frequencies): map<Bucket, nat> {
    map b | b in frequencies :: GamesIn(frequencies[b], b.length)
  }

  function GamesRecorded(log: seq<Mark>): nat {
    if log == [] then 0 else GamesRecorded(log[..|log| - 1]) + log[|log| - 1].bucket.length
  }

  lemma {:induction false} GamesRecordedAppend(log: seq<Mark>, more: seq<Mark>)
    ensures GamesRecorded(log + more) == GamesRecorded(log) + GamesRecorded(more)
  {
    if more == [] {
      assert log + more == log;
    } else {
      assert (log + more)[..|log + more| - 1] == log + more[..|more| - 1];
      GamesRecordedAppend(log, more[..|more| - 1]);
    }
  }

  /** Length times count, summed over the buckets after truncation, is the number of games recorded. */
  lemma {:induction false} BucketsConserveGames(log: seq<Mark>)
    ensures Total(GamesPerBucket(Tally(log))) == GamesRecorded(log)
  {
    if log == [] {
      assert GamesPerBucket(Tally(log)) == map[];
    } else {
      var before, e := log[..|log| - 1], log[|log| - 1];
      BucketsConserveGames(before);
      BumpAddsLength(Tally(before), e);
    }
  }

  /** The games that a bucket's counts stand for, after truncation. */
  function GamesIn(counts: seq<nat>, length: nat): nat {
    length * CountTotal(Truncated(counts, length))
  }

  lemma BumpedCounts(counts: seq<nat>, length: nat, value: nat)
    requires |counts| == 5 && 1 <= length <= 2 && value <= 2 * length
    ensures GamesIn(counts[value := counts[value] + 1], length) == GamesIn(counts, length) + length
  {
    var cut := Truncated(counts, length);
    assert Truncated(counts[value := counts[value] + 1], length) == cut[value := cut[value] + 1];
    CountTotalBump(cut, value);
    assert length == 1 || length == 2;
  }

  lemma FreshCounts(length: nat)
    ensures GamesIn([0, 0, 0, 0, 0], length) == 0
  {
    ZerosTotalZero(Truncated([0, 0, 0, 0, 0], length));
  }

  lemma {:induction false} ZerosTotalZero(counts: seq<nat>)
    requires forall i | 0 <= i < |counts| :: counts[i] == 0
    ensures CountTotal(counts) == 0
  {
    if counts != [] {
      ZerosTotalZero(counts[..|counts| - 1]);
    }
  }

  lemma BumpAddsLength(frequencies: Frequencies, e: Mark)
    ensures Total(GamesPerBucket(Bump(frequencies, e))) == Total(GamesPerBucket(frequencies)) + e.bucket.length
  {
    var b := e.bucket;
    var games, games' := GamesPerBucket(frequencies), GamesPerBucket(Bump(frequencies, e));
    BumpedCounts(Counted(frequencies, b), b.length, e.value);
    FreshCounts(b.length);
    TotalPut(games, games', b, games'[b]);
  }
}
