/** Dataset selection for an environment clone: the closure of a request, in dependency order. */
module Selection {
  import opened Wrappers
  import opened Ordering

  /** Datasets are numbered in the alphabetical order of their names. */
  type Key = nat

  datatype Dataset = Dataset(dependencies: seq<Key>, companions: seq<Key>, available: bool)

  /** The catalogue: its order of declaration and its entries by key. */
  datatype Listing = Listing(order: seq<Key>, entries: map<Key, Dataset>)

  /** Every key is declared once, and every dependency and companion is itself declared. */
  ghost predicate Coherent(c: Listing) {
    && Distinct(c.order)
    && (forall k | k in c.order :: k in c.entries)
    && (forall k | k in c.entries :: k in c.order)
    && forall k, d | k in c.entries && d in Successors(c, k) :: d in c.entries
  }

  type Catalogue = c: Listing | Coherent(c) witness Listing([], map[])

  datatype SelectionError = Unknown(key: Key) | NotPortable(key: Key) | DependencyCycle(key: Key)

  function Successors(c: Listing, k: Key): seq<Key>
    requires k in c.entries
  {
    c.entries[k].dependencies + c.entries[k].companions
  }

  ghost predicate Distinct(s: seq<Key>) {
    forall i, j | 0 <= i < j < |s| :: s[i] != s[j]
  }

  ghost predicate Known(c: Catalogue, s: set<Key>) {
    forall k | k in s :: k in c.entries
  }

  // ---------------------------------------------------------------- the closure

  ghost predicate Closed(c: Catalogue, s: set<Key>)
    requires Known(c, s)
  {
    forall k, d | k in s && d in Successors(c, k) :: d in s
  }

  /** `s` is the least closed set around `start`. */
  ghost predicate IsClosure(c: Catalogue, start: set<Key>, s: set<Key>) {
    && start <= s && Known(c, s) && Closed(c, s)
    && forall t | start <= t && Known(c, t) && Closed(c, t) :: s <= t
  }

  function Frontier(c: Catalogue, s: set<Key>): (f: set<Key>)
    requires Known(c, s)
    ensures Known(c, f) && f !! s
  {
    set k, d | k in s && d in Successors(c, k) && d !in s :: d
  }

  function Closure(c: Catalogue, s: set<Key>): (r: set<Key>)
    requires Known(c, s)
    ensures Known(c, r)
    decreases c.entries.Keys - s
  {
    var more := Frontier(c, s);
    if more == {} then s else
      assert more <= c.entries.Keys;
      Closure(c, s + more)
  }

  lemma {:induction false} ClosureIsLeast(c: Catalogue, s: set<Key>)
    requires Known(c, s)
    ensures IsClosure(c, s, Closure(c, s))
    decreases c.entries.Keys - s
  {
    var more := Frontier(c, s);
    if more == {} {
      forall k, d | k in s && d in Successors(c, k)
        ensures d in s
      {
        assert d !in more;
      }
    } else {
      assert more <= c.entries.Keys;
      ClosureIsLeast(c, s + more);
      forall t | s <= t && Known(c, t) && Closed(c, t)
        ensures Closure(c, s) <= t
      {
        assert s + more <= t;
      }
    }
  }

  lemma ClosureIsUnique(c: Catalogue, start: set<Key>, s: set<Key>, t: set<Key>)
    requires IsClosure(c, start, s) && IsClosure(c, start, t)
    ensures s == t
  {
  }

  // ---------------------------------------------------------------- the order

  /** `visit`: append `key` after everything it depends on; `visiting` holds the calls under way. */
  function Visit(c: Catalogue, key: Key, ordered: seq<Key>, visiting: set<Key>): Result<seq<Key>, SelectionError>
    requires key in c.entries
    decreases c.entries.Keys - visiting, 0
  {
    if key in ordered then Ok(ordered)
    else if key in visiting then Error(DependencyCycle(key))
    else
      var below := VisitAll(c, c.entries[key].dependencies, ordered, visiting + {key});
      if below.Error? then below else Ok(below.value + [key])
  }

  function VisitAll(c: Catalogue, keys: seq<Key>, ordered: seq<Key>, visiting: set<Key>)
    : Result<seq<Key>, SelectionError>
    requires forall k | k in keys :: k in c.entries
    decreases c.entries.Keys - visiting, 1 + |keys|
  {
    if keys == [] then Ok(ordered)
    else
      var first := Visit(c, keys[0], ordered, visiting);
      if first.Error? then first else VisitAll(c, keys[1..], first.value, visiting)
  }

  function Chosen(order: seq<Key>, s: set<Key>): (r: seq<Key>)
    ensures forall k :: k in r <==> k in order && k in s
  {
    if order == [] then []
    else (if order[0] in s then [order[0]] else []) + Chosen(order[1..], s)
  }

  function Unavailable(c: Catalogue, s: set<Key>): set<Key>
    requires Known(c, s)
  {
    set k | k in s && !c.entries[k].available
  }

  lemma UnknownIsEmpty(c: Catalogue, s: set<Key>)
    requires s - c.entries.Keys == {}
    ensures Known(c, s)
  {
    forall k | k in s
      ensures k in c.entries
    {
      assert k !in s - c.entries.Keys;
    }
  }

  /** `expanded_selection`, as a function of the set of requested keys. */
  function Expanded(c: Catalogue, requested: set<Key>): Result<seq<Key>, SelectionError> {
    if requested - c.entries.Keys != {} then Error(Unknown(Least(requested - c.entries.Keys)))
    else
      assert Known(c, requested) by { UnknownIsEmpty(c, requested); }
      if Unavailable(c, requested) != {} then Error(NotPortable(Least(Unavailable(c, requested))))
    else VisitAll(c, Chosen(c.order, Closure(c, requested)), [], {})
  }

  // ---------------------------------------------------------------- what a successful visit leaves

  /** No key twice, and each key after everything it depends on. */
  ghost predicate Ordered(c: Catalogue, s: seq<Key>) {
    && Distinct(s)
    && (forall k | k in s :: k in c.entries)
    && forall i, d | 0 <= i < |s| && d in c.entries[s[i]].dependencies :: d in s[..i]
  }

  ghost predicate Apart(s: seq<Key>, visiting: set<Key>) {
    forall k | k in s :: k !in visiting
  }

  ghost predicate Inside(s: seq<Key>, t: set<Key>) {
    forall k | k in s :: k in t
  }

  ghost predicate DependenciesInside(c: Catalogue, t: set<Key>) {
    Known(c, t) && forall k, d | k in t && d in c.entries[k].dependencies :: d in t
  }

  lemma {:induction false} VisitOrders(
    c: Catalogue, key: Key, ordered: seq<Key>, visiting: set<Key>, t: set<Key>)
    requires key in t && DependenciesInside(c, t)
    requires Ordered(c, ordered) && Apart(ordered, visiting) && Inside(ordered, t)
    requires Visit(c, key, ordered, visiting).Ok?
    ensures var r := Visit(c, key, ordered, visiting).value;
      ordered <= r && key in r && Ordered(c, r) && Apart(r, visiting) && Inside(r, t)
    decreases c.entries.Keys - visiting, 0
  {
    if key !in ordered {
      var below := VisitAll(c, c.entries[key].dependencies, ordered, visiting + {key});
      VisitAllOrders(c, c.entries[key].dependencies, ordered, visiting + {key}, t);
      assert Ordered(c, below.value + [key]) by {
        AppendOrdered(c, below.value, key);
      }
    }
  }

  lemma AppendOrdered(c: Catalogue, s: seq<Key>, key: Key)
    requires Ordered(c, s) && key in c.entries && key !in s
    requires forall d | d in c.entries[key].dependencies :: d in s
    ensures Ordered(c, s + [key])
  {
    var r := s + [key];
    forall i, d | 0 <= i < |r| && d in c.entries[r[i]].dependencies
      ensures d in r[..i]
    {
      if i < |s| {
        assert r[..i] == s[..i];
      } else {
        assert r[..i] == s;
      }
    }
  }

  lemma {:induction false} VisitAllOrders(
    c: Catalogue, keys: seq<Key>, ordered: seq<Key>, visiting: set<Key>, t: set<Key>)
    requires Inside(keys, t) && DependenciesInside(c, t)
    requires Ordered(c, ordered) && Apart(ordered, visiting) && Inside(ordered, t)
    requires VisitAll(c, keys, ordered, visiting).Ok?
    ensures var r := VisitAll(c, keys, ordered, visiting).value;
      && ordered <= r && Ordered(c, r) && Apart(r, visiting) && Inside(r, t)
      && forall k | k in keys :: k in r
    decreases c.entries.Keys - visiting, 1 + |keys|
  {
    if keys != [] {
      assert keys[0] in keys;
      VisitOrders(c, keys[0], ordered, visiting, t);
      VisitAllOrders(c, keys[1..], Visit(c, keys[0], ordered, visiting).value, visiting, t);
    }
  }

  // ---------------------------------------------------------------- cycles

  /** A walk along dependencies that returns to where it began. */
  ghost predicate IsCycle(c: Catalogue, p: seq<Key>) {
    |p| >= 2 && p[0] == p[|p| - 1] && IsWalk(c, p)
  }

  ghost predicate IsWalk(c: Catalogue, p: seq<Key>) {
    && (forall i | 0 <= i < |p| :: p[i] in c.entries)
    && forall i | 0 < i < |p| :: p[i] in c.entries[p[i - 1]].dependencies
  }

  ghost predicate HasCycle(c: Catalogue, t: set<Key>) {
    exists p :: IsCycle(c, p) && Inside(p, t)
  }

  /** The calls under way form a walk of dependencies, so a key met again closes a cycle. */
  ghost predicate Stack(c: Catalogue, path: seq<Key>, visiting: set<Key>, t: set<Key>) {
    IsWalk(c, path) && Inside(path, t) && forall k | k in visiting :: k in path
  }

  lemma KeyClosesCycle(c: Catalogue, key: Key, path: seq<Key>, t: set<Key>)
    requires key in path && IsWalk(c, path) && Inside(path, t)
    requires key in c.entries[path[|path| - 1]].dependencies
    ensures HasCycle(c, t)
  {
    var i :| 0 <= i < |path| && path[i] == key;
    var p := path[i..] + [key];
    assert IsCycle(c, p) && Inside(p, t);
  }

  lemma WalkGrows(c: Catalogue, key: Key, path: seq<Key>)
    requires IsWalk(c, path) && key in c.entries
    requires path != [] ==> key in c.entries[path[|path| - 1]].dependencies
    ensures IsWalk(c, path + [key])
  {
  }

  lemma {:induction false} VisitErrorIsCycle(
    c: Catalogue, key: Key, ordered: seq<Key>, visiting: set<Key>, path: seq<Key>, t: set<Key>)
    requires key in t && DependenciesInside(c, t) && Stack(c, path, visiting, t)
    requires path != [] ==> key in c.entries[path[|path| - 1]].dependencies
    requires Visit(c, key, ordered, visiting).Error?
    ensures HasCycle(c, t)
    decreases c.entries.Keys - visiting, 0
  {
    if key in visiting {
      KeyClosesCycle(c, key, path, t);
    } else {
      WalkGrows(c, key, path);
      VisitAllErrorIsCycle(c, c.entries[key].dependencies, ordered, visiting + {key}, path + [key], t);
    }
  }

  lemma {:induction false} VisitAllErrorIsCycle(
    c: Catalogue, keys: seq<Key>, ordered: seq<Key>, visiting: set<Key>, path: seq<Key>, t: set<Key>)
    requires Inside(keys, t) && DependenciesInside(c, t) && Stack(c, path, visiting, t)
    requires path != [] ==> forall k | k in keys :: k in c.entries[path[|path| - 1]].dependencies
    requires VisitAll(c, keys, ordered, visiting).Error?
    ensures HasCycle(c, t)
    decreases c.entries.Keys - visiting, 1 + |keys|
  {
    assert keys[0] in keys;
    var first := Visit(c, keys[0], ordered, visiting);
    if first.Error? {
      VisitErrorIsCycle(c, keys[0], ordered, visiting, path, t);
    } else {
      assert forall k | k in keys[1..] :: k in keys;
      VisitAllErrorIsCycle(c, keys[1..], first.value, visiting, path, t);
    }
  }

  /** Along a walk, positions in an ordered sequence only go down. */
  lemma {:induction false} WalkDescends(c: Catalogue, s: seq<Key>, p: seq<Key>, i: nat) returns (at: nat)
    requires Ordered(c, s) && IsWalk(c, p) && i < |p| && p[0] in s
    ensures at < |s| && s[at] == p[i]
    ensures forall j | 0 <= j < |s| && s[j] == p[0] :: if i == 0 then at == j else at < j
  {
    if i == 0 {
      at :| 0 <= at < |s| && s[at] == p[0];
    } else {
      var before := WalkDescends(c, s, p, i - 1);
      assert p[i] in s[..before];
      at :| 0 <= at < before && s[..before][at] == p[i];
    }
  }

  lemma OrderedHasNoCycle(c: Catalogue, s: seq<Key>, t: set<Key>)
    requires Ordered(c, s) && forall k | k in t :: k in s
    ensures !HasCycle(c, t)
  {
    if HasCycle(c, t) {
      var p :| IsCycle(c, p) && Inside(p, t);
      var start := WalkDescends(c, s, p, 0);
      var finish := WalkDescends(c, s, p, |p| - 1);
      assert false;
    }
  }

  // ---------------------------------------------------------------- the selection

  /**
   * A request of known, available datasets succeeds exactly when the dependencies of its closure have no cycle;
   * companions may go in circles. The result lists the closure, each dataset once and after its dependencies.
   */
  lemma SelectionIsTheOrderedClosure(c: Catalogue, requested: set<Key>)
    requires Known(c, requested) && Unavailable(c, requested) == {}
    ensures Expanded(c, requested).Ok? <==> !HasCycle(c, Closure(c, requested))
    ensures Expanded(c, requested).Ok? ==>
      var r := Expanded(c, requested).value;
      Ordered(c, r) && forall k :: k in r <==> k in Closure(c, requested)
    ensures Expanded(c, requested).Error? ==> Expanded(c, requested).error.DependencyCycle?
  {
    var s := Closure(c, requested);
    ClosureIsLeast(c, requested);
    var keys := Chosen(c.order, s);
    assert requested - c.entries.Keys == {};
    assert DependenciesInside(c, s) by {
      forall k, d | k in s && d in c.entries[k].dependencies
        ensures d in s
      {
        assert d in Successors(c, k);
      }
    }
    var r := VisitAll(c, keys, [], {});
    if r.Ok? {
      VisitAllOrders(c, keys, [], {}, s);
      assert forall k | k in s :: k in r.value;
      OrderedHasNoCycle(c, r.value, s);
    } else {
      VisitAllErrorIsCycle(c, keys, [], {}, [], s);
      ErrorsAreCycles(c, keys, [], {});
    }
  }

  lemma {:induction false} ErrorIsCycle(c: Catalogue, key: Key, ordered: seq<Key>, visiting: set<Key>)
    requires key in c.entries
    ensures var r := Visit(c, key, ordered, visiting); r.Error? ==> r.error.DependencyCycle?
    decreases c.entries.Keys - visiting, 0
  {
    if key !in ordered && key !in visiting {
      ErrorsAreCycles(c, c.entries[key].dependencies, ordered, visiting + {key});
    }
  }

  lemma {:induction false} ErrorsAreCycles(c: Catalogue, keys: seq<Key>, ordered: seq<Key>, visiting: set<Key>)
    requires forall k | k in keys :: k in c.entries
    ensures var r := VisitAll(c, keys, ordered, visiting); r.Error? ==> r.error.DependencyCycle?
    decreases c.entries.Keys - visiting, 1 + |keys|
  {
    if keys != [] {
      ErrorIsCycle(c, keys[0], ordered, visiting);
      if Visit(c, keys[0], ordered, visiting).Ok? {
        ErrorsAreCycles(c, keys[1..], Visit(c, keys[0], ordered, visiting).value, visiting);
      }
    }
  }

  function Elements(s: seq<Key>): set<Key> {
    set k | k in s
  }

  /** A request fails for an unknown or unportable key before anything else, naming the least such key. */
  lemma BadRequests(c: Catalogue, requested: set<Key>)
    ensures (Expanded(c, requested).Error? && Expanded(c, requested).error.Unknown?) <==> !Known(c, requested)
    ensures Known(c, requested) ==>
      ((Expanded(c, requested).Error? && Expanded(c, requested).error.NotPortable?)
        <==> exists k | k in requested :: !c.entries[k].available)
  {
    if Known(c, requested) {
      assert requested - c.entries.Keys == {};
      if Unavailable(c, requested) == {} {
        SelectionIsTheOrderedClosure(c, requested);
        forall k | k in requested
          ensures c.entries[k].available
        {
          assert k !in Unavailable(c, requested);
        }
      } else {
        var k :| k in Unavailable(c, requested);
        assert k in requested && !c.entries[k].available;
      }
    } else {
      var k :| k in requested && k !in c.entries;
      assert k in requested - c.entries.Keys;
    }
  }

  /** The key that is named is the least of the unknown ones, or else of the unportable ones. */
  lemma LeastIsNamed(c: Catalogue, requested: set<Key>, k: Key)
    ensures Expanded(c, requested) == Error(Unknown(k)) <==>
      k in requested && k !in c.entries && forall j | j in requested && j !in c.entries :: k <= j
    ensures Known(c, requested) ==>
      (Expanded(c, requested) == Error(NotPortable(k)) <==>
        && k in requested && !c.entries[k].available
        && forall j | j in requested && !c.entries[j].available :: k <= j)
  {
    BadRequests(c, requested);
    assert forall j :: j in requested - c.entries.Keys <==> j in requested && j !in c.entries;
    if Known(c, requested) {
      assert forall j :: j in Unavailable(c, requested) <==> j in requested && !c.entries[j].available;
    }
  }

  /**
   * Expanding a result again gives the same sequence, exactly when everything the first expansion drew in is
   * itself portable: only the datasets asked for are checked for that.
   */
  lemma ExpansionIsIdempotent(c: Catalogue, requested: set<Key>)
    requires Expanded(c, requested).Ok?
    ensures Known(c, requested)
    ensures var r := Expanded(c, requested).value;
      Expanded(c, Elements(r)) == Ok(r) <==> (forall k | k in Closure(c, requested) :: c.entries[k].available)
  {
    BadRequests(c, requested);
    var r := Expanded(c, requested).value;
    var s := Closure(c, requested);
    RequestIsPortable(c, requested);
    SelectionIsTheOrderedClosure(c, requested);
    assert Elements(r) == s;
    assert s - c.entries.Keys == {};
    ClosureIsLeast(c, requested);
    ClosureIsLeast(c, s);
    ClosureIsUnique(c, s, Closure(c, s), s);
    if forall k | k in s :: c.entries[k].available {
      assert Unavailable(c, s) == {};
    } else {
      var k :| k in s && !c.entries[k].available;
      assert k in Unavailable(c, s);
    }
  }

  lemma RequestIsPortable(c: Catalogue, requested: set<Key>)
    requires Expanded(c, requested).Ok?
    ensures Known(c, requested) && Unavailable(c, requested) == {}
  {
    UnknownIsEmpty(c, requested);
  }

  /** `validate_clone_manifest`: the selection a source reports must be the expansion of what was asked for. */
  predicate ManifestMatches(c: Catalogue, reported: seq<Key>, expected: set<Key>) {
    Expanded(c, expected) == Ok(reported)
  }

  /**
   * The destination stores an expanded request and sends it; the source expands what it receives and reports
   * that. The manifest is accepted exactly when everything in the closure is portable.
   */
  lemma ManifestRoundTrip(c: Catalogue, requested: set<Key>)
    requires Expanded(c, requested).Ok?
    ensures Known(c, requested)
    ensures var sent := Expanded(c, requested).value;
      var reported := Expanded(c, Elements(sent));
      (reported.Ok? && ManifestMatches(c, reported.value, Elements(sent))) <==>
        forall k | k in Closure(c, requested) :: c.entries[k].available
  {
    ExpansionIsIdempotent(c, requested);
    RequestIsPortable(c, requested);
    SelectionIsTheOrderedClosure(c, requested);
    var s := Closure(c, requested);
    var sent := Expanded(c, requested).value;
    assert Elements(sent) == s;
    if !(forall k | k in s :: c.entries[k].available) {
      BadRequests(c, s);
    }
  }

  /** Nothing portable names anything that is not: so it is in the catalogue the platform declares. */
  predicate PortableThroughout(c: Catalogue) {
    forall k, d | k in c.entries && c.entries[k].available && d in Successors(c, k) ::
      d in c.entries && c.entries[d].available
  }

  lemma ClosureIsPortable(c: Catalogue, requested: set<Key>)
    requires PortableThroughout(c) && Known(c, requested)
    requires forall k | k in requested :: c.entries[k].available
    ensures forall k | k in Closure(c, requested) :: c.entries[k].available
  {
    var portable := set k | k in c.entries && c.entries[k].available;
    assert Closed(c, portable);
    ClosureIsLeast(c, requested);
    assert Closure(c, requested) <= portable;
  }

  /** In such a catalogue every accepted expansion repeats itself, and every manifest of one is accepted. */
  lemma PortableCataloguesRoundTrip(c: Catalogue, requested: set<Key>)
    requires PortableThroughout(c) && Expanded(c, requested).Ok?
    ensures var r := Expanded(c, requested).value;
      Expanded(c, Elements(r)) == Ok(r) && ManifestMatches(c, r, Elements(r))
  {
    BadRequests(c, requested);
    ClosureIsPortable(c, requested);
    ExpansionIsIdempotent(c, requested);
  }

  /**
   * In a catalogue whose dependencies have no cycle, every accepted expansion repeats itself exactly if nothing
   * portable names anything that is not.
   */
  lemma ExpansionsRepeatExactlyWhen(c: Catalogue)
    requires !HasCycle(c, c.entries.Keys)
    ensures (forall requested | Expanded(c, requested).Ok? ::
              Expanded(c, Elements(Expanded(c, requested).value)) == Expanded(c, requested)) <==> PortableThroughout(c)
  {
    if PortableThroughout(c) {
      forall requested | Expanded(c, requested).Ok?
        ensures Expanded(c, Elements(Expanded(c, requested).value)) == Expanded(c, requested)
      {
        PortableCataloguesRoundTrip(c, requested);
      }
    } else {
      var k, d :| k in c.entries && c.entries[k].available && d in Successors(c, k) && !c.entries[d].available;
      assert Unavailable(c, {k}) == {};
      SelectionIsTheOrderedClosure(c, {k});
      assert Closure(c, {k}) <= c.entries.Keys;
      ClosureIsLeast(c, {k});
      assert k in Closure(c, {k}) && d in Closure(c, {k});
      ExpansionIsIdempotent(c, {k});
    }
  }

  /** A catalogue outside that condition: dataset 0 can be had, but what it expands to is refused when asked for. */
  lemma SecondExpansionCanBeRefused() returns (c: Catalogue)
    ensures !HasCycle(c, c.entries.Keys) && !PortableThroughout(c)
    ensures Expanded(c, {0}) == Ok([1, 0]) && Expanded(c, Elements([1, 0])) == Error(NotPortable(1))
  {
    c := Listing([0, 1], map[0 := Dataset([1], [], true), 1 := Dataset([], [], false)]);
    assert c.entries.Keys == {0, 1};
    assert Ordered(c, [1, 0]) by {
      assert [1, 0][..1] == [1];
    }
    OrderedHasNoCycle(c, [1, 0], {0, 1});
    assert 1 in Successors(c, 0);
    TwoDatasetsVisited(c);
    assert Chosen(c.order, {0, 1}) == [0, 1] by {
      assert [0, 1][1..] == [1] && [1][1..] == [];
    }
    TwoDatasetsClosed(c);
    UnavailableSecond(c);
  }

  ghost predicate TwoDatasets(c: Catalogue) {
    c.order == [0, 1] && c.entries == map[0 := Dataset([1], [], true), 1 := Dataset([], [], false)]
  }

  lemma TwoDatasetsClosed(c: Catalogue)
    requires TwoDatasets(c)
    ensures Known(c, {0}) && Closure(c, {0}) == {0, 1}
  {
    ClosureIsLeast(c, {0});
    assert 1 in Successors(c, 0);
    assert Closed(c, {0, 1});
  }

  lemma TwoDatasetsVisited(c: Catalogue)
    requires TwoDatasets(c)
    ensures VisitAll(c, [0, 1], [], {}) == Ok([1, 0])
  {
    assert VisitAll(c, [], [], {0} + {1}) == Ok([]);
    assert c.entries[1].dependencies == [] && [] + [1] == [1];
    VisitAllOne(c, 1, [], {0}, [1]);
    assert {} + {0} == {0} && [1] + [0] == [1, 0];
    assert Visit(c, 0, [], {}) == Ok([1, 0]);
    VisitAllOne(c, 1, [1, 0], {}, [1, 0]);
    assert [0, 1][1..] == [1];
  }

  lemma VisitAllOne(c: Catalogue, key: Key, ordered: seq<Key>, visiting: set<Key>, after: seq<Key>)
    requires key in c.entries && Visit(c, key, ordered, visiting) == Ok(after)
    ensures VisitAll(c, [key], ordered, visiting) == Ok(after)
  {
    assert [key][1..] == [];
  }

  lemma UnavailableSecond(c: Catalogue)
    requires TwoDatasets(c)
    ensures {0} - c.entries.Keys == {} && Unavailable(c, {0}) == {}
    ensures Expanded(c, Elements([1, 0])) == Error(NotPortable(1))
  {
    assert Elements([1, 0]) == {0, 1};
    assert {0, 1} - c.entries.Keys == {};
    assert Unavailable(c, {0, 1}) == {1};
  }

  // ---------------------------------------------------------------- the program

  /** `expanded_selection`: `requested` in any order and with repetitions. */
  method ExpandedSelection(c: Catalogue, requested: seq<Key>) returns (r: Result<seq<Key>, SelectionError>)
    ensures r == Expanded(c, Elements(requested))
  {
    var selected := Elements(requested);
    var unknown := selected - c.entries.Keys;
    if unknown != {} {
      return Error(Unknown(Least(unknown)));
    }
    UnknownIsEmpty(c, selected);
    var unavailable := set k | k in selected && !c.entries[k].available;
    if unavailable != {} {
      return Error(NotPortable(Least(unavailable)));
    }
    selected := Expand(c, selected);
    r := Arrange(c, selected);
  }

  /** The loop over the declarations, visiting those selected. */
  method Arrange(c: Catalogue, selected: set<Key>) returns (r: Result<seq<Key>, SelectionError>)
    ensures r == VisitAll(c, Chosen(c.order, selected), [], {})
  {
    var ordered: seq<Key> := [];
    ghost var goal := VisitAll(c, Chosen(c.order, selected), [], {});
    for i := 0 to |c.order|
      invariant goal == VisitAll(c, Chosen(c.order[i..], selected), ordered, {})
    {
      assert c.order[i..][0] == c.order[i] && c.order[i..][1..] == c.order[i + 1..];
      ChosenFirst(c.order[i..], selected);
      if c.order[i] in selected {
        var visited := VisitDataset(c, c.order[i], ordered, {});
        if visited.Error? {
          return visited;
        }
        ordered := visited.value;
      }
    }
    return Ok(ordered);
  }

  lemma ChosenFirst(order: seq<Key>, s: set<Key>)
    requires order != []
    ensures order[0] in s ==> Chosen(order, s) != [] && Chosen(order, s)[0] == order[0]
    ensures order[0] in s ==> Chosen(order, s)[1..] == Chosen(order[1..], s)
    ensures order[0] !in s ==> Chosen(order, s) == Chosen(order[1..], s)
  {
  }

  /** Everything selected and no longer pending has had its successors drawn. */
  ghost predicate Settled(c: Catalogue, selected: set<Key>, pending: seq<Key>)
    requires Known(c, selected)
  {
    forall k | k in selected - Elements(pending) :: Elements(Successors(c, k)) <= selected
  }

  /** The worklist: keys are taken from `pending` in whatever order they were listed. */
  method Expand(c: Catalogue, start: set<Key>) returns (selected: set<Key>)
    requires Known(c, start)
    ensures selected == Closure(c, start)
  {
    selected := start;
    ClosureIsLeast(c, start);
    var pending := Listed(start);
    while pending != []
      invariant start <= selected <= Closure(c, start)
      invariant Elements(pending) <= selected
      invariant Settled(c, selected, pending)
      decreases c.entries.Keys - selected, |pending|
    {
      var key, rest := pending[|pending| - 1], pending[..|pending| - 1];
      assert Elements(pending) == Elements(rest) + {key} by {
        assert pending == rest + [key];
        ElementsOfAppend(rest, key);
      }
      SuccessorsStayInside(c, key, Closure(c, start));
      var grown, waiting := Draw(Successors(c, key), selected, rest);
      Progress(c, selected, grown);
      StaysSettled(c, selected, pending, key, grown, waiting);
      selected, pending := grown, waiting;
    }
    AllSettled(c, selected);
    ClosureIsUnique(c, start, selected, Closure(c, start));
  }

  lemma StaysSettled(
    c: Catalogue, before: set<Key>, pending: seq<Key>, key: Key, selected: set<Key>, waiting: seq<Key>)
    requires Known(c, selected) && before <= selected && key in before && Settled(c, before, pending)
    requires Elements(pending) <= Elements(waiting) + {key} && selected <= before + Elements(waiting)
    requires Elements(Successors(c, key)) <= selected
    ensures Settled(c, selected, waiting)
  {
    forall k | k in selected - Elements(waiting)
      ensures Elements(Successors(c, k)) <= selected
    {
      if k != key {
        assert k in before - Elements(pending);
      }
    }
  }

  lemma AllSettled(c: Catalogue, selected: set<Key>)
    requires Known(c, selected) && Settled(c, selected, [])
    ensures Closed(c, selected)
  {
    forall k, d | k in selected && d in Successors(c, k)
      ensures d in selected
    {
      assert k in selected - Elements([]);
      assert d in Elements(Successors(c, k));
    }
  }

  lemma SuccessorsStayInside(c: Catalogue, k: Key, s: set<Key>)
    requires Known(c, s) && Closed(c, s) && k in s
    ensures Elements(Successors(c, k)) <= s
  {
  }

  /** Add what is new among `reached` to both collections. */
  method Draw(reached: seq<Key>, before: set<Key>, waiting: seq<Key>) returns (selected: set<Key>, pending: seq<Key>)
    ensures selected == before + Elements(reached)
    ensures selected == before ==> pending == waiting
    ensures Elements(waiting) <= Elements(pending) <= Elements(waiting) + selected
    ensures selected <= before + Elements(pending)
  {
    selected, pending := before, waiting;
    for i := 0 to |reached|
      invariant selected == before + Elements(reached[..i])
      invariant selected == before ==> pending == waiting
      invariant Elements(waiting) <= Elements(pending) <= Elements(waiting) + selected
      invariant selected <= before + Elements(pending)
    {
      ElementsOfAppend(reached[..i], reached[i]);
      ElementsOfAppend(pending, reached[i]);
      assert reached[..i] + [reached[i]] == reached[..i + 1];
      if reached[i] !in selected {
        selected := selected + {reached[i]};
        pending := pending + [reached[i]];
      }
    }
    assert reached[..|reached|] == reached;
  }

  lemma ElementsOfAppend(s: seq<Key>, k: Key)
    ensures Elements(s + [k]) == Elements(s) + {k}
  {
  }

  lemma Progress(c: Catalogue, before: set<Key>, after: set<Key>)
    requires before <= after && Known(c, after)
    ensures before == after || c.entries.Keys - after < c.entries.Keys - before
  {
    if before != after {
      var k :| k in after && k !in before;
      assert k in c.entries.Keys - before && k !in c.entries.Keys - after;
    }
  }

  method Listed(s: set<Key>) returns (keys: seq<Key>)
    ensures Elements(keys) == s
  {
    keys := [];
    var rest := s;
    while rest != {}
      invariant rest <= s && Elements(keys) == s - rest
      decreases |rest|
    {
      var k :| k in rest;
      ElementsOfAppend(keys, k);
      keys := keys + [k];
      rest := rest - {k};
    }
  }

  /** The nested `visit`, with the list and the set it shares passed along. */
  method VisitDataset(c: Catalogue, key: Key, ordered: seq<Key>, visiting: set<Key>)
    returns (r: Result<seq<Key>, SelectionError>)
    requires key in c.entries
    ensures r == Visit(c, key, ordered, visiting)
    decreases c.entries.Keys - visiting
  {
    if key in ordered {
      return Ok(ordered);
    }
    if key in visiting {
      return Error(DependencyCycle(key));
    }
    var dependencies := c.entries[key].dependencies;
    var current := ordered;
    var i := 0;
    while i < |dependencies|
      invariant 0 <= i <= |dependencies|
      invariant VisitAll(c, dependencies, ordered, visiting + {key})
             == VisitAll(c, dependencies[i..], current, visiting + {key})
    {
      assert dependencies[i..][0] == dependencies[i] && dependencies[i..][1..] == dependencies[i + 1..];
      assert dependencies[i] in Successors(c, key);
      var visited := VisitDataset(c, dependencies[i], current, visiting + {key});
      if visited.Error? {
        return visited;
      }
      current := visited.value;
      i := i + 1;
    }
    return Ok(current + [key]);
  }
}
