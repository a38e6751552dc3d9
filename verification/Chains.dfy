/** Chains of hops between names: each chain ends, comes round again, or dangles. */
module Chains {
  import opened Wrappers

  /** Where each link leads; nothing if its target names nothing. */
  type Hops = map<string, Option<string>>

  /** Where `k` hops in a row lead; nothing once the chain has stopped before that. */
  function Follow(hops: Hops, name: string, k: nat): Option<string> {
    if k == 0 then Some(name)
    else
      var before := Follow(hops, name, k - 1);
      if before.None? || before.value !in hops then None else hops[before.value]
  }

  ghost predicate Visits(hops: Hops, name: string, place: string) {
    exists k: nat :: Follow(hops, name, k) == Some(place)
  }

  /** The chain of `name` ends at a present name that is no link. */
  ghost predicate LeadsTo(hops: Hops, present: set<string>, name: string, end: string) {
    end in present && end !in hops && Visits(hops, name, end)
  }

  ghost predicate SameStop(hops: Hops, name: string, i: nat, j: nat) {
    Follow(hops, name, i).Some? && Follow(hops, name, i) == Follow(hops, name, j)
  }

  /** The chain comes back to where it was. */
  ghost predicate Cycles(hops: Hops, name: string) {
    exists i: nat, j: nat :: i < j && SameStop(hops, name, i, j)
  }

  ghost predicate DanglesAt(hops: Hops, present: set<string>, name: string, k: nat) {
    var place := Follow(hops, name, k);
    place.Some? && (place.value !in present || (place.value in hops && hops[place.value].None?))
  }

  /** The chain reaches an absent name, or a link whose target names nothing. */
  ghost predicate Dangles(hops: Hops, present: set<string>, name: string) {
    exists k: nat :: DanglesAt(hops, present, name, k)
  }

  lemma {:induction false} LinksUpTo(hops: Hops, name: string, k: nat, j: nat)
    requires Follow(hops, name, k).Some? && j < k
    ensures Follow(hops, name, j).Some? && Follow(hops, name, j).value in hops
  {
    if j < k - 1 {
      LinksUpTo(hops, name, k - 1, j);
    }
  }

  /** Once a chain has stopped it goes no further. */
  lemma NothingBeyond(hops: Hops, name: string, k: nat, m: nat)
    requires k < m && (Follow(hops, name, k).None? || Follow(hops, name, k).value !in hops)
    ensures Follow(hops, name, m).None?
  {
    if Follow(hops, name, m).Some? {
      LinksUpTo(hops, name, m, k);
    }
  }

  lemma {:induction false} Repeats(hops: Hops, name: string, i: nat, j: nat, d: nat)
    requires SameStop(hops, name, i, j)
    ensures Follow(hops, name, i + d) == Follow(hops, name, j + d)
  {
    if d > 0 {
      Repeats(hops, name, i, j, d - 1);
    }
  }

  /** A chain that cycles passes only links, however far it is followed. */
  lemma {:induction false} CycleNeverEnds(hops: Hops, name: string, i: nat, j: nat, m: nat)
    requires i < j && SameStop(hops, name, i, j)
    ensures Follow(hops, name, m).Some? && Follow(hops, name, m).value in hops
    decreases m
  {
    if m < j {
      LinksUpTo(hops, name, j, m);
    } else {
      Repeats(hops, name, i, j, m - j);
      CycleNeverEnds(hops, name, i, j, m - (j - i));
    }
  }

  lemma DanglingHasNoEnd(hops: Hops, present: set<string>, name: string, d: nat, k: nat)
    requires hops.Keys <= present && DanglesAt(hops, present, name, d)
    ensures Follow(hops, name, k).Some? ==>
      Follow(hops, name, k).value !in present || Follow(hops, name, k).value in hops
  {
    if k < d {
      LinksUpTo(hops, name, d, k);
    } else if k > d && Follow(hops, name, d).value !in present {
      NothingBeyond(hops, name, d, k);
    } else if k > d {
      assert Follow(hops, name, d + 1).None?;
      if k > d + 1 {
        NothingBeyond(hops, name, d + 1, k);
      }
    }
  }

  /** A chain that cycles or dangles ends nowhere. */
  lemma StuckNeverEnds(hops: Hops, present: set<string>, name: string, end: string)
    requires hops.Keys <= present && (Cycles(hops, name) || Dangles(hops, present, name))
    ensures !LeadsTo(hops, present, name, end)
  {
    if LeadsTo(hops, present, name, end) {
      var k: nat :| Follow(hops, name, k) == Some(end);
      if Cycles(hops, name) {
        var i: nat, j: nat :| i < j && SameStop(hops, name, i, j);
        CycleNeverEnds(hops, name, i, j, k);
      } else {
        var d: nat :| DanglesAt(hops, present, name, d);
        DanglingHasNoEnd(hops, present, name, d, k);
      }
    }
  }

  /** A chain has at most one end. */
  lemma EndIsUnique(hops: Hops, present: set<string>, name: string, a: string, b: string)
    requires LeadsTo(hops, present, name, a) && LeadsTo(hops, present, name, b)
    ensures a == b
  {
    var i: nat :| Follow(hops, name, i) == Some(a);
    var j: nat :| Follow(hops, name, j) == Some(b);
    if i < j {
      NothingBeyond(hops, name, i, j);
    } else if j < i {
      NothingBeyond(hops, name, j, i);
    }
  }

  /** The places the chain has passed in its first `k` hops. */
  function Passed(hops: Hops, name: string, k: nat): set<string> {
    if k == 0 then {}
    else
      var before := Follow(hops, name, k - 1);
      Passed(hops, name, k - 1) + if before.None? then {} else {before.value}
  }

  lemma {:induction false} PassedBefore(hops: Hops, name: string, k: nat, place: string) returns (j: nat)
    requires place in Passed(hops, name, k)
    ensures j < k && Follow(hops, name, j) == Some(place)
  {
    if Follow(hops, name, k - 1) == Some(place) {
      j := k - 1;
    } else {
      j := PassedBefore(hops, name, k - 1, place);
    }
  }

  /** Arriving where the chain has already been is a cycle. */
  lemma SeenAgain(hops: Hops, name: string, k: nat, place: string)
    requires Follow(hops, name, k) == Some(place) && place in Passed(hops, name, k)
    ensures Cycles(hops, name)
  {
    var j := PassedBefore(hops, name, k, place);
    assert SameStop(hops, name, j, k);
  }
}
