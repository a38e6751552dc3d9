/** Finite sets of numbers in order. */
module Ordering {

  ghost predicate Ascends(list: seq<nat>) {
    forall i, j | 0 <= i < j < |list| :: list[i] < list[j]
  }

  lemma {:induction false} LeastExists(s: set<nat>) returns (m: nat)
    requires s != {}
    ensures m in s && forall k | k in s :: m <= k
  {
    m :| m in s;
    var rest := s - {m};
    while rest != {}
      invariant m in s && forall k | k in s :: k in rest || m <= k
      decreases rest
    {
      var k :| k in rest;
      rest := rest - {k};
      m := if k < m then k else m;
    }
  }

  function Least(s: set<nat>): (m: nat)
    requires s != {}
    ensures m in s && forall k | k in s :: m <= k
  {
    assert exists m | m in s :: forall k | k in s :: m <= k by {
      var m := LeastExists(s);
    }
    var m :| m in s && forall k | k in s :: m <= k;
    m
  }

  /** The members of `s` in ascending order. */
  method Sorted(s: set<nat>) returns (list: seq<nat>)
    ensures Ascends(list) && forall k :: k in list <==> k in s
  {
    list := [];
    var rest := s;
    while rest != {}
      invariant rest <= s && Ascends(list) && forall k :: k in list <==> k in s - rest
      invariant forall i, k | 0 <= i < |list| && k in rest :: list[i] < k
      decreases rest
    {
      var k := Least(rest);
      list := list + [k];
      rest := rest - {k};
    }
  }

  lemma HasMembers(list: seq<nat>)
    ensures list != [] <==> exists k :: k in list
  {
    if list != [] {
      assert list[0] in list;
    }
  }

  /** There is only one ascending list of a set. */
  lemma {:induction false} AscendingIsUnique(a: seq<nat>, b: seq<nat>)
    requires Ascends(a) && Ascends(b) && forall k :: k in a <==> k in b
    ensures a == b
    decreases |a|
  {
    HasMembers(a);
    HasMembers(b);
    if a != [] {
      var last, end := |a| - 1, |b| - 1;
      assert a[last] in b && b[end] in a;
      assert a[last] == b[end];
      forall k
        ensures k in a[..last] <==> k in b[..end]
      {
        assert k in a <==> k in a[..last] || k == a[last];
        assert k in b <==> k in b[..end] || k == b[end];
      }
      AscendingIsUnique(a[..last], b[..end]);
    }
  }

  lemma {:induction false} AscendsFromOne(list: seq<nat>, i: nat)
    requires Ascends(list) && i < |list| && forall k | k in list :: 1 <= k
    ensures i + 1 <= list[i]
  {
    if i == 0 {
      assert list[0] in list;
    } else {
      AscendsFromOne(list, i - 1);
      assert list[i - 1] < list[i];
    }
  }

  /** An ascending list of exactly 1 to `n` is 1, 2, and so on. */
  lemma {:induction false} AscendingRange(list: seq<nat>, n: nat, i: nat)
    requires Ascends(list) && (forall k :: k in list <==> 1 <= k <= n) && i < n
    ensures i < |list| <= n && list[i] == i + 1
  {
    assert i + 1 in list;
    var at :| 0 <= at < |list| && list[at] == i + 1;
    if i > 0 {
      AscendingRange(list, n, i - 1);
      assert list[i - 1] == i && i - 1 < at;
    }
    AscendsFromOne(list, i);
    AscendsFromOne(list, |list| - 1);
    assert list[|list| - 1] in list;
  }
}
