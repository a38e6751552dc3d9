/** Links between archive members: following them terminates, and rejects exactly the chains that never end. */
module LinkGraph {
  import opened Wrappers
  import opened Paths
  import opened Chains

  /** A member's kind and attributes; the digest stands for the contents of a regular file. */
  datatype Entry =
    | Regular(mode: nat, size: nat, digest: nat)
    | Folder(mode: nat)
    | Symlink(mode: nat, target: string)
    | Special

  type Members = map<string, Entry>

  /** One of the three execute bits. */
  predicate Executable(mode: nat) {
    mode % 2 == 1 || (mode / 8) % 2 == 1 || (mode / 64) % 2 == 1
  }

  lemma LastDigit(rest: nat, digit: nat)
    requires digit < 8
    ensures (8 * rest + digit) / 8 == rest
    ensures (8 * rest + digit) % 2 == 1 <==> digit in {1, 3, 5, 7}
  {
    Parity(4 * rest + digit / 2, digit % 2);
    assert 8 * rest + digit == 2 * (4 * rest + digit / 2) + digit % 2;
  }

  lemma Parity(half: nat, bit: nat)
    requires bit < 2
    ensures (2 * half + bit) % 2 == bit
  {
  }

  /** The three bits are those of owner, group and others in the octal digits. */
  lemma ExecutableDigits(higher: nat, owner: nat, group: nat, others: nat)
    requires owner < 8 && group < 8 && others < 8
    ensures Executable(8 * (8 * (8 * higher + owner) + group) + others)
      <==> owner in {1, 3, 5, 7} || group in {1, 3, 5, 7} || others in {1, 3, 5, 7}
  {
    var two := 8 * (8 * higher + owner) + group;
    LastDigit(two, others);
    LastDigit(8 * higher + owner, group);
    LastDigit(higher, owner);
    assert (8 * two + others) / 64 == two / 8;
  }

  /** Where each link leads. */
  function HopsOf(members: Members): Hops {
    map name | name in members && members[name].Symlink? :: ResolveLinkName(name, members[name].target)
  }

  /** The chain of `name` ends at this present entry. */
  ghost predicate EndsAt(members: Members, name: string, end: string) {
    LeadsTo(HopsOf(members), members.Keys, name, end)
  }

  /** The chain of `name` never ends: it comes round again, or reaches an absent name or an impossible target. */
  ghost predicate Stuck(members: Members, name: string) {
    Cycles(HopsOf(members), name) || Dangles(HopsOf(members), members.Keys, name)
  }

  lemma StuckHasNoEnd(members: Members, name: string)
    requires Stuck(members, name)
    ensures forall end :: !EndsAt(members, name, end)
  {
    forall end
      ensures !EndsAt(members, name, end)
    {
      StuckNeverEnds(HopsOf(members), members.Keys, name, end);
    }
  }

  /** One turn of the chain loops: the hop from `current`, `k` hops from `name`. */
  lemma OneHop(members: Members, name: string, k: nat, current: string)
    requires current in members && members[current].Symlink?
    requires Follow(HopsOf(members), name, k) == Some(current)
    ensures var next := ResolveLinkName(current, members[current].target);
      && Follow(HopsOf(members), name, k + 1) == next
      && (next.None? || next.value !in members ==> Stuck(members, name))
  {
    var next := ResolveLinkName(current, members[current].target);
    if next.None? {
      assert DanglesAt(HopsOf(members), members.Keys, name, k);
    } else if next.value !in members {
      assert DanglesAt(HopsOf(members), members.Keys, name, k + 1);
    }
  }

  lemma Arrived(members: Members, name: string, k: nat, current: string)
    requires current in members && !members[current].Symlink?
    requires Follow(HopsOf(members), name, k) == Some(current)
    ensures EndsAt(members, name, current)
  {
    assert Visits(HopsOf(members), name, current);
  }

  /** The chain loop of `validate_archive`: it always terminates, with the end or because there is none. */
  method FollowLinks(members: Members, name: string) returns (r: Option<string>)
    requires name in members
    ensures r.Some? ==> EndsAt(members, name, r.value)
    ensures r.None? ==> Stuck(members, name)
  {
    var current, seen := name, {};
    ghost var hops, k: nat := HopsOf(members), 0;
    while members[current].Symlink?
      invariant current in members && Follow(hops, name, k) == Some(current)
      invariant seen <= members.Keys && seen == Passed(hops, name, k)
      decreases members.Keys - seen
    {
      if current in seen {
        SeenAgain(hops, name, k, current);
        return None;
      }
      seen := seen + {current};
      OneHop(members, name, k, current);
      var next := ResolveLinkName(current, members[current].target);
      if next.None? || next.value !in members {
        return None;
      }
      current, k := next.value, k + 1;
    }
    Arrived(members, name, k, current);
    return Some(current);
  }

  /** The entrypoint's chain ends at an executable regular file. */
  ghost predicate EntrypointOk(members: Members, entrypoint: string) {
    exists end :: EndsAt(members, entrypoint, end) && members[end].Regular? && Executable(members[end].mode)
  }

  lemma OnlyEnd(members: Members, entrypoint: string, end: string)
    requires EndsAt(members, entrypoint, end)
    ensures EntrypointOk(members, entrypoint) <==> members[end].Regular? && Executable(members[end].mode)
  {
    forall other | EndsAt(members, entrypoint, other)
      ensures other == end
    {
      EndIsUnique(HopsOf(members), members.Keys, entrypoint, end, other);
    }
  }

  /** One reason for `_validate_entrypoint` to refuse: the chain comes back to a place it has passed. */
  lemma RefusedAgain(members: Members, entrypoint: string, k: nat, current: string)
    requires Follow(HopsOf(members), entrypoint, k) == Some(current)
    requires current in Passed(HopsOf(members), entrypoint, k)
    ensures !EntrypointOk(members, entrypoint)
  {
    SeenAgain(HopsOf(members), entrypoint, k, current);
    StuckHasNoEnd(members, entrypoint);
  }

  /** Another: it reaches an absent name, or a link whose target names nothing. */
  lemma RefusedDangling(members: Members, entrypoint: string, k: nat)
    requires DanglesAt(HopsOf(members), members.Keys, entrypoint, k)
    ensures !EntrypointOk(members, entrypoint)
  {
    StuckHasNoEnd(members, entrypoint);
  }

  /** The chain has arrived, and what stands there decides. */
  lemma DecidedAt(members: Members, entrypoint: string, k: nat, current: string)
    requires Follow(HopsOf(members), entrypoint, k) == Some(current)
    requires current in members && !members[current].Symlink?
    ensures EntrypointOk(members, entrypoint) <==> members[current].Regular? && Executable(members[current].mode)
  {
    Arrived(members, entrypoint, k, current);
    OnlyEnd(members, entrypoint, current);
  }

  /** `_validate_entrypoint`. */
  method ValidateEntrypoint(members: Members, entrypoint: string) returns (ok: bool)
    ensures ok <==> EntrypointOk(members, entrypoint)
  {
    var current, seen := entrypoint, {};
    ghost var hops, k: nat := HopsOf(members), 0;
    while true
      invariant Follow(hops, entrypoint, k) == Some(current)
      invariant seen <= members.Keys && seen == Passed(hops, entrypoint, k)
      decreases members.Keys - seen
    {
      if current in seen {
        RefusedAgain(members, entrypoint, k, current);
        return false;
      }
      seen := seen + {current};
      if current !in members {
        RefusedDangling(members, entrypoint, k);
        return false;
      }
      if !members[current].Symlink? {
        DecidedAt(members, entrypoint, k, current);
        return members[current].Regular? && Executable(members[current].mode);
      }
      var next := ResolveLinkName(current, members[current].target);
      if next.None? {
        RefusedDangling(members, entrypoint, k);
        return false;
      }
      current, k := next.value, k + 1;
    }
  }

  /** The name of the ancestor `i` pieces deep. */
  function Ancestor(name: string, i: nat): string
    requires i <= |Split(name)|
  {
    Join(Split(name)[..i])
  }

  /** No present ancestor is anything but a folder. */
  ghost predicate UnderFolders(members: Members, name: string) {
    forall i | 0 < i < |Split(name)| :: Ancestor(name, i) in members ==> members[Ancestor(name, i)].Folder?
  }

  /** The walk up the parents of one name. */
  method CheckParents(members: Members, name: string) returns (ok: bool)
    ensures ok <==> UnderFolders(members, name)
  {
    JoinOfSplit(name);
    var parent := name;
    ghost var n: nat := |Split(name)|;
    assert Split(name)[..n] == Split(name);
    while '/' in parent
      invariant 1 <= n <= |Split(name)| && parent == Ancestor(name, n) && Split(parent) == Split(name)[..n]
      invariant forall i | n <= i < |Split(name)| :: Ancestor(name, i) in members ==> members[Ancestor(name, i)].Folder?
      decreases n
    {
      SlashHasParent(parent);
      ParentPieces(name, n);
      parent := Dirname(parent);
      n := n - 1;
      if parent in members && !members[parent].Folder? {
        return false;
      }
    }
    NoSlashNoParent(parent);
    return true;
  }

  lemma SlashHasParent(name: string)
    requires '/' in name
    ensures |Split(name)| > 1
  {
    JoinOfSplit(name);
  }

  lemma NoSlashNoParent(name: string)
    requires '/' !in name
    ensures |Split(name)| == 1
  {
    SplitPiece(name);
  }

  lemma ParentPieces(name: string, n: nat)
    requires 1 < n <= |Split(name)|
    ensures Split(Ancestor(name, n)) == Split(name)[..n]
    ensures Dirname(Ancestor(name, n)) == Ancestor(name, n - 1)
    ensures Split(Ancestor(name, n - 1)) == Split(name)[..n - 1]
  {
    JoinOfSplit(name);
    SplitOfJoin(Split(name)[..n]);
    SplitOfJoin(Split(name)[..n - 1]);
    assert Split(name)[..n][..n - 1] == Split(name)[..n - 1];
  }

  ghost predicate Ends(members: Members, name: string) {
    exists end :: EndsAt(members, name, end)
  }

  /** What is asked of one member: nothing lies below a non-folder, and a link ends somewhere. */
  ghost predicate Placed(members: Members, name: string)
    requires name in members
  {
    UnderFolders(members, name) && (members[name].Symlink? ==> Ends(members, name))
  }

  ghost predicate Sound(members: Members) {
    forall name | name in members :: Placed(members, name)
  }

  method CheckMember(members: Members, name: string) returns (ok: bool)
    requires name in members
    ensures ok <==> Placed(members, name)
  {
    ok := CheckParents(members, name);
    if ok && members[name].Symlink? {
      var end := FollowLinks(members, name);
      if end.None? {
        StuckHasNoEnd(members, name);
      }
      ok := end.Some?;
    }
  }

  /** The checks `validate_archive` makes on the members at the end, in the order they were read. */
  method CheckGraph(members: Members, names: seq<string>) returns (ok: bool)
    requires forall name :: name in names <==> name in members
    ensures ok <==> Sound(members)
  {
    for i := 0 to |names|
      invariant forall j | 0 <= j < i :: Placed(members, names[j])
    {
      assert names[i] in names;
      var placed := CheckMember(members, names[i]);
      if !placed {
        return false;
      }
    }
    return true;
  }
}
