/** What the file system finds in a directory tree, following links wherever they stand in a path. */
module FileTree {
  import opened Wrappers
  import opened Paths
  import opened Chains
  import opened LinkGraph
  import opened Archive
  import opened ArchiveTree

  /** A lookup ends at a place in the tree, at nothing, or outside the tree. */
  datatype Outcome = Found(path: seq<string>) | Nowhere | Left

  // ---------------------------------------------------------------- places in a tree

  function Lookup(children: seq<Child>, name: string): Option<Node> {
    if children == [] then None
    else if children[0].name == name then Some(children[0].node)
    else Lookup(children[1..], name)
  }

  /** The node at a place, taken piece by piece without following links; the root is a directory. */
  function NodeAt(children: seq<Child>, path: seq<string>): Option<Node>
    decreases path
  {
    if path == [] then Some(Directory(0, children))
    else
      var above := NodeAt(children, path[..|path| - 1]);
      if above.Some? && above.value.Directory? then Lookup(above.value.children, path[|path| - 1]) else None
  }

  /** One piece further down. */
  lemma NodeStep(children: seq<Child>, above: seq<string>, name: string)
    ensures NodeAt(children, above + [name]) ==
      if IsFolder(children, above) then Lookup(NodeAt(children, above).value.children, name) else None
  {
    var path := above + [name];
    assert path[..|path| - 1] == above;
  }

  predicate IsFolder(children: seq<Child>, path: seq<string>) {
    var node := NodeAt(children, path);
    node.Some? && node.value.Directory?
  }

  /** The lookup of `rest` from the directory at `stack`, which may follow up to `hops` links. */
  function Resolve(children: seq<Child>, stack: seq<string>, rest: seq<string>, hops: nat): Outcome
    decreases hops, |rest|
  {
    if rest == [] then Found(stack)
    else if rest[0] == "" || rest[0] == "." then Resolve(children, stack, rest[1..], hops)
    else if rest[0] == ".." then
      if stack == [] then Left else Resolve(children, stack[..|stack| - 1], rest[1..], hops)
    else
      var node := NodeAt(children, stack + [rest[0]]);
      if node.None? then Nowhere
      else match node.value
        case Directory(_, _) => Resolve(children, stack + [rest[0]], rest[1..], hops)
        case Link(_, target) =>
          if hops == 0 || target == "" then Nowhere
          else if target[0] == '/' then Left
          else Resolve(children, stack, Split(target) + rest[1..], hops - 1)
        case _ => if |rest| == 1 then Found(stack + [rest[0]]) else Nowhere
  }

  predicate Reserved(name: string) {
    name == MANIFEST_NAME || name == MARKER_NAME
  }

  /** The lookup goes through a link in the middle of a path, or into one of the two names that are not archived. */
  predicate Strays(children: seq<Child>, stack: seq<string>, rest: seq<string>, hops: nat)
    decreases hops, |rest|
  {
    if rest == [] then false
    else if rest[0] == "" || rest[0] == "." then Strays(children, stack, rest[1..], hops)
    else if rest[0] == ".." then stack != [] && Strays(children, stack[..|stack| - 1], rest[1..], hops)
    else if stack == [] && Reserved(rest[0]) then true
    else
      var node := NodeAt(children, stack + [rest[0]]);
      node.Some? && match node.value
        case Directory(_, _) => Strays(children, stack + [rest[0]], rest[1..], hops)
        case Link(_, target) => |rest| > 1 || (hops > 0 && Strays(children, stack, Split(target), hops - 1))
        case _ => false
  }

  // ---------------------------------------------------------------- tidy targets

  /** Single and double dots first, then names only. */
  predicate TidyPieces(pieces: seq<string>) {
    pieces != [] ==>
      if pieces[0] == "." || pieces[0] == ".." then TidyPieces(pieces[1..]) else AllNormal(pieces)
  }

  /** A link that is relative and tidy, and leads to a place below the root or to the root, name by name. */
  predicate TidyLink(place: seq<string>, target: string)
    requires place != []
  {
    && target != "" && target[0] != '/' && Clean(target)
    && TidyPieces(Split(target)) && Walk(place[..|place| - 1], Split(target)).Some?
  }

  ghost predicate Tidy(children: seq<Child>) {
    forall path: seq<string> | path != [] :: TidyPlace(children, path)
  }

  ghost predicate TidyPlace(children: seq<Child>, path: seq<string>)
    requires path != []
  {
    var node := NodeAt(children, path);
    node.Some? && node.value.Link? ==> TidyLink(path, node.value.target)
  }

  // ---------------------------------------------------------------- walks by name

  lemma {:induction false} WalkAppends(stack: seq<string>, a: seq<string>, b: seq<string>)
    requires Walk(stack, a).Some?
    ensures Walk(stack, a + b) == Walk(Walk(stack, a).value, b)
    decreases |a|
  {
    if a == [] {
      assert a + b == b;
    } else {
      assert (a + b)[0] == a[0] && (a + b)[1..] == a[1..] + b;
      if a[0] == "" || a[0] == "." {
        WalkAppends(stack, a[1..], b);
      } else if a[0] == ".." {
        WalkAppends(stack[..|stack| - 1], a[1..], b);
      } else {
        WalkAppends(stack + [a[0]], a[1..], b);
      }
    }
  }

  lemma {:induction false} WalkNormals(stack: seq<string>, pieces: seq<string>)
    requires AllNormal(pieces)
    ensures Walk(stack, pieces) == Some(stack + pieces)
    decreases |pieces|
  {
    if pieces == [] {
      assert stack + pieces == stack;
    } else {
      assert Normal(pieces[0]);
      WalkNormals(stack + [pieces[0]], pieces[1..]);
      assert stack + [pieces[0]] + pieces[1..] == stack + pieces;
    }
  }

  lemma {:induction false} TidyAppends(a: seq<string>, b: seq<string>)
    requires TidyPieces(a) && AllNormal(b)
    ensures TidyPieces(a + b)
    decreases |a|
  {
    if a == [] {
      assert a + b == b;
      assert b != [] ==> Normal(b[0]);
    } else {
      assert (a + b)[0] == a[0] && (a + b)[1..] == a[1..] + b;
      if a[0] == "." || a[0] == ".." {
        TidyAppends(a[1..], b);
      }
    }
  }

  // ---------------------------------------------------------------- places

  lemma {:induction false} LookupFinds(children: seq<Child>, name: string) returns (i: nat)
    requires Lookup(children, name).Some?
    ensures i < |children| && children[i].name == name && children[i].node == Lookup(children, name).value
  {
    if children[0].name == name {
      i := 0;
    } else {
      i := LookupFinds(children[1..], name);
      i := i + 1;
    }
  }

  /** Every place above one that exists is a directory. */
  lemma {:induction false} FoldersAbove(children: seq<Child>, path: seq<string>, n: nat)
    requires NodeAt(children, path).Some? && n < |path|
    ensures IsFolder(children, path[..n])
    decreases |path|
  {
    var last := |path| - 1;
    if n < last {
      FoldersAbove(children, path[..last], n);
      assert path[..last][..n] == path[..n];
    }
  }

  // ---------------------------------------------------------------- a tidy tree is never left

  /** In a tree whose links are tidy no lookup leads out, whatever links it goes through. */
  lemma {:induction false} NeverLeaves(children: seq<Child>, stack: seq<string>, rest: seq<string>, hops: nat)
    requires Tidy(children) && IsFolder(children, stack)
    requires TidyPieces(rest) && Walk(stack, rest).Some?
    ensures Resolve(children, stack, rest, hops) != Left
    decreases hops, |rest|, 1
  {
    if rest == [] {
    } else if rest[0] == "." {
      NeverLeaves(children, stack, rest[1..], hops);
    } else if rest[0] == ".." {
      FoldersAbove(children, stack, |stack| - 1);
      NeverLeaves(children, stack[..|stack| - 1], rest[1..], hops);
    } else {
      NeverLeavesDown(children, stack, rest, hops);
    }
  }

  lemma {:induction false} NeverLeavesDown(children: seq<Child>, stack: seq<string>, rest: seq<string>, hops: nat)
    requires Tidy(children) && IsFolder(children, stack) && rest != [] && AllNormal(rest)
    ensures Resolve(children, stack, rest, hops) != Left
    decreases hops, |rest|, 0
  {
    assert Normal(rest[0]) && AllNormal(rest[1..]);
    var place := stack + [rest[0]];
    var node := NodeAt(children, place);
    if node.Some? && node.value.Directory? {
      NormalsAreTidy(place, rest[1..]);
      NeverLeaves(children, place, rest[1..], hops);
    } else if node.Some? && node.value.Link? && hops > 0 {
      LinkStaysTidy(children, stack, rest);
      NeverLeaves(children, stack, Split(node.value.target) + rest[1..], hops - 1);
    }
  }

  lemma NormalsAreTidy(stack: seq<string>, pieces: seq<string>)
    requires AllNormal(pieces)
    ensures TidyPieces(pieces) && Walk(stack, pieces) == Some(stack + pieces)
  {
    WalkNormals(stack, pieces);
    TidyAppends([], pieces);
    assert [] + pieces == pieces;
  }

  /** Where a link is replaced by its target, what is left to look up is still tidy and still below the root. */
  lemma LinkStaysTidy(children: seq<Child>, stack: seq<string>, rest: seq<string>)
    requires Tidy(children) && rest != [] && AllNormal(rest[1..])
    requires var node := NodeAt(children, stack + [rest[0]]); node.Some? && node.value.Link?
    ensures var target := NodeAt(children, stack + [rest[0]]).value.target;
      && target != "" && target[0] != '/'
      && TidyPieces(Split(target) + rest[1..]) && Walk(stack, Split(target) + rest[1..]).Some?
  {
    var place := stack + [rest[0]];
    var target := NodeAt(children, place).value.target;
    assert TidyPlace(children, place) && place[..|place| - 1] == stack;
    var pieces := Split(target);
    TidyAppends(pieces, rest[1..]);
    WalkAppends(stack, pieces, rest[1..]);
    WalkNormals(Walk(stack, pieces).value, rest[1..]);
  }

  // ---------------------------------------------------------------- places and entries

  ghost predicate Within(part: seq<Member>, all: seq<Member>) {
    forall m <- part :: m in all
  }

  /** A child's entry, and those of what it holds, are among the entries of its directory. */
  lemma {:induction false} ChildEntries(prefix: string, children: seq<Child>, i: nat)
    requires SourceEntries(prefix, children).Some? && i < |children|
    requires !Reserved(Below(prefix, children[i].name))
    ensures var name, all := Below(prefix, children[i].name), SourceEntries(prefix, children).value;
      && Member(name, EntryOf(children[i].node)) in all
      && (children[i].node.Directory? ==>
            var inner := SourceEntries(name, children[i].node.children);
            inner.Some? && Within(inner.value, all))
    decreases |children|
  {
    var name := Below(prefix, children[0].name);
    if i > 0 {
      ChildEntries(prefix, children[1..], i - 1);
    }
  }

  lemma {:induction false} JoinMore(path: seq<string>, name: string)
    requires path != []
    ensures Join(path + [name]) == Join(path) + "/" + name
    decreases |path|
  {
    assert (path + [name])[0] == path[0] && (path + [name])[1..] == path[1..] + [name];
    if |path| == 1 {
      assert path[1..] + [name] == [name];
    } else {
      JoinMore(path[1..], name);
      assert path[0] + "/" + (Join(path[1..]) + "/" + name) == path[0] + "/" + Join(path[1..]) + "/" + name;
    }
  }

  /** A place under a name that is archived. */
  predicate Kept(path: seq<string>) {
    path != [] && path[0] != "" && !Reserved(path[0])
  }

  /** Every such place has its entry. */
  lemma {:induction false} PlaceHasEntry(children: seq<Child>, path: seq<string>)
    requires SourceEntries("", children).Some? && NodeAt(children, path).Some? && Kept(path)
    ensures var node, all := NodeAt(children, path).value, SourceEntries("", children).value;
      && Join(path) != "" && Member(Join(path), EntryOf(node)) in all
      && (node.Directory? ==>
            var inner := SourceEntries(Join(path), node.children);
            inner.Some? && Within(inner.value, all))
    decreases |path|
  {
    var last := |path| - 1;
    var above, name := path[..last], path[last];
    var folder := NodeAt(children, above).value;
    assert path == above + [name];
    if last == 0 {
      ChildHasEntry("", folder.children, name);
    } else {
      PlaceHasEntry(children, above);
      JoinMore(above, name);
      WholeNameIsNotReserved(Join(above), name);
      ChildHasEntry(Join(above), folder.children, name);
    }
  }

  lemma ChildHasEntry(prefix: string, children: seq<Child>, name: string)
    requires SourceEntries(prefix, children).Some? && Lookup(children, name).Some? && !Reserved(Below(prefix, name))
    ensures var node, all := Lookup(children, name).value, SourceEntries(prefix, children).value;
      && Member(Below(prefix, name), EntryOf(node)) in all
      && (node.Directory? ==>
            var inner := SourceEntries(Below(prefix, name), node.children);
            inner.Some? && Within(inner.value, all))
  {
    var i := LookupFinds(children, name);
    ChildEntries(prefix, children, i);
  }

  // ---------------------------------------------------------------- the archive of a tree

  /** What the names in an archive say of the tree it was made from. */
  ghost predicate Archived(children: seq<Child>, table: Members) {
    && (forall path: seq<string> :: Entered(children, table, path))
    && (forall name: string, i: nat :: UnderFolder(table, name, i))
    && forall name: string :: PlainWhenReserved(table, name)
  }

  /** A place has its entry. */
  ghost predicate Entered(children: seq<Child>, table: Members, path: seq<string>) {
    Kept(path) && NodeAt(children, path).Some? ==>
      Join(path) in table && table[Join(path)] == EntryOf(NodeAt(children, path).value)
  }

  /** An ancestor is there and a folder. */
  ghost predicate UnderFolder(table: Members, name: string, i: nat) {
    name in table && 0 < i < |Split(name)| ==> Ancestor(name, i) in table && table[Ancestor(name, i)].Folder?
  }

  ghost predicate PlainWhenReserved(table: Members, name: string) {
    name in table && Reserved(name) ==> table[name].Regular? && table[name].mode == 420
  }

  lemma CreatedIsArchived(children: seq<Child>, size: nat, digest: nat)
    requires FileSystem(children) && SourceEntries("", children).Some?
    ensures Archived(children, Table(WithManifest(size, digest, SourceEntries("", children).value)))
  {
    var entries := SourceEntries("", children).value;
    var ms := WithManifest(size, digest, entries);
    var table := Table(ms);
    EntriesAreListable(children);
    WithManifestDistinct(size, digest, entries);
    forall path: seq<string>
      ensures Entered(children, table, path)
    {
      if Kept(path) && NodeAt(children, path).Some? {
        PlaceHasEntry(children, path);
        var i :| 0 <= i < |entries| && entries[i] == Member(Join(path), EntryOf(NodeAt(children, path).value));
        CreatedEntry(size, digest, entries, i);
      }
    }
    forall name: string, i: nat
      ensures UnderFolder(table, name, i)
    {
      if name in table && 0 < i < |Split(name)| {
        AncestorsAreFolders(ms, name, i);
      }
    }
    forall name: string
      ensures PlainWhenReserved(table, name)
    {
      if name in table && Reserved(name) {
        CreatedNames(size, digest, entries, name);
        CreatedManifest(size, digest, entries);
      }
    }
  }

  lemma CreatedManifest(size: nat, digest: nat, entries: seq<Member>)
    requires Listable(entries)
    ensures var table := Table(WithManifest(size, digest, entries));
      MANIFEST_NAME in table && table[MANIFEST_NAME] == Regular(420, size, digest)
  {
    var ms := WithManifest(size, digest, entries);
    WithManifestDistinct(size, digest, entries);
    TableHolds(ms);
    assert ms[0] == Member(MANIFEST_NAME, Regular(420, size, digest));
  }

  // ---------------------------------------------------------------- names follow the file system

  lemma {:induction false} FollowFrom(hops: Hops, name: string, next: string, k: nat)
    requires name in hops && hops[name] == Some(next)
    ensures Follow(hops, name, k + 1) == Follow(hops, next, k)
  {
    if k == 0 {
      assert Follow(hops, name, 0) == Some(name);
    } else {
      FollowFrom(hops, name, next, k - 1);
    }
  }

  /** A link is as good an entrypoint as the name it leads to. */
  lemma HopKeeps(members: Members, name: string, next: string)
    requires name in members && members[name].Symlink?
    requires ResolveLinkName(name, members[name].target) == Some(next)
    ensures EntrypointOk(members, name) <==> EntrypointOk(members, next)
  {
    var hops := HopsOf(members);
    if EntrypointOk(members, name) {
      var end :| EndsAt(members, name, end) && members[end].Regular? && Executable(members[end].mode);
      var k: nat :| Follow(hops, name, k) == Some(end);
      assert k > 0;
      FollowFrom(hops, name, next, k - 1);
      assert Visits(hops, next, end);
      assert EndsAt(members, next, end);
    }
    if EntrypointOk(members, next) {
      var end :| EndsAt(members, next, end) && members[end].Regular? && Executable(members[end].mode);
      var k: nat :| Follow(hops, next, k) == Some(end);
      FollowFrom(hops, name, next, k);
      assert Visits(hops, name, end);
      assert EndsAt(members, name, end);
    }
  }

  /** Nothing is archived below a place that is no directory, or below a name that is not archived. */
  lemma NothingBelow(children: seq<Child>, table: Members, goal: seq<string>, n: nat)
    requires Archived(children, table) && WholeNormal(goal) && 0 < n < |goal|
    requires Reserved(goal[0]) || (NodeAt(children, goal[..n]).Some? && !IsFolder(children, goal[..n]))
    ensures Join(goal) !in table
  {
    SplitOfJoin(goal);
    var k := if Reserved(goal[0]) then 1 else n;
    var above := Ancestor(Join(goal), k);
    assert above == Join(goal[..k]) && goal[..k][0] == goal[0];
    assert Reserved(goal[0]) ==> goal[..1] == [goal[0]] && above == goal[0];
    assert UnderFolder(table, Join(goal), k) && PlainWhenReserved(table, above);
    assert Entered(children, table, goal[..n]);
    assert above in table ==> !table[above].Folder?;
  }

  lemma AbsentIsRefused(members: Members, name: string)
    requires name !in members
    ensures !EntrypointOk(members, name)
  {
    assert DanglesAt(HopsOf(members), members.Keys, name, 0);
    RefusedDangling(members, name, 0);
  }

  lemma PlainIsRefused(members: Members, name: string)
    requires name in members ==> members[name].Regular? && members[name].mode == 420
    ensures !EntrypointOk(members, name)
  {
    if name in members {
      DecidedAt(members, name, 0, name);
    } else {
      AbsentIsRefused(members, name);
    }
  }

  /** An entrypoint under a reserved name is refused: only the manifest has one, and it is not executable. */
  lemma ReservedIsRefused(children: seq<Child>, table: Members, goal: seq<string>)
    requires Archived(children, table) && WholeNormal(goal) && goal != [] && Reserved(goal[0])
    ensures !EntrypointOk(table, Join(goal))
  {
    if |goal| > 1 {
      NothingBelow(children, table, goal, 1);
    }
    assert |goal| == 1 ==> Join(goal) == goal[0];
    assert PlainWhenReserved(table, Join(goal));
    PlainIsRefused(table, Join(goal));
  }

  /** The mode of the regular file at which the lookup ends, if it does. */
  function FileFound(children: seq<Child>, stack: seq<string>, rest: seq<string>, hops: nat): Option<nat> {
    var r := Resolve(children, stack, rest, hops);
    if r.Found? && NodeAt(children, r.path).Some? && NodeAt(children, r.path).value.File?
    then Some(NodeAt(children, r.path).value.mode) else None
  }

  predicate FindsFile(children: seq<Child>, stack: seq<string>, rest: seq<string>, hops: nat) {
    FileFound(children, stack, rest, hops).Some?
  }

  predicate FindsExecutable(children: seq<Child>, stack: seq<string>, rest: seq<string>, hops: nat) {
    var mode := FileFound(children, stack, rest, hops);
    mode.Some? && Executable(mode.value % 512)
  }

  /**
   * When the file system finds a file, following the names of the archive's members comes to an executable file
   * exactly if the lookup did not stray and the file it found is executable.
   */
  lemma {:induction false} NamesFollow(
    children: seq<Child>, table: Members, stack: seq<string>, rest: seq<string>, hops: nat)
    requires Archived(children, table) && Tidy(children)
    requires IsFolder(children, stack) && WholeNormal(stack) && (stack != [] ==> Kept(stack))
    requires TidyPieces(rest) && Whole(rest) && (forall piece <- rest :: Clean(piece))
    requires Walk(stack, rest).Some? && FindsFile(children, stack, rest, hops)
    ensures EntrypointOk(table, Written(Walk(stack, rest).value)) <==>
      !Strays(children, stack, rest, hops) && FindsExecutable(children, stack, rest, hops)
    decreases hops, |rest|, 1
  {
    if rest == [] {
      assert false;
    } else if rest[0] == "." {
      NamesFollow(children, table, stack, rest[1..], hops);
    } else if rest[0] == ".." {
      FoldersAbove(children, stack, |stack| - 1);
      NamesFollow(children, table, stack[..|stack| - 1], rest[1..], hops);
    } else {
      NamesFollowDown(children, table, stack, rest, hops);
    }
  }

  lemma {:induction false} NamesFollowDown(
    children: seq<Child>, table: Members, stack: seq<string>, rest: seq<string>, hops: nat)
    requires Archived(children, table) && Tidy(children)
    requires IsFolder(children, stack) && WholeNormal(stack) && (stack != [] ==> Kept(stack))
    requires rest != [] && AllNormal(rest) && Whole(rest) && (forall piece <- rest :: Clean(piece))
    requires FindsFile(children, stack, rest, hops)
    ensures Walk(stack, rest) == Some(stack + rest)
    ensures EntrypointOk(table, Written(stack + rest)) <==>
      !Strays(children, stack, rest, hops) && FindsExecutable(children, stack, rest, hops)
    decreases hops, |rest|, 0
  {
    NormalsAreTidy(stack, rest);
    var goal, place := stack + rest, stack + [rest[0]];
    assert WholeNormal(goal) && goal[..|place|] == place;
    if stack == [] && Reserved(rest[0]) {
      ReservedIsRefused(children, table, goal);
    } else {
      var node := NodeAt(children, place).value;
      if node.Directory? {
        assert goal == place + rest[1..];
        NormalsAreTidy(place, rest[1..]);
        NamesFollow(children, table, place, rest[1..], hops);
      } else if node.Link? && |rest| > 1 {
        NothingBelow(children, table, goal, |place|);
        AbsentIsRefused(table, Join(goal));
      } else if node.Link? {
        assert rest == [rest[0]];
        LinkFollows(children, table, stack, rest[0], hops);
      } else {
        FileFollows(children, table, stack, rest[0], hops);
        assert rest == [rest[0]];
      }
    }
  }

  lemma FileFollows(children: seq<Child>, table: Members, stack: seq<string>, name: string, hops: nat)
    requires Archived(children, table) && Normal(name) && Kept(stack + [name])
    requires var node := NodeAt(children, stack + [name]); node.Some? && node.value.File?
    ensures Resolve(children, stack, [name], hops) == Found(stack + [name])
    ensures !Strays(children, stack, [name], hops)
    ensures EntrypointOk(table, Join(stack + [name])) <==> Executable(NodeAt(children, stack + [name]).value.mode % 512)
  {
    var place := stack + [name];
    assert Entered(children, table, place);
    DecidedAt(table, Join(place), 0, Join(place));
  }

  /** A lookup whose last piece is a link is the lookup of its target. */
  lemma LinkStep(children: seq<Child>, stack: seq<string>, name: string, hops: nat)
    requires var node := NodeAt(children, stack + [name]); node.Some? && node.value.Link?
    requires Normal(name) && (stack == [] ==> !Reserved(name)) && FindsFile(children, stack, [name], hops)
    ensures var pieces := Split(NodeAt(children, stack + [name]).value.target);
      && hops > 0 && FileFound(children, stack, [name], hops) == FileFound(children, stack, pieces, hops - 1)
      && Strays(children, stack, [name], hops) == Strays(children, stack, pieces, hops - 1)
  {
    var pieces := Split(NodeAt(children, stack + [name]).value.target);
    assert [name][1..] == [] && pieces + [] == pieces;
    assert Resolve(children, stack, [name], hops) == Resolve(children, stack, pieces, hops - 1);
  }

  /** And its name leads to the name of its target. */
  lemma LinkLeads(children: seq<Child>, table: Members, stack: seq<string>, name: string)
    requires Archived(children, table) && Tidy(children)
    requires WholeNormal(stack + [name]) && Kept(stack + [name])
    requires var node := NodeAt(children, stack + [name]); node.Some? && node.value.Link?
    ensures var target := NodeAt(children, stack + [name]).value.target;
      && TidyPieces(Split(target)) && Whole(Split(target)) && (forall piece <- Split(target) :: Clean(piece))
      && Walk(stack, Split(target)).Some?
      && (EntrypointOk(table, Join(stack + [name])) <==> EntrypointOk(table, Written(Walk(stack, Split(target)).value)))
  {
    var place := stack + [name];
    var target := NodeAt(children, place).value.target;
    assert TidyPlace(children, place) && place[..|place| - 1] == stack;
    assert Entered(children, table, place);
    CleanPieces(target);
    WrittenIsAccepted(place);
    LinkResolvesByWalk(Join(place), target);
    HopKeeps(table, Join(place), Written(Walk(stack, Split(target)).value));
  }

  lemma {:induction false} LinkFollows(
    children: seq<Child>, table: Members, stack: seq<string>, name: string, hops: nat)
    requires Archived(children, table) && Tidy(children)
    requires IsFolder(children, stack) && WholeNormal(stack) && (stack != [] ==> Kept(stack))
    requires WholeNormal(stack + [name]) && Kept(stack + [name]) && Normal(name)
    requires var node := NodeAt(children, stack + [name]); node.Some? && node.value.Link?
    requires FindsFile(children, stack, [name], hops)
    ensures EntrypointOk(table, Join(stack + [name])) <==>
      !Strays(children, stack, [name], hops) && FindsExecutable(children, stack, [name], hops)
    decreases hops, 0, 0
  {
    LinkStep(children, stack, name, hops);
    LinkLeads(children, table, stack, name);
    NamesFollow(children, table, stack, Split(NodeAt(children, stack + [name]).value.target), hops - 1);
  }

  // ---------------------------------------------------------------- entries and places

  lemma {:induction false} LookupIs(children: seq<Child>, i: nat)
    requires FileSystem(children) && i < |children|
    ensures Lookup(children, children[i].name) == Some(children[i].node)
    decreases |children|
  {
    if i > 0 {
      RestIsFileSystem(children);
      LookupIs(children[1..], i - 1);
    }
  }

  /** An entry is the first child's, or of what that child holds, or of a later child. */
  lemma EntryCases(prefix: string, rest: seq<Child>, m: Member)
    requires SourceEntries(prefix, rest).Some? && m in SourceEntries(prefix, rest).value
    ensures rest != []
    ensures var name, node := Below(prefix, rest[0].name), rest[0].node;
      || m == Member(name, EntryOf(node))
      || (node.Directory? && SourceEntries(name, node.children).Some?
          && m in SourceEntries(name, node.children).value)
      || (SourceEntries(prefix, rest[1..]).Some? && m in SourceEntries(prefix, rest[1..]).value)
  {
  }

  /** Every entry stands for a place in the tree. */
  lemma {:induction false} EntryHasPlace(root: seq<Child>, place: seq<string>, all: seq<Child>, i: nat, m: Member)
      returns (path: seq<string>)
    requires FileSystem(all) && i <= |all| && (place != [] ==> Join(place) != "")
    requires IsFolder(root, place) && NodeAt(root, place).value.children == all
    requires SourceEntries(Join(place), all[i..]).Some? && m in SourceEntries(Join(place), all[i..]).value
    ensures path != [] && NodeAt(root, path).Some?
    ensures m == Member(Join(path), EntryOf(NodeAt(root, path).value))
    decreases all[i..]
  {
    EntryCases(Join(place), all[i..], m);
    var name, node := all[i].name, all[i].node;
    var below := place + [name];
    assert all[i..][1..] == all[i + 1..] && all[i..][0] == all[i];
    ChildPlace(root, place, all, i);
    if m == Member(Join(below), EntryOf(node)) {
      path := below;
    } else if node.Directory? && SourceEntries(Join(below), node.children).Some?
              && m in SourceEntries(Join(below), node.children).value {
      assert node.children[0..] == node.children;
      path := EntryHasPlace(root, below, node.children, 0, m);
    } else {
      path := EntryHasPlace(root, place, all, i + 1, m);
    }
  }

  lemma ChildPlace(root: seq<Child>, place: seq<string>, all: seq<Child>, i: nat)
    requires FileSystem(all) && i < |all| && (place != [] ==> Join(place) != "")
    requires IsFolder(root, place) && NodeAt(root, place).value.children == all
    ensures NodeAt(root, place + [all[i].name]) == Some(all[i].node)
    ensures Below(Join(place), all[i].name) == Join(place + [all[i].name]) != ""
    ensures all[i].node.Directory? ==> FileSystem(all[i].node.children)
  {
    BelowIsJoin(place, all[i].name);
    LookupIs(all, i);
    NodeStep(root, place, all[i].name);
  }

  lemma BelowIsJoin(place: seq<string>, name: string)
    requires place != [] ==> Join(place) != ""
    ensures Below(Join(place), name) == Join(place + [name])
    ensures name != "" ==> Join(place + [name]) != ""
  {
    if place == [] {
      assert place + [name] == [name];
    } else {
      JoinMore(place, name);
    }
  }

  // ---------------------------------------------------------------- creation and validation of a tree

  /** The tree with the answers the file system gives about it, when a lookup may follow up to `hops` links. */
  function TreeSource(children: seq<Child>, entrypoint: string, hash: string, hops: nat): Source {
    Source(children, entrypoint, hash, FindsFile(children, [], Split(entrypoint), hops),
           name => Resolve(children, [], Split(name), hops) != Left)
  }

  lemma AcceptedNeverLeaves(children: seq<Child>, name: string, hops: nat)
    requires Tidy(children) && ValidateRelativePath(name).Some?
    ensures Resolve(children, [], Split(name), hops) != Left
  {
    PathAcceptedExactlyWhen(name);
    if name == "." {
      SplitPiece(".");
      assert ["."][1..] == [];
    } else {
      NormalsAreTidy([], Split(name));
    }
    NeverLeaves(children, [], Split(name), hops);
  }

  /**
   * A tidy tree is archived exactly if its names are acceptable, it holds no special file, and the file system finds
   * a file at the entrypoint: no link fails the creator's tests.
   */
  lemma TidyTreeIsArchivedExactlyWhen(
    children: seq<Child>, entrypoint: string, hash: string, hops: nat, size: nat, digest: nat)
    requires FileSystem(children) && Tidy(children)
    ensures CreateArchive(TreeSource(children, entrypoint, hash, hops), size, digest).Some? <==>
      Archivable(children, entrypoint, hops)
  {
    var s := TreeSource(children, entrypoint, hash, hops);
    if SourceEntries("", children).Some? {
      TidyEntries(children, s.inside, hops);
    }
  }

  predicate Archivable(children: seq<Child>, entrypoint: string, hops: nat) {
    && ValidateRelativePath(entrypoint).Some? && FindsFile(children, [], Split(entrypoint), hops)
    && SourceEntries("", children).Some? && NoneSpecial(SourceEntries("", children).value)
  }

  predicate NoneSpecial(entries: seq<Member>) {
    forall i | 0 <= i < |entries| :: !entries[i].entry.Special?
  }

  lemma TidyEntries(children: seq<Child>, inside: string -> bool, hops: nat)
    requires FileSystem(children) && Tidy(children) && SourceEntries("", children).Some?
    requires forall name :: inside(name) <==> Resolve(children, [], Split(name), hops) != Left
    ensures AllDescribable(SourceEntries("", children).value, inside) <==>
      NoneSpecial(SourceEntries("", children).value)
  {
    var entries := SourceEntries("", children).value;
    forall i | 0 <= i < |entries| && entries[i].entry.Symlink?
      ensures Describable(entries[i], inside)
    {
      TidyIsDescribable(children, entries[i], inside, hops);
    }
  }

  /** In a file system the pieces of a place have no slashes. */
  lemma {:induction false} PlaceIsPlain(children: seq<Child>, path: seq<string>)
    requires FileSystem(children) && NodeAt(children, path).Some?
    ensures Whole(path) && (IsFolder(children, path) ==> FileSystem(NodeAt(children, path).value.children))
    decreases |path|
  {
    if path != [] {
      var last := |path| - 1;
      PlaceIsPlain(children, path[..last]);
      var i := LookupFinds(NodeAt(children, path[..last]).value.children, path[last]);
      assert path == path[..last] + [path[last]];
    }
  }

  lemma TidyIsDescribable(children: seq<Child>, m: Member, inside: string -> bool, hops: nat)
    requires FileSystem(children) && Tidy(children) && SourceEntries("", children).Some?
    requires m in SourceEntries("", children).value && m.entry.Symlink?
    requires forall name :: inside(name) <==> Resolve(children, [], Split(name), hops) != Left
    ensures Describable(m, inside)
  {
    TidyLinkResolves(children, m);
    AcceptedNeverLeaves(children, ResolveLinkName(m.name, m.entry.target).value, hops);
  }

  lemma TidyLinkResolves(children: seq<Child>, m: Member)
    requires FileSystem(children) && Tidy(children) && SourceEntries("", children).Some?
    requires m in SourceEntries("", children).value && m.entry.Symlink?
    ensures var resolved := ResolveLinkName(m.name, m.entry.target);
      resolved.Some? && ValidateRelativePath(resolved.value).Some?
  {
    assert children[0..] == children;
    var path := EntryHasPlace(children, [], children, 0, m);
    assert TidyPlace(children, path);
    PlaceIsPlain(children, path);
    EntryIsProper(children, m);
    PlaceResolves(path, m.name, m.entry.target);
  }

  lemma EntryIsProper(children: seq<Child>, m: Member)
    requires FileSystem(children) && SourceEntries("", children).Some? && m in SourceEntries("", children).value
    ensures ProperName(m.name)
  {
    EntriesAreListable(children);
  }

  lemma PlaceResolves(path: seq<string>, name: string, target: string)
    requires path != [] && Whole(path) && name == Join(path) && ProperName(name) && TidyLink(path, target)
    ensures var resolved := ResolveLinkName(name, target);
      resolved.Some? && ValidateRelativePath(resolved.value).Some?
  {
    SplitOfJoin(path);
    LinkResolvesByWalk(name, target);
  }

  /**
   * The creator and the validator on a tidy tree: what was archived is accepted exactly if it is within the limits,
   * the build hash has its length, the file found at the entrypoint is executable, and finding it neither went
   * through a link in the middle of a path nor into a name that is not archived.
   */
  lemma TidyTreeRoundTrip(children: seq<Child>, entrypoint: string, hash: string, hops: nat, size: nat, digest: nat,
                          reading: Reading, o: Options)
    requires FileSystem(children) && Tidy(children)
    requires CreateArchive(TreeSource(children, entrypoint, hash, hops), size, digest).Some?
    requires reading(digest) ==
      Some(ManifestOf(TreeSource(children, entrypoint, hash, hops), SourceEntries("", children).value))
    requires o.expectedBuild in {None, Some(hash)} && o.expectedEntrypoint in {None, Some(entrypoint)}
    ensures var s := TreeSource(children, entrypoint, hash, hops);
      var ms := CreateArchive(s, size, digest).value;
      Acceptable(ms, reading, o, ManifestOf(s, SourceEntries("", children).value)) <==>
        && |ms| <= o.maxFiles + 1 && TotalSize(ms) <= o.maxBytes && |hash| == 64
        && !Strays(children, [], Split(entrypoint), hops)
        && FindsExecutable(children, [], Split(entrypoint), hops)
  {
    RoundTrip(TreeSource(children, entrypoint, hash, hops), size, digest, reading, o);
    TidyEntrypoint(children, entrypoint, hops, size, digest);
  }

  lemma TidyEntrypoint(children: seq<Child>, entrypoint: string, hops: nat, size: nat, digest: nat)
    requires FileSystem(children) && Tidy(children) && SourceEntries("", children).Some?
    requires ValidateRelativePath(entrypoint).Some? && FindsFile(children, [], Split(entrypoint), hops)
    ensures EntrypointOk(Table(WithManifest(size, digest, SourceEntries("", children).value)), entrypoint) <==>
      !Strays(children, [], Split(entrypoint), hops) && FindsExecutable(children, [], Split(entrypoint), hops)
  {
    CreatedIsArchived(children, size, digest);
    FoundIsProper(children, entrypoint, hops);
    ProperEntrypoint(
      children, Table(WithManifest(size, digest, SourceEntries("", children).value)), entrypoint, hops);
  }

  /** The root's own name is accepted as a path, but is no file. */
  lemma FoundIsProper(children: seq<Child>, entrypoint: string, hops: nat)
    requires ValidateRelativePath(entrypoint).Some? && FindsFile(children, [], Split(entrypoint), hops)
    ensures ProperName(entrypoint)
  {
    PathAcceptedExactlyWhen(entrypoint);
    SplitPiece(".");
    assert ["."][1..] == [];
    assert Resolve(children, [], ["."], hops) == Found([]);
  }

  lemma ProperEntrypoint(children: seq<Child>, table: Members, entrypoint: string, hops: nat)
    requires Archived(children, table) && Tidy(children) && ProperName(entrypoint)
    requires FindsFile(children, [], Split(entrypoint), hops)
    ensures EntrypointOk(table, entrypoint) <==>
      !Strays(children, [], Split(entrypoint), hops) && FindsExecutable(children, [], Split(entrypoint), hops)
  {
    var pieces := Split(entrypoint);
    CleanPieces(entrypoint);
    JoinOfSplit(entrypoint);
    NormalsAreTidy([], pieces);
    assert [] + pieces == pieces;
    NamesFollow(children, table, [], pieces, hops);
  }

  /** The strict validator asks the same of the entrypoint of a tidy tree. */
  lemma TidyTreeStrictRoundTrip(children: seq<Child>, entrypoint: string, hash: string, hops: nat, size: nat,
                                digest: nat, reading: Reading, p: Policy)
    requires FileSystem(children) && Tidy(children)
    requires CreateArchive(TreeSource(children, entrypoint, hash, hops), size, digest).Some?
    requires reading(digest) ==
      Some(ManifestOf(TreeSource(children, entrypoint, hash, hops), SourceEntries("", children).value))
    requires p.buildHash == hash && p.entrypoint == entrypoint
    ensures var s := TreeSource(children, entrypoint, hash, hops);
      var ms := CreateArchive(s, size, digest).value;
      StrictlyAcceptable(ms, reading, p, ManifestOf(s, SourceEntries("", children).value)) <==>
        && |ms| <= p.maxFiles + 1 && TotalSize(ms) <= p.scratchBytes && size <= p.manifestBytes
        && HexDigest(hash) && |entrypoint| <= MAX_ENTRYPOINT && |ms| <= MAX_MANIFEST_FILES + 1
        && SmallFiles(ms[1..]) && FitForStrict(ms) && LinksEnd(ms)
        && !Strays(children, [], Split(entrypoint), hops)
        && FindsExecutable(children, [], Split(entrypoint), hops)
  {
    StrictRoundTrip(TreeSource(children, entrypoint, hash, hops), size, digest, reading, p);
    TidyEntrypoint(children, entrypoint, hops, size, digest);
  }

  // ---------------------------------------------------------------- a tree whose lookup strays

  lemma LinkedPlaces(folder: string, file: string, link: string, path: seq<string>)
    requires folder != link && path != [] && NodeAt(LinkedTree(folder, file, link), path).Some?
    ensures path in {[folder], [link], [folder, file]}
  {
    var children, last := LinkedTree(folder, file, link), |path| - 1;
    var above, name := path[..last], path[last];
    assert path == above + [name];
    LinkedNodes(folder, file, link);
    NodeStep(children, above, name);
    if above == [] {
      TwoLookups(children[0], children[1], name);
    } else {
      LinkedPlaces(folder, file, link, above);
      assert above == [folder] && [folder] + [file] == [folder, file];
      OneLookup(Child(file, File(493, 1, 7)), name);
    }
  }

  lemma OneLookup(a: Child, name: string)
    ensures Lookup([a], name) == if name == a.name then Some(a.node) else None
  {
    assert [a][1..] == [];
  }

  lemma TwoLookups(a: Child, b: Child, name: string)
    requires a.name != b.name
    ensures Lookup([a, b], name) ==
      if name == a.name then Some(a.node) else if name == b.name then Some(b.node) else None
  {
    assert [a, b][1..] == [b];
    OneLookup(b, name);
  }

  lemma LinkedNodes(folder: string, file: string, link: string)
    requires folder != link
    ensures var children := LinkedTree(folder, file, link);
      && NodeAt(children, [folder]) == Some(Directory(493, [Child(file, File(493, 1, 7))]))
      && NodeAt(children, [link]) == Some(Link(511, folder))
      && NodeAt(children, [folder, file]) == Some(File(493, 1, 7))
  {
    var children := LinkedTree(folder, file, link);
    assert [] + [folder] == [folder] && [] + [link] == [link] && [folder] + [file] == [folder, file];
    TwoLookups(children[0], children[1], folder);
    TwoLookups(children[0], children[1], link);
    NodeStep(children, [], folder);
    NodeStep(children, [], link);
    NodeStep(children, [folder], file);
  }

  lemma LinkedTreeIsTidy(folder: string, file: string, link: string)
    requires PlainChild(folder) && PlainChild(file) && PlainChild(link) && folder != link
    ensures Tidy(LinkedTree(folder, file, link))
  {
    LinkedNodes(folder, file, link);
    SplitPiece(folder);
    NormalsAreTidy([], [folder]);
    forall path: seq<string> | path != []
      ensures TidyPlace(LinkedTree(folder, file, link), path)
    {
      if NodeAt(LinkedTree(folder, file, link), path).Some? {
        LinkedPlaces(folder, file, link, path);
        assert path == [link] ==> path[..0] == [];
      }
    }
  }

  /** Looking up the file through the link finds it, and it is executable, but the lookup strays. */
  lemma LinkedLookup(folder: string, file: string, link: string, hops: nat)
    requires hops > 0 && PlainChild(folder) && PlainChild(file) && PlainChild(link) && folder != link
    ensures var children := LinkedTree(folder, file, link);
      && Resolve(children, [], [link, file], hops) == Found([folder, file])
      && Strays(children, [], [link, file], hops)
  {
    var children := LinkedTree(folder, file, link);
    LinkedNodes(folder, file, link);
    SplitPiece(folder);
    assert [] + [link] == [link] && [] + [folder] == [folder] && [folder] + [file] == [folder, file];
    assert [link, file][1..] == [file] && [folder, file][1..] == [file] && [file][1..] == [];
    assert Resolve(children, [folder], [file], hops - 1) == Found([folder, file]);
    assert Resolve(children, [], [folder, file], hops - 1) == Found([folder, file]);
  }

  /** A tidy tree that is archived, with an executable entrypoint, and whose archive no validator accepts. */
  ghost predicate Straying(children: seq<Child>, entrypoint: string, hops: nat) {
    && FileSystem(children) && Tidy(children) && Archivable(children, entrypoint, hops)
    && FindsExecutable(children, [], Split(entrypoint), hops) && Strays(children, [], Split(entrypoint), hops)
  }

  lemma StrayingIsArchivedThenRefused(children: seq<Child>, entrypoint: string, hash: string, hops: nat, size: nat,
                                      digest: nat, reading: Reading, o: Options, m: Manifest)
    requires Straying(children, entrypoint, hops)
    requires reading(digest) ==
      Some(ManifestOf(TreeSource(children, entrypoint, hash, hops), SourceEntries("", children).value))
    ensures CreateArchive(TreeSource(children, entrypoint, hash, hops), size, digest).Some?
    ensures !Acceptable(CreateArchive(TreeSource(children, entrypoint, hash, hops), size, digest).value, reading, o, m)
  {
    var entries := SourceEntries("", children).value;
    TidyTreeIsArchivedExactlyWhen(children, entrypoint, hash, hops, size, digest);
    TidyEntrypoint(children, entrypoint, hops, size, digest);
    EntriesAreListable(children);
    ReadsBack(size, digest, entries, reading);
  }

  /** Such trees exist: the file looked up through the link. */
  lemma LinkedTreeStrays(folder: string, file: string, link: string, hops: nat)
    requires hops > 0 && PlainChild(folder) && PlainChild(file) && PlainChild(link) && folder != link
    ensures Straying(LinkedTree(folder, file, link), link + "/" + file, hops)
  {
    PathOfTwo(link, file);
    LinkedFolderHas(folder, file, link);
    LinkedTreeIsTidy(folder, file, link);
    LinkedIsFound(folder, file, link, hops);
    LinkedLookup(folder, file, link, hops);
    NothingSpecial(folder, file, link);
    MakesStraying(LinkedTree(folder, file, link), link + "/" + file, [link, file], hops,
                  LinkedFolderEntries(folder, file, link), 493);
  }

  lemma MakesStraying(children: seq<Child>, entrypoint: string, rest: seq<string>, hops: nat, entries: seq<Member>,
                      mode: nat)
    requires FileSystem(children) && Tidy(children)
    requires ValidateRelativePath(entrypoint).Some? && Split(entrypoint) == rest
    requires SourceEntries("", children) == Some(entries) && NoneSpecial(entries)
    requires FileFound(children, [], rest, hops) == Some(mode) && Executable(mode % 512)
    requires Strays(children, [], rest, hops)
    ensures Straying(children, entrypoint, hops)
  {
  }

  lemma NothingSpecial(folder: string, file: string, link: string)
    ensures NoneSpecial(LinkedFolderEntries(folder, file, link))
  {
  }

  lemma LinkedIsFound(folder: string, file: string, link: string, hops: nat)
    requires hops > 0 && PlainChild(folder) && PlainChild(file) && PlainChild(link) && folder != link
    ensures FileFound(LinkedTree(folder, file, link), [], [link, file], hops) == Some(493)
  {
    LinkedLookup(folder, file, link, hops);
    LinkedNodes(folder, file, link);
    FoundIsFile(LinkedTree(folder, file, link), [link, file], hops, [folder, file], 493);
  }

  lemma FoundIsFile(children: seq<Child>, rest: seq<string>, hops: nat, path: seq<string>, mode: nat)
    requires Resolve(children, [], rest, hops) == Found(path) && NodeAt(children, path) == Some(File(mode, 1, 7))
    ensures FileFound(children, [], rest, hops) == Some(mode)
  {
  }

  /** For instance `d/f`, looked up as `l/f`. */
  lemma StrayingTreeExists(hops: nat)
    requires hops > 0
    ensures exists children, entrypoint :: Straying(children, entrypoint, hops)
  {
    SomePlainNames();
    var folder, file, link := "d", "f", "l";
    LinkedTreeStrays(folder, file, link, hops);
  }
}
