/** Creating an archive from a directory tree, and what the validators make of it. */
module ArchiveTree {
  import opened Wrappers
  import opened Paths
  import Chains
  import opened LinkGraph
  import opened Archive

  /** A directory entry as the file system shows it, without following links. */
  datatype Node =
    | File(mode: nat, size: nat, digest: nat)
    | Directory(mode: nat, children: seq<Child>)
    | Link(mode: nat, target: string)
    | Other

  datatype Child = Child(name: string, node: Node)

  /** Names a file system gives: not empty, without slashes, not the dots, no two alike in one directory. */
  ghost predicate FileSystem(children: seq<Child>)
    decreases children
  {
    && (forall i | 0 <= i < |children| :: Normal(children[i].name) && '/' !in children[i].name)
    && (forall i, j | 0 <= i < j < |children| :: children[i].name != children[j].name)
    && forall i | 0 <= i < |children| && children[i].node.Directory? :: FileSystem(children[i].node.children)
  }

  function Below(prefix: string, name: string): string {
    if prefix == "" then name else prefix + "/" + name
  }

  function EntryOf(node: Node): Entry {
    match node
    case File(mode, size, digest) => Regular(mode % 512, size, digest)
    case Directory(mode, _) => Folder(mode % 512)
    case Link(mode, target) => Symlink(mode % 512, target)
    case Other => Special
  }

  /** `_source_entries`: a directory before what it holds, the two reserved names left out. */
  function SourceEntries(prefix: string, children: seq<Child>): Option<seq<Member>>
    decreases children
  {
    if children == [] then Some([])
    else
      var name := Below(prefix, children[0].name);
      var rest := SourceEntries(prefix, children[1..]);
      if name == MANIFEST_NAME || name == MARKER_NAME then rest
      else if ValidateRelativePath(name).None? || rest.None? then None
      else
        var inner := if children[0].node.Directory? then SourceEntries(name, children[0].node.children) else Some([]);
        if inner.None? then None
        else Some([Member(name, EntryOf(children[0].node))] + inner.value + rest.value)
  }

  /** `_source_metadata` raises for special files and for links that lead out, by name or on the real file system. */
  predicate Describable(m: Member, inside: string -> bool) {
    && !m.entry.Special?
    && (m.entry.Symlink? ==>
          var resolved := ResolveLinkName(m.name, m.entry.target);
          resolved.Some? && inside(resolved.value))
  }

  datatype Source = Source(
    children: seq<Child>, entrypoint: string, buildHash: string, reachable: bool, inside: string -> bool)

  function ManifestOf(s: Source, entries: seq<Member>): Manifest {
    Manifest(ARTIFACT_FORMAT, ARTIFACT_PLATFORM, s.buildHash, s.entrypoint, Listed(entries))
  }

  function Listed(entries: seq<Member>): seq<Metadata> {
    seq(|entries|, i requires 0 <= i < |entries| => Describe(entries[i]))
  }

  predicate AllDescribable(entries: seq<Member>, inside: string -> bool) {
    forall i | 0 <= i < |entries| :: Describable(entries[i], inside)
  }

  /**
   * `create_artifact_archive`: the manifest, whose text has this size and digest, then the entries. `reachable` is
   * the file system's answer that the entrypoint is a file inside the tree.
   */
  function CreateArchive(s: Source, size: nat, digest: nat): Option<seq<Member>> {
    if ValidateRelativePath(s.entrypoint).None? || !s.reachable then None
    else
      var entries := SourceEntries("", s.children);
      if entries.None? || !AllDescribable(entries.value, s.inside) then None
      else Some(WithManifest(size, digest, entries.value))
  }

  function WithManifest(size: nat, digest: nat, entries: seq<Member>): seq<Member> {
    [Member(MANIFEST_NAME, Regular(420, size, digest))] + entries
  }

  // ---------------------------------------------------------------- the names of the entries

  /** The pieces a prefix stands for. */
  function Pieces(prefix: string): seq<string> {
    if prefix == "" then [] else Split(prefix)
  }

  ghost predicate GoodPrefix(prefix: string) {
    prefix == "" || ProperName(prefix)
  }

  lemma BelowPieces(prefix: string, name: string)
    requires GoodPrefix(prefix) && Normal(name) && '/' !in name
    ensures Split(Below(prefix, name)) == Pieces(prefix) + [name]
  {
    SplitPiece(name);
    if prefix != "" {
      SplitAtSlash(prefix, name);
    }
  }

  /** A member lies below a prefix, in or at the child of this name. */
  ghost predicate Lies(m: Member, prefix: string, child: string) {
    var pieces := Split(m.name);
    var depth := |Pieces(prefix)|;
    && ProperName(m.name) && m.name != MANIFEST_NAME && m.name != MARKER_NAME
    && |pieces| > depth && pieces[..depth] == Pieces(prefix) && pieces[depth] == child
  }

  lemma LiesDeeper(m: Member, prefix: string, child: string, name: string)
    requires GoodPrefix(prefix) && Normal(child) && '/' !in child && Lies(m, Below(prefix, child), name)
    ensures Lies(m, prefix, child) && |Split(m.name)| > |Pieces(prefix)| + 1
  {
    BelowPieces(prefix, child);
    ProperNotEmpty(prefix, child);
    var pieces, depth := Split(m.name), |Pieces(prefix)|;
    assert pieces[..depth + 1] == Pieces(prefix) + [child];
    assert pieces[..depth] == pieces[..depth + 1][..depth];
    assert pieces[depth] == pieces[..depth + 1][depth];
  }

  lemma ProperNotEmpty(prefix: string, child: string)
    requires Normal(child)
    ensures Below(prefix, child) != ""
  {
  }

  /** A member lies at or below one of the children. */
  ghost predicate Covered(m: Member, prefix: string, children: seq<Child>) {
    exists c :: 0 <= c < |children| && Lies(m, prefix, children[c].name)
  }

  ghost predicate Placement(ms: seq<Member>, prefix: string, children: seq<Child>) {
    forall i | 0 <= i < |ms| :: Covered(ms[i], prefix, children)
  }

  lemma {:induction false} EntriesArePlaced(prefix: string, children: seq<Child>)
    requires GoodPrefix(prefix) && FileSystem(children) && SourceEntries(prefix, children).Some?
    ensures Placement(SourceEntries(prefix, children).value, prefix, children)
    ensures Distinct(SourceEntries(prefix, children).value)
    decreases children
  {
    if children != [] {
      var child, name := children[0], Below(prefix, children[0].name);
      RestIsFileSystem(children);
      EntriesArePlaced(prefix, children[1..]);
      if name != MANIFEST_NAME && name != MARKER_NAME {
        FirstIsProper(prefix, child.name);
        if child.node.Directory? {
          EntriesArePlaced(name, child.node.children);
        }
        var inner := if child.node.Directory? then SourceEntries(name, child.node.children).value else [];
        InnerIsPlaced(prefix, child, inner);
        OwnFamily(prefix, child.name, Member(name, EntryOf(child.node)), inner);
        FamilyIsDistinct(prefix, children, [Member(name, EntryOf(child.node))] + inner,
                         SourceEntries(prefix, children[1..]).value);
      } else {
        RestIsPlaced(prefix, children, SourceEntries(prefix, children[1..]).value);
      }
    }
  }

  lemma RestIsFileSystem(children: seq<Child>)
    requires FileSystem(children) && children != []
    ensures FileSystem(children[1..])
  {
  }

  lemma FirstIsProper(prefix: string, name: string)
    requires GoodPrefix(prefix) && Normal(name) && '/' !in name
    requires ValidateRelativePath(Below(prefix, name)).Some?
    ensures ProperName(Below(prefix, name))
  {
    PathAcceptedExactlyWhen(Below(prefix, name));
    BelowPieces(prefix, name);
    SplitPiece(".");
    var pieces := Split(Below(prefix, name));
    assert pieces[|pieces| - 1] == name;
    assert Below(prefix, name) != "." by {
      assert Split(".")[0] == ".";
    }
  }

  lemma RestIsPlaced(prefix: string, children: seq<Child>, rest: seq<Member>)
    requires children != [] && Placement(rest, prefix, children[1..])
    ensures Placement(rest, prefix, children)
  {
    forall i | 0 <= i < |rest|
      ensures Covered(rest[i], prefix, children)
    {
      assert Covered(rest[i], prefix, children[1..]);
      var c :| 0 <= c < |children[1..]| && Lies(rest[i], prefix, children[1..][c].name);
      assert Lies(rest[i], prefix, children[c + 1].name);
    }
  }

  /** What lies below a child, one level further down than the child itself. */
  ghost predicate InChild(prefix: string, child: string, m: Member) {
    Lies(m, prefix, child) && |Split(m.name)| > |Pieces(prefix)| + 1
  }

  lemma InnerIsPlaced(prefix: string, child: Child, inner: seq<Member>)
    requires GoodPrefix(prefix) && Normal(child.name) && '/' !in child.name
    requires child.node.Directory? ==> Placement(inner, Below(prefix, child.name), child.node.children)
    requires !child.node.Directory? ==> inner == []
    ensures forall i | 0 <= i < |inner| :: InChild(prefix, child.name, inner[i])
  {
    forall i | 0 <= i < |inner|
      ensures InChild(prefix, child.name, inner[i])
    {
      assert Covered(inner[i], Below(prefix, child.name), child.node.children);
      var c :| 0 <= c < |child.node.children| && Lies(inner[i], Below(prefix, child.name), child.node.children[c].name);
      LiesDeeper(inner[i], prefix, child.name, child.node.children[c].name);
    }
  }

  lemma JoinDistinct(a: seq<Member>, b: seq<Member>)
    requires Distinct(a) && Distinct(b)
    requires forall i, j | 0 <= i < |a| && 0 <= j < |b| :: a[i].name != b[j].name
    ensures Distinct(a + b)
  {
  }

  /** A child's own entry and what it holds. */
  lemma OwnFamily(prefix: string, first: string, own: Member, inner: seq<Member>)
    requires GoodPrefix(prefix) && Normal(first) && '/' !in first
    requires own.name == Below(prefix, first) && ProperName(own.name)
    requires own.name != MANIFEST_NAME && own.name != MARKER_NAME
    requires (forall i | 0 <= i < |inner| :: InChild(prefix, first, inner[i])) && Distinct(inner)
    ensures Distinct([own] + inner)
    ensures forall i | 0 <= i < |[own] + inner| :: Lies(([own] + inner)[i], prefix, first)
  {
    BelowPieces(prefix, first);
    assert Lies(own, prefix, first) && |Split(own.name)| == |Pieces(prefix)| + 1;
    forall j | 0 <= j < |inner|
      ensures own.name != inner[j].name && Lies(inner[j], prefix, first)
    {
      assert InChild(prefix, first, inner[j]);
    }
    JoinDistinct([own], inner);
  }

  /** A child's family and what follows have different names. */
  lemma FamilyIsDistinct(prefix: string, children: seq<Child>, family: seq<Member>, rest: seq<Member>)
    requires FileSystem(children) && children != []
    requires Distinct(family) && forall i | 0 <= i < |family| :: Lies(family[i], prefix, children[0].name)
    requires Placement(rest, prefix, children[1..]) && Distinct(rest)
    ensures Placement(family + rest, prefix, children)
    ensures Distinct(family + rest)
  {
    RestIsPlaced(prefix, children, rest);
    forall i, j | 0 <= i < |family| && 0 <= j < |rest|
      ensures family[i].name != rest[j].name
    {
      assert Covered(rest[j], prefix, children[1..]);
      var c :| 0 <= c < |children[1..]| && Lies(rest[j], prefix, children[1..][c].name);
      assert children[1..][c] == children[c + 1];
      assert Lies(family[i], prefix, children[0].name);
    }
    JoinDistinct(family, rest);
    var all := family + rest;
    forall i | 0 <= i < |all|
      ensures Covered(all[i], prefix, children)
    {
      if i < |family| {
        assert Lies(all[i], prefix, children[0].name);
      } else {
        assert all[i] == rest[i - |family|] && Covered(rest[i - |family|], prefix, children);
      }
    }
  }

  // ---------------------------------------------------------------- folders come before what they hold

  /** The ancestor `i` pieces deep of member `k` is a folder listed earlier. */
  ghost predicate AncestorBefore(ms: seq<Member>, k: nat, i: nat)
    requires k < |ms| && i <= |Split(ms[k].name)|
  {
    exists j :: 0 <= j < k && ms[j].name == Ancestor(ms[k].name, i) && ms[j].entry.Folder?
  }

  ghost predicate Preorder(ms: seq<Member>, depth: nat) {
    forall k: nat, i: nat | k < |ms| && depth < i < |Split(ms[k].name)| :: AncestorBefore(ms, k, i)
  }

  lemma {:induction false} EntriesAreInPreorder(prefix: string, children: seq<Child>)
    requires GoodPrefix(prefix) && FileSystem(children) && SourceEntries(prefix, children).Some?
    ensures Preorder(SourceEntries(prefix, children).value, |Pieces(prefix)|)
    decreases children
  {
    if children != [] {
      var child, name := children[0], Below(prefix, children[0].name);
      var rest := SourceEntries(prefix, children[1..]).value;
      RestIsFileSystem(children);
      EntriesAreInPreorder(prefix, children[1..]);
      if name != MANIFEST_NAME && name != MARKER_NAME {
        FirstIsProper(prefix, child.name);
        BelowPieces(prefix, child.name);
        var own := Member(name, EntryOf(child.node));
        var inner := if child.node.Directory? then SourceEntries(name, child.node.children).value else [];
        if child.node.Directory? {
          EntriesAreInPreorder(name, child.node.children);
          EntriesArePlaced(name, child.node.children);
        }
        OwnFirst(prefix, child, inner);
        PreorderJoin([own] + inner, rest, |Pieces(prefix)|);
      }
    }
  }

  lemma OwnFirst(prefix: string, child: Child, inner: seq<Member>)
    requires GoodPrefix(prefix) && Normal(child.name) && '/' !in child.name
    requires child.node.Directory? ==> Placement(inner, Below(prefix, child.name), child.node.children)
    requires !child.node.Directory? ==> inner == []
    requires Preorder(inner, |Pieces(Below(prefix, child.name))|)
    ensures Preorder([Member(Below(prefix, child.name), EntryOf(child.node))] + inner, |Pieces(prefix)|)
  {
    var name := Below(prefix, child.name);
    var all := [Member(name, EntryOf(child.node))] + inner;
    BelowPieces(prefix, child.name);
    ProperNotEmpty(prefix, child.name);
    forall k: nat, i: nat | k < |all| && |Pieces(prefix)| < i < |Split(all[k].name)|
      ensures AncestorBefore(all, k, i)
    {
      if k > 0 {
        assert all[k] == inner[k - 1];
        assert Covered(inner[k - 1], name, child.node.children);
        if i == |Pieces(name)| {
          OwnAncestor(all, k, name);
        } else {
          AncestorInside(all[0], inner, k, i);
        }
      }
    }
  }

  /** The child itself is the nearest ancestor of what it holds. */
  lemma OwnAncestor(all: seq<Member>, k: nat, name: string)
    requires 0 < k < |all| && all[0].name == name && all[0].entry.Folder?
    requires |Split(name)| <= |Split(all[k].name)| && Split(all[k].name)[..|Split(name)|] == Split(name)
    ensures AncestorBefore(all, k, |Split(name)|)
  {
    JoinOfSplit(name);
    assert all[0].name == Ancestor(all[k].name, |Split(name)|);
  }

  /** A deeper ancestor is found among what the child holds. */
  lemma AncestorInside(own: Member, inner: seq<Member>, k: nat, i: nat)
    requires 0 < k <= |inner| && i <= |Split(inner[k - 1].name)| && AncestorBefore(inner, k - 1, i)
    ensures AncestorBefore([own] + inner, k, i)
  {
    var all := [own] + inner;
    var j :| 0 <= j < k - 1 && inner[j].name == Ancestor(inner[k - 1].name, i) && inner[j].entry.Folder?;
    assert all[j + 1] == inner[j] && all[k] == inner[k - 1];
  }

  lemma PreorderJoin(a: seq<Member>, b: seq<Member>, depth: nat)
    requires Preorder(a, depth) && Preorder(b, depth)
    ensures Preorder(a + b, depth)
  {
    var all := a + b;
    forall k: nat, i: nat | k < |all| && depth < i < |Split(all[k].name)|
      ensures AncestorBefore(all, k, i)
    {
      if k < |a| {
        assert AncestorBefore(a, k, i);
        var j :| 0 <= j < k && a[j].name == Ancestor(a[k].name, i) && a[j].entry.Folder?;
        assert all[j] == a[j];
      } else {
        assert AncestorBefore(b, k - |a|, i);
        var j :| 0 <= j < k - |a| && b[j].name == Ancestor(b[k - |a|].name, i) && b[j].entry.Folder?;
        assert all[|a| + j] == b[j];
      }
    }
  }

  lemma PlainName(name: string)
    requires '/' !in name && Clean(name) && Normal(name)
    ensures ProperName(name)
  {
    SplitPiece(name);
  }

  /** A name fit for an entry: proper and not one of the two reserved ones. */
  predicate EntryName(name: string) {
    ProperName(name) && name != MANIFEST_NAME && name != MARKER_NAME
  }

  /** What holds of the entries of every directory tree: fit names, no two alike, folders before what they hold. */
  ghost predicate Listable(entries: seq<Member>) {
    && Distinct(entries) && Preorder(entries, 0)
    && (forall i | 0 <= i < |entries| :: EntryName(entries[i].name))
    && forall i | 0 <= i < |entries| :: SmallMode(entries[i].entry)
  }

  predicate SmallMode(e: Entry) {
    match e
    case Regular(mode, _, _) => mode < 512
    case Folder(mode) => mode < 512
    case Symlink(mode, _) => mode < 512
    case Special => true
  }

  lemma {:induction false} CreatedModes(prefix: string, children: seq<Child>)
    requires SourceEntries(prefix, children).Some?
    ensures forall i | 0 <= i < |SourceEntries(prefix, children).value| ::
      SmallMode(SourceEntries(prefix, children).value[i].entry)
    decreases children
  {
    if children != [] {
      var name := Below(prefix, children[0].name);
      CreatedModes(prefix, children[1..]);
      if name != MANIFEST_NAME && name != MARKER_NAME && children[0].node.Directory? {
        CreatedModes(name, children[0].node.children);
      }
    }
  }

  /** The entries of a directory tree have proper, distinct names, and every folder comes before what it holds. */
  lemma EntriesAreListable(children: seq<Child>)
    requires FileSystem(children) && SourceEntries("", children).Some?
    ensures Listable(SourceEntries("", children).value)
  {
    var entries := SourceEntries("", children).value;
    EntriesArePlaced("", children);
    EntriesAreInPreorder("", children);
    CreatedModes("", children);
    forall i | 0 <= i < |entries|
      ensures EntryName(entries[i].name)
    {
      assert Covered(entries[i], "", children);
    }
  }

  lemma WithManifestDistinct(size: nat, digest: nat, entries: seq<Member>)
    requires Listable(entries)
    ensures Distinct(WithManifest(size, digest, entries))
    ensures Preorder(WithManifest(size, digest, entries), 0)
  {
    var manifest := Member(MANIFEST_NAME, Regular(420, size, digest));
    forall i | 0 <= i < |entries|
      ensures entries[i].name != manifest.name
    {
      assert EntryName(entries[i].name);
    }
    JoinDistinct([manifest], entries);
    SplitPiece(manifest.name);
    assert Preorder([manifest], 0);
    PreorderJoin([manifest], entries, 0);
  }

  // ---------------------------------------------------------------- the round trip

  lemma {:induction false} ObservedIsListed(manifest: Member, entries: seq<Member>)
    requires manifest.name == MANIFEST_NAME
    requires forall i | 0 <= i < |entries| :: entries[i].name != MANIFEST_NAME
    ensures Observed([manifest] + entries) == Listed(entries)
  {
    if entries == [] {
      assert [manifest] + entries == [manifest] && [manifest][..0] == [];
    } else {
      var front, last := entries[..|entries| - 1], entries[|entries| - 1];
      ObservedIsListed(manifest, front);
      assert ([manifest] + entries)[..|entries|] == [manifest] + front;
      assert Listed(entries) == Listed(front) + [Describe(last)];
    }
  }

  /** What the archive says of itself when it is read back. */
  lemma ReadsBack(size: nat, digest: nat, entries: seq<Member>, reading: Reading)
    requires Listable(entries)
    ensures var ms := WithManifest(size, digest, entries);
      ManifestIn(Table(ms), reading) == reading(digest) && Observed(ms) == Listed(entries)
  {
    var manifest := Member(MANIFEST_NAME, Regular(420, size, digest));
    WithManifestDistinct(size, digest, entries);
    TableHolds([manifest] + entries);
    assert ([manifest] + entries)[0] == manifest;
    forall i | 0 <= i < |entries|
      ensures entries[i].name != MANIFEST_NAME
    {
      assert EntryName(entries[i].name);
    }
    ObservedIsListed(manifest, entries);
  }

  lemma EntryIsOk(m: Member, inside: string -> bool)
    requires EntryName(m.name) && Describable(m, inside)
    ensures MemberOk(m)
  {
    PathAcceptedExactlyWhen(m.name);
  }

  lemma ManifestIsOk(size: nat, digest: nat)
    ensures MemberOk(Member(MANIFEST_NAME, Regular(420, size, digest)))
  {
    PlainName(MANIFEST_NAME);
    PathAcceptedExactlyWhen(MANIFEST_NAME);
  }

  lemma MembersOk(size: nat, digest: nat, entries: seq<Member>, inside: string -> bool)
    requires Listable(entries) && AllDescribable(entries, inside)
    ensures AllMembersOk(WithManifest(size, digest, entries))
  {
    ManifestIsOk(size, digest);
    var ms := WithManifest(size, digest, entries);
    EntriesFollowManifest(ms[0], entries, inside);
    assert ms == [ms[0]] + entries;
  }

  lemma EntriesFollowManifest(manifest: Member, entries: seq<Member>, inside: string -> bool)
    requires MemberOk(manifest)
    requires forall i | 0 <= i < |entries| :: EntryName(entries[i].name) && Describable(entries[i], inside)
    ensures AllMembersOk([manifest] + entries)
  {
    var ms := [manifest] + entries;
    forall i | 0 <= i < |ms|
      ensures MemberOk(ms[i])
    {
      if i == 0 {
        assert ms[i] == manifest;
      } else {
        assert ms[i] == entries[i - 1];
        EntryIsOk(entries[i - 1], inside);
      }
    }
  }

  /**
   * The round trip: an archive created from a directory tree is accepted, with the manifest it was created with,
   * exactly when it is within the limits, the build hash has its length, and the entrypoint's chain of links, name
   * by name, ends at an executable regular file. (The creator asked the file system instead, which also follows
   * links in the middle of a path.)
   */
  lemma RoundTrip(s: Source, size: nat, digest: nat, reading: Reading, o: Options)
    requires FileSystem(s.children) && CreateArchive(s, size, digest).Some?
    requires reading(digest) == Some(ManifestOf(s, SourceEntries("", s.children).value))
    requires o.expectedBuild in {None, Some(s.buildHash)} && o.expectedEntrypoint in {None, Some(s.entrypoint)}
    ensures var ms := CreateArchive(s, size, digest).value;
      var manifest := ManifestOf(s, SourceEntries("", s.children).value);
      && (Acceptable(ms, reading, o, manifest) <==>
            && |ms| <= o.maxFiles + 1 && TotalSize(ms) <= o.maxBytes && |s.buildHash| == 64
            && EntrypointOk(Table(ms), s.entrypoint))
      && forall m :: Acceptable(ms, reading, o, m) ==> m == manifest
  {
    var entries := SourceEntries("", s.children).value;
    EntriesAreListable(s.children);
    WithManifestDistinct(size, digest, entries);
    ReadsBack(size, digest, entries, reading);
    MembersOk(size, digest, entries, s.inside);
  }

  /** A name in the archive's table is the manifest's or an entry's. */
  lemma CreatedNames(size: nat, digest: nat, entries: seq<Member>, name: string)
    requires Listable(entries) && name in Table(WithManifest(size, digest, entries))
    ensures name == MANIFEST_NAME || exists i :: 0 <= i < |entries| && entries[i].name == name
  {
    var ms := WithManifest(size, digest, entries);
    WithManifestDistinct(size, digest, entries);
    TableHolds(ms);
    var j :| 0 <= j < |ms| && ms[j].name == name;
    if j > 0 {
      assert entries[j - 1] == ms[j];
    }
  }

  /** Every entry is in the archive's table as it is. */
  lemma CreatedEntry(size: nat, digest: nat, entries: seq<Member>, i: nat)
    requires Listable(entries) && i < |entries|
    ensures var table := Table(WithManifest(size, digest, entries));
      entries[i].name in table && table[entries[i].name] == entries[i].entry
  {
    var ms := WithManifest(size, digest, entries);
    WithManifestDistinct(size, digest, entries);
    TableHolds(ms);
    assert ms[i + 1] == entries[i];
  }

  /** A regular entrypoint that nobody may execute: the creator never looks at its mode, the validators do. */
  lemma RefusedForItsMode(s: Source, i: nat, size: nat, digest: nat, reading: Reading, o: Options, m: Manifest)
    requires FileSystem(s.children) && CreateArchive(s, size, digest).Some?
    requires reading(digest) == Some(ManifestOf(s, SourceEntries("", s.children).value))
    requires
      var entries := SourceEntries("", s.children).value;
      i < |entries| && entries[i].name == s.entrypoint && entries[i].entry.Regular?
        && !Executable(entries[i].entry.mode)
    ensures !Acceptable(CreateArchive(s, size, digest).value, reading, o, m)
  {
    var entries := SourceEntries("", s.children).value;
    EntriesAreListable(s.children);
    ReadsBack(size, digest, entries, reading);
    CreatedEntry(size, digest, entries, i);
    DecidedAt(Table(WithManifest(size, digest, entries)), s.entrypoint, 0, s.entrypoint);
  }

  /** An entrypoint that no entry is called: the file system found it through a link in the middle of its path. */
  lemma RefusedForItsName(s: Source, size: nat, digest: nat, reading: Reading, o: Options, m: Manifest)
    requires FileSystem(s.children) && CreateArchive(s, size, digest).Some?
    requires reading(digest) == Some(ManifestOf(s, SourceEntries("", s.children).value))
    requires s.entrypoint != MANIFEST_NAME
    requires forall i | 0 <= i < |SourceEntries("", s.children).value| ::
               SourceEntries("", s.children).value[i].name != s.entrypoint
    ensures !Acceptable(CreateArchive(s, size, digest).value, reading, o, m)
  {
    var entries := SourceEntries("", s.children).value;
    EntriesAreListable(s.children);
    ReadsBack(size, digest, entries, reading);
    var table := Table(WithManifest(size, digest, entries));
    if s.entrypoint in table {
      CreatedNames(size, digest, entries, s.entrypoint);
    }
    assert Chains.DanglesAt(HopsOf(table), table.Keys, s.entrypoint, 0);
    RefusedDangling(table, s.entrypoint, 0);
  }

  /** The first child of a directory, when it is no directory itself, and those after it. */
  lemma LeafEntry(prefix: string, name: string, node: Node, rest: seq<Child>)
    requires Below(prefix, name) !in {MANIFEST_NAME, MARKER_NAME} && !node.Directory?
    requires ValidateRelativePath(Below(prefix, name)).Some? && SourceEntries(prefix, rest).Some?
    ensures SourceEntries(prefix, [Child(name, node)] + rest) ==
      Some([Member(Below(prefix, name), EntryOf(node))] + SourceEntries(prefix, rest).value)
  {
    var children := [Child(name, node)] + rest;
    assert children[1..] == rest;
    assert [Member(Below(prefix, name), EntryOf(node))] + [] == [Member(Below(prefix, name), EntryOf(node))];
  }

  /** The first child of a directory, when it holds one file, and those after it. */
  lemma FolderEntry(name: string, mode: nat, inside: Child, rest: seq<Child>)
    requires PlainChild(name) && PlainChild(inside.name) && !inside.node.Directory?
    requires SourceEntries("", rest).Some?
    ensures ProperName(name + "/" + inside.name)
    ensures SourceEntries("", [Child(name, Directory(mode, [inside]))] + rest) ==
      Some([Member(name, Folder(mode % 512)), Member(name + "/" + inside.name, EntryOf(inside.node))]
           + SourceEntries("", rest).value)
  {
    var children := [Child(name, Directory(mode, [inside]))] + rest;
    var path := name + "/" + inside.name;
    SplitPiece(name);
    SplitPiece(inside.name);
    SplitAtSlash(name, inside.name);
    PathAcceptedExactlyWhen(name);
    PathAcceptedExactlyWhen(path);
    WholeNameIsNotReserved(name, inside.name);
    LeafEntry(name, inside.name, inside.node, []);
    assert [inside] + [] == [inside] && children[1..] == rest;
    var own, held := Member(name, Folder(mode % 512)), Member(path, EntryOf(inside.node));
    assert [held] + [] == [held] && [own] + [held] == [own, held];
  }

  /** A name for a child that is neither reserved nor more than one piece. */
  predicate PlainChild(name: string) {
    '/' !in name && Clean(name) && Normal(name) && name !in {MANIFEST_NAME, MARKER_NAME}
  }

  lemma WholeNameIsNotReserved(name: string, held: string)
    ensures name + "/" + held !in {MANIFEST_NAME, MARKER_NAME}
  {
    var path := name + "/" + held;
    assert path[|name|] == '/';
    assert '/' !in MANIFEST_NAME && '/' !in MARKER_NAME;
  }

  /** A tree of one file, which is also the entrypoint. */
  function OneFile(name: string, mode: nat, hash: string): Source {
    Source([Child(name, File(mode, 1, 7))], name, hash, true, _ => true)
  }

  lemma OneFileEntries(name: string, mode: nat, hash: string)
    requires PlainChild(name) && mode < 512
    ensures FileSystem(OneFile(name, mode, hash).children) && ValidateRelativePath(name).Some?
    ensures SourceEntries("", OneFile(name, mode, hash).children) == Some([Member(name, Regular(mode, 1, 7))])
  {
    PlainName(name);
    PathAcceptedExactlyWhen(name);
    LeafEntry("", name, File(mode, 1, 7), []);
    assert [Child(name, File(mode, 1, 7))] + [] == [Child(name, File(mode, 1, 7))];
    assert [Member(name, Regular(mode, 1, 7))] + [] == [Member(name, Regular(mode, 1, 7))];
  }

  /** When nobody may execute it, the creator archives the tree and the validators refuse what it made. */
  lemma PlainFileIsArchivedThenRefused(
    name: string, mode: nat, hash: string, size: nat, digest: nat, reading: Reading, o: Options, m: Manifest)
    requires PlainChild(name) && mode < 512 && !Executable(mode)
    requires reading(digest) == Some(ManifestOf(OneFile(name, mode, hash), [Member(name, Regular(mode, 1, 7))]))
    ensures CreateArchive(OneFile(name, mode, hash), size, digest).Some?
    ensures !Acceptable(CreateArchive(OneFile(name, mode, hash), size, digest).value, reading, o, m)
  {
    OneFileEntries(name, mode, hash);
    RefusedForItsMode(OneFile(name, mode, hash), 0, size, digest, reading, o, m);
  }

  /** A file in a directory, and a link to that directory: the file system finds the file through the link too. */
  function LinkedFolder(folder: string, file: string, link: string, hash: string): Source {
    Source(LinkedTree(folder, file, link), link + "/" + file, hash, true, _ => true)
  }

  function LinkedTree(folder: string, file: string, link: string): seq<Child> {
    [Child(folder, Directory(493, [Child(file, File(493, 1, 7))])), Child(link, Link(511, folder))]
  }

  function LinkedFolderEntries(folder: string, file: string, link: string): seq<Member> {
    [Member(folder, Folder(493)), Member(folder + "/" + file, Regular(493, 1, 7)), Member(link, Symlink(511, folder))]
  }

  lemma LinkedFolderHas(folder: string, file: string, link: string)
    requires PlainChild(folder) && PlainChild(file) && PlainChild(link) && folder != link
    ensures FileSystem(LinkedTree(folder, file, link))
    ensures ValidateRelativePath(link + "/" + file).Some?
    ensures SourceEntries("", LinkedTree(folder, file, link)) == Some(LinkedFolderEntries(folder, file, link))
  {
    PathOfTwo(link, file);
    FolderThenLeaf(folder, 493, Child(file, File(493, 1, 7)), Child(link, Link(511, folder)));
  }

  /** A directory of one file, and one more child after it. */
  lemma FolderThenLeaf(folder: string, mode: nat, held: Child, last: Child)
    requires PlainChild(folder) && PlainChild(held.name) && PlainChild(last.name) && folder != last.name
    requires !held.node.Directory? && !last.node.Directory?
    ensures FileSystem([Child(folder, Directory(mode, [held])), last])
    ensures SourceEntries("", [Child(folder, Directory(mode, [held])), last]) ==
      Some([Member(folder, Folder(mode % 512)), Member(folder + "/" + held.name, EntryOf(held.node)),
            Member(last.name, EntryOf(last.node))])
  {
    var first := Child(folder, Directory(mode, [held]));
    var m := Member(last.name, EntryOf(last.node));
    PlainName(last.name);
    PathAcceptedExactlyWhen(last.name);
    LeafEntry("", last.name, last.node, []);
    assert [last] + [] == [last] && [m] + [] == [m];
    FolderEntry(folder, mode, held, [last]);
    assert [first] + [last] == [first, last];
    TwoChildren(first, last);
    var own, inner := Member(folder, Folder(mode % 512)), Member(folder + "/" + held.name, EntryOf(held.node));
    assert [own, inner] + [m] == [own, inner, m];
  }

  lemma TwoChildren(first: Child, last: Child)
    requires PlainChild(first.name) && PlainChild(last.name) && first.name != last.name && !last.node.Directory?
    requires first.node.Directory? && FileSystem(first.node.children)
    ensures FileSystem([first, last])
  {
  }

  lemma PathOfTwo(a: string, b: string)
    requires PlainChild(a) && PlainChild(b)
    ensures ValidateRelativePath(a + "/" + b).Some? && Split(a + "/" + b) == [a, b]
  {
    SplitPiece(a);
    SplitPiece(b);
    SplitAtSlash(a, b);
    PathAcceptedExactlyWhen(a + "/" + b);
  }

  lemma LinkToSibling(link: string, folder: string)
    requires PlainChild(link) && PlainChild(folder)
    ensures ResolveLinkName(link, folder).Some?
  {
    SplitPiece(link);
    SplitPiece(folder);
    assert [folder][1..] == [];
    assert Walk([], [folder]) == Walk([] + [folder], []);
    LinkResolvesByWalk(link, folder);
  }

  /** The creator archives such a tree with its entrypoint named through the link, and the validators find no entry. */
  lemma LinkedFolderIsArchivedThenRefused(
    folder: string, file: string, link: string, hash: string, size: nat, digest: nat, reading: Reading, o: Options,
    m: Manifest)
    requires PlainChild(folder) && PlainChild(file) && PlainChild(link) && folder != link
    requires reading(digest) ==
      Some(ManifestOf(LinkedFolder(folder, file, link, hash), LinkedFolderEntries(folder, file, link)))
    ensures CreateArchive(LinkedFolder(folder, file, link, hash), size, digest).Some?
    ensures !Acceptable(CreateArchive(LinkedFolder(folder, file, link, hash), size, digest).value, reading, o, m)
  {
    var s := LinkedFolder(folder, file, link, hash);
    LinkedFolderHas(folder, file, link);
    LinkToSibling(link, folder);
    assert AllDescribable(LinkedFolderEntries(folder, file, link), s.inside);
    NameThroughLink(folder, file, link);
    RefusedForItsName(s, size, digest, reading, o, m);
  }

  lemma NameThroughLink(folder: string, file: string, link: string)
    requires PlainChild(folder) && PlainChild(file) && PlainChild(link) && folder != link
    ensures link + "/" + file != MANIFEST_NAME
    ensures forall i | 0 <= i < 3 :: LinkedFolderEntries(folder, file, link)[i].name != link + "/" + file
  {
    PathOfTwo(folder, file);
    PathOfTwo(link, file);
    WholeNameIsNotReserved(link, file);
    SplitPiece(folder);
    SplitPiece(link);
  }

  /** So the tree of a file `engine` of mode 0644, and one where `l` links to the directory `d` of a file `f`. */
  lemma SomePlainNames()
    ensures PlainChild("engine") && PlainChild("d") && PlainChild("f") && PlainChild("l") && !Executable(420)
  {
  }

  /** Every ancestor of what is in a created archive is there too, as a folder. */
  lemma AncestorsAreFolders(ms: seq<Member>, name: string, i: nat)
    requires Distinct(ms) && Preorder(ms, 0) && name in Table(ms) && 0 < i < |Split(name)|
    ensures Ancestor(name, i) in Table(ms) && Table(ms)[Ancestor(name, i)].Folder?
  {
    TableHolds(ms);
    var k: nat :| k < |ms| && ms[k].name == name;
    assert AncestorBefore(ms, k, i);
  }

  /** Nothing in a created archive lies below an entry that is not a folder. */
  lemma CreatedUnderFolders(ms: seq<Member>, name: string)
    requires Distinct(ms) && Preorder(ms, 0) && name in Table(ms)
    ensures UnderFolders(Table(ms), name)
  {
    forall i: nat | 0 < i < |Split(name)|
      ensures Ancestor(name, i) in Table(ms) && Table(ms)[Ancestor(name, i)].Folder?
    {
      AncestorsAreFolders(ms, name, i);
    }
  }

  /** A link fit for the strict validator: printable, and not to the root. */
  predicate StrictLink(m: Member) {
    m.entry.Symlink? ==>
      var resolved := ResolveLinkName(m.name, m.entry.target);
      Printable(m.entry.target) && resolved.Some? && BoundedPath(resolved.value).Some?
  }

  ghost predicate FitForStrict(ms: seq<Member>) {
    forall i | 0 <= i < |ms| :: Printable(ms[i].name) && StrictLink(ms[i])
  }

  ghost predicate LinksEnd(ms: seq<Member>) {
    forall i | 0 <= i < |ms| && ms[i].entry.Symlink? :: Ends(Table(ms), ms[i].name)
  }

  /**
   * The strict validator accepts a created archive exactly when, within its limits, all names and links satisfy
   * its path policy, every chain of links ends at a present entry, and the entrypoint's at an executable file.
   */
  lemma StrictRoundTrip(s: Source, size: nat, digest: nat, reading: Reading, p: Policy)
    requires FileSystem(s.children) && CreateArchive(s, size, digest).Some?
    requires reading(digest) == Some(ManifestOf(s, SourceEntries("", s.children).value))
    requires p.buildHash == s.buildHash && p.entrypoint == s.entrypoint
    ensures var ms := CreateArchive(s, size, digest).value;
      var manifest := ManifestOf(s, SourceEntries("", s.children).value);
      StrictlyAcceptable(ms, reading, p, manifest) <==>
        && |ms| <= p.maxFiles + 1 && TotalSize(ms) <= p.scratchBytes && size <= p.manifestBytes
        && HexDigest(s.buildHash) && |s.entrypoint| <= MAX_ENTRYPOINT && |ms| <= MAX_MANIFEST_FILES + 1
        && SmallFiles(ms[1..]) && FitForStrict(ms) && LinksEnd(ms) && EntrypointOk(Table(ms), s.entrypoint)
  {
    var entries := SourceEntries("", s.children).value;
    EntriesAreListable(s.children);
    WithManifestDistinct(size, digest, entries);
    ReadsBack(size, digest, entries, reading);
    var ms := WithManifest(size, digest, entries);
    StrictWithManifest(ms, entries, size, digest, s.inside, p);
    CreatedSound(ms);
    assert ms[1..] == entries;
    if FitForStrict(ms) {
      assert forall i | 0 <= i < |entries| :: ms[i + 1] == entries[i];
      CreatedWithinSchema(s, entries);
    }
  }

  /** No regular file is larger than the manifest's schema can say. */
  predicate SmallFiles(entries: seq<Member>) {
    forall i | 0 <= i < |entries| && entries[i].entry.Regular? :: entries[i].entry.size <= MAX_FILE_SIZE
  }

  /** What the schema asks beyond names and links that satisfy the path policy. */
  lemma CreatedWithinSchema(s: Source, entries: seq<Member>)
    requires Listable(entries) && AllDescribable(entries, s.inside) && FitForStrict(entries)
    requires ValidateRelativePath(s.entrypoint).Some?
    ensures WithinSchema(ManifestOf(s, entries)) <==>
      && HexDigest(s.buildHash) && |s.entrypoint| <= MAX_ENTRYPOINT && |entries| <= MAX_MANIFEST_FILES
      && SmallFiles(entries)
  {
    forall i | 0 <= i < |entries|
      ensures MetadataWithinSchema(Describe(entries[i])) <==>
        (entries[i].entry.Regular? ==> entries[i].entry.size <= MAX_FILE_SIZE)
    {
      EntryWithinSchema(entries[i], s.inside);
    }
    var files := ManifestOf(s, entries).files;
    assert forall i | 0 <= i < |entries| :: files[i] == Describe(entries[i]);
  }

  lemma EntryWithinSchema(m: Member, inside: string -> bool)
    requires EntryName(m.name) && SmallMode(m.entry) && Describable(m, inside) && Printable(m.name) && StrictLink(m)
    ensures MetadataWithinSchema(Describe(m)) <==> (m.entry.Regular? ==> m.entry.size <= MAX_FILE_SIZE)
  {
    ProperIsRelative(m.name);
  }

  lemma StrictEntry(m: Member, inside: string -> bool, p: Policy)
    requires EntryName(m.name) && SmallMode(m.entry) && Describable(m, inside)
    ensures StrictMemberOk(m, p) <==> Printable(m.name) && StrictLink(m)
  {
    BoundedAcceptsExactly(m.name);
  }

  lemma StrictManifest(m: Member, size: nat, digest: nat, p: Policy)
    requires m.name == MANIFEST_NAME && m.entry == Regular(420, size, digest)
    requires ProperName(m.name) && Printable(m.name)
    ensures StrictMemberOk(m, p) <==> size <= p.manifestBytes
  {
    BoundedAcceptsExactly(m.name);
  }

  lemma StrictMembers(m: Member, entries: seq<Member>, size: nat, inside: string -> bool, p: Policy)
    requires StrictMemberOk(m, p) <==> size <= p.manifestBytes
    requires Printable(m.name) && m.entry.Regular?
    requires Listable(entries) && AllDescribable(entries, inside)
    ensures AllStrict([m] + entries, p) <==> size <= p.manifestBytes && FitForStrict([m] + entries)
  {
    var ms := [m] + entries;
    assert StrictLink(ms[0]);
    forall i | 0 < i < |ms|
      ensures StrictMemberOk(ms[i], p) <==> Printable(ms[i].name) && StrictLink(ms[i])
    {
      assert ms[i] == entries[i - 1];
      StrictEntry(entries[i - 1], inside, p);
    }
  }

  lemma StrictWithManifest(
    ms: seq<Member>, entries: seq<Member>, size: nat, digest: nat, inside: string -> bool, p: Policy)
    requires ms == WithManifest(size, digest, entries)
    requires Listable(entries) && AllDescribable(entries, inside)
    ensures AllStrict(ms, p) <==> size <= p.manifestBytes && FitForStrict(ms)
  {
    StrictFirst(ms[0], size, digest, p);
    StrictMembers(ms[0], entries, size, inside, p);
    assert ms == [ms[0]] + entries;
  }

  lemma StrictFirst(m: Member, size: nat, digest: nat, p: Policy)
    requires m.name == MANIFEST_NAME && m.entry == Regular(420, size, digest)
    ensures (StrictMemberOk(m, p) <==> size <= p.manifestBytes) && Printable(m.name)
  {
    PlainName(MANIFEST_NAME);
    ManifestNameIsPrintable();
    StrictManifest(m, size, digest, p);
  }

  lemma ManifestNameIsPrintable()
    ensures Printable(MANIFEST_NAME)
  {
  }

  lemma CreatedSound(ms: seq<Member>)
    requires Distinct(ms) && Preorder(ms, 0)
    ensures Sound(Table(ms)) <==> LinksEnd(ms)
  {
    TableHolds(ms);
    if Sound(Table(ms)) {
      forall i | 0 <= i < |ms| && ms[i].entry.Symlink?
        ensures Ends(Table(ms), ms[i].name)
      {
        assert Placed(Table(ms), ms[i].name);
      }
    }
    if LinksEnd(ms) {
      forall name | name in Table(ms)
        ensures Placed(Table(ms), name)
      {
        var i :| 0 <= i < |ms| && ms[i].name == name;
        CreatedUnderFolders(ms, name);
      }
    }
  }
}
