/** Engine archives as sequences of members, and the two validators that admit them. */
module Archive {
  import opened Wrappers
  import opened Paths
  import Chains
  import opened LinkGraph

  const ARTIFACT_FORMAT := "cope-tar-gzip-v1"
  const ARTIFACT_PLATFORM := "linux-x86_64"
  const MANIFEST_NAME := ".cope-manifest.json"
  const MARKER_NAME := ".cope-artifact"

  datatype Member = Member(name: string, entry: Entry)

  datatype Metadata =
    | FileData(path: string, mode: nat, size: nat, digest: nat)
    | FolderData(path: string, mode: nat)
    | LinkData(path: string, mode: nat, target: string)

  datatype Manifest = Manifest(
    format: string, platform: string, buildHash: string, entrypoint: string, files: seq<Metadata>)

  /** What the contents behind a digest say when read as a manifest, if they are one. */
  type Reading = nat -> Option<Manifest>

  /** `_member_metadata`, for a member that is not special. */
  function Describe(m: Member): Metadata {
    match m.entry
    case Regular(mode, size, digest) => FileData(m.name, mode % 512, size, digest)
    case Symlink(mode, target) => LinkData(m.name, mode % 512, target)
    case Folder(mode) => FolderData(m.name, mode % 512)
    case Special => FolderData(m.name, 0)
  }

  /** The metadata of every member but the manifest, in order. */
  function Observed(ms: seq<Member>): seq<Metadata> {
    if ms == [] then []
    else
      Observed(ms[..|ms| - 1])
      + if ms[|ms| - 1].name == MANIFEST_NAME then [] else [Describe(ms[|ms| - 1])]
  }

  function SizeOf(m: Member): nat {
    if m.entry.Regular? then m.entry.size else 0
  }

  function TotalSize(ms: seq<Member>): nat {
    if ms == [] then 0 else TotalSize(ms[..|ms| - 1]) + SizeOf(ms[|ms| - 1])
  }

  ghost predicate Distinct(ms: seq<Member>) {
    DistinctTo(ms, |ms|)
  }

  ghost predicate DistinctTo(ms: seq<Member>, n: nat)
    requires n <= |ms|
  {
    forall i, j | 0 <= i < j < n :: ms[i].name != ms[j].name
  }

  /** The members by name; a later one would replace an earlier one of its name. */
  function Table(ms: seq<Member>): Members {
    if ms == [] then map[] else Table(ms[..|ms| - 1])[ms[|ms| - 1].name := ms[|ms| - 1].entry]
  }

  lemma {:induction false} TableHolds(ms: seq<Member>)
    requires Distinct(ms)
    ensures forall i | 0 <= i < |ms| :: ms[i].name in Table(ms) && Table(ms)[ms[i].name] == ms[i].entry
    ensures forall name | name in Table(ms) :: exists i :: 0 <= i < |ms| && ms[i].name == name
  {
    if ms != [] {
      TableHolds(ms[..|ms| - 1]);
    }
  }

  lemma {:induction false} SizeGrows(ms: seq<Member>, n: nat)
    requires n <= |ms|
    ensures TotalSize(ms[..n]) <= TotalSize(ms)
  {
    if n == |ms| {
      assert ms[..n] == ms;
    } else {
      assert ms[..|ms| - 1][..n] == ms[..n];
      SizeGrows(ms[..|ms| - 1], n);
    }
  }

  // ---------------------------------------------------------------- reading the members

  lemma OneMore(ms: seq<Member>, i: nat)
    requires i < |ms|
    ensures Table(ms[..i + 1]) == Table(ms[..i])[ms[i].name := ms[i].entry]
    ensures TotalSize(ms[..i + 1]) == TotalSize(ms[..i]) + SizeOf(ms[i])
    ensures TotalSize(ms[..i + 1]) <= TotalSize(ms)
  {
    assert ms[..i + 1][..i] == ms[..i] && ms[..i + 1][i] == ms[i];
    SizeGrows(ms, i + 1);
  }

  /** A name is in the table exactly when it has been given. */
  lemma {:induction false} GivenBefore(ms: seq<Member>, i: nat, name: string)
    requires i <= |ms|
    ensures name in Table(ms[..i]) <==> exists j :: 0 <= j < i && ms[j].name == name
  {
    if i > 0 {
      OneMore(ms, i - 1);
      GivenBefore(ms, i - 1, name);
    }
  }

  /** Whether the next name is new. */
  lemma NextIsNew(ms: seq<Member>, i: nat)
    requires i < |ms| && DistinctTo(ms, i)
    ensures if ms[i].name in Table(ms[..i]) then !Distinct(ms) else DistinctTo(ms, i + 1)
  {
    GivenBefore(ms, i, ms[i].name);
  }

  /** The pass over the members: each one checked, named once, and the files within the size limit. */
  method ReadMembers(ms: seq<Member>, ok: Member -> bool, maxBytes: nat) returns (byName: Option<Members>)
    ensures byName.Some? <==>
      (forall i | 0 <= i < |ms| :: ok(ms[i])) && Distinct(ms) && TotalSize(ms) <= maxBytes
    ensures byName.Some? ==> byName.value == Table(ms)
  {
    var table: Members := map[];
    var declared := 0;
    for i := 0 to |ms|
      invariant table == Table(ms[..i]) && declared == TotalSize(ms[..i]) <= maxBytes
      invariant DistinctTo(ms, i) && forall j | 0 <= j < i :: ok(ms[j])
    {
      var member := ms[i];
      if !ok(member) {
        return None;
      }
      OneMore(ms, i);
      NextIsNew(ms, i);
      if member.name in table {
        return None;
      }
      declared := declared + SizeOf(member);
      if declared > maxBytes {
        return None;
      }
      table := table[member.name := member.entry];
    }
    assert ms[..|ms|] == ms;
    return Some(table);
  }

  method NamesOf(ms: seq<Member>) returns (names: seq<string>)
    requires Distinct(ms)
    ensures forall name :: name in names <==> name in Table(ms)
  {
    names := [];
    for i := 0 to |ms|
      invariant |names| == i && forall j | 0 <= j < i :: names[j] == ms[j].name
    {
      names := names + [ms[i].name];
    }
    TableHolds(ms);
  }

  // ---------------------------------------------------------------- the validator of the workers

  datatype Options = Options(
    maxFiles: nat, maxBytes: nat, expectedBuild: Option<string>, expectedEntrypoint: Option<string>)

  predicate MemberOk(m: Member) {
    && ValidateRelativePath(m.name).Some? && m.name != MARKER_NAME && !m.entry.Special?
    && (m.entry.Symlink? ==> ResolveLinkName(m.name, m.entry.target).Some?)
  }

  predicate AllMembersOk(ms: seq<Member>) {
    forall i | 0 <= i < |ms| :: MemberOk(ms[i])
  }

  predicate ManifestOk(m: Manifest, o: Options) {
    && m.format == ARTIFACT_FORMAT && m.platform == ARTIFACT_PLATFORM && |m.buildHash| == 64
    && (o.expectedBuild.Some? ==> m.buildHash == o.expectedBuild.value)
    && ValidateRelativePath(m.entrypoint).Some?
    && (o.expectedEntrypoint.Some? ==> m.entrypoint == o.expectedEntrypoint.value)
  }

  /** The manifest member's contents, if it is a regular file that reads as a manifest. */
  function ManifestIn(members: Members, reading: Reading): Option<Manifest> {
    if MANIFEST_NAME in members && members[MANIFEST_NAME].Regular? then reading(members[MANIFEST_NAME].digest)
    else None
  }

  /** What `validate_artifact_archive` accepts, and the manifest it returns. */
  ghost predicate Acceptable(ms: seq<Member>, reading: Reading, o: Options, m: Manifest) {
    && 0 < |ms| <= o.maxFiles + 1
    && AllMembersOk(ms)
    && Distinct(ms)
    && TotalSize(ms) <= o.maxBytes
    && ManifestIn(Table(ms), reading) == Some(m)
    && ManifestOk(m, o)
    && Observed(ms) == m.files
    && EntrypointOk(Table(ms), m.entrypoint)
  }

  /** `validate_artifact_archive`. */
  method ValidateArtifactArchive(ms: seq<Member>, reading: Reading, o: Options) returns (r: Option<Manifest>)
    ensures r.Some? ==> Acceptable(ms, reading, o, r.value)
    ensures r.None? ==> forall m :: !Acceptable(ms, reading, o, m)
  {
    if ms == [] || |ms| > o.maxFiles + 1 {
      return None;
    }
    var byName := ReadMembers(ms, m => MemberOk(m), o.maxBytes);
    if byName.None? {
      return None;
    }
    var manifest := ManifestIn(byName.value, reading);
    if manifest.None? || !ManifestOk(manifest.value, o) {
      return None;
    }
    var actual := ObserveMembers(ms);
    if actual != manifest.value.files {
      return None;
    }
    var ok := ValidateEntrypoint(byName.value, manifest.value.entrypoint);
    return if ok then manifest else None;
  }

  method ObserveMembers(ms: seq<Member>) returns (actual: seq<Metadata>)
    ensures actual == Observed(ms)
  {
    actual := [];
    for i := 0 to |ms|
      invariant actual == Observed(ms[..i])
    {
      assert ms[..i + 1][..i] == ms[..i];
      if ms[i].name != MANIFEST_NAME {
        actual := actual + [Describe(ms[i])];
      }
    }
    assert ms[..|ms|] == ms;
  }

  // ---------------------------------------------------------------- the strict validator

  datatype Policy = Policy(
    maxFiles: nat, scratchBytes: nat, manifestBytes: nat, buildHash: string, entrypoint: string)

  predicate StrictMemberOk(m: Member, p: Policy) {
    && BoundedPath(m.name).Some? && m.name != MARKER_NAME
    && (match m.entry
        case Special => false
        case Regular(mode, size, _) => mode < 512 && (m.name == MANIFEST_NAME ==> size <= p.manifestBytes)
        case Folder(mode) => mode < 512 && m.name != MANIFEST_NAME
        case Symlink(mode, target) =>
          var resolved := ResolveLinkName(m.name, target);
          && mode < 512 && m.name != MANIFEST_NAME
          && resolved.Some? && BoundedPath(resolved.value).Some? && Printable(target))
  }

  predicate AllStrict(ms: seq<Member>, p: Policy) {
    forall i | 0 <= i < |ms| :: StrictMemberOk(ms[i], p)
  }

  const MAX_MANIFEST_FILES := 20000
  const MAX_ENTRYPOINT := 256
  const MAX_FILE_SIZE := 4294967296

  predicate HexDigest(value: string) {
    |value| == 64 && forall i | 0 <= i < 64 :: '0' <= value[i] <= '9' || 'a' <= value[i] <= 'f'
  }

  predicate ShortText(value: string) {
    1 <= |value| <= MAX_PATH
  }

  /** The fields of one manifest entry; a digest always has the form asked for. */
  predicate MetadataWithinSchema(d: Metadata) {
    && ShortText(d.path) && d.mode < 512
    && (d.FileData? ==> d.size <= MAX_FILE_SIZE)
    && (d.LinkData? ==> ShortText(d.target))
  }

  /** `EngineManifest`: what the schema asks of the manifest before anything is compared. */
  predicate WithinSchema(m: Manifest) {
    && m.format == ARTIFACT_FORMAT && m.platform == ARTIFACT_PLATFORM && HexDigest(m.buildHash)
    && 1 <= |m.entrypoint| <= MAX_ENTRYPOINT && |m.files| <= MAX_MANIFEST_FILES
    && forall i | 0 <= i < |m.files| :: MetadataWithinSchema(m.files[i])
  }

  predicate AdmittedManifest(m: Manifest, p: Policy) {
    WithinSchema(m) && m.buildHash == p.buildHash && m.entrypoint == p.entrypoint
  }

  /** What `validate_archive` accepts. */
  ghost predicate StrictlyAcceptable(ms: seq<Member>, reading: Reading, p: Policy, m: Manifest) {
    && |ms| <= p.maxFiles + 1
    && AllStrict(ms, p)
    && Distinct(ms)
    && TotalSize(ms) <= p.scratchBytes
    && ManifestIn(Table(ms), reading) == Some(m)
    && AdmittedManifest(m, p)
    && Observed(ms) == m.files
    && Sound(Table(ms))
    && EntrypointOk(Table(ms), p.entrypoint)
  }

  /** `validate_archive`, on the members its reader delivers. */
  method ValidateArchive(ms: seq<Member>, reading: Reading, p: Policy) returns (r: Option<Manifest>)
    ensures r.Some? ==> StrictlyAcceptable(ms, reading, p, r.value)
    ensures r.None? ==> forall m :: !StrictlyAcceptable(ms, reading, p, m)
  {
    if |ms| > p.maxFiles + 1 {
      return None;
    }
    var members := ReadMembers(ms, m => StrictMemberOk(m, p), p.scratchBytes);
    if members.None? {
      return None;
    }
    var manifest := ManifestIn(members.value, reading);
    if manifest.None? || !AdmittedManifest(manifest.value, p) {
      return None;
    }
    var actual := ObserveMembers(ms);
    if manifest.value.files != actual {
      return None;
    }
    var names := NamesOf(ms);
    var sound := CheckGraph(members.value, names);
    if !sound {
      return None;
    }
    var ok := ValidateEntrypoint(members.value, p.entrypoint);
    return if ok then manifest else None;
  }

  // ---------------------------------------------------------------- what acceptance means

  /** What either validator has made sure of: the format and platform, the build and entrypoint asked for, no marker. */
  lemma AcceptedMeans(ms: seq<Member>, reading: Reading, o: Options, p: Policy, m: Manifest)
    requires Acceptable(ms, reading, o, m) || StrictlyAcceptable(ms, reading, p, m)
    ensures m.format == "cope-tar-gzip-v1" && m.platform == "linux-x86_64" && |m.buildHash| == 64
    ensures !StrictlyAcceptable(ms, reading, p, m) ==>
              && (o.expectedBuild.Some? ==> m.buildHash == o.expectedBuild.value)
              && (o.expectedEntrypoint.Some? ==> m.entrypoint == o.expectedEntrypoint.value)
              && (m.entrypoint == "." || ProperName(m.entrypoint))
    ensures !Acceptable(ms, reading, o, m) ==> m.buildHash == p.buildHash && m.entrypoint == p.entrypoint
    ensures forall i | 0 <= i < |ms| :: ms[i].name != ".cope-artifact" && !ms[i].entry.Special?
  {
    PathAcceptedExactlyWhen(m.entrypoint);
    assert StrictlyAcceptable(ms, reading, p, m) ==> forall i | 0 <= i < |ms| :: StrictMemberOk(ms[i], p);
  }

  /**
   * Everything the strict validator accepts has proper names, whole chains of links, and nothing below an entry
   * that is not a folder; and the other validator accepts it too.
   */
  lemma StrictIsStricter(ms: seq<Member>, reading: Reading, p: Policy, o: Options, m: Manifest)
    requires StrictlyAcceptable(ms, reading, p, m)
    requires o.maxFiles >= p.maxFiles && o.maxBytes >= p.scratchBytes
    requires o.expectedBuild in {None, Some(p.buildHash)} && o.expectedEntrypoint in {None, Some(p.entrypoint)}
    ensures Acceptable(ms, reading, o, m)
    ensures forall i | 0 <= i < |ms| :: ProperName(ms[i].name) && UnderFolders(Table(ms), ms[i].name)
    ensures forall i | 0 <= i < |ms| && ms[i].entry.Symlink? :: Ends(Table(ms), ms[i].name)
  {
    TableHolds(ms);
    forall i | 0 <= i < |ms|
      ensures MemberOk(ms[i]) && ProperName(ms[i].name)
    {
      StrictMemberIsOk(ms[i], p);
    }
    forall i | 0 <= i < |ms|
      ensures Placed(Table(ms), ms[i].name)
    {
      assert ms[i].name in Table(ms);
    }
    assert ms == [] ==> Table(ms) == map[];
    EntrypointIsListed(Table(ms), p.entrypoint);
    PathAcceptedExactlyWhen(p.entrypoint);
  }

  lemma StrictMemberIsOk(m: Member, p: Policy)
    requires StrictMemberOk(m, p)
    ensures MemberOk(m) && ProperName(m.name)
  {
    BoundedAcceptsExactly(m.name);
  }

  /** An entrypoint whose chain ends is itself among the members. */
  lemma EntrypointIsListed(members: Members, entrypoint: string)
    requires EntrypointOk(members, entrypoint)
    ensures entrypoint in members
  {
    var end :| EndsAt(members, entrypoint, end);
    var k: nat :| Chains.Follow(HopsOf(members), entrypoint, k) == Some(end);
    if k > 0 {
      Chains.LinksUpTo(HopsOf(members), entrypoint, k, 0);
    }
  }

  /**
   * Where the two disagree on a link whose own name and target satisfy both: the strict one alone refuses it, exactly
   * if it leads to the root, whose single dot the other's path check lets through, or to a name past the limits.
   */
  lemma OnlyStrictlyRefusedLinks(m: Member, p: Policy)
    requires m.entry.Symlink? && m.entry.mode < 512 && Printable(m.entry.target)
    requires ProperName(m.name) && Printable(m.name) && m.name !in {MANIFEST_NAME, MARKER_NAME}
    ensures var target := m.entry.target;
      MemberOk(m) && !StrictMemberOk(m, p) <==>
        && target != "" && target[0] != '/' && Clean(target)
        && (var end := Walk(Parent(m.name), Split(target));
            end.Some? && (end.value == [] || !Printable(Written(end.value))))
  {
    var target := m.entry.target;
    PathAcceptedExactlyWhen(m.name);
    BoundedAcceptsExactly(m.name);
    LinkResolvesByWalk(m.name, target);
    if target != "" && target[0] != '/' && Clean(target) && Walk(Parent(m.name), Split(target)).Some? {
      BoundedLinkPassesExactlyWhen(m.name, target);
      WalkFailsAboveRoot(Parent(m.name), Split(target));
    }
  }

  /** Such links exist: one beside the root's entries whose target is a single dot. */
  lemma RootLinkIsOnlyStrictlyRefused(name: string)
    requires ProperName(name) && |Split(name)| == 1
    ensures ResolveLinkName(name, ".") == Some(".") && BoundedPath(".").None?
  {
    SplitPiece(".");
    assert Walk(Parent(name), ["."]) == Walk(Parent(name), []) by {
      assert ["."][1..] == [];
    }
    LinkResolvesByWalk(name, ".");
  }

  // ---------------------------------------------------------------- the contents are bound

  /** The members besides the manifest, in order. */
  function Contents(ms: seq<Member>): seq<Member> {
    if ms == [] then []
    else
      Contents(ms[..|ms| - 1]) + if ms[|ms| - 1].name == ".cope-manifest.json" then [] else [ms[|ms| - 1]]
  }

  /** A member as a manifest lists it: by name, kind and permissions, a file by its contents, a link by its target. */
  predicate Lists(d: Metadata, m: Member) {
    && d.path == m.name
    && match m.entry
       case Regular(mode, size, digest) => d.FileData? && d.mode == mode % 512 && d.size == size && d.digest == digest
       case Symlink(mode, target) => d.LinkData? && d.mode == mode % 512 && d.target == target
       case Folder(mode) => d.FolderData? && d.mode == mode % 512
       case Special => false
  }

  /** Two members that no manifest can tell apart: only bits above the permissions may differ. */
  predicate Alike(m: Member, n: Member) {
    && m.name == n.name
    && match (m.entry, n.entry)
       case (Regular(mode, size, digest), Regular(mode', size', digest')) =>
         mode % 512 == mode' % 512 && size == size' && digest == digest'
       case (Symlink(mode, target), Symlink(mode', target')) => mode % 512 == mode' % 512 && target == target'
       case (Folder(mode), Folder(mode')) => mode % 512 == mode' % 512
       case _ => false
  }

  ghost predicate AllAlike(ms: seq<Member>, ns: seq<Member>) {
    |ms| == |ns| && forall i | 0 <= i < |ms| :: Alike(ms[i], ns[i])
  }

  ghost predicate ListsAll(files: seq<Metadata>, ms: seq<Member>) {
    |files| == |ms| && forall i | 0 <= i < |ms| :: Lists(files[i], ms[i])
  }

  ghost predicate NoneSpecial(ms: seq<Member>) {
    forall i | 0 <= i < |ms| :: !ms[i].entry.Special?
  }

  /** What is observed of an archive is a list of its contents, and no other list is. */
  lemma {:induction false} ObservedLists(ms: seq<Member>, files: seq<Metadata>)
    requires NoneSpecial(ms)
    ensures files == Observed(ms) <==> ListsAll(files, Contents(ms))
  {
    if ms != [] {
      var rest, last := ms[..|ms| - 1], ms[|ms| - 1];
      if last.name == ".cope-manifest.json" {
        ObservedLists(rest, files);
      } else {
        ObservedLists(rest, Observed(rest));
        assert Lists(Describe(last), last);
        if files != [] {
          var n := |files| - 1;
          ObservedLists(rest, files[..n]);
          assert files == files[..n] + [files[n]];
        }
      }
    }
  }

  lemma AcceptedLists(ms: seq<Member>, reading: Reading, o: Options, m: Manifest)
    requires Acceptable(ms, reading, o, m)
    ensures ListsAll(m.files, Contents(ms))
  {
    ObservedLists(ms, m.files);
  }

  lemma StrictlyAcceptedLists(ms: seq<Member>, reading: Reading, p: Policy, m: Manifest)
    requires StrictlyAcceptable(ms, reading, p, m)
    ensures ListsAll(m.files, Contents(ms))
  {
    assert NoneSpecial(ms) by {
      assert forall i | 0 <= i < |ms| :: StrictMemberOk(ms[i], p);
    }
    ObservedLists(ms, m.files);
  }

  lemma ListedBesideName(files: seq<Metadata>, ms: seq<Member>, i: nat)
    requires ListsAll(files, Contents(ms))
    requires i < |ms| && ms[i].entry.Regular? && ms[i].name != ".cope-manifest.json"
    ensures FileData(ms[i].name, ms[i].entry.mode % 512, ms[i].entry.size, ms[i].entry.digest) in files
  {
    ContentsHold(ms, i);
    var k :| 0 <= k < |Contents(ms)| && Contents(ms)[k] == ms[i];
    assert Lists(files[k], ms[i]);
  }

  /** An accepted archive holds exactly what its manifest lists, in that order. */
  lemma AcceptedIsListed(ms: seq<Member>, reading: Reading, o: Options, p: Policy, m: Manifest)
    requires Acceptable(ms, reading, o, m) || StrictlyAcceptable(ms, reading, p, m)
    ensures ListsAll(m.files, Contents(ms))
  {
    if Acceptable(ms, reading, o, m) {
      AcceptedLists(ms, reading, o, m);
    } else {
      StrictlyAcceptedLists(ms, reading, p, m);
    }
  }

  /** And every file but the manifest is listed there with its digest. */
  lemma DigestsAreListed(ms: seq<Member>, reading: Reading, o: Options, p: Policy, m: Manifest)
    requires Acceptable(ms, reading, o, m) || StrictlyAcceptable(ms, reading, p, m)
    ensures forall i | 0 <= i < |ms| && ms[i].entry.Regular? && ms[i].name != ".cope-manifest.json" ::
              FileData(ms[i].name, ms[i].entry.mode % 512, ms[i].entry.size, ms[i].entry.digest) in m.files
  {
    AcceptedIsListed(ms, reading, o, p, m);
    FilesAreListed(m.files, ms);
  }

  lemma FilesAreListed(files: seq<Metadata>, ms: seq<Member>)
    requires ListsAll(files, Contents(ms))
    ensures forall i | 0 <= i < |ms| && ms[i].entry.Regular? && ms[i].name != ".cope-manifest.json" ::
              FileData(ms[i].name, ms[i].entry.mode % 512, ms[i].entry.size, ms[i].entry.digest) in files
  {
    forall i | 0 <= i < |ms| && ms[i].entry.Regular? && ms[i].name != ".cope-manifest.json"
      ensures FileData(ms[i].name, ms[i].entry.mode % 512, ms[i].entry.size, ms[i].entry.digest) in files
    {
      ListedBesideName(files, ms, i);
    }
  }

  lemma {:induction false} ContentsHold(ms: seq<Member>, i: nat)
    requires i < |ms| && ms[i].name != ".cope-manifest.json"
    ensures ms[i] in Contents(ms)
  {
    if i < |ms| - 1 {
      ContentsHold(ms[..|ms| - 1], i);
    }
  }

  /** Two archives accepted with one manifest, by either validator, have the same contents. */
  lemma ManifestFixesContents(
      ms: seq<Member>, ns: seq<Member>, reading: Reading, reading': Reading, o: Options, o': Options, p: Policy,
      p': Policy, m: Manifest)
    requires Acceptable(ms, reading, o, m) || StrictlyAcceptable(ms, reading, p, m)
    requires Acceptable(ns, reading', o', m) || StrictlyAcceptable(ns, reading', p', m)
    ensures AllAlike(Contents(ms), Contents(ns))
  {
    AcceptedIsListed(ms, reading, o, p, m);
    AcceptedIsListed(ns, reading', o', p', m);
    ListedAlike(m.files, Contents(ms), Contents(ns));
  }

  lemma ListedAlike(files: seq<Metadata>, ms: seq<Member>, ns: seq<Member>)
    requires ListsAll(files, ms)
    ensures ListsAll(files, ns) <==> AllAlike(ms, ns)
  {
    forall i | 0 <= i < |ms| && i < |ns|
      ensures Lists(files[i], ns[i]) <==> Alike(ms[i], ns[i])
    {
      assert Lists(files[i], ms[i]);
    }
  }

  /** And an archive whose members pass one by one is accepted in place of an accepted one exactly if it has them. */
  lemma AcceptedInsteadExactlyWhen(
      ms: seq<Member>, ns: seq<Member>, reading: Reading, o: Options, m: Manifest)
    requires Acceptable(ms, reading, o, m)
    requires 0 < |ns| <= o.maxFiles + 1 && AllMembersOk(ns) && Distinct(ns) && TotalSize(ns) <= o.maxBytes
    requires ManifestIn(Table(ns), reading) == Some(m) && EntrypointOk(Table(ns), m.entrypoint)
    ensures Acceptable(ns, reading, o, m) <==> AllAlike(Contents(ms), Contents(ns))
  {
    AcceptedLists(ms, reading, o, m);
    ListedAlike(m.files, Contents(ms), Contents(ns));
    assert NoneSpecial(ns);
    ObservedLists(ns, m.files);
  }
}
