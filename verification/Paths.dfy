/** Archive names: which relative paths are accepted, and where a link inside the archive leads. */
module Paths {
  import opened Wrappers

  // ---------------------------------------------------------------- pieces between slashes

  function Split(s: string): (pieces: seq<string>)
    ensures |pieces| >= 1
  {
    if s == "" then [""]
    else
      var rest := Split(s[1..]);
      if s[0] == '/' then [""] + rest else [[s[0]] + rest[0]] + rest[1..]
  }

  function Join(pieces: seq<string>): string {
    if pieces == [] then ""
    else if |pieces| == 1 then pieces[0]
    else pieces[0] + "/" + Join(pieces[1..])
  }

  predicate Whole(pieces: seq<string>) {
    forall i | 0 <= i < |pieces| :: '/' !in pieces[i]
  }

  lemma {:induction false} JoinOfSplit(s: string)
    ensures Join(Split(s)) == s && Whole(Split(s))
  {
    if s != "" {
      var rest := Split(s[1..]);
      JoinOfSplit(s[1..]);
      if s[0] == '/' {
        assert ([""] + rest)[1..] == rest;
      } else if |rest| > 1 {
        assert ([[s[0]] + rest[0]] + rest[1..])[1..] == rest[1..];
      }
    }
  }

  lemma {:induction false} SplitPiece(p: string)
    requires '/' !in p
    ensures Split(p) == [p]
  {
    if p != "" {
      assert p[0] in p && forall c | c in p[1..] :: c in p;
      SplitPiece(p[1..]);
      assert [p[0]] + p[1..] == p;
    }
  }

  lemma FirstPiece(c: char, a: seq<string>, b: seq<string>)
    requires a != []
    ensures [[c] + (a + b)[0]] + (a + b)[1..] == ([[c] + a[0]] + a[1..]) + b
    ensures [""] + (a + b) == ([""] + a) + b
  {
    assert (a + b)[1..] == a[1..] + b;
  }

  lemma {:induction false} SplitAtSlash(a: string, b: string)
    ensures Split(a + "/" + b) == Split(a) + Split(b)
  {
    var whole := a + "/" + b;
    if a == "" {
      assert whole == "/" + b && whole[1..] == b;
    } else {
      SplitAtSlash(a[1..], b);
      assert whole[0] == a[0] && whole[1..] == a[1..] + "/" + b;
      FirstPiece(a[0], Split(a[1..]), Split(b));
    }
  }

  lemma {:induction false} SplitOfJoin(pieces: seq<string>)
    requires pieces != [] && Whole(pieces)
    ensures Split(Join(pieces)) == pieces
  {
    SplitPiece(pieces[0]);
    if |pieces| > 1 {
      SplitOfJoin(pieces[1..]);
      SplitAtSlash(pieces[0], Join(pieces[1..]));
    }
  }

  /** No backslash. */
  predicate Clean(s: string) {
    '\\' !in s
  }

  lemma {:induction false} CleanJoin(pieces: seq<string>)
    ensures Clean(Join(pieces)) <==> forall i | 0 <= i < |pieces| :: Clean(pieces[i])
  {
    if |pieces| > 1 {
      CleanJoin(pieces[1..]);
      var s := pieces[0] + "/" + Join(pieces[1..]);
      assert Clean(s) <==> Clean(pieces[0]) && Clean(Join(pieces[1..]));
      assert forall i | 0 < i < |pieces| :: pieces[i] == pieces[1..][i - 1];
      assert forall i | 0 <= i < |pieces| - 1 :: pieces[1..][i] == pieces[i + 1];
    }
  }

  // ---------------------------------------------------------------- accepted names

  predicate Normal(piece: string) {
    piece != "" && piece != "." && piece != ".."
  }

  predicate AllNormal(pieces: seq<string>) {
    forall i | 0 <= i < |pieces| :: Normal(pieces[i])
  }

  /** The parts of a relative path: empty pieces and single dots fall away. */
  function Parts(pieces: seq<string>): seq<string> {
    if pieces == [] then []
    else (if pieces[0] == "" || pieces[0] == "." then [] else [pieces[0]]) + Parts(pieces[1..])
  }

  /** How a path of these parts is written. */
  function Written(parts: seq<string>): string {
    if parts == [] then "." else Join(parts)
  }

  /** `_validate_relative_path`: the name itself, if it is acceptable. */
  function ValidateRelativePath(value: string): Option<string> {
    if value == "" || value[0] == '/' || !Clean(value) then None
    else
      var parts := Parts(Split(value));
      if ".." in parts || Written(parts) != value then None else Some(value)
  }

  /** A name of an entry below the root. */
  predicate ProperName(value: string) {
    Clean(value) && AllNormal(Split(value))
  }

  lemma {:induction false} PartsOfNormal(pieces: seq<string>)
    requires AllNormal(pieces)
    ensures Parts(pieces) == pieces
  {
    if pieces != [] {
      PartsOfNormal(pieces[1..]);
    }
  }

  lemma {:induction false} PartsAreShorter(pieces: seq<string>)
    ensures |Parts(pieces)| <= |pieces|
    ensures |Parts(pieces)| == |pieces| ==> forall i | 0 <= i < |pieces| :: pieces[i] != "" && pieces[i] != "."
    ensures ".." in pieces ==> ".." in Parts(pieces)
    ensures forall i | 0 <= i < |Parts(pieces)| :: Parts(pieces)[i] in pieces
  {
    if pieces != [] {
      PartsAreShorter(pieces[1..]);
    }
  }

  /** A path rewritten as itself has no piece to lose. */
  lemma UnchangedIsNormal(value: string)
    requires value != "." && Written(Parts(Split(value))) == value && ".." !in Parts(Split(value))
    ensures value == "" || AllNormal(Split(value))
  {
    var pieces := Split(value);
    if Parts(pieces) != [] {
      JoinOfSplit(value);
      PartsAreShorter(pieces);
      SplitOfJoin(Parts(pieces));
      assert Parts(pieces) == pieces;
    }
  }

  /** A path is accepted exactly when it names an entry below the root, or is the root's own name, a single dot. */
  lemma PathAcceptedExactlyWhen(value: string)
    ensures ValidateRelativePath(value) == if ProperName(value) || value == "." then Some(value) else None
  {
    if ProperName(value) {
      JoinOfSplit(value);
      PartsOfNormal(Split(value));
      ProperIsRelative(value);
    } else if value == "." {
      SplitPiece(".");
    } else if Written(Parts(Split(value))) == value && ".." !in Parts(Split(value)) {
      UnchangedIsNormal(value);
    }
  }

  lemma ProperIsRelative(value: string)
    requires AllNormal(Split(value))
    ensures value != "" && value[0] != '/'
  {
    assert Normal(Split(value)[0]);
  }

  // ---------------------------------------------------------------- links

  /** `posixpath.dirname`, for an accepted name. */
  function Dirname(name: string): string {
    Join(Split(name)[..|Split(name)| - 1])
  }

  /** `posixpath.join`. */
  function PosixJoin(a: string, b: string): string {
    if b != "" && b[0] == '/' then b
    else if a == "" || a[|a| - 1] == '/' then a + b
    else a + "/" + b
  }

  /** The loop of `posixpath.normpath` on a relative path. */
  function Collapse(stack: seq<string>, pieces: seq<string>): seq<string>
    decreases |pieces|
  {
    if pieces == [] then stack
    else
      var piece := pieces[0];
      var next :=
        if piece == "" || piece == "." then stack
        else if piece != ".." || stack == [] || stack[|stack| - 1] == ".." then stack + [piece]
        else stack[..|stack| - 1];
      Collapse(next, pieces[1..])
  }

  /** `_resolve_link_name`. */
  function ResolveLinkName(name: string, target: string): Option<string> {
    if target == "" || target[0] == '/' || !Clean(target) then None
    else ValidateRelativePath(Written(Collapse([], Split(PosixJoin(Dirname(name), target)))))
  }

  /** The walk a link describes: down into a named directory, up on two dots, never above the root. */
  function Walk(stack: seq<string>, pieces: seq<string>): Option<seq<string>>
    decreases |pieces|
  {
    if pieces == [] then Some(stack)
    else if pieces[0] == "" || pieces[0] == "." then Walk(stack, pieces[1..])
    else if pieces[0] == ".." then
      if stack == [] then None else Walk(stack[..|stack| - 1], pieces[1..])
    else Walk(stack + [pieces[0]], pieces[1..])
  }

  function Climb(piece: string): int {
    if piece == "" || piece == "." then 0 else if piece == ".." then -1 else 1
  }

  function Depth(start: nat, pieces: seq<string>): int {
    if pieces == [] then start else Depth(start, pieces[..|pieces| - 1]) + Climb(pieces[|pieces| - 1])
  }

  lemma {:induction false} DepthFromFront(start: int, next: int, pieces: seq<string>, k: nat)
    requires 0 < k <= |pieces| && start >= 0 && next >= 0 && next == start + Climb(pieces[0])
    ensures Depth(start, pieces[..k]) == Depth(next, pieces[1..][..k - 1])
  {
    assert pieces[..k][..k - 1] == pieces[..k - 1];
    if k == 1 {
      assert pieces[..1][..0] == [];
      assert Depth(start, pieces[..1][..0]) == start;
    } else {
      assert pieces[1..][..k - 1][..k - 2] == pieces[1..][..k - 2];
      DepthFromFront(start, next, pieces, k - 1);
    }
  }

  /** The walk fails exactly when some stretch of it from the start climbs above the root. */
  lemma {:induction false} WalkFailsAboveRoot(stack: seq<string>, pieces: seq<string>)
    ensures Walk(stack, pieces).None? <==> exists k :: 0 <= k <= |pieces| && Depth(|stack|, pieces[..k]) < 0
    decreases |pieces|
  {
    if pieces == [] {
      assert forall k | 0 <= k <= |pieces| :: pieces[..k] == [];
    } else {
      var next := |stack| + Climb(pieces[0]);
      if next < 0 {
        assert pieces[..1][..0] == [] && pieces[..1][0] == pieces[0];
        assert Depth(|stack|, pieces[..1]) == next;
      } else {
        var onward := if Climb(pieces[0]) == 0 then stack
          else if Climb(pieces[0]) == 1 then stack + [pieces[0]] else stack[..|stack| - 1];
        WalkFailsAboveRoot(onward, pieces[1..]);
        forall k | 0 < k <= |pieces|
          ensures Depth(|stack|, pieces[..k]) == Depth(next, pieces[1..][..k - 1])
        {
          DepthFromFront(|stack|, next, pieces, k);
        }
        if k :| 0 <= k <= |pieces[1..]| && Depth(next, pieces[1..][..k]) < 0 {
          assert Depth(|stack|, pieces[..k + 1]) < 0;
        }
      }
    }
  }

  /** Once above the root the written path keeps its two dots. */
  lemma {:induction false} StaysAbove(stack: seq<string>, pieces: seq<string>)
    requires stack != [] && stack[0] == ".."
    ensures Collapse(stack, pieces) != [] && Collapse(stack, pieces)[0] == ".."
    decreases |pieces|
  {
    if pieces != [] {
      var piece := pieces[0];
      if piece == "" || piece == "." {
        StaysAbove(stack, pieces[1..]);
      } else if piece != ".." || stack[|stack| - 1] == ".." {
        StaysAbove(stack + [piece], pieces[1..]);
      } else {
        StaysAbove(stack[..|stack| - 1], pieces[1..]);
      }
    }
  }

  predicate WholeNormal(pieces: seq<string>) {
    forall i | 0 <= i < |pieces| :: Normal(pieces[i]) && '/' !in pieces[i] && Clean(pieces[i])
  }

  /** Normalising agrees with the walk, and shows where the walk fails. */
  lemma {:induction false} CollapseIsWalk(stack: seq<string>, pieces: seq<string>)
    requires WholeNormal(stack)
    requires forall i | 0 <= i < |pieces| :: '/' !in pieces[i] && Clean(pieces[i])
    ensures Walk(stack, pieces).Some? ==>
      Collapse(stack, pieces) == Walk(stack, pieces).value && WholeNormal(Collapse(stack, pieces))
    ensures Walk(stack, pieces).None? ==> Collapse(stack, pieces) != [] && Collapse(stack, pieces)[0] == ".."
    decreases |pieces|
  {
    if pieces != [] {
      var piece := pieces[0];
      if piece == "" || piece == "." {
        CollapseIsWalk(stack, pieces[1..]);
      } else if piece != ".." {
        CollapseIsWalk(stack + [piece], pieces[1..]);
      } else if stack == [] {
        assert stack + [piece] == [".."];
        StaysAbove([".."], pieces[1..]);
      } else {
        assert Normal(stack[|stack| - 1]);
        CollapseIsWalk(stack[..|stack| - 1], pieces[1..]);
      }
    }
  }

  lemma {:induction false} CollapseNormals(stack: seq<string>, dir: seq<string>, pieces: seq<string>)
    requires AllNormal(dir)
    ensures Collapse(stack, dir + pieces) == Collapse(stack + dir, pieces)
    decreases |dir|
  {
    if dir == [] {
      assert dir + pieces == pieces && stack + dir == stack;
    } else {
      assert (dir + pieces)[0] == dir[0] && Normal(dir[0]);
      assert (dir + pieces)[1..] == dir[1..] + pieces;
      assert stack + [dir[0]] + dir[1..] == stack + dir;
      CollapseNormals(stack + [dir[0]], dir[1..], pieces);
    }
  }

  function Parent(name: string): seq<string> {
    Split(name)[..|Split(name)| - 1]
  }

  /** The pieces of the joined path are those of the directory followed by those of the target. */
  lemma JoinedPieces(name: string, target: string)
    requires ProperName(name) && target != "" && target[0] != '/'
    ensures Split(PosixJoin(Dirname(name), target)) == Parent(name) + Split(target)
  {
    JoinOfSplit(name);
    var dir := Parent(name);
    if dir == [] {
      assert Dirname(name) == "" && "" + target == target;
    } else {
      assert Whole(dir);
      SplitOfJoin(dir);
      LastOfJoin(dir);
      SplitAtSlash(Join(dir), target);
    }
  }

  lemma {:induction false} LastOfJoin(pieces: seq<string>)
    requires pieces != [] && Whole(pieces) && AllNormal(pieces)
    ensures Join(pieces) != "" && Join(pieces)[|Join(pieces)| - 1] != '/'
  {
    assert Normal(pieces[0]);
    if |pieces| == 1 {
      assert pieces[0][|pieces[0]| - 1] in pieces[0];
    } else {
      LastOfJoin(pieces[1..]);
    }
  }

  lemma CleanPieces(s: string)
    requires Clean(s)
    ensures forall i | 0 <= i < |Split(s)| :: '/' !in Split(s)[i] && Clean(Split(s)[i])
  {
    JoinOfSplit(s);
    CleanJoin(Split(s));
  }

  /** A path written from proper pieces is accepted as it stands. */
  lemma WrittenIsAccepted(parts: seq<string>)
    requires WholeNormal(parts)
    ensures ValidateRelativePath(Written(parts)) == Some(Written(parts))
    ensures parts != [] ==> ProperName(Written(parts)) && Split(Written(parts)) == parts
  {
    PathAcceptedExactlyWhen(Written(parts));
    if parts != [] {
      SplitOfJoin(parts);
      CleanJoin(parts);
    }
  }

  lemma WrittenAboveIsRefused(parts: seq<string>)
    requires parts != [] && parts[0] == ".." && Whole(parts)
    ensures ValidateRelativePath(Written(parts)).None?
  {
    SplitOfJoin(parts);
    PathAcceptedExactlyWhen(Written(parts));
    assert !Normal(Split(Written(parts))[0]);
    SplitPiece(".");
  }

  /**
   * Where a link of a proper name leads: the name the walk ends at, the single dot when it ends at the root, and
   * nowhere exactly when the target is malformed or the walk climbs above the root.
   */
  lemma LinkResolvesByWalk(name: string, target: string)
    requires ProperName(name)
    ensures ResolveLinkName(name, target) ==
      if target == "" || target[0] == '/' || !Clean(target) || Walk(Parent(name), Split(target)).None? then None
      else Some(Written(Walk(Parent(name), Split(target)).value))
  {
    if target != "" && target[0] != '/' && Clean(target) {
      CleanPieces(name);
      CleanPieces(target);
      var dir, pieces := Parent(name), Split(target);
      JoinedPieces(name, target);
      CollapseNormals([], dir, pieces);
      assert [] + dir == dir;
      CollapseIsWalk(dir, pieces);
      if Walk(dir, pieces).Some? {
        WrittenIsAccepted(Collapse(dir, pieces));
      } else {
        CollapseIsWhole(dir, pieces);
        WrittenAboveIsRefused(Collapse(dir, pieces));
      }
    }
  }

  lemma {:induction false} CollapseIsWhole(stack: seq<string>, pieces: seq<string>)
    requires Whole(stack) && Whole(pieces)
    ensures Whole(Collapse(stack, pieces))
    decreases |pieces|
  {
    if pieces != [] {
      var piece := pieces[0];
      if piece == "" || piece == "." {
        CollapseIsWhole(stack, pieces[1..]);
      } else if piece != ".." || stack == [] || stack[|stack| - 1] == ".." {
        CollapseIsWhole(stack + [piece], pieces[1..]);
      } else {
        CollapseIsWhole(stack[..|stack| - 1], pieces[1..]);
      }
    }
  }

  // ---------------------------------------------------------------- the stricter policy

  const MAX_PATH := 4096

  predicate Printable(value: string) {
    |value| <= MAX_PATH && forall i | 0 <= i < |value| :: value[i] as int >= 32 && value[i] as int != 127
  }

  /** `bounded_path`. */
  function BoundedPath(value: string): Option<string> {
    if value == "." || value == ".." || !Printable(value) then None else ValidateRelativePath(value)
  }

  /** The policy accepts proper names only: the root's own name, accepted elsewhere, is refused here. */
  lemma BoundedAcceptsExactly(value: string)
    ensures BoundedPath(value).Some? <==> ProperName(value) && Printable(value)
    ensures BoundedPath(value).Some? ==> BoundedPath(value).value == value
  {
    PathAcceptedExactlyWhen(value);
    SplitPiece(".");
    SplitPiece("..");
  }

  /** A link passes the policy exactly when its walk stays below the root all along and does not end at the root. */
  lemma BoundedLinkPassesExactlyWhen(name: string, target: string)
    requires ProperName(name) && target != "" && target[0] != '/' && Clean(target)
    ensures var resolved := ResolveLinkName(name, target);
      resolved.Some? && BoundedPath(resolved.value).Some? <==>
        && (forall k | 0 <= k <= |Split(target)| :: Depth(|Parent(name)|, Split(target)[..k]) >= 0)
        && Walk(Parent(name), Split(target)) != Some([])
        && (var end := Walk(Parent(name), Split(target)); end.Some? ==> Printable(Written(end.value)))
  {
    LinkResolvesByWalk(name, target);
    WalkFailsAboveRoot(Parent(name), Split(target));
    var end := Walk(Parent(name), Split(target));
    if end.Some? {
      CleanPieces(name);
      CleanPieces(target);
      CollapseIsWalk(Parent(name), Split(target));
      WrittenIsAccepted(end.value);
      BoundedAcceptsExactly(Written(end.value));
      SplitPiece(".");
    }
  }
}
