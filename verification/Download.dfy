/** The resumable transfer of one file: what an attempt leaves behind, and why honest attempts converge. */
module Download {
  import opened Wrappers
  import opened Bytes

  type Hash = Content -> string

  /** The destination and the partial file beside it. */
  datatype Files = Files(destination: Option<Content>, part: Option<Content>)

  /** What the manifest declares, and the largest transfer that is configured. */
  datatype Declared = Declared(size: int, digest: string, limit: nat)

  /** The server refuses, or sends chunks and then either ends the stream or breaks it off. */
  datatype Response = Refused | Stream(status: int, chunks: seq<Content>, broken: bool)

  /** What the server sends for a request from this offset on; offset 0 asks for the whole file. */
  type Server = nat -> Response

  datatype TransferError = TooLarge | NoSpace | Rejected | TooMuchData | Interrupted | SizeMismatch | DigestMismatch

  // ---------------------------------------------------------------- one attempt

  predicate Complete(h: Hash, d: Declared, content: Content) {
    |content| == d.size && h(content) == d.digest
  }

  /** The destination once a wrong one has been removed. */
  function KeptDestination(h: Hash, d: Declared, f: Files): Option<Content> {
    if f.destination.Some? && Complete(h, d, f.destination.value) then f.destination else None
  }

  /** The partial file an attempt resumes from: one of full or excessive size is removed first. */
  function KeptPart(d: Declared, f: Files): Option<Content> {
    if f.part.Some? && |f.part.value| >= d.size then None else f.part
  }

  function Offset(d: Declared, f: Files): nat {
    var part := KeptPart(d, f);
    if part.None? then 0 else |part.value|
  }

  /** The partial file after reading chunks, up to the end of the stream or to one that would overflow it. */
  function Received(part: Content, chunks: seq<Content>, size: int): (Content, bool)
    decreases |chunks|
  {
    if chunks == [] || chunks[0] == [] then (part, true)
    else if |part| + |chunks[0]| > size then (part, false)
    else Received(part + chunks[0], chunks[1..], size)
  }

  /** Whether the stream ends within these chunks; an empty chunk is the end. */
  predicate EndsWithin(chunks: seq<Content>) {
    exists i :: 0 <= i < |chunks| && chunks[i] == []
  }

  /** The attempt from the request on: `from` is what is kept of the partial file. */
  function Transfer(h: Hash, d: Declared, from: Option<Content>, r: Response): (Files, Option<TransferError>) {
    if r.Refused? then (Files(None, from), Some(Rejected))
    else
      var start := if from.Some? && from.value != [] && r.status == 206 then from.value else [];
      var (part, fits) := Received(start, r.chunks, d.size);
      if !fits then (Files(None, Some(part)), Some(TooMuchData))
      else if r.broken && !EndsWithin(r.chunks) then (Files(None, Some(part)), Some(Interrupted))
      else if |part| != d.size then (Files(None, Some(part)), Some(SizeMismatch))
      else if h(part) != d.digest then (Files(None, Some(part)), Some(DigestMismatch))
      else (Files(Some(part), None), None)
  }

  /** `download_remote_file`, with this much free space. */
  function Attempt(h: Hash, d: Declared, f: Files, free: nat, server: Server): (Files, Option<TransferError>) {
    if d.size < 0 || d.size > d.limit then (f, Some(TooLarge))
    else if KeptDestination(h, d, f).Some? then (f, None)
    else if f.part.Some? && Complete(h, d, f.part.value) then (Files(f.part, None), None)
    else if d.size - Offset(d, f) > free then (Files(None, KeptPart(d, f)), Some(NoSpace))
    else Transfer(h, d, KeptPart(d, f), server(Offset(d, f)))
  }

  // ---------------------------------------------------------------- safety of every attempt

  lemma {:induction false} ReceivedFits(part: Content, chunks: seq<Content>, size: int)
    requires |part| <= size
    ensures part <= Received(part, chunks, size).0
    ensures |Received(part, chunks, size).0| <= size
    decreases |chunks|
  {
    if chunks != [] && chunks[0] != [] && |part| + |chunks[0]| <= size {
      ReceivedFits(part + chunks[0], chunks[1..], size);
    }
  }

  /**
   * Whatever was left behind and whatever the server sends: success means that the destination has the declared
   * size and digest, a failed attempt leaves no destination at all, and no partial file ever exceeds the declared
   * size.
   */
  lemma AttemptIsSafe(h: Hash, d: Declared, f: Files, free: nat, server: Server)
    ensures !(0 <= d.size <= d.limit) ==> Attempt(h, d, f, free, server) == (f, Some(TooLarge))
    ensures 0 <= d.size <= d.limit ==>
      var (after, error) := Attempt(h, d, f, free, server);
      && (error.None? <==> after.destination.Some?)
      && (after.destination.Some? ==> Complete(h, d, after.destination.value))
      && (after.part.Some? && error.Some? ==> |after.part.value| <= d.size)
      && (error.None? && after.part.Some? ==> after == f)
  {
    var from := KeptPart(d, f);
    var r := server(Offset(d, f));
    if r.Stream? && 0 <= d.size {
      var start := if from.Some? && from.value != [] && r.status == 206 then from.value else [];
      ReceivedFits(start, r.chunks, d.size);
    }
  }

  // ---------------------------------------------------------------- honest attempts

  /** Nonempty chunks that make up `content`, and a stream that is not broken off. */
  ghost predicate Sends(r: Response, content: Content) {
    && r.Stream? && !r.broken && Concat(r.chunks) == content
    && forall i | 0 <= i < |r.chunks| :: r.chunks[i] != []
  }

  /** An honest server sends the rest of the file as a range, or the whole file, as it pleases. */
  ghost predicate Honest(server: Server, content: Content) {
    forall o: nat | o <= |content| ::
      Sends(server(o), if server(o).Stream? && server(o).status == 206 then content[o..] else content)
  }

  lemma {:induction false} ReceivedAll(part: Content, chunks: seq<Content>, size: int)
    requires forall i | 0 <= i < |chunks| :: chunks[i] != []
    requires |part| + |Concat(chunks)| <= size
    ensures Received(part, chunks, size) == (part + Concat(chunks), true)
    decreases |chunks|
  {
    if chunks == [] {
      assert part + Concat(chunks) == part;
    } else {
      ReceivedAll(part + chunks[0], chunks[1..], size);
      assert part + chunks[0] + Concat(chunks[1..]) == part + Concat(chunks);
    }
  }

  /** The server resumes an attempt from `f` with a range. */
  predicate Resumes(d: Declared, f: Files, server: Server) {
    var o := Offset(d, f);
    o > 0 && server(o).Stream? && server(o).status == 206
  }

  /** The leftover is completed by the range that is asked for. */
  predicate Continues(h: Hash, d: Declared, f: Files, content: Content) {
    var part := KeptPart(d, f);
    part.Some? && |part.value| <= |content| && h(part.value + content[|part.value|..]) == d.digest
  }

  /** The file is in place, or complete in the partial file: nothing needs to be asked for. */
  predicate AtHand(h: Hash, d: Declared, f: Files) {
    || (f.destination.Some? && Complete(h, d, f.destination.value))
    || (f.part.Some? && Complete(h, d, f.part.value))
  }

  /**
   * One honest attempt succeeds exactly when the file is at hand, or what is still missing fits on the disk and the
   * attempt need not resume, or resumes from a true beginning as far as the digest can tell. If it fails for space it
   * keeps what it would have resumed from, and otherwise it leaves a partial file of full size and nothing else.
   */
  lemma HonestAttempt(h: Hash, d: Declared, f: Files, free: nat, server: Server, content: Content)
    requires 0 <= d.size <= d.limit
    requires Complete(h, d, content) && Honest(server, content)
    ensures var (after, error) := Attempt(h, d, f, free, server);
      var fits := d.size - Offset(d, f) <= free;
      && (error.None? <==> AtHand(h, d, f) || (fits && (!Resumes(d, f, server) || Continues(h, d, f, content))))
      && (error.Some? && !fits ==> error == Some(NoSpace) && after == Files(None, KeptPart(d, f)))
      && (error.Some? && fits ==>
            error == Some(DigestMismatch) && after.destination.None?
            && after.part.Some? && |after.part.value| == d.size)
  {
    var o := Offset(d, f);
    assert o <= |content|;
    var r := server(o);
    assert Sends(r, if r.Stream? && r.status == 206 then content[o..] else content);
    assert content[0..] == content;
    NeverEnds(r.chunks);
    if Resumes(d, f, server) {
      ReceivedAll(KeptPart(d, f).value, r.chunks, d.size);
    } else {
      ReceivedAll([], r.chunks, d.size);
      assert [] + content == content;
    }
  }

  lemma NeverEnds(chunks: seq<Content>)
    requires forall i | 0 <= i < |chunks| :: chunks[i] != []
    ensures !EndsWithin(chunks)
  {
  }

  /**
   * Two consecutive honest attempts, the first with space for what is missing: the second ends in success, from
   * anything an earlier history has left, exactly if the first did or there is space for the whole file.
   */
  lemma TwoHonestAttemptsSucceed(
    h: Hash, d: Declared, f: Files, free: nat, first: Server, again: nat, second: Server, content: Content)
    requires 0 <= d.size <= d.limit && d.size - Offset(d, f) <= free
    requires Complete(h, d, content) && Honest(first, content) && Honest(second, content)
    ensures var (once, error) := Attempt(h, d, f, free, first);
      Attempt(h, d, once, again, second).1.None? <==> error.None? || d.size <= again
  {
    HonestAttempt(h, d, f, free, first, content);
    AttemptIsSafe(h, d, f, free, first);
    var once := Attempt(h, d, f, free, first).0;
    HonestAttempt(h, d, once, again, second, content);
  }

  /** A file that is in place stays in place, without another request. */
  lemma PlacedStaysPlaced(h: Hash, d: Declared, f: Files, free: nat, server: Server)
    requires 0 <= d.size <= d.limit && Attempt(h, d, f, free, server).1.None?
    ensures forall again: nat, other: Server ::
      Attempt(h, d, Attempt(h, d, f, free, server).0, again, other) == (Attempt(h, d, f, free, server).0, None)
  {
    AttemptIsSafe(h, d, f, free, server);
  }

  // ---------------------------------------------------------------- what a failed attempt keeps

  /** The chunks before the end of the stream: the first `k`, none of them empty. */
  ghost predicate Before(chunks: seq<Content>, k: nat) {
    && k <= |chunks| && (forall i | 0 <= i < k :: chunks[i] != [])
    && (k < |chunks| ==> chunks[k] == [])
  }

  /** The bytes that a response is added to: what is left from before, if there is something and it was asked for. */
  function Resumed(d: Declared, f: Files, server: Server): Content {
    if Resumes(d, f, server) then f.part.value else []
  }

  lemma {:induction false} ReceivedBefore(part: Content, chunks: seq<Content>, k: nat, size: int)
    requires Before(chunks, k) && |part| <= size
    ensures var all := part + Concat(chunks[..k]);
      var (got, fits) := Received(part, chunks, size);
      (fits <==> |all| <= size) && (fits ==> got == all) && part <= got <= all && |got| <= size
    decreases k
  {
    if k == 0 {
      assert part + Concat(chunks[..0]) == part;
    } else {
      var first, rest := chunks[0], chunks[1..];
      assert chunks[..k][1..] == rest[..k - 1];
      assert part + Concat(chunks[..k]) == part + first + Concat(rest[..k - 1]);
      if |part| + |first| <= size {
        ReceivedBefore(part + first, rest, k - 1, size);
      }
    }
  }

  /**
   * What an attempt that asks for a transfer leaves: a refusal keeps the partial file, a stream that is broken off
   * keeps all that arrived, one that is too long keeps a beginning of it, and one that ends keeps it all, in place of
   * the destination exactly if size and digest are right.
   */
  lemma TransferKeeps(h: Hash, d: Declared, f: Files, free: nat, server: Server, k: nat)
    requires 0 <= d.size <= d.limit && !AtHand(h, d, f) && d.size - Offset(d, f) <= free
    requires server(Offset(d, f)).Stream? ==> Before(server(Offset(d, f)).chunks, k)
    ensures var r, (after, error) := server(Offset(d, f)), Attempt(h, d, f, free, server);
      && (error.Some? ==> after.destination.None?)
      && (r.Refused? ==> error == Some(Rejected) && after.part == KeptPart(d, f))
      && (r.Stream? ==>
            var sent := Resumed(d, f, server) + Concat(r.chunks[..k]);
            && (|sent| > d.size ==>
                  && error == Some(TooMuchData) && after.part.Some?
                  && Resumed(d, f, server) <= after.part.value <= sent)
            && (|sent| <= d.size && r.broken && k == |r.chunks| ==>
                  error == Some(Interrupted) && after.part == Some(sent))
            && (|sent| <= d.size && !(r.broken && k == |r.chunks|) ==>
                  if |sent| < d.size then error == Some(SizeMismatch) && after.part == Some(sent)
                  else if h(sent) != d.digest then error == Some(DigestMismatch) && after.part == Some(sent)
                  else error.None? && after == Files(Some(sent), None)))
  {
    var r := server(Offset(d, f));
    if r.Stream? {
      ReceivedBefore(Resumed(d, f, server), r.chunks, k, d.size);
      assert EndsWithin(r.chunks) <==> k < |r.chunks|;
    }
  }

  /**
   * An interrupted attempt is resumed where it stopped: if what arrived is a beginning of the file, the next attempt
   * asks an honest server for the rest only, needs space for no more, and puts the file in place.
   */
  lemma InterruptedThenResumed(
    h: Hash, d: Declared, f: Files, free: nat, first: Server, again: nat, second: Server, content: Content)
    requires 0 <= d.size <= d.limit && !AtHand(h, d, f) && d.size - Offset(d, f) <= free
    requires first(Offset(d, f)).Stream? && first(Offset(d, f)).broken
    requires Before(first(Offset(d, f)).chunks, |first(Offset(d, f)).chunks|)
    requires Complete(h, d, content) && Honest(second, content)
    ensures var sent := Resumed(d, f, first) + Concat(first(Offset(d, f)).chunks);
      sent <= content && |sent| < d.size ==>
        var (once, error) := Attempt(h, d, f, free, first);
        && error == Some(Interrupted) && once == Files(None, Some(sent)) && Offset(d, once) == |sent|
        && Attempt(h, d, once, again, second)
             == if d.size - |sent| <= again then (Files(Some(content), None), None) else (once, Some(NoSpace))
  {
    var chunks := first(Offset(d, f)).chunks;
    var sent := Resumed(d, f, first) + Concat(chunks);
    assert chunks[..|chunks|] == chunks;
    TransferKeeps(h, d, f, free, first, |chunks|);
    if sent <= content && |sent| < d.size {
      RestCompletes(h, d, sent, again, second, content);
    }
  }

  /** A true beginning of the file is completed by an honest server. */
  lemma RestCompletes(h: Hash, d: Declared, sent: Content, free: nat, server: Server, content: Content)
    requires 0 <= d.size <= d.limit && sent <= content && |sent| < d.size
    requires Complete(h, d, content) && Honest(server, content)
    ensures Attempt(h, d, Files(None, Some(sent)), free, server)
         == if d.size - |sent| <= free then (Files(Some(content), None), None)
            else (Files(None, Some(sent)), Some(NoSpace))
  {
    var r, f := server(|sent|), Files(None, Some(sent));
    assert Sends(r, if r.Stream? && r.status == 206 then content[|sent|..] else content);
    NeverEnds(r.chunks);
    assert sent + content[|sent|..] == content && content[0..] == content;
    if d.size - |sent| <= free {
      assert r.chunks[..|r.chunks|] == r.chunks;
      TransferKeeps(h, d, f, free, server, |r.chunks|);
      assert Resumed(d, f, server) + Concat(r.chunks) == content;
    }
  }

  // ---------------------------------------------------------------- the program

  /** The destination path and its `.part` neighbour on disk. */
  class Target {
    var destination: Option<Content>
    var part: Option<Content>

    constructor (f: Files)
      ensures Contents() == f
    {
      destination, part := f.destination, f.part;
    }

    function Contents(): Files
      reads this
    {
      Files(destination, part)
    }

    method DownloadRemoteFile(h: Hash, d: Declared, free: nat, server: Server) returns (error: Option<TransferError>)
      modifies this
      ensures (Contents(), error) == Attempt(h, d, old(Contents()), free, server)
    {
      if d.size < 0 || d.size > d.limit {
        return Some(TooLarge);
      }
      if destination.Some? {
        if |destination.value| == d.size && h(destination.value) == d.digest {
          return None;
        }
        destination := None;
      }
      if part.Some? && |part.value| == d.size {
        if h(part.value) == d.digest {
          destination, part := part, None;
          return None;
        }
        part := None;
      } else if part.Some? && |part.value| > d.size {
        part := None;
      }
      var offset := if part.Some? then |part.value| else 0;
      if d.size - offset > free {
        return Some(NoSpace);
      }
      error := Receive(h, d, offset, server(offset));
    }

    /** The response written to the partial file, which takes the destination's place when it checks out. */
    method Receive(h: Hash, d: Declared, offset: nat, r: Response) returns (error: Option<TransferError>)
      requires offset == (if part.Some? then |part.value| else 0) && destination.None?
      modifies this
      ensures (Contents(), error) == Transfer(h, d, old(part), r)
    {
      if r.Refused? {
        return Some(Rejected);
      }
      var append := offset > 0 && r.status == 206;
      if !append {
        part := Some([]);
      }
      var i := 0;
      ghost var goal := Received(part.value, r.chunks, d.size);
      while i < |r.chunks| && r.chunks[i] != []
        invariant 0 <= i <= |r.chunks| && part.Some? && destination.None?
        invariant goal == Received(part.value, r.chunks[i..], d.size)
        invariant forall j | 0 <= j < i :: r.chunks[j] != []
      {
        var chunk := r.chunks[i];
        assert r.chunks[i..][0] == chunk && r.chunks[i..][1..] == r.chunks[i + 1..];
        if |part.value| + |chunk| > d.size {
          return Some(TooMuchData);
        }
        part := Some(part.value + chunk);
        i := i + 1;
      }
      assert i < |r.chunks| <==> EndsWithin(r.chunks);
      if r.broken && i == |r.chunks| {
        return Some(Interrupted);
      }
      if |part.value| != d.size {
        return Some(SizeMismatch);
      }
      if h(part.value) != d.digest {
        return Some(DigestMismatch);
      }
      destination, part := part, None;
      return None;
    }
  }
}
