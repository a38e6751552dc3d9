/** The authority journal on disk: its records, how it is read, and how one record is appended. */
module Journal {
  import opened Wrappers
  import opened Ordering

  const MAX_SEQUENCE := 4096
  const MAX_ENTRIES := 4224

  predicate IsDigest(s: string) {
    |s| == 64 && forall i | 0 <= i < |s| :: s[i] in "0123456789abcdef"
  }

  type Digest = s: string | IsDigest(s) witness seq(64, _ => '0')

  datatype Action = Initialize | Restore

  datatype Record = Record(
    id: nat,
    installation: nat,
    sequence: nat,
    previousDigest: Option<Digest>,
    incarnation: nat,
    previousIncarnation: Option<nat>,
    database: string,
    action: Action,
    reason: string,
    evidence: Option<string>,
    createdAt: int)

  /** The digest of a record's canonical text. */
  type Hash = Record -> Digest

  /** A final file: a record in canonical text, or anything else. */
  datatype File = Sound(record: Record) | Damaged

  /** The records directory: final files by the number in their name, temporary files, and names of neither form. */
  datatype Directory = Directory(files: map<nat, File>, pending: set<nat>, strange: set<string>)

  datatype JournalError = NeedsMaintenance | Rejected | Invalid | Exists

  // ---------------------------------------------------------------- records

  /** The field limits and `coherent_record`. */
  predicate Coherent(r: Record) {
    && 1 <= r.sequence <= MAX_SEQUENCE
    && 1 <= |r.database| <= 100 && 1 <= |r.reason| <= 500
    && (r.evidence.Some? ==> IsDigest(r.evidence.value))
    && (r.action.Restore? ==> r.evidence.Some?)
    && (r.sequence == 1 <==> r.previousDigest.None?)
    && (r.action.Initialize? ==> r.sequence == 1 && r.previousIncarnation.None?)
  }

  /** What `records` asks of a record and the one before it. */
  predicate Follows(h: Hash, previous: Record, next: Record) {
    Links(h, previous, next) && next.database == previous.database
  }

  predicate Links(h: Hash, previous: Record, next: Record) {
    && next.installation == previous.installation
    && next.previousDigest == Some(h(previous))
    && next.previousIncarnation == Some(previous.incarnation)
  }

  /** Numbered from 1, each linked to the one before, no incarnation twice; the database is not compared. */
  ghost predicate Chain(h: Hash, rs: seq<Record>) {
    && (forall i | 0 <= i < |rs| :: Coherent(rs[i]) && rs[i].sequence == i + 1)
    && (forall i | 0 < i < |rs| :: Links(h, rs[i - 1], rs[i]))
    && forall i, j | 0 <= i < j < |rs| :: rs[i].incarnation != rs[j].incarnation
  }

  ghost predicate OneDatabase(rs: seq<Record>) {
    forall i | 0 < i < |rs| :: rs[i].database == rs[i - 1].database
  }

  ghost predicate Accepted(h: Hash, rs: seq<Record>) {
    Chain(h, rs) && OneDatabase(rs)
  }

  /** The final files that hold exactly these records. */
  function Filed(rs: seq<Record>): map<nat, File> {
    map i | i in Numbers(|rs|) :: Sound(rs[i - 1])
  }

  function Numbers(n: nat): (s: set<nat>)
    ensures forall k :: k in s <==> 1 <= k <= n
  {
    if n == 0 then {} else Numbers(n - 1) + {n}
  }

  function Entries(d: Directory): nat {
    |d.files| + |d.pending| + |d.strange|
  }

  /** A directory `records` accepts: few enough entries, nothing strange, and the files of an accepted journal. */
  ghost predicate Readable(h: Hash, d: Directory) {
    Entries(d) <= MAX_ENTRIES && d.strange == {} && HoldsJournal(h, d.files)
  }

  ghost predicate HoldsJournal(h: Hash, files: map<nat, File>) {
    exists rs :: Accepted(h, rs) && files == Filed(rs)
  }

  // ---------------------------------------------------------------- appending

  datatype Request = Request(
    id: nat,
    installation: nat,
    incarnation: nat,
    previousIncarnation: Option<nat>,
    database: string,
    action: Action,
    reason: string,
    evidence: Option<string>,
    now: int)

  /** The record `append` writes after those it was shown. */
  function Next(h: Hash, view: seq<Record>, q: Request): Record {
    if view == [] then
      Record(q.id, q.installation, 1, None, q.incarnation, q.previousIncarnation, q.database, q.action, q.reason,
             q.evidence, q.now)
    else
      var last := view[|view| - 1];
      Record(q.id, last.installation, |view| + 1, Some(h(last)), q.incarnation, Some(last.incarnation), q.database,
             q.action, q.reason, q.evidence, q.now)
  }

  /** `append`, undisturbed: the new final file, unless the record is invalid or its number is taken. */
  function Appended(h: Hash, d: Directory, view: seq<Record>, q: Request): (Directory, Result<Record, JournalError>) {
    var record := Next(h, view, q);
    if !Coherent(record) then (d, Error(Invalid))
    else if record.sequence in d.files then (d, Error(Exists))
    else (d.(files := d.files[record.sequence := Sound(record)]), Ok(record))
  }

  // ---------------------------------------------------------------- the program

  class AuthorityStore {
    const h: Hash
    var directory: Directory

    constructor (h: Hash)
      ensures this.h == h && directory == Directory(map[], {}, {})
    {
      this.h := h;
      directory := Directory(map[], {}, {});
    }

    /** `records`: the files in the order of their names, each checked against the ones before. */
    method Records() returns (r: Result<seq<Record>, JournalError>)
      ensures r.Ok? <==> Readable(h, directory)
      ensures r.Ok? ==> Accepted(h, r.value) && directory.files == Filed(r.value)
      ensures r == Error(NeedsMaintenance) <==> Entries(directory) > MAX_ENTRIES
    {
      if Entries(directory) > MAX_ENTRIES {
        return Error(NeedsMaintenance);
      }
      if directory.strange != {} {
        return Error(Rejected);
      }
      var names := Sorted(directory.files.Keys);
      r := ReadFiles(names);
    }

    method ReadFiles(names: seq<nat>) returns (r: Result<seq<Record>, JournalError>)
      requires Ascends(names) && forall k :: k in names <==> k in directory.files
      ensures r.Ok? ==> Accepted(h, r.value) && directory.files == Filed(r.value)
      ensures r.Error? ==> r.error == Rejected && !HoldsJournal(h, directory.files)
    {
      var records: seq<Record> := [];
      var seen: set<nat> := {};
      for i := 0 to |names|
        invariant |records| == i && ReadWell(h, directory.files, names, records) && seen == Incarnations(records)
      {
        var next := ReadFile(names, records, seen);
        if next.None? {
          return Error(Rejected);
        }
        records, seen := records + [next.value], seen + {next.value.incarnation};
      }
      FiledIsAll(directory.files, names, records);
      return Ok(records);
    }

    /** The next file, or nothing when it does not fit, and then no journal is stored here. */
    method ReadFile(names: seq<nat>, records: seq<Record>, seen: set<nat>) returns (next: Option<Record>)
      requires Ascends(names) && forall k :: k in names <==> k in directory.files
      requires |records| < |names| && ReadWell(h, directory.files, names, records) && seen == Incarnations(records)
      ensures next.None? ==> !HoldsJournal(h, directory.files)
      ensures next.Some? ==>
        && ReadWell(h, directory.files, names, records + [next.value])
        && Incarnations(records + [next.value]) == seen + {next.value.incarnation}
    {
      var name := names[|records|];
      assert name in names;
      var file := directory.files[name];
      var fits := Fits(file, name, records, seen);
      if !fits {
        NothingPasses(h, directory.files, names, |records|, records);
        return None;
      }
      ReadsOn(h, directory.files, names, records);
      return Some(file.record);
    }

    /** The checks on one file. */
    method Fits(file: File, name: nat, records: seq<Record>, seen: set<nat>) returns (ok: bool)
      ensures ok <==> Extends(h, file, name, records, seen)
    {
      if file.Damaged? || !Coherent(file.record) {
        return false;
      }
      var record := file.record;
      if record.sequence != |records| + 1 || name != record.sequence {
        return false;
      }
      if records != [] {
        var previous := records[|records| - 1];
        if record.installation != previous.installation || record.previousDigest != Some(h(previous))
           || record.database != previous.database || record.previousIncarnation != Some(previous.incarnation) {
          return false;
        }
      }
      return record.incarnation !in seen;
    }

    /** `append`: write a temporary file, link it under its number, remove the temporary name either way. */
    method Append(view: seq<Record>, q: Request) returns (r: Result<Record, JournalError>)
      requires q.id !in directory.pending
      modifies this
      ensures (directory, r) == Appended(h, old(directory), view, q)
    {
      var record := Next(h, view, q);
      if !Coherent(record) {
        return Error(Invalid);
      }
      directory := directory.(pending := directory.pending + {record.id});
      if record.sequence in directory.files {
        r := Error(Exists);
      } else {
        directory := directory.(files := directory.files[record.sequence := Sound(record)]);
        r := Ok(record);
      }
      directory := directory.(pending := directory.pending - {record.id});
    }
  }

  predicate Extends(h: Hash, file: File, name: nat, records: seq<Record>, seen: set<nat>) {
    && file.Sound? && Coherent(file.record)
    && file.record.sequence == |records| + 1 == name
    && (records != [] ==> Follows(h, records[|records| - 1], file.record))
    && file.record.incarnation !in seen
  }

  function Incarnations(records: seq<Record>): set<nat> {
    set r | r in records :: r.incarnation
  }

  /** The first names are 1, 2, and so on, and their files hold these records. */
  ghost predicate ReadSoFar(files: map<nat, File>, names: seq<nat>, records: seq<Record>) {
    && |records| <= |names|
    && forall j | 0 <= j < |records| :: names[j] == j + 1 && j + 1 in files && files[j + 1] == Sound(records[j])
  }

  /** The files read make an accepted journal. */
  ghost predicate ReadWell(h: Hash, files: map<nat, File>, names: seq<nat>, records: seq<Record>) {
    Accepted(h, records) && ReadSoFar(files, names, records)
  }

  lemma ReadsOn(h: Hash, files: map<nat, File>, names: seq<nat>, records: seq<Record>)
    requires |records| < |names| && names[|records|] in files && ReadWell(h, files, names, records)
    requires Extends(h, files[names[|records|]], names[|records|], records, Incarnations(records))
    ensures var record := files[names[|records|]].record;
      && ReadWell(h, files, names, records + [record])
      && Incarnations(records + [record]) == Incarnations(records) + {record.incarnation}
  {
    var file := files[names[|records|]];
    ExtendsAccepted(h, file, names[|records|], records);
    ReadOneMore(files, names, records, file.record);
  }

  lemma ReadOneMore(files: map<nat, File>, names: seq<nat>, records: seq<Record>, record: Record)
    requires ReadSoFar(files, names, records) && |records| < |names|
    requires names[|records|] == |records| + 1 && |records| + 1 in files && files[|records| + 1] == Sound(record)
    ensures ReadSoFar(files, names, records + [record])
    ensures Incarnations(records + [record]) == Incarnations(records) + {record.incarnation}
  {
    assert record in records + [record];
    forall r | r in records
      ensures r in records + [record]
    {
    }
  }

  lemma NothingPasses(h: Hash, files: map<nat, File>, names: seq<nat>, i: nat, records: seq<Record>)
    requires Ascends(names) && (forall k :: k in names <==> k in files) && i < |names| && |records| == i
    requires ReadSoFar(files, names, records)
    requires names[i] in files && !Extends(h, files[names[i]], names[i], records, Incarnations(records))
    ensures !HoldsJournal(h, files)
  {
    forall rs: seq<Record> | Accepted(h, rs) && files == Filed(rs)
      ensures false
    {
      FilePasses(h, rs, names, i, records);
    }
  }

  lemma ExtendsAccepted(h: Hash, file: File, name: nat, records: seq<Record>)
    requires Accepted(h, records) && Extends(h, file, name, records, Incarnations(records))
    ensures Accepted(h, records + [file.record])
  {
    var rs := records + [file.record];
    forall i | 0 < i < |rs|
      ensures Links(h, rs[i - 1], rs[i]) && rs[i].database == rs[i - 1].database
    {
      if i < |records| {
        assert Links(h, records[i - 1], records[i]);
      }
    }
  }

  /** If the files are those of an accepted journal, the file being read passes. */
  lemma FilePasses(h: Hash, rs: seq<Record>, names: seq<nat>, i: nat, records: seq<Record>)
    requires Accepted(h, rs)
    requires Ascends(names) && (forall k :: k in names <==> k in Filed(rs)) && i < |names| && |records| == i
    requires ReadSoFar(Filed(rs), names, records)
    ensures names[i] in Filed(rs) && Extends(h, Filed(rs)[names[i]], names[i], records, Incarnations(records))
  {
    assert names[i] in names && names[i] in Filed(rs);
    AscendsFromOne(names, i);
    AscendingRange(names, |rs|, i);
    PrefixRead(rs, names, records);
    assert Filed(rs)[i + 1] == Sound(rs[i]);
    NotYetSeen(h, rs, i);
    assert i > 0 ==> Links(h, rs[i - 1], rs[i]) && rs[i].database == rs[i - 1].database;
  }

  lemma PrefixRead(rs: seq<Record>, names: seq<nat>, records: seq<Record>)
    requires ReadSoFar(Filed(rs), names, records) && |records| <= |rs|
    ensures records == rs[..|records|]
  {
    forall j | 0 <= j < |records|
      ensures records[j] == rs[j]
    {
      assert Filed(rs)[j + 1] == Sound(rs[j]);
    }
  }

  lemma NotYetSeen(h: Hash, rs: seq<Record>, i: nat)
    requires Chain(h, rs) && i < |rs|
    ensures rs[i].incarnation !in Incarnations(rs[..i])
  {
  }

  lemma FiledIsAll(files: map<nat, File>, names: seq<nat>, records: seq<Record>)
    requires forall k :: k in names <==> k in files
    requires |names| == |records| && ReadSoFar(files, names, records)
    ensures files == Filed(records)
  {
    forall k
      ensures k in files <==> k in Filed(records)
    {
      if 1 <= k <= |records| {
        assert names[k - 1] == k;
      }
    }
  }
}
