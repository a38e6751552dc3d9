/** Importing one dataset: rows read from a bounded stream and inserted in batches, all or nothing. */
module CloneImport {
  import opened Wrappers
  import opened Bytes
  import opened CloneRows

  /** A row from its line: nothing when the line is blank, is no JSON object, or lacks a valid serial identity. */
  type Parser = Content -> Option<Row>

  datatype Dataset = Dataset(
    serial: bool, expectedRows: nat, expectedBytes: nat, expectedMax: Option<nat>, rowLimit: nat, batch: nat)

  // ---------------------------------------------------------------- lines

  /** `readline(limit)`: up to and with the first newline, at most `limit` bytes. */
  function ReadLine(s: Content, limit: nat): (line: Content)
    ensures |line| <= |s| && |line| <= limit
  {
    if s == [] || limit == 0 then []
    else if s[0] == NEWLINE then [s[0]]
    else [s[0]] + ReadLine(s[1..], limit - 1)
  }

  predicate Terminated(line: Content) {
    line != [] && line[|line| - 1] == NEWLINE
  }

  /** The rows of a stream, if it is made of whole lines within the limit that all parse. */
  function Rows(s: Content, limit: nat, parse: Parser): Option<seq<Row>>
    decreases |s|
  {
    if s == [] then Some([])
    else
      var line := ReadLine(s, |s|);
      if !Terminated(line) || |line| > limit || parse(line).None? then None
      else
        var rest := Rows(s[|line|..], limit, parse);
        if rest.None? then None else Some([parse(line).value] + rest.value)
  }

  lemma {:induction false} ReadLineFacts(s: Content, n: nat)
    ensures var line := ReadLine(s, n);
      && line <= s && |line| <= n
      && (forall i | 0 <= i < |line| - 1 :: line[i] != NEWLINE)
      && (|line| < n && !Terminated(line) ==> line == s)
      && (n > 0 && s != [] ==> line != [])
  {
    if s != [] && n > 0 && s[0] != NEWLINE {
      ReadLineFacts(s[1..], n - 1);
      OneByteMore(s[0], ReadLine(s[1..], n - 1), s[1..]);
      assert s == [s[0]] + s[1..];
    }
  }

  lemma OneByteMore(b: Byte, line: Content, rest: Content)
    requires b != NEWLINE && line <= rest && forall i | 0 <= i < |line| - 1 :: line[i] != NEWLINE
    ensures [b] + line <= [b] + rest && forall i | 0 <= i < |line| :: ([b] + line)[i] != NEWLINE
    ensures Terminated([b] + line) <==> Terminated(line)
  {
    assert forall i | 0 < i <= |line| :: ([b] + line)[i] == line[i - 1];
  }

  /** A bounded read is the whole line when that fits, and otherwise stops within it. */
  lemma {:induction false} BoundedRead(s: Content, n: nat)
    requires n <= |s|
    ensures ReadLine(s, n) == if |ReadLine(s, |s|)| <= n then ReadLine(s, |s|) else ReadLine(s, |s|)[..n]
  {
    if s != [] && n > 0 && s[0] != NEWLINE {
      BoundedRead(s[1..], n - 1);
      assert |s[1..]| == |s| - 1;
    }
  }

  lemma {:induction false} LongRead(s: Content, n: nat)
    requires n >= |s|
    ensures ReadLine(s, n) == ReadLine(s, |s|)
  {
    if s != [] && s[0] != NEWLINE {
      LongRead(s[1..], n - 1);
    }
  }

  /** A line: newline-terminated, with no newline inside. */
  predicate IsLine(line: Content) {
    line != [] && line[|line| - 1] == 10 && forall i | 0 <= i < |line| - 1 :: line[i] != 10
  }

  predicate LineOk(line: Content, limit: nat, parse: Parser, row: Row) {
    IsLine(line) && |line| <= limit && parse(line) == Some(row)
  }

  ghost predicate MadeOf(s: Content, lines: seq<Content>, limit: nat, parse: Parser, rows: seq<Row>) {
    && Concat(lines) == s && |lines| == |rows|
    && forall i | 0 <= i < |lines| :: LineOk(lines[i], limit, parse, rows[i])
  }

  lemma {:induction false} FirstLineOf(line: Content, rest: Content)
    requires IsLine(line)
    ensures ReadLine(line + rest, |line + rest|) == line
  {
    if |line| > 1 {
      assert line[0] != NEWLINE;
      assert IsLine(line[1..]);
      FirstLineOf(line[1..], rest);
      assert (line + rest)[1..] == line[1..] + rest;
      assert [line[0]] + line[1..] == line;
    }
  }

  /** The reader accepts exactly the streams that are made of whole lines, each within the limit and each a row. */
  lemma {:induction false} RowsAreTheLines(s: Content, limit: nat, parse: Parser, rows: seq<Row>)
    ensures Rows(s, limit, parse) == Some(rows) <==> exists lines :: MadeOf(s, lines, limit, parse, rows)
    decreases |s|
  {
    if Rows(s, limit, parse) == Some(rows) {
      if s == [] {
        assert MadeOf(s, [], limit, parse, rows);
      } else {
        var line := ReadLine(s, |s|);
        ReadLineFacts(s, |s|);
        RowsAreTheLines(s[|line|..], limit, parse, rows[1..]);
        var lines :| MadeOf(s[|line|..], lines, limit, parse, rows[1..]);
        assert line + s[|line|..] == s;
        assert ([line] + lines)[1..] == lines;
        assert MadeOf(s, [line] + lines, limit, parse, rows);
      }
    }
    forall lines | MadeOf(s, lines, limit, parse, rows)
      ensures Rows(s, limit, parse) == Some(rows)
    {
      if lines != [] {
        assert LineOk(lines[0], limit, parse, rows[0]);
        FirstLineOf(lines[0], Concat(lines[1..]));
        assert s[|lines[0]|..] == Concat(lines[1..]);
        assert MadeOf(s[|lines[0]|..], lines[1..], limit, parse, rows[1..]);
        RowsAreTheLines(s[|lines[0]|..], limit, parse, rows[1..]);
        assert [rows[0]] + rows[1..] == rows;
      }
    }
  }

  // ---------------------------------------------------------------- the import

  function MaxId(rows: seq<Row>): Option<nat> {
    if rows == [] then None
    else
      var before := MaxId(rows[..|rows| - 1]);
      var id := rows[|rows| - 1].facts.id;
      if before.None? then Some(id) else Some(Max(before.value, id))
  }

  lemma {:induction false} MaxIdBounds(rows: seq<Row>)
    ensures MaxId(rows).Some? <==> rows != []
    ensures MaxId(rows).Some? ==> forall i | 0 <= i < |rows| :: rows[i].facts.id <= MaxId(rows).value
  {
    if rows != [] {
      MaxIdBounds(rows[..|rows| - 1]);
    }
  }

  /** `import_clone_dataset`: the table it commits, or nothing when it rolls back. */
  function Imported(
    t: Table, s: Content, d: Dataset, parse: Parser, unique: Uniqueness, retained: set<nat>): Option<Table>
    requires d.batch > 0
  {
    var rows := Rows(s, d.rowLimit, parse);
    if rows.None? || |s| != d.expectedBytes || |rows.value| != d.expectedRows then None
    else if d.serial && MaxId(rows.value) != d.expectedMax then None
    else ImportRows(t, rows.value, d.batch, unique, retained)
  }

  function SequenceAfter(t: Table, sequence: nat, d: Dataset): nat {
    if d.serial then Reserved(t, sequence, d.expectedMax) else sequence
  }

  /**
   * What success means: the stream was made of exactly the declared rows and bytes, every one of them is now present
   * and equal, no earlier row changed, and no number drawn later from the sequence is one of the table's.
   */
  lemma ImportedMeans(
    t: Table, sequence: nat, s: Content, d: Dataset, parse: Parser, unique: Uniqueness, retained: set<nat>)
    requires d.batch > 0 && Imported(t, s, d, parse, unique, retained).Some?
    ensures var after := Imported(t, s, d, parse, unique, retained).value;
      && |s| == d.expectedBytes
      && Within(t, after)
      && (exists lines, rows :: MadeOf(s, lines, d.rowLimit, parse, rows)
            && |rows| == d.expectedRows && AllPresent(after, rows))
      && (d.serial && d.expectedMax.Some? ==> forall k | k in after :: k <= SequenceAfter(t, sequence, d))
      && (!d.serial ==> SequenceAfter(t, sequence, d) == sequence)
  {
    var rows := Rows(s, d.rowLimit, parse).value;
    RowsAreTheLines(s, d.rowLimit, parse, rows);
    ImportExactly(t, rows, d.batch, unique, retained);
    InsertAllKeeps(t, rows, unique);
    MaxIdBounds(rows);
    if d.serial && d.expectedMax.Some? {
      ReservedIsAbove(t, sequence, d.expectedMax.value, rows, unique);
    }
  }

  /** Importing the same stream again succeeds and changes nothing. */
  lemma ImportIsIdempotent(
    t: Table, s: Content, d: Dataset, parse: Parser, unique: Uniqueness, retained: set<nat>, again: set<nat>)
    requires d.batch > 0 && Imported(t, s, d, parse, unique, retained).Some?
    ensures var after := Imported(t, s, d, parse, unique, retained).value;
      Imported(after, s, d, parse, unique, again) == Some(after)
  {
    SecondImportInsertsNothing(t, Rows(s, d.rowLimit, parse).value, d.batch, unique, retained, again);
  }

  // ---------------------------------------------------------------- steps of the loop

  /** The rows read so far stand before those of the rest. */
  ghost predicate Reading(s: Content, read: seq<Row>, rest: Content, limit: nat, parse: Parser) {
    var later := Rows(rest, limit, parse);
    Rows(s, limit, parse) == if later.None? then None else Some(read + later.value)
  }

  lemma ReadOne(s: Content, read: seq<Row>, rest: Content, n: nat, limit: nat, parse: Parser)
    requires Reading(s, read, rest, limit, parse) && rest != [] && 0 < n <= limit + 1
    ensures var line := ReadLine(rest, n);
      && line <= rest && line != [] && |line| <= n
      && (|line| < n ==>
            if !Terminated(line) || parse(line).None? then Rows(s, limit, parse).None?
            else Reading(s, read + [parse(line).value], rest[|line|..], limit, parse))
      && (|line| > limit ==> Rows(s, limit, parse).None?)
  {
    var line, whole := ReadLine(rest, n), ReadLine(rest, |rest|);
    ReadLineFacts(rest, n);
    ReadLineFacts(rest, |rest|);
    if n <= |rest| {
      BoundedRead(rest, n);
    } else {
      LongRead(rest, n);
    }
    if |line| < n {
      SameLine(rest, line, whole, n);
      var later := Rows(rest[|line|..], limit, parse);
      if Terminated(line) && |line| <= limit && parse(line).Some? && later.Some? {
        assert read + ([parse(line).value] + later.value) == read + [parse(line).value] + later.value;
      }
    }
  }

  lemma SameLine(rest: Content, line: Content, whole: Content, n: nat)
    requires rest != [] && n > 0 && line == ReadLine(rest, n) && whole == ReadLine(rest, |rest|)
    requires |line| < n
    ensures line == whole
  {
    ReadLineFacts(rest, n);
    ReadLineFacts(rest, |rest|);
    if n <= |rest| {
      BoundedRead(rest, n);
    } else {
      LongRead(rest, n);
    }
  }

  /** The rows inserted so far, with the batch still waiting, account for what the whole import will do. */
  ghost predicate Inserting(
    t: Table, read: seq<Row>, now: Table, batch: seq<Row>, size: nat, unique: Uniqueness, retained: set<nat>)
    requires size > 0
  {
    forall tail: seq<Row> ::
      ImportRows(t, read + tail, size, unique, retained) == ImportRows(now, batch + tail, size, unique, retained)
  }

  lemma AddToBatch(
    t: Table, read: seq<Row>, now: Table, batch: seq<Row>, row: Row, size: nat, unique: Uniqueness, retained: set<nat>)
    requires size > 0 && Inserting(t, read, now, batch, size, unique, retained)
    ensures Inserting(t, read + [row], now, batch + [row], size, unique, retained)
  {
    forall tail: seq<Row>
      ensures ImportRows(t, read + [row] + tail, size, unique, retained)
           == ImportRows(now, batch + [row] + tail, size, unique, retained)
    {
      assert read + [row] + tail == read + ([row] + tail) && batch + [row] + tail == batch + ([row] + tail);
    }
  }

  lemma FlushBatch(
    t: Table, read: seq<Row>, now: Table, batch: seq<Row>, size: nat, unique: Uniqueness, retained: set<nat>)
    requires size > 0 && |batch| == size && Inserting(t, read, now, batch, size, unique, retained)
    ensures var after := InsertBatch(now, batch, unique, retained);
      if after.None? then forall tail: seq<Row> :: ImportRows(t, read + tail, size, unique, retained).None?
      else Inserting(t, read, after.value, [], size, unique, retained)
  {
    forall tail: seq<Row>
      ensures var after := InsertBatch(now, batch, unique, retained);
        ImportRows(t, read + tail, size, unique, retained) ==
          if after.None? then None else ImportRows(after.value, [] + tail, size, unique, retained)
    {
      assert (batch + tail)[..size] == batch && (batch + tail)[size..] == tail && [] + tail == tail;
    }
  }

  lemma LastBatch(
    t: Table, read: seq<Row>, now: Table, batch: seq<Row>, size: nat, unique: Uniqueness, retained: set<nat>)
    requires size > 0 && |batch| < size && Inserting(t, read, now, batch, size, unique, retained)
    ensures ImportRows(t, read, size, unique, retained) ==
      if batch == [] then Some(now) else InsertBatch(now, batch, unique, retained)
  {
    var tail: seq<Row> := [];
    assert ImportRows(t, read + tail, size, unique, retained) == ImportRows(now, batch + tail, size, unique, retained);
    assert read + tail == read && batch + tail == batch;
    OneBatch(now, batch, size, unique, retained);
  }

  lemma OneBatch(t: Table, batch: seq<Row>, size: nat, unique: Uniqueness, retained: set<nat>)
    requires |batch| < size
    ensures ImportRows(t, batch, size, unique, retained) ==
      if batch == [] then Some(t) else InsertBatch(t, batch, unique, retained)
  {
    if batch != [] {
      assert batch[..|batch|] == batch && batch[|batch|..] == [];
    }
  }

  // ---------------------------------------------------------------- the program

  /** The destination table with its sequence. */
  class Destination {
    var table: Table
    var sequence: nat

    constructor (table: Table, sequence: nat)
      ensures this.table == table && this.sequence == sequence
    {
      this.table, this.sequence := table, sequence;
    }

    /** `reserve_clone_sequence`, committed on its own. */
    method ReserveCloneSequence(sourceMax: Option<nat>)
      modifies this`sequence
      ensures sequence == Reserved(table, old(sequence), sourceMax)
    {
      if sourceMax.None? {
        return;
      }
      sequence := sequence + 1;
      var floor := Max(Max(Max(Highest(table), 1), sequence), sourceMax.value);
      sequence := floor;
    }

    /** `insert_clone_batch`: how many rows were new, or nothing when it raises; the caller then rolls back. */
    method InsertCloneBatch(rows: seq<Row>, unique: Uniqueness, retained: set<nat>) returns (added: Option<nat>)
      modifies this`table
      ensures added.None? <==> InsertBatch(old(table), rows, unique, retained).None?
      ensures added.Some? ==>
        && Some(table) == InsertBatch(old(table), rows, unique, retained)
        && added.value == |table| - |old(table)| <= |rows|
    {
      if rows == [] {
        return Some(0);
      }
      if !SameColumns(rows) || !NoneReserved(table, rows, retained) {
        return None;
      }
      InsertedCount(table, rows, unique);
      var inserted := 0;
      for i := 0 to |rows|
        invariant InsertAll(old(table), rows, unique) == InsertAll(table, rows[i..], unique)
        invariant inserted == |table| - |old(table)| && 0 <= inserted <= i
      {
        assert rows[i..][0] == rows[i] && rows[i..][1..] == rows[i + 1..];
        if !Taken(table, rows[i], unique) {
          table := table[rows[i].facts.id := rows[i]];
          inserted := inserted + 1;
        }
      }
      if inserted == |rows| {
        return Some(inserted);
      }
      for i := 0 to |rows|
        invariant forall j | 0 <= j < i :: Present(table, rows[j])
      {
        if !Present(table, rows[i]) {
          return None;
        }
      }
      return Some(inserted);
    }

    /** `import_clone_dataset`: inserted and skipped rows, or nothing after a rollback. */
    method ImportCloneDataset(s: Content, d: Dataset, parse: Parser, unique: Uniqueness, retained: set<nat>)
      returns (r: Option<(nat, nat)>)
      requires d.batch > 0
      modifies this
      ensures sequence == SequenceAfter(old(table), old(sequence), d)
      ensures r.None? <==> Imported(old(table), s, d, parse, unique, retained).None?
      ensures r.None? ==> table == old(table)
      ensures r.Some? ==> Imported(old(table), s, d, parse, unique, retained) == Some(table)
      ensures r.Some? ==>
        r.value.0 == |table| - |old(table)| && r.value.0 + r.value.1 == d.expectedRows
    {
      if d.serial {
        ReserveCloneSequence(d.expectedMax);
      }
      var saved := table;
      r := ReadAndInsert(s, d, parse, unique, retained);
      if r.None? {
        table := saved;
      }
    }

    /** The loop over the stream; what it leaves behind on an error is rolled back by its caller. */
    method ReadAndInsert(s: Content, d: Dataset, parse: Parser, unique: Uniqueness, retained: set<nat>)
      returns (r: Option<(nat, nat)>)
      requires d.batch > 0
      modifies this`table
      ensures r.None? <==> Imported(old(table), s, d, parse, unique, retained).None?
      ensures r.Some? ==> Imported(old(table), s, d, parse, unique, retained) == Some(table)
      ensures r.Some? ==>
        r.value.0 == |table| - |old(table)| && r.value.0 + r.value.1 == d.expectedRows
    {
      ghost var before := table;
      ghost var read: seq<Row> := [];
      var rest, processedBytes, seenRows := s, 0, 0;
      var batch: seq<Row>, inserted, skipped, maxId := [], 0, 0, None;
      Start(before, s, d, parse, unique, retained);
      while true
        invariant Reading(s, read, rest, d.rowLimit, parse) && |s| == processedBytes + |rest|
        invariant Inserting(before, read, table, batch, d.batch, unique, retained) && |batch| < d.batch
        invariant seenRows == |read| <= d.expectedRows && maxId == MaxId(read)
        invariant 0 <= inserted == |table| - |before| && inserted + skipped == seenRows - |batch| && skipped >= 0
        decreases |rest|
      {
        var remaining := if d.expectedBytes > processedBytes then d.expectedBytes - processedBytes else 0;
        var line := ReadLine(rest, (if d.rowLimit < remaining then d.rowLimit else remaining) + 1);
        if line == [] {
          break;
        }
        var row := TakeRow(s, read, rest, line, remaining, d, parse);
        if row.None? {
          TakeFails(before, s, processedBytes, rest, line, remaining, d, parse, unique, retained);
          return None;
        }
        rest, processedBytes, seenRows := rest[|line|..], processedBytes + |line|, seenRows + 1;
        AddToBatch(before, read, table, batch, row.value, d.batch, unique, retained);
        MaxIdAppend(read, row.value);
        read, batch := read + [row.value], batch + [row.value];
        if seenRows > d.expectedRows {
          TooManyRows(before, s, read, rest, d, parse, unique, retained);
          return None;
        }
        maxId := Some(if maxId.None? then row.value.facts.id else Max(maxId.value, row.value.facts.id));
        if |batch| >= d.batch {
          Flushed(before, s, read, rest, table, batch, d, parse, unique, retained);
          var added := InsertCloneBatch(batch, unique, retained);
          if added.None? {
            return None;
          }
          inserted, skipped := inserted + added.value, skipped + (|batch| - added.value);
          batch := [];
        }
      }
      ReadLineFacts(rest, 1);
      Verdict(before, s, read, table, batch, d, parse, unique, retained);
      if processedBytes != d.expectedBytes || seenRows != d.expectedRows {
        return None;
      }
      if d.serial && maxId != d.expectedMax {
        return None;
      }
      if batch != [] {
        var added := InsertCloneBatch(batch, unique, retained);
        if added.None? {
          return None;
        }
        inserted, skipped := inserted + added.value, skipped + (|batch| - added.value);
      }
      return Some((inserted, skipped));
    }
  }

  /** The checks on one line that was read: the row it holds, or nothing when one of them fails. */
  method TakeRow(
    ghost s: Content, ghost read: seq<Row>, ghost rest: Content, line: Content, remaining: nat, d: Dataset,
    parse: Parser)
    returns (row: Option<Row>)
    requires Reading(s, read, rest, d.rowLimit, parse) && line != []
    requires line == ReadLine(rest, (if d.rowLimit < remaining then d.rowLimit else remaining) + 1)
    ensures row.Some? ==>
      && line <= rest && |line| <= remaining && |line| <= d.rowLimit
      && Reading(s, read + [row.value], rest[|line|..], d.rowLimit, parse)
    ensures row.None? ==> |line| > remaining || Rows(s, d.rowLimit, parse).None?
  {
    ReadOne(s, read, rest, (if d.rowLimit < remaining then d.rowLimit else remaining) + 1, d.rowLimit, parse);
    if |line| > remaining || |line| > d.rowLimit || !Terminated(line) {
      return None;
    }
    return parse(line);
  }

  lemma Start(t: Table, s: Content, d: Dataset, parse: Parser, unique: Uniqueness, retained: set<nat>)
    requires d.batch > 0
    ensures Reading(s, [], s, d.rowLimit, parse)
    ensures Inserting(t, [], t, [], d.batch, unique, retained)
  {
    var rows := Rows(s, d.rowLimit, parse);
    assert rows.Some? ==> [] + rows.value == rows.value;
  }

  lemma MaxIdAppend(rows: seq<Row>, row: Row)
    ensures MaxId(rows + [row]) ==
      Some(if MaxId(rows).None? then row.facts.id else Max(MaxId(rows).value, row.facts.id))
  {
    assert (rows + [row])[..|rows|] == rows;
  }

  /** A line that fails its checks fails the import: the stream is too long, or it is not made of rows. */
  lemma TakeFails(
    t: Table, s: Content, processed: nat, rest: Content, line: Content, remaining: nat, d: Dataset, parse: Parser,
    unique: Uniqueness, retained: set<nat>)
    requires d.batch > 0 && |s| == processed + |rest| && |line| <= |rest|
    requires remaining == if d.expectedBytes > processed then d.expectedBytes - processed else 0
    requires |line| > remaining || Rows(s, d.rowLimit, parse).None?
    ensures Imported(t, s, d, parse, unique, retained).None?
  {
  }

  lemma TooManyRows(
    t: Table, s: Content, read: seq<Row>, rest: Content, d: Dataset, parse: Parser, unique: Uniqueness,
    retained: set<nat>)
    requires d.batch > 0 && Reading(s, read, rest, d.rowLimit, parse) && |read| > d.expectedRows
    ensures Imported(t, s, d, parse, unique, retained).None?
  {
  }

  /** A full batch inserted: the import goes on from there, or has failed whatever follows. */
  lemma Flushed(
    t: Table, s: Content, read: seq<Row>, rest: Content, now: Table, batch: seq<Row>, d: Dataset, parse: Parser,
    unique: Uniqueness, retained: set<nat>)
    requires |batch| == d.batch > 0 && Inserting(t, read, now, batch, d.batch, unique, retained)
    requires Reading(s, read, rest, d.rowLimit, parse)
    ensures var after := InsertBatch(now, batch, unique, retained);
      if after.None? then Imported(t, s, d, parse, unique, retained).None?
      else Inserting(t, read, after.value, [], d.batch, unique, retained)
  {
    FlushBatch(t, read, now, batch, d.batch, unique, retained);
    var later := Rows(rest, d.rowLimit, parse);
    if later.Some? && InsertBatch(now, batch, unique, retained).None? {
      assert ImportRows(t, read + later.value, d.batch, unique, retained).None?;
    }
  }

  /** At the end of the stream the last batch decides. */
  lemma Verdict(
    t: Table, s: Content, read: seq<Row>, now: Table, batch: seq<Row>, d: Dataset, parse: Parser, unique: Uniqueness,
    retained: set<nat>)
    requires d.batch > |batch| && Reading(s, read, [], d.rowLimit, parse)
    requires Inserting(t, read, now, batch, d.batch, unique, retained)
    ensures Imported(t, s, d, parse, unique, retained) ==
      if |s| != d.expectedBytes || |read| != d.expectedRows || (d.serial && MaxId(read) != d.expectedMax) then None
      else if batch == [] then Some(now) else InsertBatch(now, batch, unique, retained)
  {
    assert read + [] == read;
    LastBatch(t, read, now, batch, d.batch, unique, retained);
  }
}
