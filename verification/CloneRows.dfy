/** Inserting cloned rows in batches: nothing is overwritten, and every row must end up present. */
module CloneRows {
  import opened Wrappers

  /** What is compared of a row: its primary key and the compared columns. */
  datatype Facts = Facts(id: nat, data: string)

  /** A row, with the columns it came with and what is not compared. */
  datatype Row = Row(facts: Facts, columns: string, secret: string)

  type Table = map<nat, Row>

  /** Whether two rows meet in a unique key other than the primary key. */
  type Uniqueness = (Facts, Facts) -> bool

  // ---------------------------------------------------------------- inserting

  predicate Taken(t: Table, r: Row, unique: Uniqueness) {
    r.facts.id in t || exists k | k in t :: unique(t[k].facts, r.facts)
  }

  /** `INSERT … ON CONFLICT DO NOTHING`, one row. */
  function Insert(t: Table, r: Row, unique: Uniqueness): Table {
    if Taken(t, r, unique) then t else t[r.facts.id := r]
  }

  function InsertAll(t: Table, rows: seq<Row>, unique: Uniqueness): Table
    decreases |rows|
  {
    if rows == [] then t else InsertAll(Insert(t, rows[0], unique), rows[1..], unique)
  }

  /** The row of this primary key is there and equal on the compared columns. */
  predicate Present(t: Table, r: Row) {
    r.facts.id in t && t[r.facts.id].facts == r.facts
  }

  predicate AllPresent(t: Table, rows: seq<Row>) {
    forall i | 0 <= i < |rows| :: Present(t, rows[i])
  }

  predicate SameColumns(rows: seq<Row>) {
    forall i | 0 <= i < |rows| :: rows[i].columns == rows[0].columns
  }

  /** No row would reuse the retained identity of a removed resource. */
  predicate NoneReserved(t: Table, rows: seq<Row>, retained: set<nat>) {
    forall i | 0 <= i < |rows| :: rows[i].facts.id in retained ==> rows[i].facts.id in t
  }

  /** `insert_clone_batch`: the table afterwards, or nothing when it raises. */
  function InsertBatch(t: Table, rows: seq<Row>, unique: Uniqueness, retained: set<nat>): Option<Table> {
    if !SameColumns(rows) || !NoneReserved(t, rows, retained) then None
    else
      var after := InsertAll(t, rows, unique);
      if AllPresent(after, rows) then Some(after) else None
  }

  /** The whole stream of rows in batches of `size`, the last one shorter. */
  function ImportRows(t: Table, rows: seq<Row>, size: nat, unique: Uniqueness, retained: set<nat>): Option<Table>
    requires size > 0
    decreases |rows|
  {
    if rows == [] then Some(t)
    else
      var n := if |rows| <= size then |rows| else size;
      var first := InsertBatch(t, rows[..n], unique, retained);
      if first.None? then None else ImportRows(first.value, rows[n..], size, unique, retained)
  }

  // ---------------------------------------------------------------- what inserting keeps

  ghost predicate Within(t: Table, after: Table) {
    forall k | k in t :: k in after && after[k] == t[k]
  }

  lemma {:induction false} InsertAllKeeps(t: Table, rows: seq<Row>, unique: Uniqueness)
    ensures Within(t, InsertAll(t, rows, unique))
    ensures forall k | k in InsertAll(t, rows, unique) ::
      k in t || exists i :: 0 <= i < |rows| && rows[i].facts.id == k
    decreases |rows|
  {
    if rows != [] {
      var next := Insert(t, rows[0], unique);
      assert Within(t, next) by {
        InsertKeeps(t, rows[0], unique);
      }
      InsertAllKeeps(next, rows[1..], unique);
      forall k | k in InsertAll(t, rows, unique)
        ensures k in t || exists i :: 0 <= i < |rows| && rows[i].facts.id == k
      {
        if k !in next {
          var i :| 0 <= i < |rows[1..]| && rows[1..][i].facts.id == k;
          assert rows[i + 1].facts.id == k;
        }
      }
    }
  }

  lemma InsertKeeps(t: Table, r: Row, unique: Uniqueness)
    ensures Within(t, Insert(t, r, unique))
  {
  }

  lemma {:induction false} InsertAllSplits(t: Table, a: seq<Row>, b: seq<Row>, unique: Uniqueness)
    ensures InsertAll(t, a + b, unique) == InsertAll(InsertAll(t, a, unique), b, unique)
    decreases |a|
  {
    if a == [] {
      assert a + b == b;
    } else {
      assert (a + b)[0] == a[0] && (a + b)[1..] == a[1..] + b;
      InsertAllSplits(Insert(t, a[0], unique), a[1..], b, unique);
    }
  }

  /** A row that some other row keeps out never becomes present, whatever is inserted later. */
  ghost predicate KeptOut(t: Table, r: Row, unique: Uniqueness) {
    !Present(t, r) && Taken(t, r, unique)
  }

  lemma InsertKeepsOut(t: Table, q: Row, r: Row, unique: Uniqueness)
    requires KeptOut(t, r, unique)
    ensures KeptOut(Insert(t, q, unique), r, unique)
  {
    InsertKeeps(t, q, unique);
    var after := Insert(t, q, unique);
    if r.facts.id !in t {
      var k :| k in t && unique(t[k].facts, r.facts);
      assert k in after && unique(after[k].facts, r.facts);
    }
    assert q.facts == r.facts ==> Taken(t, q, unique);
  }

  lemma {:induction false} InsertAllKeepsOut(t: Table, rows: seq<Row>, r: Row, unique: Uniqueness)
    requires KeptOut(t, r, unique)
    ensures KeptOut(InsertAll(t, rows, unique), r, unique)
    decreases |rows|
  {
    if rows != [] {
      InsertKeepsOut(t, rows[0], r, unique);
      InsertAllKeepsOut(Insert(t, rows[0], unique), rows[1..], r, unique);
    }
  }

  /** Right after a row was offered it is present or kept out. */
  lemma {:induction false} OfferedIsDecided(t: Table, rows: seq<Row>, i: nat, unique: Uniqueness)
    requires i < |rows|
    ensures var after := InsertAll(t, rows, unique); Present(after, rows[i]) || KeptOut(after, rows[i], unique)
    decreases |rows|
  {
    var next := Insert(t, rows[0], unique);
    if i > 0 {
      OfferedIsDecided(next, rows[1..], i - 1, unique);
    } else if Present(next, rows[0]) {
      InsertAllKeeps(next, rows[1..], unique);
    } else {
      InsertAllKeepsOut(next, rows[1..], rows[0], unique);
    }
  }

  // ---------------------------------------------------------------- the whole import

  /** The columns agree within every batch. */
  predicate UniformBatches(rows: seq<Row>, size: nat)
    requires size > 0
    decreases |rows|
  {
    rows == [] ||
    var n := if |rows| <= size then |rows| else size;
    SameColumns(rows[..n]) && UniformBatches(rows[n..], size)
  }

  lemma SplitPresent(t: Table, a: seq<Row>, b: seq<Row>)
    ensures AllPresent(t, a + b) <==> AllPresent(t, a) && AllPresent(t, b)
  {
    if AllPresent(t, a + b) {
      assert forall i | 0 <= i < |a| :: a[i] == (a + b)[i];
      assert forall i | 0 <= i < |b| :: b[i] == (a + b)[|a| + i];
    }
  }

  lemma SplitReserved(t: Table, a: seq<Row>, b: seq<Row>, retained: set<nat>)
    ensures NoneReserved(t, a + b, retained) <==> NoneReserved(t, a, retained) && NoneReserved(t, b, retained)
  {
    if NoneReserved(t, a + b, retained) {
      assert forall i | 0 <= i < |a| :: a[i] == (a + b)[i];
      assert forall i | 0 <= i < |b| :: b[i] == (a + b)[|a| + i];
    }
  }

  /** Present after one batch, or never. */
  lemma BatchDecides(t: Table, a: seq<Row>, b: seq<Row>, unique: Uniqueness)
    ensures var first := InsertAll(t, a, unique);
      AllPresent(InsertAll(first, b, unique), a) <==> AllPresent(first, a)
  {
    var first := InsertAll(t, a, unique);
    var after := InsertAll(first, b, unique);
    InsertAllKeeps(first, b, unique);
    forall i | 0 <= i < |a|
      ensures Present(after, a[i]) <==> Present(first, a[i])
    {
      OfferedIsDecided(t, a, i, unique);
      if !Present(first, a[i]) {
        InsertAllKeepsOut(first, b, a[i], unique);
      }
    }
  }

  /** A batch that reuses no retained identity leaves that question to the table it started from. */
  lemma ReservedAsBefore(t: Table, a: seq<Row>, b: seq<Row>, unique: Uniqueness, retained: set<nat>)
    requires NoneReserved(t, a, retained)
    ensures NoneReserved(InsertAll(t, a, unique), b, retained) <==> NoneReserved(t, b, retained)
  {
    InsertAllKeeps(t, a, unique);
    var first := InsertAll(t, a, unique);
    forall k | k in first && k in retained
      ensures k in t
    {
      assert forall j | 0 <= j < |a| :: a[j].facts.id in retained ==> a[j].facts.id in t;
    }
  }

  /**
   * An import succeeds exactly when every row is present in the end, no retained identity is reused, and the columns
   * agree within each batch; the table is then the old one with the rows inserted in order, whatever the batch size.
   */
  lemma {:induction false} ImportExactly(
    t: Table, rows: seq<Row>, size: nat, unique: Uniqueness, retained: set<nat>)
    requires size > 0
    ensures ImportRows(t, rows, size, unique, retained) ==
      if AllPresent(InsertAll(t, rows, unique), rows) && NoneReserved(t, rows, retained) && UniformBatches(rows, size)
      then Some(InsertAll(t, rows, unique)) else None
    decreases |rows|
  {
    if rows != [] {
      var n := if |rows| <= size then |rows| else size;
      var a, b := rows[..n], rows[n..];
      assert rows == a + b;
      InsertAllSplits(t, a, b, unique);
      SplitPresent(InsertAll(t, rows, unique), a, b);
      SplitReserved(t, a, b, retained);
      BatchDecides(t, a, b, unique);
      ImportExactly(InsertAll(t, a, unique), b, size, unique, retained);
      if NoneReserved(t, a, retained) {
        ReservedAsBefore(t, a, b, unique, retained);
      }
    }
  }

  /**
   * The batch size makes no difference exactly if the columns agree throughout, or the import fails at every size
   * because some row is kept out or would reuse a retained identity.
   */
  lemma BatchSizeMattersExactlyWhen(t: Table, rows: seq<Row>, unique: Uniqueness, retained: set<nat>)
    ensures (forall size: nat, other: nat | size > 0 && other > 0 ::
              ImportRows(t, rows, size, unique, retained) == ImportRows(t, rows, other, unique, retained))
      <==> SameColumns(rows) || !AllPresent(InsertAll(t, rows, unique), rows) || !NoneReserved(t, rows, retained)
  {
    if SameColumns(rows) || !AllPresent(InsertAll(t, rows, unique), rows) || !NoneReserved(t, rows, retained) {
      forall size: nat, other: nat | size > 0 && other > 0
        ensures ImportRows(t, rows, size, unique, retained) == ImportRows(t, rows, other, unique, retained)
      {
        BatchSizeDoesNotMatter(t, rows, size, other, unique, retained);
      }
    } else {
      ImportExactly(t, rows, 1, unique, retained);
      ImportExactly(t, rows, |rows|, unique, retained);
      SinglesAreUniform(rows);
      assert rows[..|rows|] == rows;
      assert ImportRows(t, rows, 1, unique, retained) != ImportRows(t, rows, |rows|, unique, retained);
    }
  }

  /** It can matter: two good rows with different columns are imported one by one and refused together. */
  lemma BatchSizeCanMatter()
    ensures var rows := [Row(Facts(1, "a"), "id", ""), Row(Facts(2, "b"), "id,extra", "")];
      var never: Uniqueness := (a, b) => false;
      ImportRows(map[], rows, 1, never, {}).Some? && ImportRows(map[], rows, 2, never, {}).None?
  {
    var first, second := Row(Facts(1, "a"), "id", ""), Row(Facts(2, "b"), "id,extra", "");
    var rows, never: Uniqueness := [first, second], (a, b) => false;
    assert rows[1..] == [second] && [second][1..] == [];
    var one: Table := map[1 := first];
    assert Insert(map[], first, never) == one && InsertAll(map[], rows, never) == InsertAll(one, [second], never);
    assert InsertAll(one, [second], never) == InsertAll(one[2 := second], [], never);
    assert AllPresent(InsertAll(map[], rows, never), rows);
    SinglesAreUniform(rows);
    ImportExactly(map[], rows, 1, never, {});
    assert rows[..2] == rows && !SameColumns(rows);
  }

  lemma BatchSizeDoesNotMatter(
    t: Table, rows: seq<Row>, size: nat, other: nat, unique: Uniqueness, retained: set<nat>)
    requires size > 0 && other > 0
    requires SameColumns(rows) || !AllPresent(InsertAll(t, rows, unique), rows) || !NoneReserved(t, rows, retained)
    ensures ImportRows(t, rows, size, unique, retained) == ImportRows(t, rows, other, unique, retained)
  {
    ImportExactly(t, rows, size, unique, retained);
    ImportExactly(t, rows, other, unique, retained);
    if SameColumns(rows) {
      SameColumnsEverywhere(rows, size);
      SameColumnsEverywhere(rows, other);
    }
  }

  lemma {:induction false} SinglesAreUniform(rows: seq<Row>)
    ensures UniformBatches(rows, 1)
  {
    if rows != [] {
      SinglesAreUniform(rows[1..]);
    }
  }

  lemma {:induction false} SameColumnsEverywhere(rows: seq<Row>, size: nat)
    requires size > 0 && SameColumns(rows)
    ensures UniformBatches(rows, size)
    decreases |rows|
  {
    if rows != [] {
      var n := if |rows| <= size then |rows| else size;
      assert forall i | 0 <= i < |rows| - n :: rows[n..][i] == rows[n + i];
      SameColumnsEverywhere(rows[n..], size);
    }
  }

  /** Success means: no earlier row changed, every source row is present and equal, and the new rows are source rows. */
  lemma ImportIsAdditive(t: Table, rows: seq<Row>, size: nat, unique: Uniqueness, retained: set<nat>)
    requires size > 0 && ImportRows(t, rows, size, unique, retained).Some?
    ensures var after := ImportRows(t, rows, size, unique, retained).value;
      && Within(t, after) && AllPresent(after, rows)
      && forall k | k in after && k !in t :: exists i :: 0 <= i < |rows| && rows[i].facts.id == k
  {
    ImportExactly(t, rows, size, unique, retained);
    InsertAllKeeps(t, rows, unique);
  }

  /** A second import of the same rows succeeds and inserts nothing. */
  lemma SecondImportInsertsNothing(
    t: Table, rows: seq<Row>, size: nat, unique: Uniqueness, retained: set<nat>, again: set<nat>)
    requires size > 0 && ImportRows(t, rows, size, unique, retained).Some?
    ensures var after := ImportRows(t, rows, size, unique, retained).value;
      ImportRows(after, rows, size, unique, again) == Some(after)
  {
    ImportIsAdditive(t, rows, size, unique, retained);
    var after := ImportRows(t, rows, size, unique, retained).value;
    PresentInsertsNothing(after, rows, unique);
    ImportExactly(t, rows, size, unique, retained);
    ImportExactly(after, rows, size, unique, again);
  }

  lemma {:induction false} PresentInsertsNothing(t: Table, rows: seq<Row>, unique: Uniqueness)
    requires AllPresent(t, rows)
    ensures InsertAll(t, rows, unique) == t
    decreases |rows|
  {
    if rows != [] {
      assert Present(t, rows[0]);
      assert forall i | 0 <= i < |rows| - 1 :: rows[1..][i] == rows[i + 1];
      PresentInsertsNothing(t, rows[1..], unique);
    }
  }

  /** Inserting adds at most one row each; all of them are new only when each was inserted and so is present. */
  lemma {:induction false} InsertedCount(t: Table, rows: seq<Row>, unique: Uniqueness)
    ensures |t| <= |InsertAll(t, rows, unique)| <= |t| + |rows|
    ensures |InsertAll(t, rows, unique)| == |t| + |rows| ==> AllPresent(InsertAll(t, rows, unique), rows)
    decreases |rows|
  {
    if rows != [] {
      var next := Insert(t, rows[0], unique);
      InsertKeeps(t, rows[0], unique);
      InsertedCount(next, rows[1..], unique);
      InsertAllKeeps(next, rows[1..], unique);
      if |InsertAll(t, rows, unique)| == |t| + |rows| {
        assert Present(next, rows[0]);
        forall i | 0 <= i < |rows|
          ensures Present(InsertAll(t, rows, unique), rows[i])
        {
          if i > 0 {
            assert rows[i] == rows[1..][i - 1];
          }
        }
      }
    }
  }

  // ---------------------------------------------------------------- generated numbers

  /** `reserve_clone_sequence`: where the sequence stands afterwards; the next number drawn is one more. */
  function Reserved(t: Table, sequence: nat, sourceMax: Option<nat>): nat {
    if sourceMax.None? then sequence
    else Max(Max(Max(Highest(t), 1), sequence + 1), sourceMax.value)
  }

  function Max(a: nat, b: nat): nat {
    if a < b then b else a
  }

  /** The greatest primary key, or zero in an empty table. */
  function Highest(t: Table): (m: nat)
    ensures (forall k | k in t :: k <= m) && (m in t || m == 0)
  {
    if t.Keys == {} then 0
    else
      HighestExists(t.Keys);
      var m :| m in t && forall k | k in t :: k <= m;
      m
  }

  lemma {:induction false} HighestExists(s: set<nat>)
    requires s != {}
    ensures exists m | m in s :: forall k | k in s :: k <= m
  {
    var m :| m in s;
    var rest := s - {m};
    while rest != {}
      invariant m in s && forall k | k in s :: k in rest || k <= m
      decreases rest
    {
      var k :| k in rest;
      rest := rest - {k};
      m := if k > m then k else m;
    }
  }

  /** The sequence moves as little as it may: it is at least one and moves on, past no key and not below the maximum. */
  lemma ReservedIsLeast(t: Table, sequence: nat, sourceMax: nat, m: nat)
    ensures Reserved(t, sequence, None) == sequence
    ensures Reserved(t, sequence, Some(sourceMax)) <= m <==>
      1 <= m && sequence < m && sourceMax <= m && forall k | k in t :: k <= m
  {
  }

  /** Numbers drawn after the reservation exceed every number that was in the table or is imported under the maximum. */
  lemma ReservedIsAbove(
    t: Table, sequence: nat, sourceMax: nat, rows: seq<Row>, unique: Uniqueness)
    requires forall i | 0 <= i < |rows| :: rows[i].facts.id <= sourceMax
    ensures Reserved(t, sequence, Some(sourceMax)) > sequence
    ensures forall k | k in InsertAll(t, rows, unique) :: k <= Reserved(t, sequence, Some(sourceMax))
  {
    InsertAllKeeps(t, rows, unique);
    forall k | k in InsertAll(t, rows, unique)
      ensures k <= Reserved(t, sequence, Some(sourceMax))
    {
      if k !in t {
        var i :| 0 <= i < |rows| && rows[i].facts.id == k;
      }
    }
  }
}
