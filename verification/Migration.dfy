/**
 * scripts/migrate-d1-to-neon.ts: batching, the parameterised INSERT ... ON CONFLICT DO NOTHING, and the batch loop of
 * migrateTable over a target table whose statements may fail, or be applied and still report a failure.
 */
module Migration {
  import opened Options

  /** A column value; null also stands for an absent one. */
  datatype Cell = Null | Cell(text: string)

  /** A D1 row: its property names in Object.keys order, and its values. */
  datatype Row = Row(keys: seq<string>, cells: map<string, Cell>)

  /** row[col] ?? null. */
  function CellOf(row: Row, col: string): Cell {
    if col in row.cells then row.cells[col] else Null
  }

  // ---------------------------------------------------------------- chunkArray

  function Flatten<T>(chunks: seq<seq<T>>): seq<T> {
    if chunks == [] then [] else chunks[0] + Flatten(chunks[1..])
  }

  lemma {:induction false} FlattenAppends<T>(chunks: seq<seq<T>>, last: seq<T>)
    ensures Flatten(chunks + [last]) == Flatten(chunks) + last
  {
    if chunks == [] {
      assert chunks + [last] == [last] && [last][1..] == [];
    } else {
      assert (chunks + [last])[1..] == chunks[1..] + [last];
      FlattenAppends(chunks[1..], last);
    }
  }

  /** Consecutive pieces of arr, none empty, all of the given size except that the last may be shorter. */
  ghost predicate AreChunks<T>(chunks: seq<seq<T>>, arr: seq<T>, size: nat) {
    && Flatten(chunks) == arr
    && (forall i :: 0 <= i < |chunks| ==> 0 < |chunks[i]| <= size)
    && (forall i :: 0 <= i < |chunks| - 1 ==> |chunks[i]| == size)
  }

  method ChunkArray<T>(arr: seq<T>, size: nat) returns (chunks: seq<seq<T>>)
    requires size > 0
    ensures AreChunks(chunks, arr, size)
  {
    chunks := [];
    var i := 0;
    while i < |arr|
      invariant 0 <= i
      invariant AreChunks(chunks, arr[..if i <= |arr| then i else |arr|], size)
      invariant i < |arr| ==> forall k :: 0 <= k < |chunks| ==> |chunks[k]| == size
      decreases |arr| - i
    {
      var end := if i + size <= |arr| then i + size else |arr|;
      FlattenAppends(chunks, arr[i..end]);
      assert arr[..end] == arr[..i] + arr[i..end];
      chunks := chunks + [arr[i..end]];
      i := i + size;
    }
    assert arr[..|arr|] == arr;
  }

  /** The rows and the batch size determine the batches, so every run of the script sends the same ones. */
  lemma {:induction false} ChunksAreUnique<T>(a: seq<seq<T>>, b: seq<seq<T>>, arr: seq<T>, size: nat)
    requires AreChunks(a, arr, size) && AreChunks(b, arr, size)
    ensures a == b
    decreases |a|
  {
    if a != [] && b != [] {
      FirstChunk(a, arr, size);
      FirstChunk(b, arr, size);
      ChunksAreUnique(a[1..], b[1..], arr[|a[0]|..], size);
    }
  }

  lemma FirstChunk<T>(chunks: seq<seq<T>>, arr: seq<T>, size: nat)
    requires AreChunks(chunks, arr, size) && chunks != []
    ensures |chunks[0]| == if |arr| <= size then |arr| else size
    ensures chunks[0] == arr[..|chunks[0]|]
    ensures AreChunks(chunks[1..], arr[|chunks[0]|..], size)
  {
    var first, rest := chunks[0], chunks[1..];
    assert arr == first + Flatten(rest);
    if rest == [] {
      assert arr == first;
    } else {
      assert |rest[0]| > 0 && |Flatten(rest)| >= |rest[0]|;
    }
    forall i | 0 <= i < |rest|
      ensures 0 < |rest[i]| <= size && (i < |rest| - 1 ==> |rest[i]| == size)
    {
      assert rest[i] == chunks[i + 1];
    }
  }

  // ---------------------------------------------------------------- buildBatchInsert

  /** INSERT INTO table (columns) VALUES (placeholders), ... ON CONFLICT (conflictColumn) DO NOTHING, with params. */
  datatype Statement = Statement(table: string, columns: seq<string>, placeholders: seq<seq<nat>>,
                                 conflictColumn: string, params: seq<Cell>)

  /** The r-th group of placeholders: r*cols+c+1 at column c, whose parameter is that cell of that row. */
  ghost predicate RowNumbered(places: seq<nat>, params: seq<Cell>, row: Row, columns: seq<string>, r: nat) {
    && |places| == |columns|
    && forall c :: 0 <= c < |columns| ==>
         && places[c] == r * |columns| + c + 1
         && 0 < places[c] <= |params|
         && params[places[c] - 1] == CellOf(row, columns[c])
  }

  ghost predicate Numbered(placeholders: seq<seq<nat>>, params: seq<Cell>, rows: seq<Row>, columns: seq<string>, n: nat)
    requires n <= |rows|
  {
    && |placeholders| == n && |params| == n * |columns|
    && forall r :: 0 <= r < n ==> RowNumbered(placeholders[r], params, rows[r], columns, r)
  }

  method BuildBatchInsert(tableName: string, rows: seq<Row>, conflictColumn: string) returns (stmt: Option<Statement>)
    ensures stmt == None <==> rows == []
    ensures stmt.Some? ==>
              && stmt.value.table == tableName && stmt.value.conflictColumn == conflictColumn
              && stmt.value.columns == rows[0].keys
              && Numbered(stmt.value.placeholders, stmt.value.params, rows, rows[0].keys, |rows|)
  {
    if |rows| == 0 {
      return None;
    }
    var columns := rows[0].keys;
    var params: seq<Cell>, clauses: seq<seq<nat>> := [], [];
    var r := 0;
    while r < |rows|
      invariant 0 <= r <= |rows|
      invariant Numbered(clauses, params, rows, columns, r)
    {
      var placeholders: seq<nat> := [];
      ghost var before := params;
      var c := 0;
      while c < |columns|
        invariant 0 <= c <= |columns| == |rows[0].keys|
        invariant |placeholders| == c && |params| == |before| + c && params[..|before|] == before
        invariant forall k :: 0 <= k < c ==> placeholders[k] == r * |columns| + k + 1
        invariant forall k :: 0 <= k < c ==> params[|before| + k] == CellOf(rows[r], columns[k])
      {
        params := params + [CellOf(rows[r], columns[c])];
        placeholders := placeholders + [|params|];
        c := c + 1;
      }
      RowIsNumbered(clauses, before, rows, columns, r, placeholders, params);
      clauses := clauses + [placeholders];
      r := r + 1;
    }
    return Some(Statement(tableName, columns, clauses, conflictColumn, params));
  }

  lemma RowIsNumbered(clauses: seq<seq<nat>>, before: seq<Cell>, rows: seq<Row>, columns: seq<string>, r: nat,
                      placeholders: seq<nat>, params: seq<Cell>)
    requires r < |rows| && Numbered(clauses, before, rows, columns, r)
    requires |placeholders| == |columns| && |params| == |before| + |columns| && params[..|before|] == before
    requires forall k :: 0 <= k < |columns| ==> placeholders[k] == r * |columns| + k + 1
    requires forall k :: 0 <= k < |columns| ==> params[|before| + k] == CellOf(rows[r], columns[k])
    ensures Numbered(clauses + [placeholders], params, rows, columns, r + 1)
  {
    assert (r + 1) * |columns| == r * |columns| + |columns|;
    forall q | 0 <= q < r + 1
      ensures RowNumbered((clauses + [placeholders])[q], params, rows[q], columns, q)
    {
      if q < r {
        assert RowNumbered(clauses[q], before, rows[q], columns, q);
        forall c | 0 <= c < |columns|
          ensures params[clauses[q][c] - 1] == CellOf(rows[q], columns[c])
        {
          assert params[..|before|][clauses[q][c] - 1] == before[clauses[q][c] - 1];
        }
      } else {
        forall c | 0 <= c < |columns|
          ensures params[placeholders[c] - 1] == CellOf(rows[r], columns[c])
        {
          assert params[|before| + c] == CellOf(rows[r], columns[c]);
        }
      }
    }
  }

  // ---------------------------------------------------------------- the target table

  /** A stored row, and a table with a unique conflict column. */
  type Record = map<string, Cell>
  type Table = map<Cell, Record>

  function KeyOf(record: Record, conflictColumn: string): Cell {
    if conflictColumn in record then record[conflictColumn] else Null
  }

  /** Rows inserted one by one; a row whose key is present is skipped. */
  function Insert(table: Table, records: seq<Record>, conflictColumn: string): Table
    decreases |records|
  {
    if records == [] then table
    else
      var key := KeyOf(records[0], conflictColumn);
      Insert(if key in table then table else table[key := records[0]], records[1..], conflictColumn)
  }

  /** The record that a statement's r-th VALUES clause denotes. */
  function Bound(stmt: Statement, r: nat): Record
    requires r < |stmt.placeholders| && |stmt.placeholders[r]| == |stmt.columns|
    requires forall c :: 0 <= c < |stmt.columns| ==> 0 < stmt.placeholders[r][c] <= |stmt.params|
  {
    BindColumns(stmt.columns, stmt.placeholders[r], stmt.params)
  }

  /** A later column of the same name overrides an earlier one. */
  function BindColumns(columns: seq<string>, places: seq<nat>, params: seq<Cell>): Record
    requires |places| == |columns| && forall c :: 0 <= c < |columns| ==> 0 < places[c] <= |params|
    decreases |columns|
  {
    if columns == [] then map[]
    else
      var n := |columns| - 1;
      BindColumns(columns[..n], places[..n], params)[columns[n] := params[places[n] - 1]]
  }

  /** The row as the batch stores it: the columns of the batch's first row, absent values as null. */
  function Projected(row: Row, columns: seq<string>): Record {
    map col <- columns :: CellOf(row, col)
  }

  lemma {:induction false} BindingProjects(columns: seq<string>, places: seq<nat>, params: seq<Cell>, row: Row)
    requires |places| == |columns| && forall c :: 0 <= c < |columns| ==> 0 < places[c] <= |params|
    requires forall c :: 0 <= c < |columns| ==> params[places[c] - 1] == CellOf(row, columns[c])
    ensures BindColumns(columns, places, params) == Projected(row, columns)
    decreases |columns|
  {
    if columns != [] {
      var n := |columns| - 1;
      assert columns == columns[..n] + [columns[n]];
      BindingProjects(columns[..n], places[..n], params, row);
    }
  }

  /** Each VALUES clause denotes its own row of the batch, column by column, and an absent value as null. */
  lemma StatementDenotesBatch(stmt: Statement, rows: seq<Row>, r: nat)
    requires rows != [] && stmt.columns == rows[0].keys
    requires Numbered(stmt.placeholders, stmt.params, rows, stmt.columns, |rows|) && r < |rows|
    ensures RowNumbered(stmt.placeholders[r], stmt.params, rows[r], stmt.columns, r)
    ensures Bound(stmt, r) == Projected(rows[r], rows[0].keys)
    ensures forall col :: col in Bound(stmt, r) <==> col in rows[0].keys
    ensures forall col <- rows[0].keys :: Bound(stmt, r)[col] == if col in rows[r].cells then rows[r].cells[col] else Null
  {
    assert RowNumbered(stmt.placeholders[r], stmt.params, rows[r], stmt.columns, r);
    BindingProjects(stmt.columns, stmt.placeholders[r], stmt.params, rows[r]);
  }

  function ProjectAll(rows: seq<Row>, columns: seq<string>): (records: seq<Record>)
    ensures |records| == |rows|
    ensures forall i :: 0 <= i < |rows| ==> records[i] == Projected(rows[i], columns)
  {
    if rows == [] then [] else [Projected(rows[0], columns)] + ProjectAll(rows[1..], columns)
  }

  function BatchRecords(batch: seq<Row>): (records: seq<Record>)
    ensures |records| == |batch|
  {
    if batch == [] then [] else ProjectAll(batch, batch[0].keys)
  }

  /** How a statement ends: applied, not applied, or applied with the acknowledgement lost. */
  datatype Delivery = Delivered | Failed | AppliedButFailed

  predicate Applies(d: Delivery) {
    d != Failed
  }

  /** The r-th VALUES clause, executed by its placeholders, stores this record. */
  ghost predicate RowDenotes(stmt: Statement, r: nat, record: Record)
    requires r < |stmt.placeholders|
  {
    && |stmt.placeholders[r]| == |stmt.columns|
    && (forall c :: 0 <= c < |stmt.columns| ==> 0 < stmt.placeholders[r][c] <= |stmt.params|)
    && Bound(stmt, r) == record
  }

  ghost predicate Denotes(stmt: Statement, records: seq<Record>) {
    && |stmt.placeholders| == |records|
    && forall r :: 0 <= r < |records| ==> RowDenotes(stmt, r, records[r])
  }

  lemma BuiltDenotesBatch(stmt: Statement, batch: seq<Row>)
    requires batch != [] && stmt.columns == batch[0].keys
    requires Numbered(stmt.placeholders, stmt.params, batch, stmt.columns, |batch|)
    ensures Denotes(stmt, BatchRecords(batch))
  {
    forall r | 0 <= r < |batch|
      ensures RowDenotes(stmt, r, BatchRecords(batch)[r])
    {
      StatementDenotesBatch(stmt, batch, r);
    }
  }

  /** The records that a statement carries, read off its placeholders. */
  method RecordsIn(stmt: Statement, ghost all: seq<Record>) returns (records: seq<Record>)
    requires Denotes(stmt, all)
    ensures records == all
  {
    records := [];
    var r := 0;
    while r < |stmt.placeholders|
      invariant 0 <= r <= |all|
      invariant records == all[..r]
    {
      assert RowDenotes(stmt, r, all[r]);
      records := records + [Bound(stmt, r)];
      assert all[..r + 1] == all[..r] + [all[r]];
      r := r + 1;
    }
  }

  /** The table after one statement. */
  function Sent(table: Table, records: seq<Record>, delivery: Delivery, conflictColumn: string): Table {
    if Applies(delivery) then Insert(table, records, conflictColumn) else table
  }

  class NeonTable {
    var table: Table

    /** querySQL: one atomic statement; false is an exception. */
    method QuerySql(stmt: Statement, ghost all: seq<Record>, delivery: Delivery) returns (ok: bool)
      requires Denotes(stmt, all)
      modifies this
      ensures ok == (delivery == Delivered)
      ensures table == Sent(old(table), all, delivery, stmt.conflictColumn)
      ensures table == if delivery == Failed then old(table) else Insert(old(table), all, stmt.conflictColumn)
    {
      var records := RecordsIn(stmt, all);
      if Applies(delivery) {
        table := Insert(table, records, stmt.conflictColumn);
      }
      ok := delivery == Delivered;
    }
  }

  /** The table after the first n batches. */
  function TableAt(table: Table, batches: seq<seq<Record>>, deliveries: nat -> Delivery,
                   conflictColumn: string, n: nat): Table
    requires n <= |batches|
  {
    if n == 0 then table
    else
      Sent(TableAt(table, batches, deliveries, conflictColumn, n - 1), batches[n - 1], deliveries(n - 1), conflictColumn)
  }

  function RecordsOf(batches: seq<seq<Row>>): (records: seq<seq<Record>>)
    ensures |records| == |batches|
    ensures forall i :: 0 <= i < |records| ==> records[i] == BatchRecords(batches[i])
  {
    if batches == [] then [] else [BatchRecords(batches[0])] + RecordsOf(batches[1..])
  }

  datatype MigrationResult = MigrationResult(d1Count: nat, pgInserted: nat, skipped: int, errors: nat)

  /** Rows in the delivered batches among the first n, and how many of those batches were not delivered. */
  function RowsDelivered<T>(batches: seq<seq<T>>, deliveries: nat -> Delivery, n: nat): nat
    requires n <= |batches|
  {
    if n == 0 then 0
    else RowsDelivered(batches, deliveries, n - 1) + (if deliveries(n - 1) == Delivered then |batches[n - 1]| else 0)
  }

  function NotDelivered(deliveries: nat -> Delivery, n: nat): nat {
    if n == 0 then 0 else NotDelivered(deliveries, n - 1) + (if deliveries(n - 1) == Delivered then 0 else 1)
  }

  lemma {:induction false} DeliveredAgainstAll<T>(batches: seq<seq<T>>, deliveries: nat -> Delivery, n: nat)
    requires n <= |batches| && forall i :: 0 <= i < |batches| ==> batches[i] != []
    ensures RowsDelivered(batches, deliveries, n) <= |Flatten(batches[..n])|
    ensures RowsDelivered(batches, deliveries, n) == |Flatten(batches[..n])| <==> NotDelivered(deliveries, n) == 0
  {
    if n > 0 {
      DeliveredAgainstAll(batches, deliveries, n - 1);
      assert batches[..n] == batches[..n - 1] + [batches[n - 1]];
      FlattenAppends(batches[..n - 1], batches[n - 1]);
    }
  }

  /** The errors are exactly the batches that failed. */
  lemma {:induction false} ErrorsAreFailedBatches(deliveries: nat -> Delivery, n: nat)
    ensures NotDelivered(deliveries, n) == |set i: nat | i < n && deliveries(i) != Delivered|
  {
    var failed := set i: nat | i < n && deliveries(i) != Delivered;
    if n == 0 {
      assert failed == {};
    } else {
      ErrorsAreFailedBatches(deliveries, n - 1);
      var failed' := set i: nat | i < n - 1 && deliveries(i) != Delivered;
      assert failed == if deliveries(n - 1) == Delivered then failed' else failed' + {n - 1};
    }
  }

  ghost function Positions(i: nat, size: nat): (positions: set<(nat, nat)>)
    ensures |positions| == size
    ensures forall q: (nat, nat) {:trigger q in positions} :: q in positions <==> q.0 == i && q.1 < size
  {
    if size == 0 then {} else Positions(i, size - 1) + {(i, size - 1)}
  }

  /** These are the rows, by batch and position, of the batches among the first n that did not fail. */
  ghost predicate AreDeliveredRows<T>(rows: set<(nat, nat)>, batches: seq<seq<T>>, deliveries: nat -> Delivery, n: nat)
    requires n <= |batches|
  {
    forall q: (nat, nat) {:trigger q in rows} ::
      q in rows <==> q.0 < n && deliveries(q.0) == Delivered && q.1 < |batches[q.0]|
  }

  /** The count of inserted rows is exactly the rows, by batch and position, of the batches that did not fail. */
  lemma {:induction false} InsertedAreDeliveredRows<T>(batches: seq<seq<T>>, deliveries: nat -> Delivery, n: nat)
    returns (rows: set<(nat, nat)>)
    requires n <= |batches|
    ensures AreDeliveredRows(rows, batches, deliveries, n)
    ensures RowsDelivered(batches, deliveries, n) == |rows|
  {
    if n == 0 {
      rows := {};
    } else {
      rows := InsertedAreDeliveredRows(batches, deliveries, n - 1);
      if deliveries(n - 1) == Delivered {
        rows := OneBatchMore(rows, batches, deliveries, n - 1);
      }
    }
  }

  lemma OneBatchMore<T>(rows: set<(nat, nat)>, batches: seq<seq<T>>, deliveries: nat -> Delivery, n: nat)
    returns (more: set<(nat, nat)>)
    requires n < |batches| && deliveries(n) == Delivered && AreDeliveredRows(rows, batches, deliveries, n)
    ensures AreDeliveredRows(more, batches, deliveries, n + 1) && |more| == |rows| + |batches[n]|
  {
    var last := Positions(n, |batches[n]|);
    assert rows !! last;
    more := rows + last;
  }

  /**
   * migrateTable. source is None when the D1 query fails, and deliveries(i) is the fate of the i-th statement. In a
   * live run inserted + skipped is the number of rows, errors counts the failed batches, and nothing is skipped
   * exactly when no batch failed; a dry run or a failed read touches nothing.
   */
  method MigrateTable(source: Option<seq<Row>>, transform: Row -> Row, pgTable: string, conflictColumn: string,
                      dryRun: bool, batchSize: nat, neon: NeonTable, deliveries: nat -> Delivery)
    returns (result: MigrationResult, ghost batches: seq<seq<Row>>)
    requires batchSize > 0
    modifies neon
    ensures source.None? ==> result == MigrationResult(0, 0, 0, 0) && neon.table == old(neon.table)
    ensures source.Some? && (dryRun || source.value == []) ==>
              result == MigrationResult(|source.value|, 0, 0, 0) && neon.table == old(neon.table)
    ensures source.Some? && !dryRun ==>
              && AreChunks(batches, MapRows(source.value, transform), batchSize)
              && neon.table == TableAt(old(neon.table), RecordsOf(batches), deliveries, conflictColumn, |batches|)
              && result.d1Count == |source.value| == result.pgInserted + result.skipped
              && result.errors == NotDelivered(deliveries, |batches|)
              && result.pgInserted == RowsDelivered(batches, deliveries, |batches|)
              && result.skipped >= 0 && (result.skipped == 0 <==> result.errors == 0)
  {
    batches := [];
    if source.None? {
      return MigrationResult(0, 0, 0, 0), [];
    }
    var rows := source.value;
    if rows == [] || dryRun {
      return MigrationResult(|rows|, 0, 0, 0), [];
    }
    var transformed := MapRows(rows, transform);
    var pieces := ChunkArray(transformed, batchSize);
    batches := pieces;
    var inserted, errors := InsertBatches(pieces, pgTable, conflictColumn, neon, deliveries);
    TableAfterIsTableAt(old(neon.table), pieces, deliveries, conflictColumn, |pieces|);
    DeliveredAgainstAll(pieces, deliveries, |pieces|);
    assert pieces[..|pieces|] == pieces;
    result := MigrationResult(|rows|, inserted, |transformed| - inserted, errors);
  }

  /** One turn of the loop over the batches. */
  method SendBatch(batch: seq<Row>, pgTable: string, conflictColumn: string, neon: NeonTable, delivery: Delivery)
    returns (ok: bool)
    requires batch != []
    modifies neon
    ensures ok == (delivery == Delivered)
    ensures neon.table == Sent(old(neon.table), BatchRecords(batch), delivery, conflictColumn)
  {
    var stmt := BuildBatchInsert(pgTable, batch, conflictColumn);
    BuiltDenotesBatch(stmt.value, batch);
    ok := neon.QuerySql(stmt.value, BatchRecords(batch), delivery);
  }

  /** The same, for the first n batches of rows. */
  function TableAfter(table: Table, batches: seq<seq<Row>>, deliveries: nat -> Delivery, conflictColumn: string, n: nat): Table
    requires n <= |batches|
  {
    if n == 0 then table
    else
      Sent(TableAfter(table, batches, deliveries, conflictColumn, n - 1), BatchRecords(batches[n - 1]),
           deliveries(n - 1), conflictColumn)
  }

  lemma {:induction false} TableAfterIsTableAt(table: Table, batches: seq<seq<Row>>, deliveries: nat -> Delivery,
                                              conflictColumn: string, n: nat)
    requires n <= |batches|
    ensures TableAfter(table, batches, deliveries, conflictColumn, n)
            == TableAt(table, RecordsOf(batches), deliveries, conflictColumn, n)
  {
    if n > 0 {
      TableAfterIsTableAt(table, batches, deliveries, conflictColumn, n - 1);
    }
  }

  /** The loop over the batches. */
  method InsertBatches(batches: seq<seq<Row>>, pgTable: string, conflictColumn: string, neon: NeonTable,
                       deliveries: nat -> Delivery)
    returns (inserted: nat, errors: nat)
    requires forall i :: 0 <= i < |batches| ==> batches[i] != []
    modifies neon
    ensures neon.table == TableAfter(old(neon.table), batches, deliveries, conflictColumn, |batches|)
    ensures inserted == RowsDelivered(batches, deliveries, |batches|) && errors == NotDelivered(deliveries, |batches|)
  {
    inserted, errors := 0, 0;
    ghost var t := neon.table;
    var i := 0;
    while i < |batches|
      invariant 0 <= i <= |batches|
      invariant neon.table == TableAfter(t, batches, deliveries, conflictColumn, i)
      invariant inserted == RowsDelivered(batches, deliveries, i) && errors == NotDelivered(deliveries, i)
    {
      var ok := SendBatch(batches[i], pgTable, conflictColumn, neon, deliveries(i));
      inserted := inserted + (if ok then |batches[i]| else 0);
      errors := errors + (if ok then 0 else 1);
      i := i + 1;
    }
  }

  function MapRows(rows: seq<Row>, transform: Row -> Row): (r: seq<Row>)
    ensures |r| == |rows|
    ensures forall i :: 0 <= i < |r| ==> r[i] == transform(rows[i])
  {
    seq(|rows|, i requires 0 <= i < |rows| => transform(rows[i]))
  }

  // ---------------------------------------------------------------- retrying

  /** The row that a batch would insert under a key: its first one. */
  function First(records: seq<Record>, key: Cell, conflictColumn: string): Option<Record> {
    if records == [] then None
    else if KeyOf(records[0], conflictColumn) == key then Some(records[0])
    else First(records[1..], key, conflictColumn)
  }

  lemma {:induction false} InsertAtKey(table: Table, records: seq<Record>, conflictColumn: string, key: Cell)
    ensures var after := Insert(table, records, conflictColumn); var first := First(records, key, conflictColumn);
            && (key in after <==> key in table || first.Some?)
            && (key in table ==> after[key] == table[key])
            && (key !in table && first.Some? ==> after[key] == first.value)
    decreases |records|
  {
    if records != [] {
      var k := KeyOf(records[0], conflictColumn);
      InsertAtKey(if k in table then table else table[k := records[0]], records[1..], conflictColumn, key);
    }
  }

  /** Table after only adds rows that some batch offers under their key. */
  ghost predicate GrownFrom(before: Table, after: Table, batches: seq<seq<Record>>, conflictColumn: string) {
    && (forall key <- before :: key in after && after[key] == before[key])
    && (forall key <- after :: key !in before ==>
          exists i :: 0 <= i < |batches| && First(batches[i], key, conflictColumn) == Some(after[key]))
  }

  lemma {:induction false} RunGrows(table: Table, batches: seq<seq<Record>>, deliveries: nat -> Delivery,
                                    conflictColumn: string, n: nat)
    requires n <= |batches|
    ensures GrownFrom(table, TableAt(table, batches, deliveries, conflictColumn, n), batches, conflictColumn)
  {
    if n > 0 {
      RunGrows(table, batches, deliveries, conflictColumn, n - 1);
      var before := TableAt(table, batches, deliveries, conflictColumn, n - 1);
      forall key
        ensures var after := Insert(before, batches[n - 1], conflictColumn);
                var first := First(batches[n - 1], key, conflictColumn);
                && (key in after <==> key in before || first.Some?)
                && (key in before ==> after[key] == before[key])
                && (key !in before && first.Some? ==> after[key] == first.value)
      {
        InsertAtKey(before, batches[n - 1], conflictColumn, key);
      }
    }
  }

  function Clean(i: nat): Delivery {
    Delivered
  }

  /** An error-free run leaves a row under every key that some batch offers. */
  lemma {:induction false} CleanRunAddsAll(table: Table, batches: seq<seq<Record>>, conflictColumn: string,
                                           n: nat, i: nat, key: Cell)
    requires i < n <= |batches| && First(batches[i], key, conflictColumn).Some?
    ensures key in TableAt(table, batches, Clean, conflictColumn, n)
  {
    InsertAtKey(TableAt(table, batches, Clean, conflictColumn, n - 1), batches[n - 1], conflictColumn, key);
    if i < n - 1 {
      CleanRunAddsAll(table, batches, conflictColumn, n - 1, i, key);
    }
  }

  function AfterRuns(table: Table, batches: seq<seq<Record>>, runs: seq<nat -> Delivery>, conflictColumn: string): Table
    decreases |runs|
  {
    if runs == [] then table
    else AfterRuns(TableAt(table, batches, runs[0], conflictColumn, |batches|), batches, runs[1..], conflictColumn)
  }

  lemma {:induction false} RunsGrow(table: Table, batches: seq<seq<Record>>, runs: seq<nat -> Delivery>,
                                    conflictColumn: string)
    ensures GrownFrom(table, AfterRuns(table, batches, runs, conflictColumn), batches, conflictColumn)
    decreases |runs|
  {
    if runs != [] {
      RunGrows(table, batches, runs[0], conflictColumn, |batches|);
      RunsGrow(TableAt(table, batches, runs[0], conflictColumn, |batches|), batches, runs[1..], conflictColumn);
    }
  }

  /** Batches that offer a row under the same key offer the same row. */
  ghost predicate BatchesAgree(batches: seq<seq<Record>>, conflictColumn: string) {
    forall i, j, key :: 0 <= i < |batches| && 0 <= j < |batches|
                        && First(batches[i], key, conflictColumn).Some? && First(batches[j], key, conflictColumn).Some? ==>
                          First(batches[i], key, conflictColumn) == First(batches[j], key, conflictColumn)
  }

  /** Any failing runs followed by an error-free one, against the error-free run alone. */
  ghost predicate Converges(table: Table, batches: seq<seq<Record>>, runs: seq<nat -> Delivery>,
                            conflictColumn: string) {
    TableAt(AfterRuns(table, batches, runs, conflictColumn), batches, Clean, conflictColumn, |batches|)
    == TableAt(table, batches, Clean, conflictColumn, |batches|)
  }

  /** Every key that some batch offers is present. */
  ghost predicate Complete(table: Table, batches: seq<seq<Record>>, conflictColumn: string) {
    forall i, key :: 0 <= i < |batches| && First(batches[i], key, conflictColumn).Some? ==> key in table
  }

  lemma CleanRunIsComplete(table: Table, batches: seq<seq<Record>>, conflictColumn: string)
    ensures Complete(TableAt(table, batches, Clean, conflictColumn, |batches|), batches, conflictColumn)
  {
    forall i, key | 0 <= i < |batches| && First(batches[i], key, conflictColumn).Some?
      ensures key in TableAt(table, batches, Clean, conflictColumn, |batches|)
    {
      CleanRunAddsAll(table, batches, conflictColumn, |batches|, i, key);
    }
  }

  lemma AgreementAtKey(table: Table, middle: Table, retried: Table, once: Table, batches: seq<seq<Record>>,
                       conflictColumn: string, key: Cell)
    requires BatchesAgree(batches, conflictColumn)
    requires GrownFrom(table, middle, batches, conflictColumn) && GrownFrom(middle, retried, batches, conflictColumn)
    requires GrownFrom(table, once, batches, conflictColumn)
    requires Complete(retried, batches, conflictColumn) && Complete(once, batches, conflictColumn)
    ensures (key in retried <==> key in once) && (key in once ==> retried[key] == once[key])
  {
    if key !in table {
      if key in once {
        var i := OfferedBy(table, once, batches, conflictColumn, key);
        assert key in retried;
      }
      if key in retried {
        var i := if key in middle then OfferedBy(table, middle, batches, conflictColumn, key)
                 else OfferedBy(middle, retried, batches, conflictColumn, key);
        assert key in once;
        var j := OfferedBy(table, once, batches, conflictColumn, key);
        assert First(batches[i], key, conflictColumn) == First(batches[j], key, conflictColumn);
      }
    }
  }

  ghost function OfferedBy(before: Table, after: Table, batches: seq<seq<Record>>, conflictColumn: string,
                           key: Cell): (i: nat)
    requires GrownFrom(before, after, batches, conflictColumn) && key in after && key !in before
    ensures i < |batches| && First(batches[i], key, conflictColumn) == Some(after[key])
  {
    var i :| 0 <= i < |batches| && First(batches[i], key, conflictColumn) == Some(after[key]);
    i
  }

  lemma AgreementMakesEqual(table: Table, middle: Table, retried: Table, once: Table,
                            batches: seq<seq<Record>>, conflictColumn: string)
    requires BatchesAgree(batches, conflictColumn)
    requires GrownFrom(table, middle, batches, conflictColumn) && GrownFrom(middle, retried, batches, conflictColumn)
    requires GrownFrom(table, once, batches, conflictColumn)
    requires Complete(retried, batches, conflictColumn) && Complete(once, batches, conflictColumn)
    ensures retried == once
  {
    forall key
      ensures key in retried <==> key in once
      ensures key in retried && key in once ==> retried[key] == once[key]
    {
      AgreementAtKey(table, middle, retried, once, batches, conflictColumn, key);
    }
  }

  lemma AgreementConverges(table: Table, batches: seq<seq<Record>>, runs: seq<nat -> Delivery>, conflictColumn: string)
    requires BatchesAgree(batches, conflictColumn)
    ensures Converges(table, batches, runs, conflictColumn)
  {
    var middle := AfterRuns(table, batches, runs, conflictColumn);
    var retried := TableAt(middle, batches, Clean, conflictColumn, |batches|);
    var once := TableAt(table, batches, Clean, conflictColumn, |batches|);
    assert GrownFrom(table, middle, batches, conflictColumn) by { RunsGrow(table, batches, runs, conflictColumn); }
    assert GrownFrom(middle, retried, batches, conflictColumn) by { RunGrows(middle, batches, Clean, conflictColumn, |batches|); }
    assert GrownFrom(table, once, batches, conflictColumn) by { RunGrows(table, batches, Clean, conflictColumn, |batches|); }
    CleanRunIsComplete(middle, batches, conflictColumn);
    CleanRunIsComplete(table, batches, conflictColumn);
    AgreementMakesEqual(table, middle, retried, once, batches, conflictColumn);
  }

  /** A run in which only batch j is applied. */
  function Only(j: nat): nat -> Delivery {
    i => if i == j then Delivered else Failed
  }

  lemma {:induction false} OnlyOneApplies(table: Table, batches: seq<seq<Record>>, conflictColumn: string,
                                          j: nat, n: nat)
    requires j < |batches| && n <= |batches|
    ensures TableAt(table, batches, Only(j), conflictColumn, n) == if j < n then Insert(table, batches[j], conflictColumn) else table
  {
    if n > 0 {
      OnlyOneApplies(table, batches, conflictColumn, j, n - 1);
    }
  }

  /** If only batch j gets through at first, its row stays under its key. */
  lemma RetryKeeps(batches: seq<seq<Record>>, conflictColumn: string, j: nat, key: Cell)
    requires j < |batches| && First(batches[j], key, conflictColumn).Some?
    requires Converges(map[], batches, [Only(j)], conflictColumn)
    ensures var once := TableAt(map[], batches, Clean, conflictColumn, |batches|);
            key in once && Some(once[key]) == First(batches[j], key, conflictColumn)
  {
    OnlyOneApplies(map[], batches, conflictColumn, j, |batches|);
    var runs := [Only(j)];
    assert runs[1..] == [];
    var middle := AfterRuns(map[], batches, runs, conflictColumn);
    assert middle == AfterRuns(TableAt(map[], batches, runs[0], conflictColumn, |batches|), batches, runs[1..], conflictColumn);
    assert middle == Insert(map[], batches[j], conflictColumn);
    InsertAtKey(map[], batches[j], conflictColumn, key);
    RunGrows(middle, batches, Clean, conflictColumn, |batches|);
  }

  /**
   * Retry convergence, exactly: from every table, any number of runs with arbitrary failing batches followed by one
   * error-free run leaves the same table as the error-free run alone, if and only if no two batches offer different
   * rows under one key.
   */
  lemma RetryConvergesExactly(batches: seq<seq<Record>>, conflictColumn: string)
    ensures (forall table, runs :: Converges(table, batches, runs, conflictColumn)) <==> BatchesAgree(batches, conflictColumn)
  {
    if BatchesAgree(batches, conflictColumn) {
      forall table, runs
        ensures Converges(table, batches, runs, conflictColumn)
      {
        AgreementConverges(table, batches, runs, conflictColumn);
      }
    }
    if forall table, runs :: Converges(table, batches, runs, conflictColumn) {
      forall i, j, key | 0 <= i < |batches| && 0 <= j < |batches|
                         && First(batches[i], key, conflictColumn).Some? && First(batches[j], key, conflictColumn).Some?
        ensures First(batches[i], key, conflictColumn) == First(batches[j], key, conflictColumn)
      {
        RetryKeeps(batches, conflictColumn, i, key);
        RetryKeeps(batches, conflictColumn, j, key);
      }
    }
  }

  ghost predicate DistinctKeys(records: seq<Record>, conflictColumn: string) {
    forall i, j :: 0 <= i < j < |records| ==> KeyOf(records[i], conflictColumn) != KeyOf(records[j], conflictColumn)
  }

  lemma {:induction false} FirstIsSomewhere(records: seq<Record>, key: Cell, conflictColumn: string) returns (p: nat)
    requires First(records, key, conflictColumn).Some?
    ensures p < |records| && records[p] == First(records, key, conflictColumn).value
            && KeyOf(records[p], conflictColumn) == key
  {
    if KeyOf(records[0], conflictColumn) == key {
      p := 0;
    } else {
      p := FirstIsSomewhere(records[1..], key, conflictColumn);
      p := p + 1;
    }
  }

  /** Where position p of batch i stands in all rows together. */
  lemma {:induction false} PlaceInAll(batches: seq<seq<Record>>, i: nat, p: nat) returns (q: nat)
    requires i < |batches| && p < |batches[i]|
    ensures q < |Flatten(batches)| && Flatten(batches)[q] == batches[i][p]
  {
    if i == 0 {
      q := p;
    } else {
      q := PlaceInAll(batches[1..], i - 1, p);
      q := q + |batches[0]|;
    }
  }

  /** Source rows with distinct conflict keys are enough: retrying the script converges from every table. */
  lemma DistinctKeysConverge(table: Table, batches: seq<seq<Record>>, runs: seq<nat -> Delivery>,
                             conflictColumn: string)
    requires DistinctKeys(Flatten(batches), conflictColumn)
    ensures Converges(table, batches, runs, conflictColumn)
  {
    forall i, j, key | 0 <= i < |batches| && 0 <= j < |batches|
                       && First(batches[i], key, conflictColumn).Some? && First(batches[j], key, conflictColumn).Some?
      ensures First(batches[i], key, conflictColumn) == First(batches[j], key, conflictColumn)
    {
      var p := FirstIsSomewhere(batches[i], key, conflictColumn);
      var q := FirstIsSomewhere(batches[j], key, conflictColumn);
      var a := PlaceInAll(batches, i, p);
      var b := PlaceInAll(batches, j, q);
    }
    AgreementConverges(table, batches, runs, conflictColumn);
  }

  /** Batching keeps every row's place and its value in the conflict column. */
  lemma {:induction false} RecordsKeepKeys(batches: seq<seq<Row>>, conflictColumn: string)
    requires forall row <- Flatten(batches) :: conflictColumn in row.keys
    ensures var rows, records := Flatten(batches), Flatten(RecordsOf(batches));
            && |records| == |rows|
            && forall q :: 0 <= q < |rows| ==> KeyOf(records[q], conflictColumn) == CellOf(rows[q], conflictColumn)
  {
    if batches != [] {
      var batch, rest := batches[0], Flatten(batches[1..]);
      assert Flatten(batches) == batch + rest;
      assert forall row <- rest :: row in Flatten(batches);
      RecordsKeepKeys(batches[1..], conflictColumn);
      assert RecordsOf(batches)[1..] == RecordsOf(batches[1..]);
      if batch != [] {
        assert batch[0] in Flatten(batches);
      }
    }
  }

  /** The same in terms of the rows that are migrated: each has the conflict column, with a value of its own. */
  lemma DistinctRowsConverge(table: Table, rows: seq<Row>, batches: seq<seq<Row>>, size: nat,
                             runs: seq<nat -> Delivery>, conflictColumn: string)
    requires AreChunks(batches, rows, size)
    requires forall row <- rows :: conflictColumn in row.keys
    requires forall i, j :: 0 <= i < j < |rows| ==> CellOf(rows[i], conflictColumn) != CellOf(rows[j], conflictColumn)
    ensures Converges(table, RecordsOf(batches), runs, conflictColumn)
  {
    RecordsKeepKeys(batches, conflictColumn);
    DistinctKeysConverge(table, RecordsOf(batches), runs, conflictColumn);
  }

  // ---------------------------------------------------------------- retrying with other batches

  /** One run of the script: it may read the rows in another order and cut them into other batches. */
  datatype Attempt = Attempt(chunks: seq<seq<Row>>, deliveries: nat -> Delivery)

  function AfterAttempts(table: Table, attempts: seq<Attempt>, conflictColumn: string): Table
    decreases |attempts|
  {
    if attempts == [] then table
    else
      var run := attempts[0];
      var next := TableAt(table, RecordsOf(run.chunks), run.deliveries, conflictColumn, |run.chunks|);
      AfterAttempts(next, attempts[1..], conflictColumn)
  }

  function RowSet(rows: seq<Row>): set<Row> {
    set row <- rows
  }

  ghost predicate SameRows(rows: seq<Row>, others: seq<Row>) {
    RowSet(rows) == RowSet(others)
  }

  ghost predicate HasColumns(row: Row, columns: set<string>) {
    (set col <- row.keys) == columns
  }

  /** Every row has exactly these columns, and rows with the same value in the conflict column are the same row. */
  ghost predicate Uniform(rows: seq<Row>, columns: set<string>, conflictColumn: string) {
    && conflictColumn in columns
    && (forall row <- rows :: HasColumns(row, columns))
    && (forall r: Row, q: Row {:trigger CellOf(r, conflictColumn), CellOf(q, conflictColumn)} ::
          r in rows && q in rows && CellOf(r, conflictColumn) == CellOf(q, conflictColumn) ==> r == q)
  }

  /** The row as stored, when it has exactly these columns. */
  function Whole(row: Row, columns: set<string>): Record {
    map col <- columns :: CellOf(row, col)
  }

  /** What the rows bring, by key. */
  function Offer(rows: seq<Row>, columns: set<string>, conflictColumn: string): Table {
    if rows == [] then map[]
    else Offer(rows[1..], columns, conflictColumn)[CellOf(rows[0], conflictColumn) := Whole(rows[0], columns)]
  }

  lemma {:induction false} RowIsOffered(rows: seq<Row>, columns: set<string>, conflictColumn: string, row: Row)
    requires Uniform(rows, columns, conflictColumn) && row in rows
    ensures var key := CellOf(row, conflictColumn); var offer := Offer(rows, columns, conflictColumn);
            key in offer && offer[key] == Whole(row, columns)
  {
    assert rows[0] in rows;
    if row != rows[0] {
      assert CellOf(row, conflictColumn) != CellOf(rows[0], conflictColumn);
      RowIsOffered(rows[1..], columns, conflictColumn, row);
    }
  }

  lemma {:induction false} OfferedKeyHasRow(rows: seq<Row>, columns: set<string>, conflictColumn: string, key: Cell)
    returns (row: Row)
    requires key in Offer(rows, columns, conflictColumn)
    ensures row in rows && CellOf(row, conflictColumn) == key
  {
    if CellOf(rows[0], conflictColumn) == key {
      row := rows[0];
    } else {
      row := OfferedKeyHasRow(rows[1..], columns, conflictColumn, key);
    }
  }

  ghost predicate SomeBrings(batches: seq<seq<Record>>, key: Cell, conflictColumn: string) {
    exists i :: 0 <= i < |batches| && First(batches[i], key, conflictColumn).Some?
  }

  ghost predicate BringsOnly(records: seq<Record>, offer: Table, conflictColumn: string) {
    forall key :: First(records, key, conflictColumn).Some? ==>
                    key in offer && First(records, key, conflictColumn) == Some(offer[key])
  }

  /** The batches carry exactly what is offered. */
  ghost predicate Carries(batches: seq<seq<Record>>, offer: Table, conflictColumn: string) {
    && (forall i :: 0 <= i < |batches| ==> BringsOnly(batches[i], offer, conflictColumn))
    && (forall key <- offer :: SomeBrings(batches, key, conflictColumn))
  }

  lemma {:induction false} FirstIsFound(records: seq<Record>, p: nat, conflictColumn: string)
    requires p < |records|
    ensures First(records, KeyOf(records[p], conflictColumn), conflictColumn).Some?
  {
    if KeyOf(records[0], conflictColumn) != KeyOf(records[p], conflictColumn) {
      FirstIsFound(records[1..], p - 1, conflictColumn);
    }
  }

  lemma {:induction false} PlaceInChunks<T>(chunks: seq<seq<T>>, x: T) returns (i: nat, p: nat)
    requires x in Flatten(chunks)
    ensures i < |chunks| && p < |chunks[i]| && chunks[i][p] == x
  {
    if x in chunks[0] {
      i := 0;
      p :| 0 <= p < |chunks[0]| && chunks[0][p] == x;
    } else {
      assert x in Flatten(chunks[1..]);
      i, p := PlaceInChunks(chunks[1..], x);
      i := i + 1;
    }
  }

  lemma {:induction false} ChunkRowsAreRows<T>(chunks: seq<seq<T>>, i: nat, x: T)
    requires i < |chunks| && x in chunks[i]
    ensures x in Flatten(chunks)
  {
    if i > 0 {
      ChunkRowsAreRows(chunks[1..], i - 1, x);
    }
  }

  /** With uniform columns a row is stored the same way in whatever batch it travels. */
  lemma UniformBatch(batch: seq<Row>, columns: set<string>, conflictColumn: string, p: nat)
    requires Uniform(batch, columns, conflictColumn) && p < |batch|
    ensures BatchRecords(batch)[p] == Whole(batch[p], columns)
    ensures KeyOf(BatchRecords(batch)[p], conflictColumn) == CellOf(batch[p], conflictColumn)
  {
    assert batch[0] in batch;
    assert forall col :: col in batch[0].keys <==> col in columns;
  }

  lemma RowsCarryTheOffer(chunks: seq<seq<Row>>, rows: seq<Row>, columns: set<string>, conflictColumn: string)
    requires Uniform(rows, columns, conflictColumn) && SameRows(Flatten(chunks), rows)
    ensures Carries(RecordsOf(chunks), Offer(rows, columns, conflictColumn), conflictColumn)
  {
    forall i | 0 <= i < |chunks|
      ensures BringsOnly(RecordsOf(chunks)[i], Offer(rows, columns, conflictColumn), conflictColumn)
    {
      ChunkBringsOnlyTheOffer(chunks, rows, columns, conflictColumn, i);
    }
    forall key | key in Offer(rows, columns, conflictColumn)
      ensures SomeBrings(RecordsOf(chunks), key, conflictColumn)
    {
      OfferedKeyTravels(chunks, rows, columns, conflictColumn, key);
    }
  }

  lemma ChunkBringsOnlyTheOffer(chunks: seq<seq<Row>>, rows: seq<Row>, columns: set<string>, conflictColumn: string,
                                i: nat)
    requires Uniform(rows, columns, conflictColumn) && SameRows(Flatten(chunks), rows) && i < |chunks|
    ensures BringsOnly(RecordsOf(chunks)[i], Offer(rows, columns, conflictColumn), conflictColumn)
  {
    var records, offer := RecordsOf(chunks)[i], Offer(rows, columns, conflictColumn);
    forall key | First(records, key, conflictColumn).Some?
      ensures key in offer && First(records, key, conflictColumn) == Some(offer[key])
    {
      ChunkCarriesTheOffer(chunks, rows, columns, conflictColumn, i, key);
    }
  }

  lemma OfferedKeyTravels(chunks: seq<seq<Row>>, rows: seq<Row>, columns: set<string>, conflictColumn: string, key: Cell)
    requires Uniform(rows, columns, conflictColumn) && SameRows(Flatten(chunks), rows)
    requires key in Offer(rows, columns, conflictColumn)
    ensures SomeBrings(RecordsOf(chunks), key, conflictColumn)
  {
    var row := OfferedKeyHasRow(rows, columns, conflictColumn, key);
    var i := RowTravels(chunks, rows, columns, conflictColumn, row);
    assert First(RecordsOf(chunks)[i], key, conflictColumn).Some?;
  }

  lemma ChunkIsUniform(chunks: seq<seq<Row>>, rows: seq<Row>, columns: set<string>, conflictColumn: string, i: nat)
    requires Uniform(rows, columns, conflictColumn) && SameRows(Flatten(chunks), rows) && i < |chunks|
    ensures Uniform(chunks[i], columns, conflictColumn) && forall row <- chunks[i] :: row in rows
  {
    forall row | row in chunks[i]
      ensures row in rows
    {
      ChunkRowsAreRows(chunks, i, row);
      assert row in RowSet(Flatten(chunks));
    }
  }

  lemma ChunkCarriesTheOffer(chunks: seq<seq<Row>>, rows: seq<Row>, columns: set<string>, conflictColumn: string,
                             i: nat, key: Cell)
    requires Uniform(rows, columns, conflictColumn) && SameRows(Flatten(chunks), rows) && i < |chunks|
    requires First(BatchRecords(chunks[i]), key, conflictColumn).Some?
    ensures var offer := Offer(rows, columns, conflictColumn);
            key in offer && First(BatchRecords(chunks[i]), key, conflictColumn) == Some(offer[key])
  {
    ChunkIsUniform(chunks, rows, columns, conflictColumn, i);
    var p := FirstIsSomewhere(BatchRecords(chunks[i]), key, conflictColumn);
    UniformBatch(chunks[i], columns, conflictColumn, p);
    assert chunks[i][p] in chunks[i];
    RowIsOffered(rows, columns, conflictColumn, chunks[i][p]);
  }

  lemma RowTravels(chunks: seq<seq<Row>>, rows: seq<Row>, columns: set<string>, conflictColumn: string, row: Row)
    returns (i: nat)
    requires Uniform(rows, columns, conflictColumn) && SameRows(Flatten(chunks), rows) && row in rows
    ensures i < |chunks| && First(BatchRecords(chunks[i]), CellOf(row, conflictColumn), conflictColumn).Some?
  {
    var p: nat;
    assert row in RowSet(rows);
    i, p := PlaceInChunks(chunks, row);
    ChunkIsUniform(chunks, rows, columns, conflictColumn, i);
    UniformBatch(chunks[i], columns, conflictColumn, p);
    FirstIsFound(BatchRecords(chunks[i]), p, conflictColumn);
  }

  /** The table kept all its rows and gained only offered ones. */
  ghost predicate Between(before: Table, after: Table, offer: Table) {
    && (forall key <- before :: key in after && after[key] == before[key])
    && (forall key <- after :: key in before || (key in offer && after[key] == offer[key]))
  }

  lemma RunStaysBetween(table: Table, batches: seq<seq<Record>>, deliveries: nat -> Delivery, offer: Table,
                        conflictColumn: string)
    requires Carries(batches, offer, conflictColumn)
    ensures Between(table, TableAt(table, batches, deliveries, conflictColumn, |batches|), offer)
  {
    var after := TableAt(table, batches, deliveries, conflictColumn, |batches|);
    RunGrows(table, batches, deliveries, conflictColumn, |batches|);
    forall key | key in after && key !in table
      ensures key in offer && after[key] == offer[key]
    {
      var i := OfferedBy(table, after, batches, conflictColumn, key);
    }
  }

  lemma {:induction false} AttemptsStayBetween(table: Table, attempts: seq<Attempt>, rows: seq<Row>, columns: set<string>,
                                              conflictColumn: string)
    requires Uniform(rows, columns, conflictColumn)
    requires forall attempt <- attempts :: SameRows(Flatten(attempt.chunks), rows)
    ensures Between(table, AfterAttempts(table, attempts, conflictColumn), Offer(rows, columns, conflictColumn))
    decreases |attempts|
  {
    if attempts != [] {
      var run := attempts[0];
      assert run in attempts;
      RowsCarryTheOffer(run.chunks, rows, columns, conflictColumn);
      RunStaysBetween(table, RecordsOf(run.chunks), run.deliveries, Offer(rows, columns, conflictColumn), conflictColumn);
      var next := TableAt(table, RecordsOf(run.chunks), run.deliveries, conflictColumn, |run.chunks|);
      AttemptsStayBetween(next, attempts[1..], rows, columns, conflictColumn);
    }
  }

  lemma CleanRunOffersAll(table: Table, batches: seq<seq<Record>>, offer: Table, conflictColumn: string)
    requires Carries(batches, offer, conflictColumn)
    ensures TableAt(table, batches, Clean, conflictColumn, |batches|) == offer + table
  {
    RunStaysBetween(table, batches, Clean, offer, conflictColumn);
    CleanRunIsComplete(table, batches, conflictColumn);
  }

  lemma FinalRunOffersAll(table: Table, final: seq<seq<Row>>, rows: seq<Row>, columns: set<string>, conflictColumn: string)
    requires Uniform(rows, columns, conflictColumn) && SameRows(Flatten(final), rows)
    ensures TableAt(table, RecordsOf(final), Clean, conflictColumn, |final|)
            == Offer(rows, columns, conflictColumn) + table
  {
    RowsCarryTheOffer(final, rows, columns, conflictColumn);
    CleanRunOffersAll(table, RecordsOf(final), Offer(rows, columns, conflictColumn), conflictColumn);
  }

  lemma BetweenAddsNothing(table: Table, between: Table, offer: Table)
    requires Between(table, between, offer)
    ensures offer + between == offer + table
  {
  }

  /**
   * Retrying in practice: every run may read the rows in its own order, cut them into batches of its own size and lose
   * any of them. If the rows have the same columns and distinct conflict values, then the first error-free run leaves
   * exactly the old table and all the rows under new keys, just as an error-free run alone would.
   */
  lemma AnyBatchingConverges(table: Table, rows: seq<Row>, columns: set<string>, conflictColumn: string,
                             attempts: seq<Attempt>, final: seq<seq<Row>>)
    requires Uniform(rows, columns, conflictColumn) && SameRows(Flatten(final), rows)
    requires forall attempt <- attempts :: SameRows(Flatten(attempt.chunks), rows)
    ensures var before := AfterAttempts(table, attempts, conflictColumn);
            TableAt(before, RecordsOf(final), Clean, conflictColumn, |final|)
            == Offer(rows, columns, conflictColumn) + table
            == TableAt(table, RecordsOf(final), Clean, conflictColumn, |final|)
  {
    var before := AfterAttempts(table, attempts, conflictColumn);
    AttemptsStayBetween(table, attempts, rows, columns, conflictColumn);
    FinalRunOffersAll(before, final, rows, columns, conflictColumn);
    FinalRunOffersAll(table, final, rows, columns, conflictColumn);
    BetweenAddsNothing(table, before, Offer(rows, columns, conflictColumn));
  }
}
