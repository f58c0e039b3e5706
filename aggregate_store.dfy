/**
 * The aggregate table `downsampled_data`, keyed on (symbol, timestamp), and its batch insert
 * with `ON CONFLICT (symbol, timestamp) DO NOTHING`: the first write of a key wins.
 */
module AggregateStore {
  import opened Common

  datatype AggKey = AggKey(symbol: Symbol, timestamp: Timestamp)

  /** One aggregate: the mean and the median price of a symbol over the bucket starting at `timestamp`. */
  datatype AggRecord = AggRecord(symbol: Symbol, timestamp: Timestamp, avgPrice: real, medianPrice: real)
  {
    function Key(): AggKey {
      AggKey(symbol, timestamp)
    }
  }

  predicate HasKey(table: seq<AggRecord>, k: AggKey) {
    exists i | 0 <= i < |table| :: table[i].Key() == k
  }

  /** The primary-key constraint of the table. */
  predicate UniqueKeys(table: seq<AggRecord>) {
    forall i, j | 0 <= i < j < |table| :: table[i].Key() != table[j].Key()
  }

  /** The table after inserting `batch` record by record, skipping every record whose key is already stored. */
  function InsertIfAbsent(table: seq<AggRecord>, batch: seq<AggRecord>): seq<AggRecord>
    decreases |batch|
  {
    if batch == [] then table
    else InsertIfAbsent(if HasKey(table, batch[0].Key()) then table else table + [batch[0]], batch[1..])
  }

  /** Stored rows stay where and what they were; every added row comes from the batch. */
  lemma {:induction false} InsertIfAbsentExtends(table: seq<AggRecord>, batch: seq<AggRecord>)
    ensures table <= InsertIfAbsent(table, batch)
    ensures forall i :: |table| <= i < |InsertIfAbsent(table, batch)| ==> InsertIfAbsent(table, batch)[i] in batch
    decreases |batch|
  {
    if batch != [] {
      var next := if HasKey(table, batch[0].Key()) then table else table + [batch[0]];
      InsertIfAbsentExtends(next, batch[1..]);
      var r := InsertIfAbsent(table, batch);
      assert forall x :: x in batch[1..] ==> x in batch;
      forall i | |table| <= i < |r| ensures r[i] in batch {
        if i >= |next| { assert r[i] in batch[1..]; } else { assert r[i] == batch[0]; }
      }
    }
  }

  /** After the insert a key is stored exactly when it was stored before or some batch record carries it. */
  lemma {:induction false} InsertIfAbsentKeys(table: seq<AggRecord>, batch: seq<AggRecord>, k: AggKey)
    ensures HasKey(InsertIfAbsent(table, batch), k)
        <==> HasKey(table, k) || exists j :: 0 <= j < |batch| && batch[j].Key() == k
    decreases |batch|
  {
    if batch != [] {
      var next := if HasKey(table, batch[0].Key()) then table else table + [batch[0]];
      InsertIfAbsentKeys(next, batch[1..], k);
      assert HasKey(next, k) <==> HasKey(table, k) || batch[0].Key() == k by {
        if HasKey(table, k) {
          var i :| 0 <= i < |table| && table[i].Key() == k;
          assert next[i] == table[i];
        }
        if next != table && batch[0].Key() == k {
          assert next[|table|] == batch[0];
        }
      }
      assert (exists j :: 0 <= j < |batch| && batch[j].Key() == k)
         <==> batch[0].Key() == k || exists j :: 0 <= j < |batch[1..]| && batch[1..][j].Key() == k by {
        if exists j :: 0 <= j < |batch| && batch[j].Key() == k {
          var j :| 0 <= j < |batch| && batch[j].Key() == k;
          if j > 0 { assert batch[1..][j - 1] == batch[j]; }
        }
        if exists j :: 0 <= j < |batch[1..]| && batch[1..][j].Key() == k {
          var j :| 0 <= j < |batch[1..]| && batch[1..][j].Key() == k;
          assert batch[j + 1] == batch[1..][j];
        }
      }
    }
  }

  /** The insert keeps the primary-key constraint. */
  lemma {:induction false} InsertIfAbsentUnique(table: seq<AggRecord>, batch: seq<AggRecord>)
    requires UniqueKeys(table)
    ensures UniqueKeys(InsertIfAbsent(table, batch))
    decreases |batch|
  {
    if batch != [] {
      var next := if HasKey(table, batch[0].Key()) then table else table + [batch[0]];
      assert UniqueKeys(next);
      InsertIfAbsentUnique(next, batch[1..]);
    }
  }

  /** A batch whose every key is already stored changes nothing. */
  lemma {:induction false} InsertIfAbsentAllPresent(table: seq<AggRecord>, batch: seq<AggRecord>)
    requires forall j :: 0 <= j < |batch| ==> HasKey(table, batch[j].Key())
    ensures InsertIfAbsent(table, batch) == table
    decreases |batch|
  {
    if batch != [] {
      assert HasKey(table, batch[0].Key());
      assert forall j :: 0 <= j < |batch[1..]| ==> batch[1..][j] == batch[j + 1];
      InsertIfAbsentAllPresent(table, batch[1..]);
    }
  }

  /** Inserting the same batch twice leaves the same table as inserting it once. */
  lemma InsertIfAbsentIdempotent(table: seq<AggRecord>, batch: seq<AggRecord>)
    ensures InsertIfAbsent(InsertIfAbsent(table, batch), batch) == InsertIfAbsent(table, batch)
  {
    var once := InsertIfAbsent(table, batch);
    forall j | 0 <= j < |batch| ensures HasKey(once, batch[j].Key()) {
      InsertIfAbsentKeys(table, batch, batch[j].Key());
    }
    InsertIfAbsentAllPresent(once, batch);
  }

  predicate DistinctKeys(batch: seq<AggRecord>) {
    forall i, j | 0 <= i < j < |batch| :: batch[i].Key() != batch[j].Key()
  }

  /** In a batch with distinct keys, every record whose key is not yet stored is stored as it is. */
  lemma {:induction false} InsertIfAbsentStoresNew(table: seq<AggRecord>, batch: seq<AggRecord>, j: nat)
    requires DistinctKeys(batch) && j < |batch| && !HasKey(table, batch[j].Key())
    ensures batch[j] in InsertIfAbsent(table, batch)
    decreases |batch|
  {
    var next := if HasKey(table, batch[0].Key()) then table else table + [batch[0]];
    if j == 0 {
      InsertIfAbsentExtends(next, batch[1..]);
      assert next[|table|] == batch[0];
      assert InsertIfAbsent(table, batch)[|table|] == batch[0];
    } else {
      assert batch[1..][j - 1] == batch[j];
      assert !HasKey(next, batch[j].Key());
      InsertIfAbsentStoresNew(next, batch[1..], j - 1);
    }
  }

  /** The columns the insert statement writes. */
  const RecordColumns: set<string> := {"symbol", "timestamp", "avg_price", "median_price"}

  /** The columns `DownsampledData` maps in database/models.py. */
  const MappedColumns: set<string> := {"symbol", "timestamp", "avg_price"}

  /** The mapped columns with the `median_price` column the repository writes. */
  const CorrectedColumns: set<string> := MappedColumns + {"median_price"}

  /**
   * Executing the multi-row insert against a table mapped with `schema`: record keys that name no
   * mapped column make statement compilation raise before anything reaches the database. What an
   * empty batch does is not stated.
   */
  function ExecuteInsert(schema: set<string>, table: seq<AggRecord>, batch: seq<AggRecord>): (r: Result<seq<AggRecord>>)
    ensures batch != [] && !(RecordColumns <= schema) ==> r == Err(UnknownColumn)
    ensures RecordColumns <= schema ==> r == Ok(InsertIfAbsent(table, batch))
  {
    if batch != [] && !(RecordColumns <= schema) then Err(UnknownColumn)
    else Ok(InsertIfAbsent(table, batch))
  }

  /** As mapped in database/models.py, every non-empty batch fails and the table stays as it was. */
  lemma AsMappedInsertFails(table: seq<AggRecord>, batch: seq<AggRecord>)
    requires batch != []
    ensures ExecuteInsert(MappedColumns, table, batch) == Err(UnknownColumn)
  {
    assert "median_price" in RecordColumns && "median_price" !in MappedColumns;
  }

  /** With the `median_price` column mapped, the statement is the conflict-skipping insert. */
  lemma CorrectedInsertStores(table: seq<AggRecord>, batch: seq<AggRecord>)
    ensures ExecuteInsert(CorrectedColumns, table, batch) == Ok(InsertIfAbsent(table, batch))
  {
    assert RecordColumns == CorrectedColumns;
  }

  /** The repository over `downsampled_data`. */
  class DownsampledDataRepository {
    var rows: seq<AggRecord>

    ghost predicate Valid()
      reads this
    {
      UniqueKeys(rows)
    }

    constructor ()
      ensures Valid() && rows == []
    {
      rows := [];
    }

    /**
     * `insert_downsampled_data`: the whole batch inserted with conflict skipping, in one transaction;
     * a failed commit rolls the batch back and the error propagates.
     */
    method InsertDownsampledData(batch: seq<AggRecord>, commitFails: bool) returns (outcome: Outcome)
      requires Valid()
      modifies this
      ensures Valid()
      ensures commitFails ==> outcome == Failed(StorageFault) && rows == old(rows)
      ensures !commitFails ==> outcome == Done && rows == InsertIfAbsent(old(rows), batch)
    {
      var staged := rows;
      var i := 0;
      while i < |batch|
        invariant 0 <= i <= |batch|
        invariant InsertIfAbsent(staged, batch[i..]) == InsertIfAbsent(rows, batch)
      {
        assert batch[i..][0] == batch[i] && batch[i..][1..] == batch[i + 1..];
        if !HasKey(staged, batch[i].Key()) {
          staged := staged + [batch[i]];
        }
        i := i + 1;
      }
      assert staged == InsertIfAbsent(rows, batch);
      InsertIfAbsentUnique(rows, batch);
      if commitFails {
        outcome := Failed(StorageFault);
      } else {
        rows := staged;
        outcome := Done;
      }
    }
  }
}
