/**
 * Choosing which rows of postings a search reads, from the per-word metadata
 * rows: the leading token's rows newest first until a budget of postings is
 * reached, and for every other token the rows that cover the time window the
 * leading token's rows span.
 */
module SearchRows {
  import opened Wrappers
  import opened Seqs
  import opened EntityIds
  import opened SearchTypes

  /** Number of postings after which the leading token's rows stop being read. */
  const ENTITIES_TO_READ_LIMIT: nat := 1000

  /** What `findRowsToRead` returns. */
  datatype RowsRange = RowsRange(metaEntries: seq<MetaEntry>, oldestTimestamp: int, newestRowTimestamp: int)

  function Oldest(e: MetaEntry): int
  {
    e.oldestElementTimestamp
  }

  predicate IsOfType(typeRef: TypeRef, e: MetaEntry)
  {
    e.typeRef == typeRef
  }

  predicate IsOlderThan(bound: int, e: MetaEntry)
  {
    e.oldestElementTimestamp < bound
  }

  /** The filter callback `r => r.oldestElementTimestamp < bound`. */
  function OlderThan(bound: int): MetaEntry -> bool
  {
    e => IsOlderThan(bound, e)
  }

  /** The rows of a word that hold postings of one type, newest first. */
  function RowsOfType(metaData: MetaDataRow, typeRef: TypeRef): seq<MetaEntry>
  {
    Reverse(Filter(metaData.rows, e => IsOfType(typeRef, e)))
  }

  /** Rows are stored oldest first, so that reading them reversed goes from newest to oldest. */
  lemma RowsOfTypeNewestFirst(metaData: MetaDataRow, typeRef: TypeRef)
    requires SortedAsc(metaData.rows, Oldest)
    ensures SortedDesc(RowsOfType(metaData, typeRef), Oldest)
  {
    FilterSortedAsc(metaData.rows, e => IsOfType(typeRef, e), Oldest);
    ReverseSortedAsc(Filter(metaData.rows, e => IsOfType(typeRef, e)), Oldest);
  }

  /** The number of postings in the given rows. */
  function SumSizes(rows: seq<MetaEntry>): nat
  {
    if rows == [] then 0 else rows[0].size + SumSizes(rows[1..])
  }

  /** The leading token reads rows older than its cursor, or all rows when the cursor is not truthy. */
  function LeadingBound(cursor: Option<int>): int
  {
    if Truthy(cursor) then cursor.value else MAX_SAFE_INTEGER
  }

  /** `r` with `prefix` read before its rows. */
  function Extend(prefix: seq<MetaEntry>, r: RowsRange): RowsRange
  {
    RowsRange(prefix + r.metaEntries, r.oldestTimestamp, r.newestRowTimestamp)
  }

  /**
   * Reading the leading token's remaining `rows` (newest first) with a
   * truthy `maxResults`, after `read` postings; `last` is the oldest timestamp
   * of the last row read and `newest` that of the last row skipped for not
   * being older than `bound`.
   */
  function ReadLeading(rows: seq<MetaEntry>, bound: int, read: nat, last: int, newest: int): RowsRange
  {
    if rows == [] then RowsRange([], last, newest)
    else if rows[0].oldestElementTimestamp < bound then
      if read < ENTITIES_TO_READ_LIMIT then
        Extend([rows[0]], ReadLeading(rows[1..], bound, read + rows[0].size, rows[0].oldestElementTimestamp, newest))
      else RowsRange([], last, newest)
    else ReadLeading(rows[1..], bound, read, last, rows[0].oldestElementTimestamp)
  }

  /** The rows `findRowsToRead` selects from the leading token's `rows` (newest first). */
  function LeadingRows(rows: seq<MetaEntry>, bound: int, maxResults: Option<int>): RowsRange
  {
    if Truthy(maxResults) then ReadLeading(rows, bound, 0, 0, MAX_SAFE_INTEGER)
    else RowsRange(rows, 0, MAX_SAFE_INTEGER)
  }

  /** Reading one more row before the rest. */
  lemma ExtendRow(prefix: seq<MetaEntry>, row: MetaEntry, r: RowsRange)
    ensures Extend(prefix + [row], r) == Extend(prefix, Extend([row], r))
  {
    AppendBefore(prefix, row, r.metaEntries);
  }

  /** `findRowsToRead`. */
  method FindRowsToRead(metaData: MetaDataRow, typeRef: TypeRef, mustBeOlderThan: int, maxResults: Option<int>)
    returns (r: RowsRange)
    ensures r == LeadingRows(RowsOfType(metaData, typeRef), mustBeOlderThan, maxResults)
  {
    var filteredRows := RowsOfType(metaData, typeRef);
    var entitiesToRead: nat := 0;
    var lastReadRowTimestamp := 0;
    var newestRowTimestamp := MAX_SAFE_INTEGER;
    var rowsToRead: seq<MetaEntry>;
    if Truthy(maxResults) {
      rowsToRead := [];
      var i := 0;
      while i < |filteredRows|
        invariant 0 <= i <= |filteredRows|
        invariant Extend(rowsToRead, ReadLeading(filteredRows[i..], mustBeOlderThan, entitiesToRead, lastReadRowTimestamp, newestRowTimestamp))
          == ReadLeading(filteredRows, mustBeOlderThan, 0, 0, MAX_SAFE_INTEGER)
      {
        var row := filteredRows[i];
        assert filteredRows[i..][1..] == filteredRows[i + 1..];
        if row.oldestElementTimestamp < mustBeOlderThan {
          if entitiesToRead < ENTITIES_TO_READ_LIMIT {
            ExtendRow(rowsToRead, row, ReadLeading(filteredRows[i + 1..], mustBeOlderThan, entitiesToRead + row.size, row.oldestElementTimestamp, newestRowTimestamp));
            entitiesToRead := entitiesToRead + row.size;
            lastReadRowTimestamp := row.oldestElementTimestamp;
            rowsToRead := rowsToRead + [row];
          } else {
            break;
          }
        } else {
          newestRowTimestamp := row.oldestElementTimestamp;
        }
        i := i + 1;
      }
      assert rowsToRead + [] == rowsToRead;
    } else {
      rowsToRead := filteredRows;
    }
    r := RowsRange(rowsToRead, lastReadRowTimestamp, newestRowTimestamp);
  }

  /** The rows read are a prefix of the rows older than `bound`, in their order. */
  lemma {:induction false} ReadLeadingPrefix(rows: seq<MetaEntry>, bound: int, read: nat, last: int, newest: int)
    ensures ReadLeading(rows, bound, read, last, newest).metaEntries <= Filter(rows, OlderThan(bound))
  {
    if rows != [] {
      var row := rows[0];
      if row.oldestElementTimestamp < bound {
        assert Filter(rows, OlderThan(bound)) == [row] + Filter(rows[1..], OlderThan(bound));
        if read < ENTITIES_TO_READ_LIMIT {
          var rest := ReadLeading(rows[1..], bound, read + row.size, row.oldestElementTimestamp, newest);
          ReadLeadingPrefix(rows[1..], bound, read + row.size, row.oldestElementTimestamp, newest);
          assert ReadLeading(rows, bound, read, last, newest).metaEntries == [row] + rest.metaEntries;
        }
      } else {
        assert Filter(rows, OlderThan(bound)) == Filter(rows[1..], OlderThan(bound));
        ReadLeadingPrefix(rows[1..], bound, read, last, row.oldestElementTimestamp);
      }
    }
  }

  /** Every row of `entries` is reached with fewer than `ENTITIES_TO_READ_LIMIT` postings read after `read`. */
  predicate WithinBudget(read: nat, entries: seq<MetaEntry>)
  {
    forall k :: 0 <= k < |entries| ==> read + SumSizes(entries[..k]) < ENTITIES_TO_READ_LIMIT
  }

  lemma WithinBudgetCons(read: nat, row: MetaEntry, rest: seq<MetaEntry>)
    requires read < ENTITIES_TO_READ_LIMIT && WithinBudget(read + row.size, rest)
    ensures WithinBudget(read, [row] + rest)
  {
    var entries := [row] + rest;
    forall k | 0 <= k < |entries|
      ensures read + SumSizes(entries[..k]) < ENTITIES_TO_READ_LIMIT
    {
      if k > 0 {
        assert entries[..k][1..] == rest[..k - 1];
        assert read + row.size + SumSizes(rest[..k - 1]) < ENTITIES_TO_READ_LIMIT;
      } else {
        assert entries[..k] == [];
      }
    }
  }

  /**
   * A row is read only while fewer than `ENTITIES_TO_READ_LIMIT` postings have
   * been read before it.
   */
  lemma {:induction false} ReadLeadingWithinBudget(rows: seq<MetaEntry>, bound: int, read: nat, last: int, newest: int)
    ensures WithinBudget(read, ReadLeading(rows, bound, read, last, newest).metaEntries)
  {
    if rows != [] {
      var row := rows[0];
      if row.oldestElementTimestamp < bound {
        if read < ENTITIES_TO_READ_LIMIT {
          var rest := ReadLeading(rows[1..], bound, read + row.size, row.oldestElementTimestamp, newest);
          ReadLeadingWithinBudget(rows[1..], bound, read + row.size, row.oldestElementTimestamp, newest);
          WithinBudgetCons(read, row, rest.metaEntries);
        }
      } else {
        ReadLeadingWithinBudget(rows[1..], bound, read, last, row.oldestElementTimestamp);
      }
    }
  }

  /**
   * Reading stops before the last row older than `bound` only once the budget
   * of postings is used up.
   */
  lemma {:induction false} ReadLeadingStopsOnBudget(rows: seq<MetaEntry>, bound: int, read: nat, last: int, newest: int)
    ensures var r := ReadLeading(rows, bound, read, last, newest);
      r.metaEntries == Filter(rows, OlderThan(bound)) || read + SumSizes(r.metaEntries) >= ENTITIES_TO_READ_LIMIT
  {
    if rows != [] {
      var row := rows[0];
      if row.oldestElementTimestamp < bound {
        if read < ENTITIES_TO_READ_LIMIT {
          var rest := ReadLeading(rows[1..], bound, read + row.size, row.oldestElementTimestamp, newest);
          ReadLeadingStopsOnBudget(rows[1..], bound, read + row.size, row.oldestElementTimestamp, newest);
          assert SumSizes([row] + rest.metaEntries) == row.size + SumSizes(rest.metaEntries);
        }
      } else {
        ReadLeadingStopsOnBudget(rows[1..], bound, read, last, row.oldestElementTimestamp);
      }
    }
  }

  /**
   * The oldest timestamp reported is that of the last row read, and the
   * newest one that of a row skipped for not being older than `bound`.
   */
  lemma {:induction false} ReadLeadingTimestamps(rows: seq<MetaEntry>, bound: int, read: nat, last: int, newest: int)
    ensures var r := ReadLeading(rows, bound, read, last, newest);
      r.oldestTimestamp == if r.metaEntries == [] then last else Oldest(r.metaEntries[|r.metaEntries| - 1])
    ensures var r := ReadLeading(rows, bound, read, last, newest);
      r.newestRowTimestamp == newest || r.newestRowTimestamp >= bound
  {
    if rows != [] {
      var row := rows[0];
      if row.oldestElementTimestamp < bound {
        if read < ENTITIES_TO_READ_LIMIT {
          ReadLeadingTimestamps(rows[1..], bound, read + row.size, row.oldestElementTimestamp, newest);
        }
      } else {
        ReadLeadingTimestamps(rows[1..], bound, read, last, row.oldestElementTimestamp);
      }
    }
  }

  /** The rows read are rows of the word older than `bound`. */
  lemma {:induction false} ReadLeadingOlderRows(rows: seq<MetaEntry>, bound: int, read: nat, last: int, newest: int)
    ensures forall e :: e in ReadLeading(rows, bound, read, last, newest).metaEntries ==> e in rows && IsOlderThan(bound, e)
  {
    if rows != [] {
      var row := rows[0];
      assert forall e :: e in rows[1..] ==> e in rows;
      if row.oldestElementTimestamp < bound {
        if read < ENTITIES_TO_READ_LIMIT {
          ReadLeadingOlderRows(rows[1..], bound, read + row.size, row.oldestElementTimestamp, newest);
        }
      } else {
        ReadLeadingOlderRows(rows[1..], bound, read, last, row.oldestElementTimestamp);
      }
    }
  }

  /** When the word's rows are newest first, so are the rows read. */
  lemma {:induction false} ReadLeadingNewestFirst(rows: seq<MetaEntry>, bound: int, read: nat, last: int, newest: int)
    requires SortedDesc(rows, Oldest)
    ensures SortedDesc(ReadLeading(rows, bound, read, last, newest).metaEntries, Oldest)
  {
    if rows != [] {
      var row := rows[0];
      assert SortedDesc(rows[1..], Oldest);
      if row.oldestElementTimestamp < bound {
        if read < ENTITIES_TO_READ_LIMIT {
          var rest := ReadLeading(rows[1..], bound, read + row.size, row.oldestElementTimestamp, newest);
          ReadLeadingNewestFirst(rows[1..], bound, read + row.size, row.oldestElementTimestamp, newest);
          ReadLeadingOlderRows(rows[1..], bound, read + row.size, row.oldestElementTimestamp, newest);
          assert forall e :: e in rest.metaEntries ==> Oldest(row) >= Oldest(e);
        }
      } else {
        ReadLeadingNewestFirst(rows[1..], bound, read, last, row.oldestElementTimestamp);
      }
    }
  }

  /**
   * Paging through the leading token's rows: the next page reads older than
   * the cursor the previous page recorded. While that cursor is not 0, the
   * next page reads none of the rows the previous page read; a cursor of 0
   * (nothing older was read) is not truthy, and the next page starts over
   * from the newest rows.
   */
  lemma {:induction false} NextPageReadsNewRows(rows: seq<MetaEntry>, bound: int, maxResults: Option<int>)
    requires SortedDesc(rows, Oldest)
    requires Truthy(maxResults)
    ensures var first := LeadingRows(rows, bound, maxResults);
      var next := LeadingRows(rows, LeadingBound(Some(first.oldestTimestamp)), maxResults);
      && (first.oldestTimestamp != 0 ==> forall e :: e in next.metaEntries ==> e !in first.metaEntries)
      && (first.oldestTimestamp == 0 ==> next == LeadingRows(rows, MAX_SAFE_INTEGER, maxResults))
  {
    var first := LeadingRows(rows, bound, maxResults);
    ReadLeadingNewestFirst(rows, bound, 0, 0, MAX_SAFE_INTEGER);
    ReadLeadingOlderRows(rows, first.oldestTimestamp, 0, 0, MAX_SAFE_INTEGER);
    ReadLeadingTimestamps(rows, bound, 0, 0, MAX_SAFE_INTEGER);
  }

  /**
   * Reading another token's remaining `rows` (newest first) for the window
   * from `fromNewest` down to `toOldest`: the rows older than `fromNewest`, up
   * to and including the first one that reaches down to `toOldest`.
   */
  function RowsInTimeRange(rows: seq<MetaEntry>, fromNewest: int, toOldest: int): seq<MetaEntry>
  {
    if rows == [] then []
    else if rows[0].oldestElementTimestamp < fromNewest then
      if rows[0].oldestElementTimestamp <= toOldest then [rows[0]]
      else [rows[0]] + RowsInTimeRange(rows[1..], fromNewest, toOldest)
    else RowsInTimeRange(rows[1..], fromNewest, toOldest)
  }

  /** `findRowsToReadByTimeRange`. */
  method FindRowsToReadByTimeRange(metaData: MetaDataRow, typeRef: TypeRef, fromNewestTimestamp: int, toOldestTimestamp: int)
    returns (passedRows: seq<MetaEntry>)
    ensures passedRows == RowsInTimeRange(RowsOfType(metaData, typeRef), fromNewestTimestamp, toOldestTimestamp)
  {
    var filteredRows := RowsOfType(metaData, typeRef);
    passedRows := [];
    var i := 0;
    while i < |filteredRows|
      invariant 0 <= i <= |filteredRows|
      invariant passedRows + RowsInTimeRange(filteredRows[i..], fromNewestTimestamp, toOldestTimestamp)
        == RowsInTimeRange(filteredRows, fromNewestTimestamp, toOldestTimestamp)
    {
      var row := filteredRows[i];
      assert filteredRows[i..][1..] == filteredRows[i + 1..];
      if row.oldestElementTimestamp < fromNewestTimestamp {
        AppendBefore(passedRows, row, RowsInTimeRange(filteredRows[i + 1..], fromNewestTimestamp, toOldestTimestamp));
        passedRows := passedRows + [row];
        if row.oldestElementTimestamp <= toOldestTimestamp {
          break;
        }
      }
      i := i + 1;
    }
    assert passedRows + [] == passedRows;
  }

  /**
   * The rows read for the window are rows of the word older than
   * `fromNewest`, in order, and all but the last are newer than `toOldest`.
   */
  lemma {:induction false} RowsInTimeRangeSound(rows: seq<MetaEntry>, fromNewest: int, toOldest: int)
    ensures var passed := RowsInTimeRange(rows, fromNewest, toOldest);
      && IsSubsequence(passed, rows)
      && (forall k :: 0 <= k < |passed| ==> passed[k].oldestElementTimestamp < fromNewest)
      && (forall k :: 0 <= k < |passed| - 1 ==> passed[k].oldestElementTimestamp > toOldest)
  {
    if rows != [] {
      RowsInTimeRangeSound(rows[1..], fromNewest, toOldest);
      var rest := RowsInTimeRange(rows[1..], fromNewest, toOldest);
      if rows[0].oldestElementTimestamp < fromNewest && rows[0].oldestElementTimestamp > toOldest {
        var passed := [rows[0]] + rest;
        assert forall k :: 1 <= k < |passed| ==> passed[k] == rest[k - 1];
      }
    }
  }

  /**
   * The rows read for the window cover it: every row whose oldest timestamp
   * lies strictly between `toOldest` and `fromNewest` is read.
   */
  lemma {:induction false} RowsInTimeRangeCovers(rows: seq<MetaEntry>, fromNewest: int, toOldest: int)
    requires SortedDesc(rows, Oldest)
    ensures forall e :: e in rows && toOldest < e.oldestElementTimestamp < fromNewest ==>
      e in RowsInTimeRange(rows, fromNewest, toOldest)
  {
    if rows != [] {
      assert SortedDesc(rows[1..], Oldest);
      RowsInTimeRangeCovers(rows[1..], fromNewest, toOldest);
      forall e | e in rows && toOldest < e.oldestElementTimestamp < fromNewest
        ensures e in RowsInTimeRange(rows, fromNewest, toOldest)
      {
        if e != rows[0] {
          assert e in rows[1..];
        }
      }
    }
  }
}
