/**
 * Reading the postings of a query's tokens (`findIndexEntries`,
 * `findRowsToReadFromMetaData`, `findEntriesForMetadata`): the metadata row
 * of every token, the rows of postings chosen from them, and the postings
 * stored in those rows.
 */
module SearchIndex {
  import opened Wrappers
  import opened Seqs
  import opened EntityIds
  import opened SearchTypes
  import opened SearchRows

  /** One element of `lastReadSearchIndexRow`: a token and how far its rows have been read. */
  datatype TokenCursor = TokenCursor(token: string, cursor: Option<int>)

  /** `RowsToReadForIndexKey`. */
  datatype RowsToRead = RowsToRead(indexKey: string, rows: seq<MetaEntry>)

  /** The metadata row of the token at `index`, or an empty one when the word was never indexed. */
  function MetaRowOf(db: IndexDb, token: string, index: nat): MetaDataRow
  {
    var key := IndexKey(token);
    if key in db.metaData then db.metaData[key] else MetaDataRow(-(index as int), key, [])
  }

  /** The metadata rows of all tokens, in query order. */
  function MetaRows(db: IndexDb, tokens: seq<TokenCursor>): (r: seq<MetaDataRow>)
    ensures |r| == |tokens|
    ensures forall k :: 0 <= k < |tokens| ==> r[k] == MetaRowOf(db, tokens[k].token, k)
  {
    seq(|tokens|, k requires 0 <= k < |tokens| => MetaRowOf(db, tokens[k].token, k))
  }

  /** A token whose word was never indexed is marked as read completely. */
  function MarkMissing(db: IndexDb, t: TokenCursor): TokenCursor
  {
    if IndexKey(t.token) in db.metaData then t else TokenCursor(t.token, Some(0))
  }

  /** The rows the leading (first) token reads. */
  function LeadingRange(cursor: Option<int>, metaRows: seq<MetaDataRow>, typeRef: TypeRef, maxResults: Option<int>): RowsRange
    requires |metaRows| > 0
  {
    LeadingRows(RowsOfType(metaRows[0], typeRef), LeadingBound(cursor), maxResults)
  }

  /** The rows a token other than the leading one reads: those covering the leading rows' window. */
  function WindowRows(leading: RowsRange, metaRow: MetaDataRow, typeRef: TypeRef): seq<MetaEntry>
  {
    RowsInTimeRange(RowsOfType(metaRow, typeRef), leading.newestRowTimestamp, leading.oldestTimestamp)
  }

  /**
   * The rows every token reads, given the leading token's rows: the leading
   * token those rows, every other token the rows covering their time window.
   */
  function PlanRows(leading: RowsRange, metaRows: seq<MetaDataRow>, typeRef: TypeRef): (r: seq<RowsToRead>)
    requires |metaRows| > 0
    ensures |r| == |metaRows|
    ensures r[0] == RowsToRead(metaRows[0].word, leading.metaEntries)
    ensures forall k :: 0 < k < |metaRows| ==> r[k] == RowsToRead(metaRows[k].word, WindowRows(leading, metaRows[k], typeRef))
  {
    seq(|metaRows|, k requires 0 <= k < |metaRows| =>
      if k == 0 then RowsToRead(metaRows[0].word, leading.metaEntries)
      else RowsToRead(metaRows[k].word, WindowRows(leading, metaRows[k], typeRef)))
  }

  /** `findRowsToReadFromMetaData`; also returns the new cursor of the leading token. */
  method FindRowsToReadFromMetaData(firstCursor: Option<int>, metaRows: seq<MetaDataRow>, typeRef: TypeRef, maxResults: Option<int>)
    returns (rows: seq<RowsToRead>, newCursor: int)
    requires |metaRows| > 0
    ensures rows == PlanRows(LeadingRange(firstCursor, metaRows, typeRef, maxResults), metaRows, typeRef)
    ensures newCursor == LeadingRange(firstCursor, metaRows, typeRef, maxResults).oldestTimestamp
  {
    var range := FindRowsToRead(metaRows[0], typeRef, LeadingBound(firstCursor), maxResults);
    ghost var plan := PlanRows(range, metaRows, typeRef);
    rows := [RowsToRead(metaRows[0].word, range.metaEntries)];
    newCursor := range.oldestTimestamp;
    var k := 1;
    while k < |metaRows|
      invariant 1 <= k <= |metaRows|
      invariant rows == plan[..k]
    {
      var passed := FindRowsToReadByTimeRange(metaRows[k], typeRef, range.newestRowTimestamp, range.oldestTimestamp);
      assert plan[..k + 1] == plan[..k] + [plan[k]];
      rows := rows + [RowsToRead(metaRows[k].word, passed)];
      k := k + 1;
    }
    assert plan[..k] == plan;
  }

  /** The rows of a word for a type are exactly its stored rows of that type. */
  lemma RowsOfTypeMembers(metaData: MetaDataRow, typeRef: TypeRef, e: MetaEntry)
    ensures e in RowsOfType(metaData, typeRef) <==> e in metaData.rows && e.typeRef == typeRef
  {
    var filtered := Filter(metaData.rows, e => IsOfType(typeRef, e));
    assert e in RowsOfType(metaData, typeRef) <==> e in multiset(RowsOfType(metaData, typeRef));
    assert e in filtered <==> e in multiset(filtered);
  }

  /**
   * Every row a token reads is one of its word's stored rows of the searched
   * type; the leading token's rows are older than its cursor, and the other
   * tokens' rows older than the newest row the leading token skipped.
   */
  lemma PlanRowsSound(cursor: Option<int>, metaRows: seq<MetaDataRow>, typeRef: TypeRef, maxResults: Option<int>, k: nat, e: MetaEntry)
    requires k < |metaRows|
    requires e in PlanRows(LeadingRange(cursor, metaRows, typeRef, maxResults), metaRows, typeRef)[k].rows
    ensures e in metaRows[k].rows && e.typeRef == typeRef
    ensures k == 0 && Truthy(maxResults) ==> e.oldestElementTimestamp < LeadingBound(cursor)
    ensures k > 0 ==> e.oldestElementTimestamp < LeadingRange(cursor, metaRows, typeRef, maxResults).newestRowTimestamp
  {
    var leading := LeadingRange(cursor, metaRows, typeRef, maxResults);
    var rows := RowsOfType(metaRows[k], typeRef);
    if k == 0 {
      if Truthy(maxResults) {
        ReadLeadingOlderRows(rows, LeadingBound(cursor), 0, 0, MAX_SAFE_INTEGER);
      }
    } else {
      var passed := RowsInTimeRange(rows, leading.newestRowTimestamp, leading.oldestTimestamp);
      RowsInTimeRangeSound(rows, leading.newestRowTimestamp, leading.oldestTimestamp);
      SubsequenceMembers(passed, rows);
      var j :| 0 <= j < |passed| && passed[j] == e;
    }
    RowsOfTypeMembers(metaRows[k], typeRef, e);
  }

  /**
   * The other tokens cover the leading token's window: when their stored
   * rows are oldest first, every row of the searched type whose oldest
   * timestamp lies strictly inside the window is read.
   */
  lemma PlanRowsCoverWindow(cursor: Option<int>, metaRows: seq<MetaDataRow>, typeRef: TypeRef, maxResults: Option<int>, k: nat, e: MetaEntry)
    requires 0 < k < |metaRows|
    requires SortedAsc(metaRows[k].rows, Oldest)
    requires e in metaRows[k].rows && e.typeRef == typeRef
    requires var leading := LeadingRange(cursor, metaRows, typeRef, maxResults);
      leading.oldestTimestamp < e.oldestElementTimestamp < leading.newestRowTimestamp
    ensures e in PlanRows(LeadingRange(cursor, metaRows, typeRef, maxResults), metaRows, typeRef)[k].rows
  {
    var leading := LeadingRange(cursor, metaRows, typeRef, maxResults);
    var rows := RowsOfType(metaRows[k], typeRef);
    RowsOfTypeMembers(metaRows[k], typeRef, e);
    RowsOfTypeNewestFirst(metaRows[k], typeRef);
    RowsInTimeRangeCovers(rows, leading.newestRowTimestamp, leading.oldestTimestamp);
  }

  /** `findEntriesForMetadata`: the postings stored in one row, none when the row is missing. */
  function EntriesOfRow(db: IndexDb, entry: MetaEntry): seq<EncryptedEntry>
  {
    if entry.key in db.searchIndex then db.searchIndex[entry.key] else []
  }

  /** The postings of the rows, row after row. */
  function EntriesOfRows(db: IndexDb, rows: seq<MetaEntry>): seq<EncryptedEntry>
  {
    if rows == [] then [] else EntriesOfRow(db, rows[0]) + EntriesOfRows(db, rows[1..])
  }

  /** A posting read comes from one of the rows read. */
  lemma {:induction false} EntriesOfRowsFrom(db: IndexDb, rows: seq<MetaEntry>, x: EncryptedEntry)
    requires x in EntriesOfRows(db, rows)
    ensures exists e :: e in rows && e.key in db.searchIndex && x in db.searchIndex[e.key]
  {
    if x !in EntriesOfRow(db, rows[0]) {
      EntriesOfRowsFrom(db, rows[1..], x);
      var e :| e in rows[1..] && e.key in db.searchIndex && x in db.searchIndex[e.key];
      assert e in rows;
    }
  }

  /** Each posting paired with the hash of its encrypted id. */
  function WithHashes(entries: seq<EncryptedEntry>): (r: seq<EntryWithHash>)
    ensures |r| == |entries|
    ensures forall k :: 0 <= k < |entries| ==> r[k] == EntryWithHash(entries[k], IdHash(entries[k].encId))
  {
    seq(|entries|, k requires 0 <= k < |entries| => EntryWithHash(entries[k], IdHash(entries[k].encId)))
  }

  /** The postings every token reads under a plan, with their hashes. */
  function PostingsOf(db: IndexDb, plan: seq<RowsToRead>): (r: seq<KeyToEncrypted>)
    ensures |r| == |plan|
    ensures forall k :: 0 <= k < |plan| ==> r[k] == KeyToEncrypted(plan[k].indexKey, WithHashes(EntriesOfRows(db, plan[k].rows)))
  {
    seq(|plan|, k requires 0 <= k < |plan| => KeyToEncrypted(plan[k].indexKey, WithHashes(EntriesOfRows(db, plan[k].rows))))
  }

  /**
   * The cursors after reading: the leading token moves to the oldest
   * timestamp it read, and every token whose word was never indexed is
   * marked as read completely.
   */
  function CursorsAfterRead(db: IndexDb, tokens: seq<TokenCursor>, newCursor: int): (r: seq<TokenCursor>)
    requires |tokens| > 0
    ensures |r| == |tokens|
    ensures r[0] == TokenCursor(tokens[0].token, Some(newCursor))
    ensures forall k :: 0 < k < |tokens| ==> r[k] == MarkMissing(db, tokens[k])
    ensures forall k :: 0 <= k < |tokens| ==> r[k].token == tokens[k].token
  {
    seq(|tokens|, k requires 0 <= k < |tokens| => if k == 0 then TokenCursor(tokens[0].token, Some(newCursor)) else MarkMissing(db, tokens[k]))
  }

  /** The rows the leading token reads next, from where its cursor stands (never indexed: from the start). */
  function NextLeadingRange(db: IndexDb, tokens: seq<TokenCursor>, typeRef: TypeRef, maxResults: Option<int>): RowsRange
    requires |tokens| > 0
  {
    LeadingRange(MarkMissing(db, tokens[0]).cursor, MetaRows(db, tokens), typeRef, maxResults)
  }

  /** The postings one read of the index returns for the tokens, one entry per token in query order. */
  function IndexPostings(db: IndexDb, tokens: seq<TokenCursor>, typeRef: TypeRef, maxResults: Option<int>): (r: seq<KeyToEncrypted>)
    requires |tokens| > 0
    ensures |r| == |tokens|
  {
    PostingsOf(db, PlanRows(NextLeadingRange(db, tokens, typeRef, maxResults), MetaRows(db, tokens), typeRef))
  }
}
