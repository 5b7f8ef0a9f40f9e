/**
 * `SearchFacade`: running a query over the encrypted search index and paging
 * through its results, with completion of the last word from the suggestion
 * tables. A `SearchResult` is the state of one search; every page extends it
 * in place.
 */
module Search {
  import opened Wrappers
  import opened Seqs
  import opened EntityIds
  import opened SearchTypes
  import opened SearchIndex
  import opened SearchFilters
  import opened SearchReduce
  import opened SearchPipeline
  import opened SearchPages
  import opened SearchSuggest
  import opened Tokenizer
  import Suggestions

  /** `SearchResult`: the query, its restriction, the ids found so far and where to continue. */
  class SearchResult {
    const query: string
    const restriction: SearchRestriction
    /** The ids found, in the order the pages found them. */
    var results: seq<IdTuple>
    const currentIndexTimestamp: int
    /** Every token of the query and how far its rows have been read. */
    var lastReadSearchIndexRow: seq<TokenCursor>
    const matchWordOrder: bool
    /** Postings found but not yet turned into results, newest first. */
    var moreResults: seq<DecryptedEntry>

    constructor (query: string, restriction: SearchRestriction, results: seq<IdTuple>, currentIndexTimestamp: int,
                 lastReadSearchIndexRow: seq<TokenCursor>, matchWordOrder: bool)
      ensures this.query == query && this.restriction == restriction && this.results == results
      ensures this.currentIndexTimestamp == currentIndexTimestamp
      ensures this.lastReadSearchIndexRow == lastReadSearchIndexRow && this.matchWordOrder == matchWordOrder
      ensures moreResults == []
    {
      this.query := query;
      this.restriction := restriction;
      this.results := results;
      this.currentIndexTimestamp := currentIndexTimestamp;
      this.lastReadSearchIndexRow := lastReadSearchIndexRow;
      this.matchWordOrder := matchWordOrder;
      moreResults := [];
    }
  }

  /** A query of more than one token between double quotes asks for its words in order. */
  predicate IsPhraseQuery(query: string)
  {
    |Tokenize(query)| > 1 && |query| > 0 && query[0] == '"' && query[|query| - 1] == '"'
  }

  /** The cursors of a new search: every token, nothing read yet. */
  function FreshCursors(tokens: seq<string>): (r: seq<TokenCursor>)
    ensures |r| == |tokens|
    ensures forall k :: 0 <= k < |tokens| ==> r[k] == TokenCursor(tokens[k], None)
  {
    seq(|tokens|, k requires 0 <= k < |tokens| => TokenCursor(tokens[k], None))
  }

  /** The first suggestion facade for the type, if there is one. */
  function FacadeFor(facades: seq<Suggestions.SuggestionFacade>, typeRef: TypeRef): (r: Option<Suggestions.SuggestionFacade>)
    ensures r.Some? ==> r.value in facades && r.value.typeRef == typeRef
    ensures r.Some? ==> exists i :: 0 <= i < |facades| && facades[i] == r.value && forall j :: 0 <= j < i ==> facades[j].typeRef != typeRef
    ensures r.None? ==> forall f :: f in facades ==> f.typeRef != typeRef
  {
    if facades == [] then None
    else if facades[0].typeRef == typeRef then Some(facades[0])
    else
      var r := FacadeFor(facades[1..], typeRef);
      if r.Some? then
        ghost var i :| 0 <= i < |facades[1..]| && facades[1..][i] == r.value && forall j :: 0 <= j < i ==> facades[1..][j].typeRef != typeRef;
        assert facades[i + 1] == r.value;
        assert forall j :: 1 <= j < i + 1 ==> facades[j] == facades[1..][j - 1];
        r
      else r
  }

  /** The ids kept before, followed by the outcome of the rest. */
  function Prepend(acc: seq<IdTuple>, r: Result<seq<IdTuple>, LoadError>): Result<seq<IdTuple>, LoadError>
  {
    match r
    case Ok(rest) => Ok(acc + rest)
    case Err(e) => Err(e)
  }

  /** A page takes its postings from the left-over ones alone, without reading the index. */
  predicate UsesLeftOver(maxResults: Option<int>, moreResults: seq<DecryptedEntry>)
  {
    Truthy(maxResults) && |moreResults| >= maxResults.value
  }

  class SearchFacade {
    /** What the read transactions see of the index database. */
    const db: IndexDb
    /** `mailIndexer.currentIndexTimestamp`. */
    const mailIndexTimestamp: int
    const suggestionFacades: seq<Suggestions.SuggestionFacade>
    /** What `entityClient.load` returns, by type and id. */
    const entities: map<(TypeRef, IdTuple), Result<Entity, LoadError>>
    /** What `entityClient.load(MailTypeRef, id)` returns. */
    const mails: map<IdTuple, Result<Mail, LoadError>>

    constructor (db: IndexDb, mailIndexTimestamp: int, suggestionFacades: seq<Suggestions.SuggestionFacade>,
                 entities: map<(TypeRef, IdTuple), Result<Entity, LoadError>>, mails: map<IdTuple, Result<Mail, LoadError>>)
      ensures this.db == db && this.mailIndexTimestamp == mailIndexTimestamp && this.suggestionFacades == suggestionFacades
      ensures this.entities == entities && this.mails == mails
    {
      this.db := db;
      this.mailIndexTimestamp := mailIndexTimestamp;
      this.suggestionFacades := suggestionFacades;
      this.entities := entities;
      this.mails := mails;
    }

    /**
     * `findIndexEntries`: the postings every token reads, with the cursors
     * moved on; only the token cursors of the search change.
     */
    method FindIndexEntries(sr: SearchResult, maxResults: Option<int>) returns (r: seq<KeyToEncrypted>)
      requires |sr.lastReadSearchIndexRow| > 0
      modifies sr
      ensures sr.results == old(sr.results) && sr.moreResults == old(sr.moreResults)
      ensures var tokens := old(sr.lastReadSearchIndexRow);
        && r == IndexPostings(db, tokens, sr.restriction.typeRef, maxResults)
        && sr.lastReadSearchIndexRow == CursorsAfterRead(db, tokens, NextLeadingRange(db, tokens, sr.restriction.typeRef, maxResults).oldestTimestamp)
    {
      var tokens := sr.lastReadSearchIndexRow;
      var metaRows: seq<MetaDataRow> := [];
      var k := 0;
      while k < |tokens|
        invariant 0 <= k <= |tokens|
        invariant |metaRows| == k
        invariant forall j :: 0 <= j < k ==> metaRows[j] == MetaRowOf(db, tokens[j].token, j)
        invariant |sr.lastReadSearchIndexRow| == |tokens|
        invariant forall j :: 0 <= j < |tokens| ==>
          sr.lastReadSearchIndexRow[j] == if j < k then MarkMissing(db, tokens[j]) else tokens[j]
        invariant sr.results == old(sr.results) && sr.moreResults == old(sr.moreResults)
      {
        var indexKey := IndexKey(tokens[k].token);
        if indexKey in db.metaData {
          metaRows := metaRows + [db.metaData[indexKey]];
        } else {
          sr.lastReadSearchIndexRow := sr.lastReadSearchIndexRow[k := TokenCursor(tokens[k].token, Some(0))];
          metaRows := metaRows + [MetaDataRow(-k, indexKey, [])];
        }
        k := k + 1;
      }
      assert metaRows == MetaRows(db, tokens);
      var rowsToRead, newCursor := FindRowsToReadFromMetaData(sr.lastReadSearchIndexRow[0].cursor, metaRows, sr.restriction.typeRef, maxResults);
      sr.lastReadSearchIndexRow := sr.lastReadSearchIndexRow[0 := TokenCursor(tokens[0].token, Some(newCursor))];
      assert sr.lastReadSearchIndexRow == CursorsAfterRead(db, tokens, newCursor);
      r := PostingsOf(db, rowsToRead);
    }

    /** The processed postings as ids, in order, skipping those without element data. */
    method ResolveIds(processed: seq<DecryptedEntry>) returns (intermediate: seq<IdTuple>)
      ensures intermediate == Resolved(db.elementData, processed)
    {
      intermediate := [];
      var i := 0;
      while i < |processed|
        invariant 0 <= i <= |processed|
        invariant intermediate + Resolved(db.elementData, processed[i..]) == Resolved(db.elementData, processed)
      {
        assert processed[i..][1..] == processed[i + 1..];
        var entry := processed[i];
        if entry.encId in db.elementData {
          intermediate := intermediate + [IdTuple(db.elementData[entry.encId], entry.id)];
        }
        i := i + 1;
      }
      assert intermediate + [] == intermediate;
    }

    /** The ids of the mails in one of the folders, in order; a load error other than "not found" ends it. */
    method FilterByFolders(intermediate: seq<IdTuple>, folderIds: seq<Id>) returns (r: Result<seq<IdTuple>, LoadError>)
      ensures r == MailsInFolders(mails, intermediate, folderIds)
    {
      var newResults: seq<IdTuple> := [];
      var j := 0;
      assert intermediate[0..] == intermediate;
      var all := MailsInFolders(mails, intermediate, folderIds);
      assert all.Ok? ==> [] + all.value == all.value;
      while j < |intermediate|
        invariant 0 <= j <= |intermediate|
        invariant MailsInFolders(mails, intermediate, folderIds) == Prepend(newResults, MailsInFolders(mails, intermediate[j..], folderIds))
      {
        assert intermediate[j..][1..] == intermediate[j + 1..];
        var rest := MailsInFolders(mails, intermediate[j + 1..], folderIds);
        var load := LoadMail(mails, intermediate[j]);
        if load.Err? {
          if load.error != NotFoundError {
            return Err(load.error);
          }
        } else {
          var kept := if InFolders(load.value, folderIds) then [load.value.id] else [];
          assert rest.Ok? ==> newResults + (kept + rest.value) == (newResults + kept) + rest.value;
          newResults := newResults + kept;
        }
        j := j + 1;
      }
      assert newResults + [] == newResults;
      r := Ok(newResults);
    }

    /**
     * `filterByListIdAndGroupSearchResults`: the postings are put newest
     * first; the first page of them is turned into ids and appended to the
     * results, the rest become the postings left for the next page. A load
     * error other than "not found" leaves the search as it was.
     */
    method FilterByListIdAndGroupSearchResults(indexEntries: seq<DecryptedEntry>, sr: SearchResult, maxResults: Option<int>)
      returns (outcome: Outcome<LoadError>)
      modifies sr
      ensures sr.lastReadSearchIndexRow == old(sr.lastReadSearchIndexRow)
      ensures PageOutcome(db.elementData, mails, indexEntries, sr.restriction.folderIds, maxResults,
                          old(sr.results), old(sr.moreResults), outcome, sr.results, sr.moreResults)
    {
      var sorted := SortDesc(indexEntries, EntryId);
      var n := SliceEnd(|sorted|, maxResults);
      var intermediate := ResolveIds(sorted[..n]);
      var newResults: Result<seq<IdTuple>, LoadError>;
      if sr.restriction.folderIds == [] {
        newResults := Ok(intermediate);
      } else {
        newResults := FilterByFolders(intermediate, sr.restriction.folderIds);
      }
      if newResults.Err? {
        return Fail(newResults.error);
      }
      sr.results := sr.results + newResults.value;
      sr.moreResults := sorted[n..];
      outcome := Pass;
    }

    /**
     * The postings a page takes when it reads the index: the postings the
     * tokens read from where their cursors stand, run through every stage,
     * before the postings left over from the page before.
     */
    function PageEntries(tokens: seq<TokenCursor>, restriction: SearchRestriction, matchWordOrder: bool,
                         results: seq<IdTuple>, moreResults: seq<DecryptedEntry>, maxResults: Option<int>, now: int): seq<DecryptedEntry>
      requires |tokens| > 0 || UsesLeftOver(maxResults, moreResults)
    {
      if UsesLeftOver(maxResults, moreResults) then moreResults
      else ReducedPostings(IndexPostings(db, tokens, restriction.typeRef, maxResults), restriction, matchWordOrder, mailIndexTimestamp, now, results)
           + moreResults
    }

    /**
     * One page taken from a search whose state was (`tokens0`, `results0`,
     * `more0`) and now is (`tokens`, `results`, `more`): the cursors moved on
     * when the index was read, the page's postings newest first, the first
     * `maxResults` of them turned into ids and appended to the results, the
     * rest left over; a load error keeps results and left-over postings.
     * A search without tokens that has to read the index fails before it
     * changes anything (reading the index needs a leading token).
     */
    ghost predicate PageTaken(tokens0: seq<TokenCursor>, results0: seq<IdTuple>, more0: seq<DecryptedEntry>,
                              restriction: SearchRestriction, matchWordOrder: bool, maxResults: Option<int>, now: int,
                              outcome: Outcome<LoadError>, tokens: seq<TokenCursor>, results: seq<IdTuple>, more: seq<DecryptedEntry>)
    {
      if tokens0 == [] && !UsesLeftOver(maxResults, more0) then
        outcome == Fail(OtherError) && tokens == tokens0 && results == results0 && more == more0
      else
        && tokens == (if UsesLeftOver(maxResults, more0) then tokens0
                      else CursorsAfterRead(db, tokens0, NextLeadingRange(db, tokens0, restriction.typeRef, maxResults).oldestTimestamp))
        && PageOutcome(db.elementData, mails, PageEntries(tokens0, restriction, matchWordOrder, results0, more0, maxResults, now),
                       restriction.folderIds, maxResults, results0, more0, outcome, results, more)
    }

    /**
     * What every page keeps: results are only appended, at most `maxResults`
     * of them when that is positive; the left-over postings are newest
     * first; a failed page, which only a load error other than "not found"
     * causes, changes neither the results nor the left-over postings; the
     * tokens stay the same, and when enough postings were left over the
     * cursors do not move.
     */
    lemma PageTakenKeeps(tokens0: seq<TokenCursor>, results0: seq<IdTuple>, more0: seq<DecryptedEntry>,
                         restriction: SearchRestriction, matchWordOrder: bool, maxResults: Option<int>, now: int,
                         outcome: Outcome<LoadError>, tokens: seq<TokenCursor>, results: seq<IdTuple>, more: seq<DecryptedEntry>)
      requires PageTaken(tokens0, results0, more0, restriction, matchWordOrder, maxResults, now, outcome, tokens, results, more)
      ensures outcome.Pass? ==> results0 <= results
      ensures outcome.Pass? && Truthy(maxResults) && maxResults.value > 0 ==> |results| <= |results0| + maxResults.value
      ensures outcome.Pass? ==> SortedDesc(more, EntryId)
      ensures outcome.Fail? ==> outcome.error != NotFoundError && results == results0 && more == more0
      ensures |tokens| == |tokens0|
      ensures forall k :: 0 <= k < |tokens| ==> tokens[k].token == tokens0[k].token
      ensures Truthy(maxResults) && |more0| >= maxResults.value ==> tokens == tokens0
    {
      if tokens0 != [] || UsesLeftOver(maxResults, more0) {
        var entries := PageEntries(tokens0, restriction, matchWordOrder, results0, more0, maxResults, now);
        PageOutcomeBounds(db.elementData, mails, entries, restriction.folderIds, maxResults, results0, more0, outcome, results, more);
      }
    }

    /** The pipeline that turns the postings read for the tokens into new postings; it moves the cursors on. */
    method ReadPostings(sr: SearchResult, maxResults: Option<int>, now: int) returns (entries: seq<DecryptedEntry>)
      requires |sr.lastReadSearchIndexRow| > 0
      modifies sr
      ensures sr.results == old(sr.results) && sr.moreResults == old(sr.moreResults)
      ensures var tokens := old(sr.lastReadSearchIndexRow);
        && sr.lastReadSearchIndexRow == CursorsAfterRead(db, tokens, NextLeadingRange(db, tokens, sr.restriction.typeRef, maxResults).oldestTimestamp)
        && entries == ReducedPostings(IndexPostings(db, tokens, sr.restriction.typeRef, maxResults), sr.restriction, sr.matchWordOrder,
                                      mailIndexTimestamp, now, sr.results)
      ensures forall e :: e in entries ==> !FoundBefore(sr.results, e.id)
    {
      var keyToEncrypted := FindIndexEntries(sr, maxResults);
      entries := ReducePostings(keyToEncrypted, sr.restriction, sr.matchWordOrder, mailIndexTimestamp, now, sr.results);
      ReducedPostingsSound(keyToEncrypted, sr.restriction, sr.matchWordOrder, mailIndexTimestamp, now, sr.results);
    }

    /**
     * The postings of the next page: the left-over ones alone when there are
     * enough of them, otherwise the index is read (moving the cursors on)
     * and its new postings come before the left-over ones. Reading the index
     * for a search without tokens fails, and nothing changes.
     */
    method PagePostings(sr: SearchResult, maxResults: Option<int>, now: int) returns (entries: Result<seq<DecryptedEntry>, LoadError>)
      modifies sr
      ensures sr.results == old(sr.results) && sr.moreResults == old(sr.moreResults)
      ensures var tokens := old(sr.lastReadSearchIndexRow);
        if tokens == [] && !UsesLeftOver(maxResults, sr.moreResults) then
          entries == Err(OtherError) && sr.lastReadSearchIndexRow == tokens
        else
          && entries == Ok(PageEntries(tokens, sr.restriction, sr.matchWordOrder, sr.results, sr.moreResults, maxResults, now))
          && sr.lastReadSearchIndexRow == if UsesLeftOver(maxResults, sr.moreResults) then tokens
                                          else CursorsAfterRead(db, tokens, NextLeadingRange(db, tokens, sr.restriction.typeRef, maxResults).oldestTimestamp)
    {
      if UsesLeftOver(maxResults, sr.moreResults) {
        entries := Ok(sr.moreResults);
      } else if sr.lastReadSearchIndexRow == [] {
        entries := Err(OtherError);
      } else {
        var additional := ReadPostings(sr, maxResults, now);
        entries := Ok(additional + sr.moreResults);
      }
    }

    /**
     * `startOrContinueSearch`: one page of results. Results are only ever
     * appended, at most `maxResults` of them when that is positive; the
     * postings left over stay newest first; a failed page changes neither
     * the results nor the left-over postings. When enough postings are left
     * over, the index is not read at all.
     */
    method StartOrContinueSearch(sr: SearchResult, maxResults: Option<int>, now: int) returns (outcome: Outcome<LoadError>)
      modifies sr
      ensures PageTaken(old(sr.lastReadSearchIndexRow), old(sr.results), old(sr.moreResults), sr.restriction, sr.matchWordOrder, maxResults, now,
                        outcome, sr.lastReadSearchIndexRow, sr.results, sr.moreResults)
      ensures outcome.Pass? ==> old(sr.results) <= sr.results
      ensures outcome.Pass? && Truthy(maxResults) && maxResults.value > 0 ==> |sr.results| <= |old(sr.results)| + maxResults.value
      ensures outcome.Pass? ==> SortedDesc(sr.moreResults, EntryId)
      ensures outcome.Fail? ==> outcome.error != NotFoundError && sr.results == old(sr.results) && sr.moreResults == old(sr.moreResults)
      ensures |sr.lastReadSearchIndexRow| == |old(sr.lastReadSearchIndexRow)|
      ensures forall k :: 0 <= k < |sr.lastReadSearchIndexRow| ==> sr.lastReadSearchIndexRow[k].token == old(sr.lastReadSearchIndexRow)[k].token
      ensures Truthy(maxResults) && |old(sr.moreResults)| >= maxResults.value ==> sr.lastReadSearchIndexRow == old(sr.lastReadSearchIndexRow)
    {
      ghost var tokens0, results0, more0 := sr.lastReadSearchIndexRow, sr.results, sr.moreResults;
      var entries := PagePostings(sr, maxResults, now);
      if entries.Err? {
        outcome := Fail(entries.error);
      } else {
        outcome := FilterByListIdAndGroupSearchResults(entries.value, sr, maxResults);
      }
      PageTakenKeeps(tokens0, results0, more0, sr.restriction, sr.matchWordOrder, maxResults, now, outcome, sr.lastReadSearchIndexRow, sr.results, sr.moreResults);
    }

    /**
     * `addSuggestions`: searches every suggested completion of the token, in
     * order, as long as fewer than `minSuggestionCount` results are found;
     * every such search appends to the same results (they share the array).
     */
    method AddSuggestions(searchToken: string, facade: Suggestions.SuggestionFacade, minSuggestionCount: int, sr: SearchResult, now: int)
      returns (outcome: Outcome<LoadError>)
      modifies sr
      ensures old(sr.results) <= sr.results
      ensures sr.lastReadSearchIndexRow == old(sr.lastReadSearchIndexRow) && sr.moreResults == old(sr.moreResults)
    {
      var suggestions := facade.GetSuggestions(searchToken);
      outcome := Pass;
      var i := 0;
      while i < |suggestions|
        invariant 0 <= i <= |suggestions|
        invariant old(sr.results) <= sr.results
        invariant sr.lastReadSearchIndexRow == old(sr.lastReadSearchIndexRow) && sr.moreResults == old(sr.moreResults)
      {
        if |sr.results| < minSuggestionCount {
          var suggestion := suggestions[i];
          var suggestionResult := new SearchResult(suggestion, sr.restriction, sr.results, sr.currentIndexTimestamp,
                                                   [TokenCursor(suggestion, None)], false);
          outcome := StartOrContinueSearch(suggestionResult, None, now);
          sr.results := suggestionResult.results;
          if outcome.Fail? {
            return;
          }
        }
        i := i + 1;
      }
    }

    /**
     * `loadAndReduce`: keeps, in order, the first `minSuggestionCount` ids
     * whose entities contain the suggestion query (the whole normalized query
     * when the word order counts, otherwise the last token).
     */
    method LoadAndReduce(restriction: SearchRestriction, sr: SearchResult, suggestionToken: string, minSuggestionCount: int)
      returns (outcome: Outcome<LoadError>)
      modifies sr
      ensures sr.lastReadSearchIndexRow == old(sr.lastReadSearchIndexRow) && sr.moreResults == old(sr.moreResults)
      ensures old(sr.results) == [] ==> outcome == Pass && sr.results == []
      ensures old(sr.results) != [] ==>
        var query := if sr.matchWordOrder then NormalizeQuery(sr.query) else suggestionToken;
        match Reduced(entities, restriction.typeRef, old(sr.results), [], minSuggestionCount, restriction.attributeIds, query, sr.matchWordOrder)
        case Ok(kept) => outcome == Pass && sr.results == kept
        case Err(e) => outcome == Fail(e) && sr.results == old(sr.results)
      ensures IsSubsequence(sr.results, old(sr.results))
    {
      outcome := Pass;
      SubsequenceReflexive(sr.results);
      if |sr.results| > 0 {
        var suggestionQuery := if sr.matchWordOrder then NormalizeQuery(sr.query) else suggestionToken;
        var ids := sr.results;
        var finalResults: seq<IdTuple> := [];
        var i := 0;
        while i < |ids|
          invariant 0 <= i <= |ids|
          invariant Reduced(entities, restriction.typeRef, ids[i..], finalResults, minSuggestionCount, restriction.attributeIds, suggestionQuery, sr.matchWordOrder)
            == Reduced(entities, restriction.typeRef, ids, [], minSuggestionCount, restriction.attributeIds, suggestionQuery, sr.matchWordOrder)
        {
          if |finalResults| >= minSuggestionCount {
            break;
          }
          assert ids[i..][1..] == ids[i + 1..];
          var loaded := LoadEntity(entities, restriction.typeRef, ids[i]);
          if loaded.Err? {
            if loaded.error == OtherError {
              return Fail(loaded.error);
            }
          } else if ContainsSuggestionToken(loaded.value, restriction.attributeIds, suggestionQuery, sr.matchWordOrder) {
            finalResults := finalResults + [ids[i]];
          }
          i := i + 1;
        }
        ReducedKeepsMatches(entities, restriction.typeRef, ids, [], minSuggestionCount, restriction.attributeIds, suggestionQuery, sr.matchWordOrder);
        assert finalResults[0..] == finalResults;
        sr.results := finalResults;
      }
    }

    /**
     * `search`: a new search for the query. Without tokens nothing is found;
     * a successful search reports its results newest first; completing the
     * last of several tokens reports at most `minSuggestionCount` results.
     */
    method Search(query: string, restriction: SearchRestriction, minSuggestionCount: int, maxResults: Option<int>, now: int)
      returns (sr: SearchResult, outcome: Outcome<LoadError>)
      ensures fresh(sr)
      ensures sr.query == query && sr.restriction == restriction
      ensures sr.currentIndexTimestamp == GetSearchEndTimestamp(restriction, mailIndexTimestamp, now)
      ensures sr.matchWordOrder == IsPhraseQuery(query)
      ensures Tokenize(query) == [] ==> outcome == Pass && sr.results == [] && sr.lastReadSearchIndexRow == []
      ensures outcome.Pass? ==> SortedDesc(sr.results, ElementId)
      ensures outcome.Pass? && |Tokenize(query)| > 1 && minSuggestionCount > 0 && FacadeFor(suggestionFacades, restriction.typeRef).Some?
        ==> |sr.results| <= minSuggestionCount
    {
      var searchTokens := Tokenize(query);
      sr := new SearchResult(query, restriction, [], GetSearchEndTimestamp(restriction, mailIndexTimestamp, now),
                             FreshCursors(searchTokens), IsPhraseQuery(query));
      outcome := Pass;
      if |searchTokens| > 0 {
        var isFirstWordSearch := |searchTokens| == 1;
        var suggestionFacade := FacadeFor(suggestionFacades, restriction.typeRef);
        if minSuggestionCount > 0 && isFirstWordSearch && suggestionFacade.Some? {
          outcome := AddSuggestions(searchTokens[0], suggestionFacade.value, minSuggestionCount, sr, now);
          if outcome.Pass? && |sr.results| < minSuggestionCount {
            outcome := StartOrContinueSearch(sr, None, now);
          }
        } else if minSuggestionCount > 0 && !isFirstWordSearch && suggestionFacade.Some? {
          var suggestionToken := sr.lastReadSearchIndexRow[|sr.lastReadSearchIndexRow| - 1].token;
          sr.lastReadSearchIndexRow := sr.lastReadSearchIndexRow[..|sr.lastReadSearchIndexRow| - 1];
          outcome := StartOrContinueSearch(sr, None, now);
          if outcome.Pass? {
            sr.results := SortDesc(sr.results, ElementId);
            var query' := if sr.matchWordOrder then NormalizeQuery(sr.query) else suggestionToken;
            ReducedBound(entities, restriction.typeRef, sr.results, [], minSuggestionCount, restriction.attributeIds, query', sr.matchWordOrder);
            outcome := LoadAndReduce(restriction, sr, suggestionToken, minSuggestionCount);
          }
        } else {
          outcome := StartOrContinueSearch(sr, maxResults, now);
        }
        if outcome.Pass? {
          sr.results := SortDesc(sr.results, ElementId);
        }
      }
    }

    /** `getMoreSearchResults`: one more page of at most `moreResultCount` results. */
    method GetMoreSearchResults(sr: SearchResult, moreResultCount: int, now: int) returns (outcome: Outcome<LoadError>)
      modifies sr
      ensures PageTaken(old(sr.lastReadSearchIndexRow), old(sr.results), old(sr.moreResults), sr.restriction, sr.matchWordOrder,
                        Some(moreResultCount), now, outcome, sr.lastReadSearchIndexRow, sr.results, sr.moreResults)
      ensures outcome.Pass? ==> old(sr.results) <= sr.results
      ensures outcome.Pass? && moreResultCount > 0 ==> |sr.results| <= |old(sr.results)| + moreResultCount
      ensures outcome.Fail? ==> sr.results == old(sr.results) && sr.moreResults == old(sr.moreResults)
    {
      outcome := StartOrContinueSearch(sr, Some(moreResultCount), now);
    }
  }
}
