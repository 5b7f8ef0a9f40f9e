# Encrypted search, suggestions and custom cache handlers of the mail client

This project models the core of the client-side search of the mail client. It proves properties of that model in Dafny. Four source files make up the core:

- **`SuggestionFacade`**: the suggestion table. It maps the first character of a word to an ascending, duplicate-free bucket of words. `addSuggestions` inserts words in order, `getSuggestions` filters a bucket by prefix, and `store`/`load` save and restore the whole table.
- **`SearchFacade`**: the AND-query pipeline.
  - For every query token, it reads the token's metadata row. It chooses the rows of postings to read. The leading token reads a time window of its rows; when `maxResults` is given, it stops at a budget of 1000 postings, and without it every row of the type is read. The other tokens read the rows covering that window.
  - It intersects the postings by hashed encrypted id, decrypts them, and filters them by attribute and time window. It intersects them again by real id.
  - It applies the phrase match of consecutive positions (`reduceWords`). It drops ids already found (`reduceToUniqueElementIds`).
  - The newest first `maxResults` postings are resolved to list ids. With a folder restriction, mails are kept only when they are in one of the folders. The postings not processed are kept in `moreResults` for the next page.
  - `search` also handles suggestion searches: a single-token suggestion through the suggestion table, and a trailing suggestion token by reloading the entities (`loadAndReduce`).
- **`CustomCacheHandler`**:
  - The handler map from a type to its custom cache handler.
  - The calendar-event range handler. When a list is not cached yet, it fetches the whole list page by page and marks it cached with the sentinel range `[CUSTOM_MIN_ID, CUSTOM_MAX_ID]`. It answers range requests in memory by filtering, sorting and slicing.
  - The mail handler's `shouldLoadOnCreateEvent`.
- **`ContactIndexer`**: turns contacts into index entries and suggestion words.
  - For entity events: CREATE adds entries, UPDATE removes and re-adds, DELETE removes. Contacts that are not found or not accessible are skipped.
  - For whole contact lists, after which the owner group is marked fully indexed.

Modules, by file:

- **`wrappers.dfy`** (`Wrappers`): `Option`, `Result` and `Outcome`.
- **`seqs.dfy`** (`Seqs`): filter, subsequence, sort and reverse, with their lemmas.
- **`lex_order.dfy`** (`LexOrder`): JavaScript string `<`.
- **`entity_ids.dfy`** (`EntityIds`): ids and generated ids.
- **`tokenizer.dfy`** (`Tokenizer`): `tokenize`.
- **`suggestions.dfy`** (`Suggestions`): the suggestion table and its facade.
- The search:
  - **`search_types.dfy`** (`SearchTypes`): the records.
  - **`search_rows.dfy`** (`SearchRows`): choosing the rows to read.
  - **`search_index.dfy`** (`SearchIndex`): reading the postings.
  - **`search_filters.dfy`** (`SearchFilters`): the intersections and filters.
  - **`search_reduce.dfy`** (`SearchReduce`): the phrase match and deduplication.
  - **`search_pipeline.dfy`** (`SearchPipeline`): the stages composed, and the AND of the query they compute.
  - **`search_pages.dfy`** (`SearchPages`): a page of results.
  - **`search_suggest.dfy`** (`SearchSuggest`): the suggestion-token check.
  - **`search_facade.dfy`** (`Search`): the stateful `SearchResult` and `SearchFacade`.
- **`custom_cache_handler.dfy`** (`CustomCache`): the cache handlers.
- **`contact_indexer.dfy`** (`Contacts`): the contact indexer.

Form of the model:

- Loops of the source are methods with loop invariants, proved against specification functions.
- Objects that the source updates in place are classes: `SearchResult`, `SuggestionFacade`, `CacheStorage`, `IndexUpdate` and `ContactIndexer`.
- What is computed by expressions is functions and lemmas.

Collaborators are values the model is given:

- The index database, as one read transaction sees it.
- The entity loader and the server's lists, as maps from ids to results.
- The current time, as a parameter `now`.

## Model

| member | source | states |
|---|---|---|
| Suggestions.InsertSorted | src/mail-app/workerUtils/index/SuggestionFacade.ts:43-51 | inserting a word into a bucket adds exactly that word; a word already in the bucket leaves it unchanged |
| Suggestions.InsertSortedAscending | src/mail-app/workerUtils/index/SuggestionFacade.ts:43-51 | insertion before the first strictly greater word, or at the end, keeps a bucket strictly ascending |
| Suggestions.FirstGreater | src/mail-app/workerUtils/index/SuggestionFacade.ts:44 | the insertion index is the first word greater than the new word; no word before it is greater |
| Suggestions.InsertIntoBucket | src/mail-app/workerUtils/index/SuggestionFacade.ts:43-51 | splicing the new word in before the first greater word, or pushing it when there is none, is the ordered insertion |
| Suggestions.AddWord | src/mail-app/workerUtils/index/SuggestionFacade.ts:36-55 | an empty word changes nothing; otherwise only the bucket of the word's first character changes, it then holds the word, every stored word stays, and re-adding a stored word changes nothing |
| Suggestions.AddWordsValid | src/mail-app/workerUtils/index/SuggestionFacade.ts:36-56 | adding words keeps every bucket strictly ascending and holding only words that start with its key |
| Suggestions.AddWordsTouchesOwnBuckets | src/mail-app/workerUtils/index/SuggestionFacade.ts:38-54 | a bucket whose key is not the first character of any added word is unchanged |
| Suggestions.AddWordsStores | src/mail-app/workerUtils/index/SuggestionFacade.ts:36-56 | after adding, every non-empty added word is in its bucket, and every word stored before still is |
| Suggestions.SuggestionsFor | src/mail-app/workerUtils/index/SuggestionFacade.ts:59-67 | the suggestions are the words of the prefix's bucket that start with the prefix, in bucket order; none for an empty prefix or a missing bucket |
| Suggestions.SuggestionsComplete | src/mail-app/workerUtils/index/SuggestionFacade.ts:59-67 | in a valid table every stored word that starts with the prefix is suggested |
| Suggestions.SuggestionsAscending | src/mail-app/workerUtils/index/SuggestionFacade.ts:59-67 | suggestions from a valid table are strictly ascending |
| Suggestions.AddedWordsSuggested | src/mail-app/workerUtils/index/SuggestionFacade.ts:35-67 | after adding, every non-empty added word is among the suggestions for itself |
| Suggestions.SuggestionFacade.AddSuggestions | src/mail-app/workerUtils/index/SuggestionFacade.ts:35-57 | the loop leaves the table equal to adding the words one by one, keeps it valid, and every non-empty added word is then suggested for itself |
| Suggestions.SuggestionFacade.Load | src/mail-app/workerUtils/index/SuggestionFacade.ts:20-33 | the table becomes the stored snapshot for the type name, or the empty table when none is stored |
| Suggestions.SuggestionFacade.Store | src/mail-app/workerUtils/index/SuggestionFacade.ts:69-78 | the whole table is stored under the type name, other stored tables unchanged |
| Suggestions.AddAndGetStep4 | test/tests/api/worker/search/SuggestionFacadeTest.ts:43-45 | the fourth insertion of the "add and get suggestion" test gives bucket `a aa ab anne anton arne az` and bucket `bernd` |
| Suggestions.LookupA | test/tests/api/worker/search/SuggestionFacadeTest.ts:45 | `"a"` is answered with `a aa ab anne anton arne az` |
| Suggestions.LookupAn | test/tests/api/worker/search/SuggestionFacadeTest.ts:46 | `"an"` is answered with `anne anton` |
| Suggestions.LookupAnnet | test/tests/api/worker/search/SuggestionFacadeTest.ts:49 | `"annet"` is answered with nothing |
| Suggestions.LookupB | test/tests/api/worker/search/SuggestionFacadeTest.ts:50 | `"b"` is answered with `bernd` |
| Suggestions.StoreAndLoadSteps | test/tests/api/worker/search/SuggestionFacadeTest.ts:71-88 | the tables of the "store and load" test: after restoring, `"a"` gives `aaaa` and `"b"` nothing |
| Tokenizer.Tokenize | src/mail-app/workerUtils/index/SearchFacade.ts:94 | every token is non-empty, lowercased and free of separators |
| Tokenizer.TokenizeJoin | src/mail-app/workerUtils/index/ContactIndexer.ts:84 | tokenizing texts joined by a separator gives the tokens of each text in turn |
| Tokenizer.TokensOfTokens | src/mail-app/workerUtils/index/SearchFacade.ts:702-704 | a list of tokens tokenizes to itself |
| SearchSuggest.NormalizeQueryTokens | src/mail-app/workerUtils/index/SearchFacade.ts:702-704 | the normalized query has the same tokens as the query |
| SearchSuggest.NormalizeQueryIdempotent | src/mail-app/workerUtils/index/SearchFacade.ts:702-704 | normalizing a normalized query changes nothing |
| SearchSuggest.ContainsSuggestionToken | src/mail-app/workerUtils/index/SearchFacade.ts:193-227 | true exactly when a selected string value, or a string of a selected aggregation, contains the normalized query (phrase) or has a token starting with the suggestion token |
| SearchSuggest.PrefixOfTokenFound | src/mail-app/workerUtils/index/SearchFacade.ts:208-212 | a string value with a token starting with the suggestion token makes the entity match when no attributes are restricted |
| SearchSuggest.ReducedInOrder | src/mail-app/workerUtils/index/SearchFacade.ts:157-183 | the ids kept are the ids kept before followed by a subsequence of the input ids, in input order |
| SearchSuggest.ReducedKeepsMatches | src/mail-app/workerUtils/index/SearchFacade.ts:157-183 | the reduced results extend the kept ones only by input ids whose entity loads and contains the suggestion query, in order |
| SearchSuggest.ReducedBound | src/mail-app/workerUtils/index/SearchFacade.ts:159-161 | at most `minSuggestionCount` ids are kept |
| SearchSuggest.ReducedComplete | src/mail-app/workerUtils/index/SearchFacade.ts:159-181 | when fewer than `minSuggestionCount` ids are kept, every input id whose entity loads and matches is kept |
| SearchRows.FindRowsToRead | src/mail-app/workerUtils/index/SearchFacade.ts:442-484 | the loop computes the leading token's rows: with a truthy `maxResults` the type's rows, newest first, older than the bound, until the budget is used; otherwise all of the type's rows |
| SearchRows.RowsOfTypeNewestFirst | src/mail-app/workerUtils/index/SearchFacade.ts:452-453 | the rows of the type, reversed from the stored oldest-first order, are newest first |
| SearchRows.ReadLeadingPrefix | src/mail-app/workerUtils/index/SearchFacade.ts:462-474 | the rows read are a prefix of the type's rows older than the bound |
| SearchRows.ReadLeadingWithinBudget | src/mail-app/workerUtils/index/SearchFacade.ts:464-467 | each row read is started while fewer than 1000 postings have been counted |
| SearchRows.ReadLeadingStopsOnBudget | src/mail-app/workerUtils/index/SearchFacade.ts:464-470 | reading stops short of all older rows only once 1000 postings are counted |
| SearchRows.ReadLeadingTimestamps | src/mail-app/workerUtils/index/SearchFacade.ts:455-482 | the oldest timestamp is that of the last row read (0 when none), the newest that of a skipped row not older than the bound |
| SearchRows.ReadLeadingOlderRows | src/mail-app/workerUtils/index/SearchFacade.ts:463 | every row read is one of the rows and older than the bound |
| SearchRows.ReadLeadingNewestFirst | src/mail-app/workerUtils/index/SearchFacade.ts:462-474 | the rows read stay newest first |
| SearchRows.NextPageReadsNewRows | src/mail-app/workerUtils/index/SearchFacade.ts:390-398 | continuing from a non-zero recorded cursor reads none of the rows of the previous page; a cursor of 0 (the token read completely) falls back to `MAX_SAFE_INTEGER` and reads from the newest row again |
| SearchRows.FindRowsToReadByTimeRange | src/mail-app/workerUtils/index/SearchFacade.ts:419-440 | the loop computes the type's rows, newest first, older than `fromNewestTimestamp`, up to and including the first at or below `toOldestTimestamp` |
| SearchRows.RowsInTimeRangeSound | src/mail-app/workerUtils/index/SearchFacade.ts:429-437 | the rows passed are a subsequence, all older than `fromNewestTimestamp`, and only the last may reach `toOldestTimestamp` |
| SearchRows.RowsInTimeRangeCovers | src/mail-app/workerUtils/index/SearchFacade.ts:429-437 | every row strictly inside the window is passed |
| SearchIndex.FindRowsToReadFromMetaData | src/mail-app/workerUtils/index/SearchFacade.ts:378-406 | one entry per token in order: the leading token's rows, and for the others the rows covering the leading window; the new cursor is the leading oldest timestamp |
| SearchIndex.PlanRowsSound | src/mail-app/workerUtils/index/SearchFacade.ts:384-405 | every planned row is a stored row of the searched type; the leading token's rows are older than its cursor, the others older than the leading newest row |
| SearchIndex.PlanRowsCoverWindow | src/mail-app/workerUtils/index/SearchFacade.ts:399-404 | the other tokens read every row of the type strictly inside the leading window |
| SearchIndex.EntriesOfRowsFrom | src/mail-app/workerUtils/index/SearchFacade.ts:408-417 | every posting read comes from one of the planned rows present in the index |
| SearchIndex.CursorsAfterRead | src/mail-app/workerUtils/index/SearchFacade.ts:336-353 | after reading, the leading cursor is the oldest timestamp read, every token whose word has no metadata is marked read completely, and every cursor keeps its token |
| SearchIndex.PostingsOf | src/mail-app/workerUtils/index/SearchFacade.ts:356-372 | one list per token, keeping its index key, of the postings of its rows with their id hashes |
| Search.SearchFacade.FindIndexEntries | src/mail-app/workerUtils/index/SearchFacade.ts:328-376 | the postings returned are those of the rows planned from the leading cursor and the metadata rows, and the cursors are updated as read |
| SearchFilters.FilterByEncryptedId | src/mail-app/workerUtils/index/SearchFacade.ts:489-510 | one list per token with its index key, each keeping in order exactly the postings whose id hash occurs in every token's list |
| SearchFilters.HashInAllStep | src/mail-app/workerUtils/index/SearchFacade.ts:491-503 | narrowing the set of hashes by one more list is intersecting with that list's hashes |
| SearchFilters.DecryptSearchResult | src/mail-app/workerUtils/index/SearchFacade.ts:512-519 | one list per token with its index key, the i-th posting of each the decryption of the i-th encrypted posting |
| SearchFilters.GetSearchEndTimestamp | src/mail-app/workerUtils/index/SearchFacade.ts:691-699 | a truthy `end`; else for mails the index timestamp, or now when nothing is indexed; else FULL_INDEXED_TIMESTAMP |
| SearchFilters.ValidTimeWindow | src/mail-app/workerUtils/index/SearchFacade.ts:555-571 | with a start and an end timestamp, a posting is valid exactly when its attribute is selected and its element was created from the end timestamp up to the start timestamp, both included |
| SearchFilters.MailSearchWithinIndexedRange | src/mail-app/workerUtils/index/SearchFacade.ts:523-526 | without an `end`, a valid mail posting lies in the indexed time range |
| SearchFilters.ValidateEach | src/mail-app/workerUtils/index/SearchFacade.ts:527-531 | the loop narrows each token's postings to the valid ones |
| SearchFilters.MatchingIds | src/mail-app/workerUtils/index/SearchFacade.ts:533-546 | the loop computes the set of ids having a posting for every token, or nothing for no tokens |
| SearchFilters.FilterByTypeAndAttributeAndTime | src/mail-app/workerUtils/index/SearchFacade.ts:521-553 | each token keeps its valid postings whose id has a valid posting for every token |
| SearchFilters.TypeAttributeTimeKept | src/mail-app/workerUtils/index/SearchFacade.ts:521-571 | a posting is kept exactly when it is valid and every token has a valid posting with its id |
| SearchReduce.FindSameAttribute | src/mail-app/workerUtils/index/SearchFacade.ts:580 | finds the first posting with the same id and attribute, or reports that there is none |
| SearchReduce.FilterPositions | src/mail-app/workerUtils/index/SearchFacade.ts:577-590 | the loop keeps exactly the positions p such that each later word i has p+i in its matching posting |
| SearchReduce.InWordOrderIffPositions | src/mail-app/workerUtils/index/SearchFacade.ts:577-592 | a posting matches the phrase exactly when some position survives |
| SearchReduce.ReduceWords | src/mail-app/workerUtils/index/SearchFacade.ts:573-598 | without word order the first token's postings unchanged; with it exactly those in word order |
| SearchReduce.ReduceToUniqueElementIds | src/mail-app/workerUtils/index/SearchFacade.ts:600-610 | the loop computes the unique postings not among the previous results |
| SearchReduce.UniqueEntriesSound | src/mail-app/workerUtils/index/SearchFacade.ts:600-610 | the unique postings are a subsequence of the input with pairwise different ids, none among the previous results |
| SearchReduce.UniqueEntriesComplete | src/mail-app/workerUtils/index/SearchFacade.ts:600-610 | every id of the input that is not among the previous results keeps a posting |
| SearchPages.SliceEnd | src/mail-app/workerUtils/index/SearchFacade.ts:631 | the end of `slice(0, maxResults or length + 1)`, including a negative `maxResults` |
| SearchPages.ResolvedFromEntries | src/mail-app/workerUtils/index/SearchFacade.ts:633-642 | a resolved id pairs the stored list id with the element id of a processed posting |
| SearchPages.ResolvedComplete | src/mail-app/workerUtils/index/SearchFacade.ts:633-649 | every processed posting with element data is resolved |
| SearchPages.ResolvedNewestFirst | src/mail-app/workerUtils/index/SearchFacade.ts:617-649 | resolving newest-first postings gives newest-first ids |
| SearchPages.MailsInFoldersSound | src/mail-app/workerUtils/index/SearchFacade.ts:661-677 | a kept mail was loaded for one of the ids and is in one of the folders |
| SearchPages.MailsInFoldersComplete | src/mail-app/workerUtils/index/SearchFacade.ts:656-678 | every id whose mail loads and lies in one of the folders is kept |
| SearchPages.MailsInFoldersFails | src/mail-app/workerUtils/index/SearchFacade.ts:661-670 | the folder filter fails only with a load error other than not found |
| SearchPages.PageSplit | src/mail-app/workerUtils/index/SearchFacade.ts:617-635 | processed and left-over postings are a split of the sorted postings, the left-over ones newest first and none newer than a processed one |
| SearchPages.PageOutcomeBounds | src/mail-app/workerUtils/index/SearchFacade.ts:612-684 | a page only appends, at most `maxResults` ids when positive; the left-over postings are newest first and come from the page's postings; a failure is a load error other than not found and changes nothing |
| SearchPages.PageNewestFirst | src/mail-app/workerUtils/index/SearchFacade.ts:617-655 | without a folder restriction the new ids are newest first |
| Search.SearchFacade.ResolveIds | src/mail-app/workerUtils/index/SearchFacade.ts:630-649 | the loop resolves the processed postings that have element data |
| Search.SearchFacade.FilterByFolders | src/mail-app/workerUtils/index/SearchFacade.ts:656-678 | the loop loads the mails, skips those not found, and keeps the ones in a folder, or fails with the first other error |
| Search.SearchFacade.FilterByListIdAndGroupSearchResults | src/mail-app/workerUtils/index/SearchFacade.ts:612-684 | the page outcome: newest first, the ids of the first `maxResults` postings are appended to the results and `moreResults` becomes the postings after them; on a failure nothing changes |
| SearchPipeline.DecryptedStage | src/mail-app/workerUtils/index/SearchFacade.ts:489-519 | a decrypted posting of a token is exactly the decryption of one of its postings whose id hash every token has |
| SearchPipeline.TokenStage | src/mail-app/workerUtils/index/SearchFacade.ts:489-571 | a token's decrypted survivors hold a valid posting of an element exactly when the token matches it |
| SearchPipeline.CandidateStage | src/mail-app/workerUtils/index/SearchFacade.ts:489-571 | a posting of the first token passes the filters exactly when it survives the hash intersection, is valid, and every token matches its element |
| SearchPipeline.WordsStage | src/mail-app/workerUtils/index/SearchFacade.ts:573-598 | the postings `reduceWords` passes on are exactly the first token's postings the query accepts |
| SearchPipeline.ReducedPostingsSound | src/mail-app/workerUtils/index/SearchFacade.ts:252-276 | every posting a page takes is accepted by the AND of the query tokens, the filter and the word order, is of an element not found before, and no two are of the same element |
| SearchPipeline.ReducedPostingsComplete | src/mail-app/workerUtils/index/SearchFacade.ts:252-276 | every element of a posting the query accepts and not found before has a posting among those the page takes |
| Search.SearchFacade.PagePostings | src/mail-app/workerUtils/index/SearchFacade.ts:246-279 | the page's postings are the left-over ones when enough are left, otherwise the reduced postings of one read followed by them, with the cursors moved on; a search without tokens that has to read the index gets an error and nothing changes |
| Search.SearchFacade.PageTakenKeeps | src/mail-app/workerUtils/index/SearchFacade.ts:229-304 | every page taken only appends, at most `maxResults` ids; leaves postings newest first; fails only on a load error other than not found, changing nothing; keeps the tokens, and the cursors when the index is not read |
| SearchPipeline.ReducePostings | src/mail-app/workerUtils/index/SearchFacade.ts:252-276 | the chain of stages computes exactly the composed stage functions on the postings read |
| Search.SearchFacade.ReadPostings | src/mail-app/workerUtils/index/SearchFacade.ts:252-281 | the postings passed on are exactly the reduced postings of one read of the index from the current cursors, none of an id among the results; the cursors are updated as read |
| Search.SearchFacade.StartOrContinueSearch | src/mail-app/workerUtils/index/SearchFacade.ts:229-304 | one page taken: enough left-over postings alone, or the new reduced postings before them with the cursors moved on; newest first, the first `maxResults` become ids appended to the results and the rest are left over; results only grow, by at most `maxResults`; a failure leaves results and left-over postings; a search without tokens that has to read the index fails with nothing changed |
| Search.SearchFacade.AddSuggestions | src/mail-app/workerUtils/index/SearchFacade.ts:309-326 | suggestion searches only append to the results and leave the cursors and left-over postings alone |
| Search.SearchFacade.LoadAndReduce | src/mail-app/workerUtils/index/SearchFacade.ts:151-187 | no results stay none; otherwise the results become the reduced list, or stay on a load error; either way the new results are a subsequence of the old ones |
| Search.SearchFacade.Search | src/mail-app/workerUtils/index/SearchFacade.ts:92-149 | a fresh result with the query, restriction and end timestamp; word order iff a quoted query of several tokens; no tokens give no results; results end newest first; a multi-token suggestion search keeps at most `minSuggestionCount` |
| Search.SearchFacade.GetMoreSearchResults | src/mail-app/workerUtils/index/SearchFacade.ts:686-689 | one page of at most the requested count taken as in `startOrContinueSearch`, for any search result, including one without tokens: the ids appended are those of the newest postings of the page |
| Search.FacadeFor | src/mail-app/workerUtils/index/SearchFacade.ts:110 | the first suggestion facade of the restriction's type, or none when no facade has that type |
| Search.FreshCursors | src/mail-app/workerUtils/index/SearchFacade.ts:100 | one unread cursor per token |
| EntityIds.AtLeastGeneratedId | src/mail-app/workerUtils/index/SearchFacade.ts:525 | an id is at least the first generated id of a timestamp exactly when its timestamp is at least that one |
| CustomCache.RangeResult | src/common/api/worker/rest/CustomCacheHandler.ts:104-111 | at most `count` and at most all events |
| CustomCache.InDirectionSorted | src/common/api/worker/rest/CustomCacheHandler.ts:104-110 | the sorted list is the events on the requested side of `start`, sorted by the direction's key |
| CustomCache.RangeResultSide | src/common/api/worker/rest/CustomCacheHandler.ts:106-109 | forward only ids greater than `start`, reverse only ids smaller |
| CustomCache.RangeResultOrdered | src/common/api/worker/rest/CustomCacheHandler.ts:107-110 | forward ascending ids, reverse descending |
| CustomCache.RangeResultNearest | src/common/api/worker/rest/CustomCacheHandler.ts:104-111 | the result is a prefix of the sorted list: every event left out lies farther from `start` than every event returned |
| CustomCache.RangeResultComplete | src/common/api/worker/rest/CustomCacheHandler.ts:104-111 | a result shorter than `count` holds every event on the requested side |
| CustomCache.SliceTo | src/common/api/worker/rest/CustomCacheHandler.ts:111 | the end of `slice(0, count)`, including a negative `count` |
| CustomCache.Page | src/common/api/worker/rest/CustomCacheHandler.ts:85 | a page holds at most the requested number of events |
| CustomCache.FetchStep | src/common/api/worker/rest/CustomCacheHandler.ts:85-89 | a short page completes the list; a full page keeps fetched plus remaining equal to the list and shrinks what remains |
| CustomCache.NextPageStart | src/common/api/worker/rest/CustomCacheHandler.ts:88-89 | the events after the last fetched id are exactly the rest of the list |
| CustomCache.CustomCalendarEventCacheHandler.FetchWholeList | src/common/api/worker/rest/CustomCacheHandler.ts:82-90 | paging from CUSTOM_MIN_ID in pages of LOAD_MULTIPLE_LIMIT until a short page fetches exactly the server's list |
| CustomCache.Upsert | src/common/api/worker/rest/CustomCacheHandler.ts:92 | the stored list then holds the event, keeps every event with another id, and gains nothing else |
| CustomCache.UpsertAllFresh | src/common/api/worker/rest/CustomCacheHandler.ts:91-93 | putting events with new ascending ids appends them |
| CustomCache.UpsertOverwrites | src/common/api/worker/rest/CustomCacheHandler.ts:91-93 | on a list with distinct ids, putting an event keeps the ids distinct and the event replaces any stored one with its id |
| CustomCache.CacheStorage.PutAll | src/common/api/worker/rest/CustomCacheHandler.ts:91-93 | the loop puts every event into its list and changes no range |
| CustomCache.CacheStorage.SetNewRangeForList | src/common/api/worker/rest/CustomCacheHandler.ts:96 | the list's range is set and nothing else changes |
| CustomCache.AssertCorrectRange | src/common/api/worker/rest/CustomCacheHandler.ts:114-118 | passes exactly for the sentinel range |
| CustomCache.CustomCalendarEventCacheHandler.LoadRange | src/common/api/worker/rest/CustomCacheHandler.ts:75-112 | no range: the server list is stored, the range becomes the sentinel, and the answer is computed from the server list; sentinel: answered from storage, nothing changed; another range: ProgrammingError, nothing changed |
| CustomCache.CustomCalendarEventCacheHandler.GetElementIdsInCacheRange | src/common/api/worker/rest/CustomCacheHandler.ts:120-129 | no range gives none; the sentinel gives all ids; another range is a ProgrammingError |
| CustomCache.LoadRangeTwice | src/common/api/worker/rest/CustomCacheHandler.ts:75-129 | after a first load, a second one answers from storage as the server would, and every id counts as cached |
| CustomCache.ShouldLoadOnCreateEvent | src/common/api/worker/rest/CustomCacheHandler.ts:132-139 | the mail handler always answers true; the calendar handler does not implement it |
| CustomCache.LastHandlerFor | src/common/api/worker/rest/CustomCacheHandler.ts:40-46 | the handler of the last mapping for the type, or none when no mapping has it |
| CustomCache.RegisteredLastWins | src/common/api/worker/rest/CustomCacheHandler.ts:40-46 | the map built in the loop holds a type exactly when a mapping has it, with the last handler given |
| CustomCache.CustomCacheHandlerMap.constructor | src/common/api/worker/rest/CustomCacheHandler.ts:40-47 | the loop registers the mappings in order |
| CustomCache.CustomCacheHandlerMap.Get | src/common/api/worker/rest/CustomCacheHandler.ts:49-53 | the handler of the last mapping for the type, or none |
| Contacts.ContactEntries | src/mail-app/workerUtils/index/ContactIndexer.ts:30-77 | eleven entries, one per indexed attribute in source order, each the tokens of the attribute's value; missing nickname and title are empty, lists are joined by commas |
| Contacts.SuggestionWords | src/mail-app/workerUtils/index/ContactIndexer.ts:83-85 | every suggestion word is a token |
| Contacts.SuggestionWordsTokens | src/mail-app/workerUtils/index/ContactIndexer.ts:83-85 | the suggestion words are the tokens of first name, last name and every mail address, and each is also a word of the first-name, last-name or mail-address entries |
| Contacts.NewContact | src/mail-app/workerUtils/index/ContactIndexer.ts:95-117 | a loaded contact is returned; not found and not authorized give null; any other error is passed on |
| Contacts.ContactIndexer.CreateContactIndexEntries | src/mail-app/workerUtils/index/ContactIndexer.ts:30-81 | returns the contact's entries and adds its suggestion words to the table |
| Contacts.ContactIndexer.ProcessNewContact | src/mail-app/workerUtils/index/ContactIndexer.ts:87-118 | a loaded contact is indexed, its words added and the table stored; null or an error changes nothing |
| Contacts.EventCommands | src/mail-app/workerUtils/index/ContactIndexer.ts:161-185 | CREATE adds the loaded contact's entries and removes nothing; UPDATE first removes the instance then adds; DELETE only removes; a skipped load adds nothing, and only other errors fail |
| Contacts.ContactIndexer.ProcessEvent | src/mail-app/workerUtils/index/ContactIndexer.ts:161-185 | the index update, table and stored tables then reflect the event's batch, and the outcome is its error |
| Contacts.ContactIndexer.HandleNext | src/mail-app/workerUtils/index/ContactIndexer.ts:161-185 | handling the next event extends the batch of the earlier ones, or ends it with that event's error |
| Contacts.ContactIndexer.ProcessEntityEvents | src/mail-app/workerUtils/index/ContactIndexer.ts:160-186 | the loop leaves the state reflecting the batch of all events, stopping at the first error, which is returned |
| Contacts.EventsBatchComplete | src/mail-app/workerUtils/index/ContactIndexer.ts:160-186 | the events fail exactly when one of them fails |
| Contacts.EventsBatchAdds | src/mail-app/workerUtils/index/ContactIndexer.ts:160-186 | every entry added comes from a CREATE or UPDATE event whose contact loaded |
| Contacts.EventsBatchStops | src/mail-app/workerUtils/index/ContactIndexer.ts:160-186 | nothing after the first failing event contributes |
| Contacts.ReflectsThen | src/mail-app/workerUtils/index/ContactIndexer.ts:161-185 | states reflecting two batches in turn reflect their concatenation |
| Contacts.AddWordsAppend | src/mail-app/workerUtils/index/ContactIndexer.ts:79 | adding two word lists in turn is adding their concatenation |
| Contacts.ListCommandsPerContact | src/mail-app/workerUtils/index/ContactIndexer.ts:136-139 | a full list adds exactly one entry command per contact, in order |
| Contacts.ContactIndexer.IndexContacts | src/mail-app/workerUtils/index/ContactIndexer.ts:136-139 | the loop adds every contact's entries and suggestion words |
| Contacts.ContactIndexer.GetIndexTimestamp | src/mail-app/workerUtils/index/ContactIndexer.ts:120-126 | the owner group's stored timestamp, or null when there is no group data |
| Contacts.ContactIndexer.IndexFullContactList | src/mail-app/workerUtils/index/ContactIndexer.ts:131-158 | a loaded list writes one command per contact and marks the group FULL_INDEXED_TIMESTAMP, storing the table; not found returns without writing; other errors fail without writing |

## Left out

- Files that are not part of this model:
  - `EntityUtils` (`CUSTOM_MIN_ID`, `CUSTOM_MAX_ID`, `LOAD_MULTIPLE_LIMIT`, `timestampToGeneratedId`, `firstBiggerThanSecond`).
  - `TutanotaConstants` (`FULL_INDEXED_TIMESTAMP`, `NOTHING_INDEXED_TIMESTAMP`).
  - `IndexerCore`.
  - The `tokenize` of the utilities library.
- Constants with modelling values:
  - CUSTOM_MIN_ID is 0 and CUSTOM_MAX_ID is `Number.MAX_SAFE_INTEGER`.
  - LOAD_MULTIPLE_LIMIT is 100.
  - FULL_INDEXED_TIMESTAMP is 0, and NOTHING_INDEXED_TIMESTAMP is a fixed large timestamp.
- `tokenize` is modelled as lowercasing ASCII capitals and splitting at ASCII characters that are neither letters nor digits.
- Ids are numbers ordered by size. `firstBiggerThanSecond` is `>`. `compareNewestFirst` orders result ids by element id, largest first. A generated id is its timestamp times a fixed factor plus a low part.
- Encryption, decryption, JSON serialisation and `encryptIndexKeyBase64` are identities.
  - `arrayHash` is an id modulo 2^32, so hashes may collide.
  - Binary row decoding (`iterateBinaryBlocks`) and the `size` field of a row of postings are left out: a row is its list of postings.
- IndexerCore's `createIndexEntriesForAttributes`, `encryptSearchIndexEntries`, `_processDeleted` and `writeIndexUpdate` are not part of this model.
  - An attribute's entries are its tokens.
  - An index update is the list of add and remove commands it collects.
  - Writing an index update appends its commands to `written` and records the group timestamp.
- Concurrency (`promiseMap`, `Promise.all`) is modelled sequentially.
  - For UPDATE, the removal is recorded before the additions.
  - When several loads fail, the first failure in list order is reported.
- Search.SearchFacade.StartOrContinueSearch: the trigger that extends the mail index (`extendIndexIfNeeded`, based on the current date) is left out. The search continues directly.
- Search.SearchFacade.AddSuggestions: it does not state which results each suggestion contributes. The source shares the `results` array between the suggestion searches. The model appends each suggestion search's new ids to the same results in turn.
- Search.SearchFacade.Search: it does not state which ids the pipeline finds. A single page is stated in full by `StartOrContinueSearch`. The sort of the results is modelled as a sort into a new sequence.
- Search.SearchFacade.ReadPostings and Search.SearchFacade.FindIndexEntries: `findIndexEntries` needs at least one token, so these two methods require a non-empty token list. `search` only calls it when there is one. For the other callers, `findIndexEntries` on a search without tokens changes nothing and then fails on the missing leading token (src/mail-app/workerUtils/index/SearchFacade.ts:387-390). `PagePostings`, `StartOrContinueSearch` and `GetMoreSearchResults` model that failure as `Fail(OtherError)` with the search unchanged; the TypeError itself is not modelled.
- SearchPipeline.ReducePostings and SearchReduce.ReduceWords: `reduceWords` reads the first token's postings, so they require at least one token's postings.
- `containsSuggestionToken`: the type model is left out. The entity is given as the list of its string values and aggregations of string values. Nested aggregations are left out.
- The server of calendar events (`loadParsedInstancesRange`) is a map from list id to the list sorted by ascending id. Every event in it has an id above CUSTOM_MIN_ID. `mapInstancesToEntity` is the identity, and `getTypeString` is the type itself.
- Performance markers, console output and the `db.initialized` wait are left out.
- The reading of the metadata row by the `SearchIndexWordsIndex` index is modelled as a lookup by index key.
- Strings are sequences of Unicode characters. JavaScript strings are sequences of UTF-16 code units. For characters outside the Basic Multilingual Plane, the suggestion bucket key (`charAt(0)`), the order of words (`<`) and `startsWith` can differ from the model.
- A leading cursor of 0 marks a token as read completely. Continuing such a search starts reading from the newest row again. Whether a caller continues a search whose every token was read completely is outside this model.
