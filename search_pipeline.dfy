/**
 * The stages that turn the postings read for the tokens of a query into the
 * postings of a page, one after the other (the chain of `then`s in
 * `startOrContinueSearch`), and what the whole chain keeps: the AND of the
 * query.
 */
module SearchPipeline {
  import opened Wrappers
  import opened Seqs
  import opened EntityIds
  import opened SearchTypes
  import opened SearchFilters
  import opened SearchReduce

  /** The tokens' postings after the encrypted-id intersection. */
  function ByEncryptedId(results: seq<KeyToEncrypted>): seq<KeyToEncrypted>
  {
    seq(|results|, k requires 0 <= k < |results| =>
      KeyToEncrypted(results[k].indexKey, KeepIfHashInAll(results[k].indexEntries, results)))
  }

  /** The tokens' postings after the type, attribute and time filter and the element-id intersection. */
  function ByTypeAndAttributeAndTime(results: seq<KeyToEntries>, restriction: SearchRestriction, currentIndexTimestamp: int, now: int)
    : seq<KeyToEntries>
  {
    var validated := Validated(results, restriction, MinIncludedId(restriction, currentIndexTimestamp, now), MaxExcludedId(restriction));
    seq(|results|, k requires 0 <= k < |results| =>
      KeyToEntries(results[k].indexKey, KeepIfIdInAll(validated[k].indexEntries, validated)))
  }

  /** The first token's postings after `reduceWords`. */
  function WordsOf(results: seq<KeyToEntries>, matchWordOrder: bool): seq<DecryptedEntry>
    requires |results| > 0
  {
    if matchWordOrder then Filter(results[0].indexEntries, InWordOrderOf(results)) else results[0].indexEntries
  }

  /** The tokens' decrypted postings that pass every filter, before the reductions. */
  function Candidates(keyToEncrypted: seq<KeyToEncrypted>, restriction: SearchRestriction, currentIndexTimestamp: int, now: int)
    : (r: seq<KeyToEntries>)
    ensures |r| == |keyToEncrypted|
  {
    ByTypeAndAttributeAndTime(DecryptSearchResult(ByEncryptedId(keyToEncrypted)), restriction, currentIndexTimestamp, now)
  }

  /** The postings a page takes from the index: every stage applied in turn. */
  function ReducedPostings(keyToEncrypted: seq<KeyToEncrypted>, restriction: SearchRestriction, matchWordOrder: bool,
                           currentIndexTimestamp: int, now: int, previousResults: seq<IdTuple>): seq<DecryptedEntry>
    requires |keyToEncrypted| > 0
  {
    UniqueEntries(WordsOf(Candidates(keyToEncrypted, restriction, currentIndexTimestamp, now), matchWordOrder), previousResults)
  }

  /** `d` is the decryption of a posting of token `k` whose id hash every token has. */
  ghost predicate DecryptedOf(results: seq<KeyToEncrypted>, k: nat, d: DecryptedEntry)
    requires k < |results|
  {
    exists y :: y in results[k].indexEntries && HashInAll(results, y.idHash) && Decrypt(y.encEntry) == d
  }

  /** The type, attribute and time filter of a search. */
  predicate Valid(restriction: SearchRestriction, currentIndexTimestamp: int, now: int, d: DecryptedEntry)
  {
    IsValidAttributeAndTime(restriction, d, MinIncludedId(restriction, currentIndexTimestamp, now), MaxExcludedId(restriction))
  }

  /** Token `k` has a posting for the element `id` that survives the hash intersection and passes the filter. */
  ghost predicate TokenMatches(results: seq<KeyToEncrypted>, k: nat, restriction: SearchRestriction, currentIndexTimestamp: int, now: int, id: Id)
    requires k < |results|
  {
    exists x :: DecryptedOf(results, k, x) && x.id == id && Valid(restriction, currentIndexTimestamp, now, x)
  }

  /** The AND of the query: every token matches the element. */
  ghost predicate AllTokensMatch(results: seq<KeyToEncrypted>, restriction: SearchRestriction, currentIndexTimestamp: int, now: int, id: Id)
  {
    forall k :: 0 <= k < |results| ==> TokenMatches(results, k, restriction, currentIndexTimestamp, now, id)
  }

  /**
   * A posting of the first token that the query accepts: it survives the
   * hash intersection, passes the filter, every token matches its element,
   * and, when the word order counts, the query starts at one of its
   * positions.
   */
  ghost predicate Qualifies(keyToEncrypted: seq<KeyToEncrypted>, restriction: SearchRestriction, matchWordOrder: bool,
                      currentIndexTimestamp: int, now: int, e: DecryptedEntry)
    requires |keyToEncrypted| > 0
  {
    && DecryptedOf(keyToEncrypted, 0, e)
    && Valid(restriction, currentIndexTimestamp, now, e)
    && AllTokensMatch(keyToEncrypted, restriction, currentIndexTimestamp, now, e.id)
    && (matchWordOrder ==> InWordOrder(Candidates(keyToEncrypted, restriction, currentIndexTimestamp, now), e))
  }

  /** Decrypting after the hash intersection: the decrypted postings of a token are the decryptions of its survivors. */
  lemma DecryptedStage(results: seq<KeyToEncrypted>, k: nat, d: DecryptedEntry)
    requires k < |results|
    ensures d in DecryptSearchResult(ByEncryptedId(results))[k].indexEntries <==> DecryptedOf(results, k, d)
  {
    var kept := KeepIfHashInAll(results[k].indexEntries, results);
    assert DecryptSearchResult(ByEncryptedId(results))[k].indexEntries == DecryptEntries(kept);
    if DecryptedOf(results, k, d) {
      var y :| y in results[k].indexEntries && HashInAll(results, y.idHash) && Decrypt(y.encEntry) == d;
      assert y in kept;
    }
  }

  /** Token `j` matches an element exactly when its decrypted survivors hold a valid posting of it. */
  lemma TokenStage(keyToEncrypted: seq<KeyToEncrypted>, j: nat, restriction: SearchRestriction, currentIndexTimestamp: int, now: int, id: Id)
    requires j < |keyToEncrypted|
    ensures HasValidId(DecryptSearchResult(ByEncryptedId(keyToEncrypted))[j].indexEntries, restriction,
                       MinIncludedId(restriction, currentIndexTimestamp, now), MaxExcludedId(restriction), id)
      <==> TokenMatches(keyToEncrypted, j, restriction, currentIndexTimestamp, now, id)
  {
    var decrypted := DecryptSearchResult(ByEncryptedId(keyToEncrypted));
    var minId, maxId := MinIncludedId(restriction, currentIndexTimestamp, now), MaxExcludedId(restriction);
    if TokenMatches(keyToEncrypted, j, restriction, currentIndexTimestamp, now, id) {
      var x :| DecryptedOf(keyToEncrypted, j, x) && x.id == id && Valid(restriction, currentIndexTimestamp, now, x);
      DecryptedStage(keyToEncrypted, j, x);
    }
    if exists x :: x in decrypted[j].indexEntries && x.id == id && IsValidAttributeAndTime(restriction, x, minId, maxId) {
      var x :| x in decrypted[j].indexEntries && x.id == id && IsValidAttributeAndTime(restriction, x, minId, maxId);
      DecryptedStage(keyToEncrypted, j, x);
    }
  }

  /** A candidate of the first token is exactly a filtered survivor that every token matches. */
  lemma CandidateStage(keyToEncrypted: seq<KeyToEncrypted>, restriction: SearchRestriction, currentIndexTimestamp: int, now: int, e: DecryptedEntry)
    requires |keyToEncrypted| > 0
    ensures e in Candidates(keyToEncrypted, restriction, currentIndexTimestamp, now)[0].indexEntries <==>
      && DecryptedOf(keyToEncrypted, 0, e)
      && Valid(restriction, currentIndexTimestamp, now, e)
      && AllTokensMatch(keyToEncrypted, restriction, currentIndexTimestamp, now, e.id)
  {
    var decrypted := DecryptSearchResult(ByEncryptedId(keyToEncrypted));
    var minId, maxId := MinIncludedId(restriction, currentIndexTimestamp, now), MaxExcludedId(restriction);
    var validated := Validated(decrypted, restriction, minId, maxId);
    assert Candidates(keyToEncrypted, restriction, currentIndexTimestamp, now)[0].indexEntries
        == KeepIfIdInAll(validated[0].indexEntries, validated);
    TypeAttributeTimeKept(decrypted, restriction, minId, maxId, 0, e);
    DecryptedStage(keyToEncrypted, 0, e);
    assert Valid(restriction, currentIndexTimestamp, now, e) <==> IsValidAttributeAndTime(restriction, e, minId, maxId);
    forall j | 0 <= j < |keyToEncrypted| {
      TokenStage(keyToEncrypted, j, restriction, currentIndexTimestamp, now, e.id);
    }
  }

  /** The postings `reduceWords` passes on are exactly the candidates of the first token the query accepts. */
  lemma WordsStage(keyToEncrypted: seq<KeyToEncrypted>, restriction: SearchRestriction, matchWordOrder: bool,
                   currentIndexTimestamp: int, now: int, e: DecryptedEntry)
    requires |keyToEncrypted| > 0
    ensures e in WordsOf(Candidates(keyToEncrypted, restriction, currentIndexTimestamp, now), matchWordOrder)
      <==> Qualifies(keyToEncrypted, restriction, matchWordOrder, currentIndexTimestamp, now, e)
  {
    CandidateStage(keyToEncrypted, restriction, currentIndexTimestamp, now, e);
  }

  /**
   * Every posting a page takes is accepted by the query (the AND of its
   * tokens, the filter and the word order) and is of an element not found
   * before; no two of them are of the same element.
   */
  lemma ReducedPostingsSound(keyToEncrypted: seq<KeyToEncrypted>, restriction: SearchRestriction, matchWordOrder: bool,
                             currentIndexTimestamp: int, now: int, previousResults: seq<IdTuple>)
    requires |keyToEncrypted| > 0
    ensures var r := ReducedPostings(keyToEncrypted, restriction, matchWordOrder, currentIndexTimestamp, now, previousResults);
      && DistinctIds(r)
      && forall e :: e in r ==>
           Qualifies(keyToEncrypted, restriction, matchWordOrder, currentIndexTimestamp, now, e) && !FoundBefore(previousResults, e.id)
  {
    var words := WordsOf(Candidates(keyToEncrypted, restriction, currentIndexTimestamp, now), matchWordOrder);
    var r := ReducedPostings(keyToEncrypted, restriction, matchWordOrder, currentIndexTimestamp, now, previousResults);
    UniqueEntriesSound(words, previousResults);
    SubsequenceMembers(r, words);
    forall e | e in r
      ensures Qualifies(keyToEncrypted, restriction, matchWordOrder, currentIndexTimestamp, now, e)
    {
      WordsStage(keyToEncrypted, restriction, matchWordOrder, currentIndexTimestamp, now, e);
    }
  }

  /** Nothing the query accepts is missed: every element of an accepted posting not found before has a posting on the page. */
  lemma ReducedPostingsComplete(keyToEncrypted: seq<KeyToEncrypted>, restriction: SearchRestriction, matchWordOrder: bool,
                                currentIndexTimestamp: int, now: int, previousResults: seq<IdTuple>, e: DecryptedEntry)
    requires |keyToEncrypted| > 0
    requires Qualifies(keyToEncrypted, restriction, matchWordOrder, currentIndexTimestamp, now, e)
    requires !FoundBefore(previousResults, e.id)
    ensures HasId(ReducedPostings(keyToEncrypted, restriction, matchWordOrder, currentIndexTimestamp, now, previousResults), e.id)
  {
    var words := WordsOf(Candidates(keyToEncrypted, restriction, currentIndexTimestamp, now), matchWordOrder);
    WordsStage(keyToEncrypted, restriction, matchWordOrder, currentIndexTimestamp, now, e);
    UniqueEntriesComplete(words, previousResults);
  }

  /**
   * The stages of a page, run one after the other on the postings read for
   * the tokens: the filters, `reduceWords` and `reduceToUniqueElementIds`.
   */
  method ReducePostings(keyToEncrypted: seq<KeyToEncrypted>, restriction: SearchRestriction, matchWordOrder: bool,
                        currentIndexTimestamp: int, now: int, previousResults: seq<IdTuple>)
    returns (entries: seq<DecryptedEntry>)
    requires |keyToEncrypted| > 0
    ensures entries == ReducedPostings(keyToEncrypted, restriction, matchWordOrder, currentIndexTimestamp, now, previousResults)
  {
    var byEncryptedId := FilterByEncryptedId(keyToEncrypted);
    assert byEncryptedId == ByEncryptedId(keyToEncrypted);
    var decrypted := DecryptSearchResult(byEncryptedId);
    var byAttribute := FilterByTypeAndAttributeAndTime(decrypted, restriction, currentIndexTimestamp, now);
    assert byAttribute == Candidates(keyToEncrypted, restriction, currentIndexTimestamp, now);
    var words := ReduceWords(byAttribute, matchWordOrder);
    entries := ReduceToUniqueElementIds(words, previousResults);
  }
}
