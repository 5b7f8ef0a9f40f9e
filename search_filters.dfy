/**
 * The filter stages of a search: intersecting the tokens' postings by the
 * hash of the encrypted element id, decrypting, filtering by attribute and
 * time window and intersecting by element id.
 */
module SearchFilters {
  import opened Wrappers
  import opened Seqs
  import opened EntityIds
  import opened SearchTypes

  // ---------------------------------------------------------------- by encrypted id

  predicate HasHash(entries: seq<EntryWithHash>, h: int)
  {
    exists e :: e in entries && e.idHash == h
  }

  /** The id hash `h` occurs in the postings of every token. */
  predicate HashInAll(results: seq<KeyToEncrypted>, h: int)
  {
    forall j :: 0 <= j < |results| ==> HasHash(results[j].indexEntries, h)
  }

  function HashesOf(entries: seq<EntryWithHash>): (r: set<int>)
    ensures forall h :: h in r <==> HasHash(entries, h)
  {
    set e | e in entries :: e.idHash
  }

  lemma HashInAllStep(results: seq<KeyToEncrypted>, i: nat, h: int)
    requires i < |results|
    ensures HashInAll(results[..i + 1], h) <==> HashInAll(results[..i], h) && HasHash(results[i].indexEntries, h)
  {
    assert forall j :: 0 <= j < i ==> results[..i + 1][j] == results[..i][j];
  }

  /** The postings of one token that survive the encrypted-id intersection. */
  function KeepIfHashInAll(entries: seq<EntryWithHash>, results: seq<KeyToEncrypted>): seq<EntryWithHash>
  {
    Filter(entries, (e: EntryWithHash) => HashInAll(results, e.idHash))
  }

  /**
   * `filterByEncryptedId`: every token keeps, in order, exactly those postings
   * whose id hash occurs among the postings of every token.
   */
  method FilterByEncryptedId(results: seq<KeyToEncrypted>) returns (r: seq<KeyToEncrypted>)
    ensures |r| == |results|
    ensures forall k :: 0 <= k < |results| ==>
      r[k] == KeyToEncrypted(results[k].indexKey, KeepIfHashInAll(results[k].indexEntries, results))
  {
    var matchingEncIds: Option<set<int>> := None;
    var i := 0;
    while i < |results|
      invariant 0 <= i <= |results|
      invariant matchingEncIds.None? <==> i == 0
      invariant matchingEncIds.Some? ==> forall h :: h in matchingEncIds.value <==> HashInAll(results[..i], h)
    {
      var entries := results[i].indexEntries;
      forall h | true
        ensures HashInAll(results[..i + 1], h) <==> HashInAll(results[..i], h) && HasHash(entries, h)
      {
        HashInAllStep(results, i, h);
      }
      if matchingEncIds.None? {
        matchingEncIds := Some(HashesOf(entries));
      } else {
        var matching := matchingEncIds.value;
        var filtered: set<int> := {};
        var j := 0;
        while j < |entries|
          invariant 0 <= j <= |entries|
          invariant forall h :: h in filtered <==> h in matching && HasHash(entries[..j], h)
        {
          assert forall e :: e in entries[..j + 1] <==> e in entries[..j] || e == entries[j] by {
            assert entries[..j + 1] == entries[..j] + [entries[j]];
          }
          if entries[j].idHash in matching {
            filtered := filtered + {entries[j].idHash};
          }
          j := j + 1;
        }
        assert entries[..j] == entries;
        matchingEncIds := Some(filtered);
      }
      i := i + 1;
    }
    assert results[..i] == results;
    r := [];
    var k := 0;
    while k < |results|
      invariant 0 <= k <= |results|
      invariant |r| == k
      invariant forall m :: 0 <= m < k ==> r[m] == KeyToEncrypted(results[m].indexKey, KeepIfHashInAll(results[m].indexEntries, results))
    {
      var kept := Filter(results[k].indexEntries, (e: EntryWithHash) => matchingEncIds.Some? && e.idHash in matchingEncIds.value);
      FilterCongruent(results[k].indexEntries, (e: EntryWithHash) => matchingEncIds.Some? && e.idHash in matchingEncIds.value,
        (e: EntryWithHash) => HashInAll(results, e.idHash));
      r := r + [KeyToEncrypted(results[k].indexKey, kept)];
      k := k + 1;
    }
  }

  // ---------------------------------------------------------------- decryption

  /** Each posting decrypted, in order. */
  function DecryptEntries(entries: seq<EntryWithHash>): (r: seq<DecryptedEntry>)
    ensures |r| == |entries|
    ensures forall i :: 0 <= i < |entries| ==> r[i] == Decrypt(entries[i].encEntry) && r[i].encId == entries[i].encEntry.encId
    ensures forall d :: d in r <==> exists y :: y in entries && Decrypt(y.encEntry) == d
  {
    if entries == [] then [] else [Decrypt(entries[0].encEntry)] + DecryptEntries(entries[1..])
  }

  /** `decryptSearchResult`: each token keeps its key and gets its postings decrypted, in order. */
  function DecryptSearchResult(results: seq<KeyToEncrypted>): (r: seq<KeyToEntries>)
    ensures |r| == |results|
    ensures forall k :: 0 <= k < |results| ==>
      r[k].indexKey == results[k].indexKey && |r[k].indexEntries| == |results[k].indexEntries|
    ensures forall k, i :: 0 <= k < |results| && 0 <= i < |results[k].indexEntries| ==>
      r[k].indexEntries[i] == Decrypt(results[k].indexEntries[i].encEntry)
  {
    seq(|results|, k requires 0 <= k < |results| =>
      KeyToEntries(results[k].indexKey, DecryptEntries(results[k].indexEntries)))
  }

  // ---------------------------------------------------------------- by attribute and time

  /**
   * `getSearchEndTimestamp`: the oldest creation time a search covers. A
   * truthy `end` restriction wins; for mails it is the time down to which mails
   * are indexed (the current time when nothing is indexed yet); other types
   * are indexed completely.
   */
  function GetSearchEndTimestamp(restriction: SearchRestriction, currentIndexTimestamp: int, now: int): (r: int)
    ensures Truthy(restriction.end) ==> r == restriction.end.value
    ensures !Truthy(restriction.end) && restriction.typeRef != MailType ==> r == FULL_INDEXED_TIMESTAMP
    ensures !Truthy(restriction.end) && restriction.typeRef == MailType ==>
      r == (if currentIndexTimestamp == NOTHING_INDEXED_TIMESTAMP then now else currentIndexTimestamp)
  {
    if Truthy(restriction.end) then restriction.end.value
    else if restriction.typeRef == MailType then
      if currentIndexTimestamp == NOTHING_INDEXED_TIMESTAMP then now else currentIndexTimestamp
    else FULL_INDEXED_TIMESTAMP
  }

  /** `isValidAttributeAndTime`. */
  predicate IsValidAttributeAndTime(restriction: SearchRestriction, entry: DecryptedEntry, minIncludedId: Id, maxExcludedId: Option<Id>)
  {
    && (restriction.attributeIds.Some? ==> entry.attribute in restriction.attributeIds.value)
    && (maxExcludedId.Some? ==> FirstBiggerThanSecond(maxExcludedId.value, entry.id))
    && !FirstBiggerThanSecond(minIncludedId, entry.id)
  }

  /** The smallest id a search accepts. */
  function MinIncludedId(restriction: SearchRestriction, currentIndexTimestamp: int, now: int): Id
  {
    TimestampToGeneratedId(GetSearchEndTimestamp(restriction, currentIndexTimestamp, now))
  }

  /** The smallest id a search no longer accepts, when it has a truthy `start`. */
  function MaxExcludedId(restriction: SearchRestriction): Option<Id>
  {
    if Truthy(restriction.start) then Some(TimestampToGeneratedId(restriction.start.value + 1)) else None
  }

  /**
   * The time window in terms of creation times: with a start `s` and an end
   * `e` (both not negative), an entry passes exactly when its attribute is
   * allowed and its element was created in a millisecond from `e` to `s`,
   * both included.
   */
  lemma ValidTimeWindow(restriction: SearchRestriction, entry: DecryptedEntry, currentIndexTimestamp: int, now: int)
    requires Truthy(restriction.start) && restriction.start.value >= 0
    requires GetSearchEndTimestamp(restriction, currentIndexTimestamp, now) >= 0
    ensures IsValidAttributeAndTime(restriction, entry, MinIncludedId(restriction, currentIndexTimestamp, now), MaxExcludedId(restriction))
      <==> && (restriction.attributeIds.Some? ==> entry.attribute in restriction.attributeIds.value)
           && GetSearchEndTimestamp(restriction, currentIndexTimestamp, now) <= GeneratedIdTimestamp(entry.id) <= restriction.start.value
  {
    AtLeastGeneratedId(entry.id, GetSearchEndTimestamp(restriction, currentIndexTimestamp, now));
    AtLeastGeneratedId(entry.id, restriction.start.value + 1);
  }

  /**
   * A mail search without an `end` restriction reports no mail created
   * before the time down to which mails are indexed.
   */
  lemma MailSearchWithinIndexedRange(restriction: SearchRestriction, entry: DecryptedEntry, currentIndexTimestamp: int, now: int)
    requires restriction.typeRef == MailType && !Truthy(restriction.end)
    requires 0 <= currentIndexTimestamp != NOTHING_INDEXED_TIMESTAMP
    requires IsValidAttributeAndTime(restriction, entry, MinIncludedId(restriction, currentIndexTimestamp, now), MaxExcludedId(restriction))
    ensures GeneratedIdTimestamp(entry.id) >= currentIndexTimestamp
  {
    AtLeastGeneratedId(entry.id, currentIndexTimestamp);
  }

  predicate HasId(entries: seq<DecryptedEntry>, id: Id)
  {
    exists e :: e in entries && e.id == id
  }

  /** The element id occurs in the (already filtered) postings of every token. */
  predicate IdInAll(results: seq<KeyToEntries>, id: Id)
  {
    forall j :: 0 <= j < |results| ==> HasId(results[j].indexEntries, id)
  }

  function IdsOf(entries: seq<DecryptedEntry>): (r: set<Id>)
    ensures forall id :: id in r <==> HasId(entries, id)
  {
    set e | e in entries :: e.id
  }

  lemma IdInAllStep(results: seq<KeyToEntries>, i: nat, id: Id)
    requires i < |results|
    ensures IdInAll(results[..i + 1], id) <==> IdInAll(results[..i], id) && HasId(results[i].indexEntries, id)
  {
    assert forall j :: 0 <= j < i ==> results[..i + 1][j] == results[..i][j];
  }

  /** The postings of one token that pass the attribute and time filter. */
  function ValidEntries(entries: seq<DecryptedEntry>, restriction: SearchRestriction, minIncludedId: Id, maxExcludedId: Option<Id>): seq<DecryptedEntry>
  {
    Filter(entries, (e: DecryptedEntry) => IsValidAttributeAndTime(restriction, e, minIncludedId, maxExcludedId))
  }

  /** The tokens' postings after the first stage of `filterByTypeAndAttributeAndTime`. */
  function Validated(results: seq<KeyToEntries>, restriction: SearchRestriction, minIncludedId: Id, maxExcludedId: Option<Id>): (r: seq<KeyToEntries>)
    ensures |r| == |results|
    ensures forall k :: 0 <= k < |results| ==>
      r[k] == KeyToEntries(results[k].indexKey, ValidEntries(results[k].indexEntries, restriction, minIncludedId, maxExcludedId))
  {
    seq(|results|, k requires 0 <= k < |results| =>
      KeyToEntries(results[k].indexKey, ValidEntries(results[k].indexEntries, restriction, minIncludedId, maxExcludedId)))
  }

  function IdInAllOf(results: seq<KeyToEntries>): DecryptedEntry -> bool
  {
    (e: DecryptedEntry) => IdInAll(results, e.id)
  }

  function IdIn(ids: set<Id>): DecryptedEntry -> bool
  {
    (e: DecryptedEntry) => e.id in ids
  }

  function KeepIfIdInAll(entries: seq<DecryptedEntry>, results: seq<KeyToEntries>): seq<DecryptedEntry>
  {
    Filter(entries, IdInAllOf(results))
  }

  /** The first stage of `filterByTypeAndAttributeAndTime`, filtering each token's postings in place. */
  method ValidateEach(results: seq<KeyToEntries>, restriction: SearchRestriction, minIncludedId: Id, maxExcludedId: Option<Id>)
    returns (validated: seq<KeyToEntries>)
    ensures validated == Validated(results, restriction, minIncludedId, maxExcludedId)
  {
    ghost var expected := Validated(results, restriction, minIncludedId, maxExcludedId);
    validated := results;
    var i := 0;
    while i < |validated|
      invariant 0 <= i <= |validated| == |results|
      invariant forall m :: 0 <= m < i ==> validated[m] == expected[m]
      invariant forall m :: i <= m < |validated| ==> validated[m] == results[m]
    {
      var filtered := Filter(validated[i].indexEntries, (e: DecryptedEntry) => IsValidAttributeAndTime(restriction, e, minIncludedId, maxExcludedId));
      validated := validated[i := KeyToEntries(validated[i].indexKey, filtered)];
      i := i + 1;
    }
  }

  /**
   * The second stage of `filterByTypeAndAttributeAndTime`: the set of
   * element ids that occur for every token, or nothing without tokens.
   */
  method MatchingIds(validated: seq<KeyToEntries>) returns (matchingIds: Option<set<Id>>)
    ensures matchingIds.None? <==> |validated| == 0
    ensures matchingIds.Some? ==> forall id :: id in matchingIds.value <==> IdInAll(validated, id)
  {
    matchingIds := None;
    var i := 0;
    while i < |validated|
      invariant 0 <= i <= |validated|
      invariant matchingIds.None? <==> i == 0
      invariant matchingIds.Some? ==> forall id :: id in matchingIds.value <==> IdInAll(validated[..i], id)
    {
      var entries := validated[i].indexEntries;
      forall id | true
        ensures IdInAll(validated[..i + 1], id) <==> IdInAll(validated[..i], id) && HasId(entries, id)
      {
        IdInAllStep(validated, i, id);
      }
      if matchingIds.None? {
        matchingIds := Some(IdsOf(entries));
      } else {
        var matching := matchingIds.value;
        var filtered: set<Id> := {};
        var j := 0;
        while j < |entries|
          invariant 0 <= j <= |entries|
          invariant forall id :: id in filtered <==> id in matching && HasId(entries[..j], id)
        {
          assert forall e :: e in entries[..j + 1] <==> e in entries[..j] || e == entries[j] by {
            assert entries[..j + 1] == entries[..j] + [entries[j]];
          }
          if entries[j].id in matching {
            filtered := filtered + {entries[j].id};
          }
          j := j + 1;
        }
        assert entries[..j] == entries;
        matchingIds := Some(filtered);
      }
      i := i + 1;
    }
    assert validated[..i] == validated;
  }

  /**
   * `filterByTypeAndAttributeAndTime`: every token keeps, in order, exactly
   * its postings that pass the attribute and time filter and whose element
   * id has such a posting for every token.
   */
  method FilterByTypeAndAttributeAndTime(results: seq<KeyToEntries>, restriction: SearchRestriction, currentIndexTimestamp: int, now: int)
    returns (r: seq<KeyToEntries>)
    ensures var validated := Validated(results, restriction, MinIncludedId(restriction, currentIndexTimestamp, now), MaxExcludedId(restriction));
      && |r| == |results|
      && forall k :: 0 <= k < |results| ==>
           r[k] == KeyToEntries(results[k].indexKey, KeepIfIdInAll(validated[k].indexEntries, validated))
  {
    var minIncludedId := MinIncludedId(restriction, currentIndexTimestamp, now);
    var maxExcludedId := MaxExcludedId(restriction);
    var validated := ValidateEach(results, restriction, minIncludedId, maxExcludedId);
    var matchingIds := MatchingIds(validated);
    r := [];
    var k := 0;
    while k < |validated|
      invariant 0 <= k <= |validated|
      invariant |r| == k
      invariant forall m :: 0 <= m < k ==> r[m] == KeyToEntries(results[m].indexKey, KeepIfIdInAll(validated[m].indexEntries, validated))
    {
      var kept := Filter(validated[k].indexEntries, IdIn(matchingIds.value));
      FilterCongruent(validated[k].indexEntries, IdIn(matchingIds.value), IdInAllOf(validated));
      r := r + [KeyToEntries(validated[k].indexKey, kept)];
      k := k + 1;
    }
  }

  /** Some posting in `entries` is of the element `id` and passes the filter. */
  ghost predicate HasValidId(entries: seq<DecryptedEntry>, restriction: SearchRestriction, minIncludedId: Id, maxExcludedId: Option<Id>, id: Id)
  {
    exists x :: x in entries && x.id == id && IsValidAttributeAndTime(restriction, x, minIncludedId, maxExcludedId)
  }

  /**
   * What survives the type, attribute and time filter: every posting that
   * is kept passes the filter and its element id passes it for every token;
   * conversely every such posting is kept.
   */
  lemma TypeAttributeTimeKept(results: seq<KeyToEntries>, restriction: SearchRestriction, minIncludedId: Id, maxExcludedId: Option<Id>, k: nat, e: DecryptedEntry)
    requires k < |results|
    ensures var validated := Validated(results, restriction, minIncludedId, maxExcludedId);
      e in KeepIfIdInAll(validated[k].indexEntries, validated) <==>
        && e in results[k].indexEntries
        && IsValidAttributeAndTime(restriction, e, minIncludedId, maxExcludedId)
        && forall j :: 0 <= j < |results| ==> HasValidId(results[j].indexEntries, restriction, minIncludedId, maxExcludedId, e.id)
  {
    var validated := Validated(results, restriction, minIncludedId, maxExcludedId);
    assert forall j, x :: 0 <= j < |results| ==>
      (x in validated[j].indexEntries <==> x in results[j].indexEntries && IsValidAttributeAndTime(restriction, x, minIncludedId, maxExcludedId));
  }
}
