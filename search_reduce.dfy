/**
 * The last stages of a search: matching the word order of a quoted query
 * and dropping repeated or already found element ids.
 */
module SearchReduce {
  import opened Wrappers
  import opened Seqs
  import opened EntityIds
  import opened SearchTypes
  import opened SearchFilters

  // ---------------------------------------------------------------- word order

  predicate SameAttribute(e: DecryptedEntry, first: DecryptedEntry)
  {
    e.id == first.id && e.attribute == first.attribute
  }

  /** `entries.find(e => e.id === first.id && e.attribute === first.attribute)`. */
  function FindSameAttribute(entries: seq<DecryptedEntry>, first: DecryptedEntry): (r: Option<DecryptedEntry>)
    ensures r.Some? ==> r.value in entries && SameAttribute(r.value, first)
    ensures r.Some? ==> exists i :: 0 <= i < |entries| && entries[i] == r.value && forall j :: 0 <= j < i ==> !SameAttribute(entries[j], first)
    ensures r.None? ==> forall e :: e in entries ==> !SameAttribute(e, first)
  {
    if entries == [] then None
    else if SameAttribute(entries[0], first) then Some(entries[0])
    else
      var r := FindSameAttribute(entries[1..], first);
      if r.Some? then
        ghost var i :| 0 <= i < |entries[1..]| && entries[1..][i] == r.value && forall j :: 0 <= j < i ==> !SameAttribute(entries[1..][j], first);
        assert entries[i + 1] == r.value;
        assert forall j :: 1 <= j < i + 1 ==> entries[j] == entries[1..][j - 1];
        r
      else r
  }

  /**
   * The `i`-th token occurs right `i` positions after position `p` of the
   * first token, in the first posting of the `i`-th token for the same
   * element and attribute.
   */
  predicate Follows(results: seq<KeyToEntries>, first: DecryptedEntry, i: nat, p: nat)
    requires i < |results|
  {
    var e := FindSameAttribute(results[i].indexEntries, first);
    e.Some? && p + i in e.value.positions
  }

  /** Tokens 1 to `i - 1` follow position `p` in order. */
  predicate FollowedUpTo(results: seq<KeyToEntries>, first: DecryptedEntry, i: nat, p: nat)
    requires i <= |results|
  {
    forall j :: 1 <= j < i ==> Follows(results, first, j, p)
  }

  function FollowedUpToAt(results: seq<KeyToEntries>, first: DecryptedEntry, i: nat): nat -> bool
    requires i <= |results|
  {
    (p: nat) => FollowedUpTo(results, first, i, p)
  }

  /** The posting `first` of the first token starts the whole query, word by word, in one attribute. */
  predicate InWordOrder(results: seq<KeyToEntries>, first: DecryptedEntry)
  {
    exists p :: p in first.positions && FollowedUpTo(results, first, |results|, p)
  }

  function InWordOrderOf(results: seq<KeyToEntries>): DecryptedEntry -> bool
  {
    first => InWordOrder(results, first)
  }

  /** The positions `p` with `p + i` among `positions`. */
  function ShiftedIn(positions: seq<nat>, i: nat): nat -> bool
  {
    p => p + i in positions
  }

  lemma FollowedStep(results: seq<KeyToEntries>, first: DecryptedEntry, i: nat)
    requires 1 <= i < |results|
    requires FindSameAttribute(results[i].indexEntries, first).Some?
    ensures var positions := FindSameAttribute(results[i].indexEntries, first).value.positions;
      Filter(Filter(first.positions, FollowedUpToAt(results, first, i)), ShiftedIn(positions, i))
        == Filter(first.positions, FollowedUpToAt(results, first, i + 1))
  {
    var positions := FindSameAttribute(results[i].indexEntries, first).value.positions;
    forall p | p in first.positions
      ensures FollowedUpToAt(results, first, i + 1)(p) <==> FollowedUpToAt(results, first, i)(p) && ShiftedIn(positions, i)(p)
    {
      assert Follows(results, first, i, p) <==> ShiftedIn(positions, i)(p);
      assert FollowedUpTo(results, first, i + 1, p) ==> Follows(results, first, i, p);
    }
    FilterFilter(first.positions, FollowedUpToAt(results, first, i), ShiftedIn(positions, i), FollowedUpToAt(results, first, i + 1));
  }

  /** The positions of `first` after checking the tokens before `i` (the inner loop of `reduceWords`). */
  method FilterPositions(results: seq<KeyToEntries>, first: DecryptedEntry) returns (filteredPositions: seq<nat>)
    requires |results| > 0
    ensures filteredPositions == Filter(first.positions, FollowedUpToAt(results, first, |results|))
  {
    filteredPositions := first.positions;
    FilterAll(first.positions, FollowedUpToAt(results, first, 1));
    var i := 1;
    while i < |results|
      invariant 1 <= i <= |results|
      invariant filteredPositions == Filter(first.positions, FollowedUpToAt(results, first, i))
    {
      var entry := FindSameAttribute(results[i].indexEntries, first);
      if entry.Some? {
        var positions := entry.value.positions;
        FollowedStep(results, first, i);
        filteredPositions := Filter(filteredPositions, ShiftedIn(positions, i));
      } else {
        forall p | p in first.positions
          ensures !FollowedUpToAt(results, first, i + 1)(p)
        {
          assert !Follows(results, first, i, p);
        }
        FilterNone(first.positions, FollowedUpToAt(results, first, i + 1));
        filteredPositions := [];
      }
      i := i + 1;
    }
  }

  /** A posting starts the query exactly when one of its positions survives the inner loop. */
  lemma InWordOrderIffPositions(results: seq<KeyToEntries>, first: DecryptedEntry)
    ensures InWordOrder(results, first) <==> |Filter(first.positions, FollowedUpToAt(results, first, |results|))| > 0
  {
    var kept := Filter(first.positions, FollowedUpToAt(results, first, |results|));
    if |kept| > 0 {
      assert kept[0] in kept;
    } else {
      forall p | p in first.positions
        ensures !FollowedUpTo(results, first, |results|, p)
      {
        assert p !in kept;
      }
    }
  }

  /** Deciding on one more posting of the first token. */
  lemma WordOrderStep(results: seq<KeyToEntries>, entries: seq<DecryptedEntry>, k: nat)
    requires k < |entries|
    ensures Filter(entries[..k + 1], InWordOrderOf(results))
      == Filter(entries[..k], InWordOrderOf(results))
         + (if |Filter(entries[k].positions, FollowedUpToAt(results, entries[k], |results|))| > 0 then [entries[k]] else [])
  {
    FilterPrefixStep(entries, k, InWordOrderOf(results));
    InWordOrderIffPositions(results, entries[k]);
  }

  /**
   * `reduceWords`: without word order every posting of the first token is
   * kept (the earlier stages already made every token agree on the ids);
   * with word order exactly those postings of the first token are kept, in
   * order, at one of whose positions the whole query starts.
   */
  method ReduceWords(results: seq<KeyToEntries>, matchWordOrder: bool) returns (r: seq<DecryptedEntry>)
    requires |results| > 0
    ensures !matchWordOrder ==> r == results[0].indexEntries
    ensures matchWordOrder ==> r == Filter(results[0].indexEntries, InWordOrderOf(results))
  {
    if matchWordOrder {
      var entries := results[0].indexEntries;
      r := [];
      var k := 0;
      while k < |entries|
        invariant 0 <= k <= |entries|
        invariant r == Filter(entries[..k], InWordOrderOf(results))
      {
        var firstWordEntry := entries[k];
        var filteredPositions := FilterPositions(results, firstWordEntry);
        WordOrderStep(results, entries, k);
        if |filteredPositions| > 0 {
          r := r + [firstWordEntry];
        }
        k := k + 1;
      }
      assert entries[..k] == entries;
    } else {
      r := results[0].indexEntries;
    }
  }

  // ---------------------------------------------------------------- unique element ids

  /** The element id is among the element ids of the results found so far. */
  predicate FoundBefore(previous: seq<IdTuple>, id: Id)
  {
    exists t :: t in previous && t.elementId == id
  }

  /**
   * The postings kept by `reduceToUniqueElementIds`: the first posting of
   * every element id not found before.
   */
  function UniqueEntries(entries: seq<DecryptedEntry>, previous: seq<IdTuple>): seq<DecryptedEntry>
  {
    if entries == [] then []
    else
      var init := UniqueEntries(entries[..|entries| - 1], previous);
      var e := entries[|entries| - 1];
      if e.id in IdsOf(init) || FoundBefore(previous, e.id) then init else init + [e]
  }

  /** `reduceToUniqueElementIds`. */
  method ReduceToUniqueElementIds(results: seq<DecryptedEntry>, previousResults: seq<IdTuple>) returns (r: seq<DecryptedEntry>)
    ensures r == UniqueEntries(results, previousResults)
  {
    var uniqueIds: set<Id> := {};
    r := [];
    var i := 0;
    while i < |results|
      invariant 0 <= i <= |results|
      invariant r == UniqueEntries(results[..i], previousResults)
      invariant uniqueIds == IdsOf(r)
    {
      var entry := results[i];
      assert results[..i + 1][..i] == results[..i];
      if entry.id !in uniqueIds && !(exists t :: t in previousResults && t.elementId == entry.id) {
        uniqueIds := uniqueIds + {entry.id};
        r := r + [entry];
      }
      i := i + 1;
    }
    assert results[..i] == results;
  }

  predicate DistinctIds(entries: seq<DecryptedEntry>)
  {
    forall i, j :: 0 <= i < j < |entries| ==> entries[i].id != entries[j].id
  }

  /**
   * The kept postings are postings of the input, in order, with pairwise
   * different element ids, none of which was found before.
   */
  lemma {:induction false} UniqueEntriesSound(entries: seq<DecryptedEntry>, previous: seq<IdTuple>)
    ensures IsSubsequence(UniqueEntries(entries, previous), entries)
    ensures DistinctIds(UniqueEntries(entries, previous))
    ensures forall e :: e in UniqueEntries(entries, previous) ==> !FoundBefore(previous, e.id)
  {
    if entries != [] {
      var init := UniqueEntries(entries[..|entries| - 1], previous);
      var e := entries[|entries| - 1];
      UniqueEntriesSound(entries[..|entries| - 1], previous);
      assert entries == entries[..|entries| - 1] + [e];
      if e.id in IdsOf(init) || FoundBefore(previous, e.id) {
        SubsequenceOfLonger(init, entries[..|entries| - 1], e);
      } else {
        SubsequenceAppend(init, entries[..|entries| - 1], e);
        assert forall x :: x in init + [e] ==> x in init || x == e;
      }
    }
  }

  /** Every element id of the input that was not found before is kept. */
  lemma {:induction false} UniqueEntriesComplete(entries: seq<DecryptedEntry>, previous: seq<IdTuple>)
    ensures forall e :: e in entries && !FoundBefore(previous, e.id) ==> HasId(UniqueEntries(entries, previous), e.id)
  {
    if entries != [] {
      var init := UniqueEntries(entries[..|entries| - 1], previous);
      var e := entries[|entries| - 1];
      UniqueEntriesComplete(entries[..|entries| - 1], previous);
      assert forall y :: y in init ==> y in UniqueEntries(entries, previous);
      forall x | x in entries && !FoundBefore(previous, x.id)
        ensures HasId(UniqueEntries(entries, previous), x.id)
      {
        if x != e {
          assert x in entries[..|entries| - 1];
        } else {
          assert e in UniqueEntries(entries, previous) || HasId(init, e.id);
        }
      }
    }
  }

  /**
   * The kept postings are postings of the input, in order, with pairwise
   * different element ids, none of which was found before; and every
   * element id of the input that was not found before is kept.
   */
  lemma UniqueEntriesSpec(entries: seq<DecryptedEntry>, previous: seq<IdTuple>)
    ensures IsSubsequence(UniqueEntries(entries, previous), entries)
    ensures DistinctIds(UniqueEntries(entries, previous))
    ensures forall e :: e in UniqueEntries(entries, previous) ==> !FoundBefore(previous, e.id)
    ensures forall e :: e in entries && !FoundBefore(previous, e.id) ==> HasId(UniqueEntries(entries, previous), e.id)
  {
    UniqueEntriesSound(entries, previous);
    UniqueEntriesComplete(entries, previous);
  }
}
