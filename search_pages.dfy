/**
 * Turning the postings of a page into result ids
 * (`filterByListIdAndGroupSearchResults`): newest first, at most the page
 * size of them, each resolved to its list through the element data, and
 * with a folder restriction only the mails in one of the folders.
 */
module SearchPages {
  import opened Wrappers
  import opened Seqs
  import opened EntityIds
  import opened SearchTypes

  /** `compareNewestFirst` orders result ids by their element id, largest first. */
  function ElementId(t: IdTuple): int
  {
    t.elementId
  }

  /** Postings are ordered by the element id they point to. */
  function EntryId(e: DecryptedEntry): int
  {
    e.id
  }

  /** The end index of `slice(0, maxResults || len + 1)` on an array of length `len`. */
  function SliceEnd(len: nat, maxResults: Option<int>): (n: nat)
    ensures n <= len
    ensures !Truthy(maxResults) ==> n == len
    ensures Truthy(maxResults) && maxResults.value > 0 ==> n == if maxResults.value < len then maxResults.value else len
    ensures Truthy(maxResults) && maxResults.value < 0 ==> n == if len + maxResults.value < 0 then 0 else len + maxResults.value
  {
    if !Truthy(maxResults) then len
    else if maxResults.value >= 0 then (if maxResults.value < len then maxResults.value else len)
    else if len + maxResults.value < 0 then 0
    else len + maxResults.value
  }

  /**
   * The postings whose element data exist, as ids with the list id stored
   * in the element data, in order.
   */
  function Resolved(elementData: map<EncId, Id>, entries: seq<DecryptedEntry>): (r: seq<IdTuple>)
    ensures |r| <= |entries|
  {
    if entries == [] then []
    else
      var rest := Resolved(elementData, entries[1..]);
      if entries[0].encId in elementData then [IdTuple(elementData[entries[0].encId], entries[0].id)] + rest else rest
  }

  /** A resolved id is the element id of a posting with element data, under the stored list id. */
  lemma {:induction false} ResolvedFromEntries(elementData: map<EncId, Id>, entries: seq<DecryptedEntry>, t: IdTuple)
    requires t in Resolved(elementData, entries)
    ensures exists e :: e in entries && e.encId in elementData && t == IdTuple(elementData[e.encId], e.id)
  {
    if entries[0].encId !in elementData || t != IdTuple(elementData[entries[0].encId], entries[0].id) {
      ResolvedFromEntries(elementData, entries[1..], t);
    }
  }

  /** Every posting with element data is resolved. */
  lemma {:induction false} ResolvedComplete(elementData: map<EncId, Id>, entries: seq<DecryptedEntry>, e: DecryptedEntry)
    requires e in entries && e.encId in elementData
    ensures IdTuple(elementData[e.encId], e.id) in Resolved(elementData, entries)
  {
    if e != entries[0] {
      ResolvedComplete(elementData, entries[1..], e);
    }
  }

  /** Resolving keeps postings that are newest first in that order. */
  lemma {:induction false} ResolvedNewestFirst(elementData: map<EncId, Id>, entries: seq<DecryptedEntry>)
    requires SortedDesc(entries, EntryId)
    ensures SortedDesc(Resolved(elementData, entries), ElementId)
    ensures forall t :: t in Resolved(elementData, entries) ==> exists e :: e in entries && e.id == t.elementId
  {
    if entries != [] {
      ResolvedNewestFirst(elementData, entries[1..]);
      var rest := Resolved(elementData, entries[1..]);
      forall t | t in rest
        ensures ElementId(t) <= entries[0].id
      {
        var e :| e in entries[1..] && e.id == t.elementId;
        var j :| 0 <= j < |entries[1..]| && entries[1..][j] == e;
        assert entries[j + 1] == e;
      }
    }
  }

  /** The mail is in one of the folders: one of its mail sets has one of the folder ids as element id. */
  predicate InFolders(mail: Mail, folderIds: seq<Id>)
  {
    exists s :: s in mail.sets && s.elementId in folderIds
  }

  /** `entityClient.load(MailTypeRef, id)`; an unknown id is not found. */
  function LoadMail(mails: map<IdTuple, Result<Mail, LoadError>>, id: IdTuple): Result<Mail, LoadError>
  {
    if id in mails then mails[id] else Err(NotFoundError)
  }

  /**
   * Loading the mails of the resolved ids: a mail that is not found is
   * skipped, any other error fails the whole page; the ids of the mails in
   * one of the folders, in order.
   */
  function MailsInFolders(mails: map<IdTuple, Result<Mail, LoadError>>, ids: seq<IdTuple>, folderIds: seq<Id>): (r: Result<seq<IdTuple>, LoadError>)
    ensures r.Ok? ==> |r.value| <= |ids|
  {
    if ids == [] then Ok([])
    else
      var rest := MailsInFolders(mails, ids[1..], folderIds);
      match LoadMail(mails, ids[0])
      case Err(e) => if e == NotFoundError then rest else Err(e)
      case Ok(mail) =>
        if rest.Err? then rest
        else Ok((if InFolders(mail, folderIds) then [mail.id] else []) + rest.value)
  }

  /** A mail reported for a folder restriction was loaded for one of the ids and is in one of the folders. */
  lemma {:induction false} MailsInFoldersSound(mails: map<IdTuple, Result<Mail, LoadError>>, ids: seq<IdTuple>, folderIds: seq<Id>, t: IdTuple)
    requires MailsInFolders(mails, ids, folderIds).Ok? && t in MailsInFolders(mails, ids, folderIds).value
    ensures exists id :: id in ids && LoadMail(mails, id).Ok? && LoadMail(mails, id).value.id == t && InFolders(LoadMail(mails, id).value, folderIds)
  {
    var rest := MailsInFolders(mails, ids[1..], folderIds);
    if LoadMail(mails, ids[0]).Ok? && InFolders(LoadMail(mails, ids[0]).value, folderIds) && LoadMail(mails, ids[0]).value.id == t {
      assert ids[0] in ids;
    } else {
      MailsInFoldersSound(mails, ids[1..], folderIds, t);
      var id :| id in ids[1..] && LoadMail(mails, id).Ok? && LoadMail(mails, id).value.id == t && InFolders(LoadMail(mails, id).value, folderIds);
      assert id in ids;
    }
  }

  /** Every loaded mail in one of the folders is reported, unless the page fails. */
  lemma {:induction false} MailsInFoldersComplete(mails: map<IdTuple, Result<Mail, LoadError>>, ids: seq<IdTuple>, folderIds: seq<Id>, id: IdTuple)
    requires id in ids && LoadMail(mails, id).Ok? && InFolders(LoadMail(mails, id).value, folderIds)
    requires MailsInFolders(mails, ids, folderIds).Ok?
    ensures LoadMail(mails, id).value.id in MailsInFolders(mails, ids, folderIds).value
  {
    var rest := MailsInFolders(mails, ids[1..], folderIds);
    if ids[0] != id {
      assert id in ids[1..];
      MailsInFoldersComplete(mails, ids[1..], folderIds, id);
    }
  }

  /** The folder restriction fails only on a mail whose load failed with an error other than "not found". */
  lemma {:induction false} MailsInFoldersFails(mails: map<IdTuple, Result<Mail, LoadError>>, ids: seq<IdTuple>, folderIds: seq<Id>)
    requires MailsInFolders(mails, ids, folderIds).Err?
    ensures exists id :: id in ids && LoadMail(mails, id) == Err(MailsInFolders(mails, ids, folderIds).error)
    ensures MailsInFolders(mails, ids, folderIds).error != NotFoundError
  {
    var load := LoadMail(mails, ids[0]);
    if load.Err? && load.error != NotFoundError {
      assert ids[0] in ids;
    } else {
      MailsInFoldersFails(mails, ids[1..], folderIds);
      var id :| id in ids[1..] && LoadMail(mails, id) == Err(MailsInFolders(mails, ids[1..], folderIds).error);
      assert id in ids;
    }
  }

  /** The ids a page adds to the results, or the error that ends it. */
  function NewResults(elementData: map<EncId, Id>, mails: map<IdTuple, Result<Mail, LoadError>>,
                      processed: seq<DecryptedEntry>, folderIds: seq<Id>): (r: Result<seq<IdTuple>, LoadError>)
    ensures r.Ok? ==> |r.value| <= |processed|
  {
    if folderIds == [] then Ok(Resolved(elementData, processed))
    else MailsInFolders(mails, Resolved(elementData, processed), folderIds)
  }

  /**
   * The postings of a page are split into the processed ones and the ones
   * left for the next page, newest first, so that nothing processed is
   * older than what is left.
   */
  lemma PageSplit(entries: seq<DecryptedEntry>, maxResults: Option<int>)
    ensures var sorted := SortDesc(entries, EntryId);
      var n := SliceEnd(|sorted|, maxResults);
      && multiset(sorted[..n]) + multiset(sorted[n..]) == multiset(entries)
      && SortedDesc(sorted[..n], EntryId)
      && SortedDesc(sorted[n..], EntryId)
      && forall i, j :: 0 <= i < n <= j < |sorted| ==> EntryId(sorted[i]) >= EntryId(sorted[j])
  {
    var sorted := SortDesc(entries, EntryId);
    SortedDescSplit(sorted, EntryId, SliceEnd(|sorted|, maxResults));
  }

  /** Without a folder restriction, a page adds newest-first ids of postings it processed. */
  lemma PageNewestFirst(elementData: map<EncId, Id>, mails: map<IdTuple, Result<Mail, LoadError>>, entries: seq<DecryptedEntry>, maxResults: Option<int>)
    ensures var sorted := SortDesc(entries, EntryId);
      var processed := sorted[..SliceEnd(|sorted|, maxResults)];
      && NewResults(elementData, mails, processed, []).Ok?
      && SortedDesc(NewResults(elementData, mails, processed, []).value, ElementId)
  {
    PageSplit(entries, maxResults);
    var sorted := SortDesc(entries, EntryId);
    ResolvedNewestFirst(elementData, sorted[..SliceEnd(|sorted|, maxResults)]);
  }

  /**
   * What a page does with its postings: newest first, the first
   * `maxResults` of them become ids appended to the results and the rest
   * are left over; a load error keeps the results and the left-over
   * postings as they were.
   */
  predicate PageOutcome(elementData: map<EncId, Id>, mails: map<IdTuple, Result<Mail, LoadError>>, entries: seq<DecryptedEntry>,
                        folderIds: seq<Id>, maxResults: Option<int>, results0: seq<IdTuple>, more0: seq<DecryptedEntry>,
                        outcome: Outcome<LoadError>, results: seq<IdTuple>, more: seq<DecryptedEntry>)
  {
    var sorted := SortDesc(entries, EntryId);
    var n := SliceEnd(|sorted|, maxResults);
    match NewResults(elementData, mails, sorted[..n], folderIds)
    case Ok(found) => outcome == Pass && results == results0 + found && more == sorted[n..]
    case Err(e) => outcome == Fail(e) && results == results0 && more == more0
  }

  /**
   * A page only appends to the results, at most `maxResults` ids when that
   * is positive; what it leaves over is newest first, and nothing of its
   * postings is lost; it fails only on a load error other than "not found",
   * and then changes nothing.
   */
  lemma PageOutcomeBounds(elementData: map<EncId, Id>, mails: map<IdTuple, Result<Mail, LoadError>>, entries: seq<DecryptedEntry>,
                          folderIds: seq<Id>, maxResults: Option<int>, results0: seq<IdTuple>, more0: seq<DecryptedEntry>,
                          outcome: Outcome<LoadError>, results: seq<IdTuple>, more: seq<DecryptedEntry>)
    requires PageOutcome(elementData, mails, entries, folderIds, maxResults, results0, more0, outcome, results, more)
    ensures outcome.Pass? ==> results0 <= results
    ensures outcome.Pass? && Truthy(maxResults) && maxResults.value > 0 ==> |results| <= |results0| + maxResults.value
    ensures outcome.Pass? ==> SortedDesc(more, EntryId)
    ensures outcome.Pass? ==> multiset(more) <= multiset(entries)
    ensures outcome.Fail? ==> outcome.error != NotFoundError && results == results0 && more == more0
  {
    var sorted := SortDesc(entries, EntryId);
    var n := SliceEnd(|sorted|, maxResults);
    PageSplit(entries, maxResults);
    var found := NewResults(elementData, mails, sorted[..n], folderIds);
    if found.Ok? {
      assert results0 + found.value == results;
      assert results[..|results0|] == results0;
    } else {
      MailsInFoldersFails(mails, Resolved(elementData, sorted[..n]), folderIds);
    }
  }
}
