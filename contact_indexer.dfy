/**
 * `ContactIndexer`: turns contacts into search index updates and suggestion
 * words, for single entity events and for a whole contact list. An index
 * update is modelled as the list of commands it collects: add the entries
 * of an instance, remove an instance.
 */
module Contacts {
  import opened Wrappers
  import opened EntityIds
  import opened SearchTypes
  import opened Tokenizer
  import Suggestions

  /** A contact, with the attributes that are indexed. */
  datatype Contact = Contact(
    id: IdTuple, ownerGroup: Id,
    firstName: string, lastName: string, nickname: Option<string>, role: string, title: Option<string>,
    comment: string, company: string,
    addresses: seq<string>, mailAddresses: seq<string>, phoneNumbers: seq<string>, socialIds: seq<string>)

  /** A contact list: its owner group and the id of the list holding its contacts. */
  datatype ContactList = ContactList(ownerGroup: Id, contacts: Id)

  /** The contact attributes and associations that are indexed. */
  datatype ContactAttribute =
    FirstName | LastName | Nickname | Role | Title | Comment | Company
    | Addresses | MailAddresses | PhoneNumbers | SocialIds

  /** The words of one attribute value, from which the index entries of the attribute are made. */
  datatype AttributeEntry = AttributeEntry(attribute: ContactAttribute, words: seq<string>)

  datatype OperationType = Create | Update | Delete

  /** An entity event for a contact. */
  datatype EntityUpdateData = EntityUpdateData(operation: OperationType, instanceListId: Id, instanceId: Id)

  /** What an index update collects. */
  datatype IndexCommand = AddEntries(id: IdTuple, ownerGroup: Id, entries: seq<AttributeEntry>) | RemoveInstance(id: IdTuple)

  /** `IndexUpdate`, shared by the event handlers that fill it. */
  class IndexUpdate {
    var commands: seq<IndexCommand>

    constructor ()
      ensures commands == []
    {
      commands := [];
    }
  }

  /** `value || ""`. */
  function OrEmpty(value: Option<string>): string
  {
    if value.Some? then value.value else ""
  }

  /** The values `createContactIndexEntries` indexes, attribute by attribute. */
  function AttributeValues(c: Contact): seq<(ContactAttribute, string)>
  {
    [(FirstName, c.firstName), (LastName, c.lastName), (Nickname, OrEmpty(c.nickname)), (Role, c.role),
     (Title, OrEmpty(c.title)), (Comment, c.comment), (Company, c.company),
     (Addresses, Join(c.addresses, ",")), (MailAddresses, Join(c.mailAddresses, ",")),
     (PhoneNumbers, Join(c.phoneNumbers, ",")), (SocialIds, Join(c.socialIds, ","))]
  }

  /** The words of every indexed attribute of the contact. */
  function ContactEntries(c: Contact): (r: seq<AttributeEntry>)
    ensures |r| == 11
    ensures forall k :: 0 <= k < 11 ==> r[k] == AttributeEntry(AttributeValues(c)[k].0, Tokenize(AttributeValues(c)[k].1))
  {
    var values := AttributeValues(c);
    seq(11, k requires 0 <= k < 11 => AttributeEntry(values[k].0, Tokenize(values[k].1)))
  }

  /** The text whose tokens are suggested: first name, last name and the mail addresses, space-separated. */
  function SuggestionText(c: Contact): string
  {
    c.firstName + " " + c.lastName + " " + Join(c.mailAddresses, " ")
  }

  /** `_getSuggestionWords`. */
  function SuggestionWords(c: Contact): (r: seq<string>)
    ensures forall w :: w in r ==> IsToken(w)
  {
    Tokenize(SuggestionText(c))
  }

  /**
   * The suggestion words are the tokens of the first name, then of the last
   * name, then of each mail address; each of them is also a word indexed
   * for the first name, the last name or the mail addresses.
   */
  lemma SuggestionWordsTokens(c: Contact)
    ensures SuggestionWords(c) == Tokenize(c.firstName) + Tokenize(c.lastName) + TokensOfAll(c.mailAddresses)
    ensures var entries := ContactEntries(c);
      forall w :: w in SuggestionWords(c) ==> w in entries[0].words || w in entries[1].words || w in entries[8].words
  {
    var rest := c.lastName + " " + Join(c.mailAddresses, " ");
    assert SuggestionText(c) == c.firstName + [' '] + rest;
    TokenizeAtSeparator(c.firstName, ' ', rest);
    TokenizeAtSeparator(c.lastName, ' ', Join(c.mailAddresses, " "));
    TokenizeJoin(c.mailAddresses, ' ');
    TokenizeJoin(c.mailAddresses, ',');
  }

  /** `entityClient.load(ContactTypeRef, id)`; an unknown id is not found. */
  function LoadContact(contacts: map<IdTuple, Result<Contact, LoadError>>, id: IdTuple): Result<Contact, LoadError>
  {
    if id in contacts then contacts[id] else Err(NotFoundError)
  }

  /** The contact an event is about. */
  function EventId(event: EntityUpdateData): IdTuple
  {
    IdTuple(event.instanceListId, event.instanceId)
  }

  /**
   * The load of `processNewContact`: the contact, nothing when it is not
   * found or not accessible, or the error that ends the batch.
   */
  function NewContact(contacts: map<IdTuple, Result<Contact, LoadError>>, event: EntityUpdateData): (r: Result<Option<Contact>, LoadError>)
    ensures r.Err? <==> LoadContact(contacts, EventId(event)).Err? && LoadContact(contacts, EventId(event)).error == OtherError
    ensures r.Ok? && r.value.Some? <==> LoadContact(contacts, EventId(event)).Ok?
    ensures r.Ok? && r.value.Some? ==> r.value.value == LoadContact(contacts, EventId(event)).value
  {
    var load := LoadContact(contacts, EventId(event));
    if load.Ok? then Ok(Some(load.value))
    else if load.error == OtherError then Err(OtherError)
    else Ok(None)
  }

  /**
   * What handling events did: the commands added to the index update, the
   * suggestion words added, whether the suggestions were stored, and the
   * error that ended the handling, if any.
   */
  datatype Batch = Batch(commands: seq<IndexCommand>, words: seq<string>, stored: bool, error: Option<LoadError>)

  /** The commands and words of a loaded contact. */
  function Added(loaded: Result<Option<Contact>, LoadError>): Batch
  {
    match loaded
    case Err(e) => Batch([], [], false, Some(e))
    case Ok(None) => Batch([], [], false, None)
    case Ok(Some(c)) => Batch([AddEntries(c.id, c.ownerGroup, ContactEntries(c))], SuggestionWords(c), true, None)
  }

  /**
   * The handling of one event: a creation adds the entries of the loaded
   * contact, an update first removes the instance and then adds them, a
   * deletion removes the instance.
   */
  function EventBatch(contacts: map<IdTuple, Result<Contact, LoadError>>, event: EntityUpdateData): Batch
  {
    match event.operation
    case Create => Added(NewContact(contacts, event))
    case Update =>
      var added := Added(NewContact(contacts, event));
      added.(commands := [RemoveInstance(EventId(event))] + added.commands)
    case Delete => Batch([RemoveInstance(EventId(event))], [], false, None)
  }

  /** One batch after the other. */
  function Then(first: Batch, second: Batch): Batch
  {
    Batch(first.commands + second.commands, first.words + second.words, first.stored || second.stored, second.error)
  }

  /** The handling of the events in order, stopping at the first error. */
  function EventsBatch(contacts: map<IdTuple, Result<Contact, LoadError>>, events: seq<EntityUpdateData>): Batch
  {
    if events == [] then Batch([], [], false, None)
    else
      var init := EventsBatch(contacts, events[..|events| - 1]);
      if init.error.Some? then init else Then(init, EventBatch(contacts, events[|events| - 1]))
  }

  /**
   * What each kind of event adds to the index update: a creation adds at
   * most the loaded contact's entries and removes nothing; an update
   * removes the instance and then adds at most the entries; a deletion only
   * removes; a contact that is not found or not accessible adds nothing and
   * is no error; any other load error is the error of the event.
   */
  lemma EventCommands(contacts: map<IdTuple, Result<Contact, LoadError>>, event: EntityUpdateData)
    ensures var b := EventBatch(contacts, event);
      var load := LoadContact(contacts, EventId(event));
      && (event.operation == Create ==>
            && (forall cmd :: cmd in b.commands ==> cmd.AddEntries?)
            && (load.Ok? ==> b.commands == [AddEntries(load.value.id, load.value.ownerGroup, ContactEntries(load.value))] && b.error.None?))
      && (event.operation == Update ==>
            && |b.commands| > 0 && b.commands[0] == RemoveInstance(EventId(event))
            && (load.Ok? ==> b.commands[1..] == [AddEntries(load.value.id, load.value.ownerGroup, ContactEntries(load.value))] && b.error.None?))
      && (event.operation == Delete ==> b == Batch([RemoveInstance(EventId(event))], [], false, None))
      && (event.operation != Delete && load.Err? ==>
            && (forall cmd :: cmd in b.commands ==> !cmd.AddEntries?)
            && b.words == [] && !b.stored
            && (b.error.Some? <==> load.error == OtherError)
            && (b.error.Some? ==> b.error.value == load.error))
  {
    var b := EventBatch(contacts, event);
    if event.operation == Update {
      assert b.commands[1..] == Added(NewContact(contacts, event)).commands;
    }
  }

  /** A batch that was not cut short by an error handled every event. */
  lemma {:induction false} EventsBatchComplete(contacts: map<IdTuple, Result<Contact, LoadError>>, events: seq<EntityUpdateData>)
    ensures var b := EventsBatch(contacts, events);
      b.error.None? <==> forall e :: e in events ==> EventBatch(contacts, e).error.None?
  {
    if events != [] {
      var init := events[..|events| - 1];
      EventsBatchComplete(contacts, init);
      assert events == init + [events[|events| - 1]];
      assert forall e :: e in events <==> e in init || e == events[|events| - 1];
    }
  }

  /** Every instance a batch adds entries for is the contact of one of its creation or update events. */
  lemma {:induction false} EventsBatchAdds(contacts: map<IdTuple, Result<Contact, LoadError>>, events: seq<EntityUpdateData>, cmd: IndexCommand)
    requires cmd in EventsBatch(contacts, events).commands && cmd.AddEntries?
    ensures exists e :: e in events && e.operation != Delete && LoadContact(contacts, EventId(e)).Ok?
                        && cmd == AddEntries(LoadContact(contacts, EventId(e)).value.id, LoadContact(contacts, EventId(e)).value.ownerGroup,
                                             ContactEntries(LoadContact(contacts, EventId(e)).value))
  {
    var init := events[..|events| - 1];
    var last := events[|events| - 1];
    var b := EventsBatch(contacts, init);
    if b.error.None? && cmd in EventBatch(contacts, last).commands {
      EventCommands(contacts, last);
      assert last in events;
    } else {
      EventsBatchAdds(contacts, init, cmd);
      var e :| e in init && e.operation != Delete && LoadContact(contacts, EventId(e)).Ok?
               && cmd == AddEntries(LoadContact(contacts, EventId(e)).value.id, LoadContact(contacts, EventId(e)).value.ownerGroup,
                                    ContactEntries(LoadContact(contacts, EventId(e)).value));
      assert e in events;
    }
  }

  /** Once a batch has failed, the events after the failing one are not handled. */
  lemma {:induction false} EventsBatchStops(contacts: map<IdTuple, Result<Contact, LoadError>>, events: seq<EntityUpdateData>, j: nat)
    requires j <= |events| && EventsBatch(contacts, events[..j]).error.Some?
    ensures EventsBatch(contacts, events) == EventsBatch(contacts, events[..j])
    decreases |events| - j
  {
    if j < |events| {
      var init := events[..|events| - 1];
      assert init[..j] == events[..j];
      EventsBatchStops(contacts, init, j);
    } else {
      assert events[..j] == events;
    }
  }

  /** Handling one more event after a batch without error. */
  lemma EventsBatchSnoc(contacts: map<IdTuple, Result<Contact, LoadError>>, events: seq<EntityUpdateData>, i: nat)
    requires i < |events|
    requires EventsBatch(contacts, events[..i]).error.None?
    ensures EventsBatch(contacts, events[..i + 1]) == Then(EventsBatch(contacts, events[..i]), EventBatch(contacts, events[i]))
  {
    assert events[..i + 1][..i] == events[..i];
  }

  /**
   * The state after a batch, from the state before it: the index update
   * holds the batch's commands after its earlier ones, the table holds its
   * words, and the stored table is the current one exactly when the batch
   * stored it.
   */
  predicate Reflects(b: Batch, commands0: seq<IndexCommand>, table0: Suggestions.Table, stored0: map<string, Suggestions.Table>,
                     typeName: string, commands: seq<IndexCommand>, table: Suggestions.Table, stored: map<string, Suggestions.Table>)
  {
    && commands == commands0 + b.commands
    && table == Suggestions.AddWords(table0, b.words)
    && (b.stored ==> stored == stored0[typeName := table])
    && (!b.stored ==> stored == stored0)
  }

  /** A batch followed by one more event, state by state. */
  lemma ReflectsThen(b: Batch, step: Batch, commands0: seq<IndexCommand>, table0: Suggestions.Table, stored0: map<string, Suggestions.Table>,
                     typeName: string, commands1: seq<IndexCommand>, table1: Suggestions.Table, stored1: map<string, Suggestions.Table>,
                     commands2: seq<IndexCommand>, table2: Suggestions.Table, stored2: map<string, Suggestions.Table>)
    requires Reflects(b, commands0, table0, stored0, typeName, commands1, table1, stored1)
    requires Reflects(step, commands1, table1, stored1, typeName, commands2, table2, stored2)
    requires !step.stored ==> step.words == []
    ensures Reflects(Then(b, step), commands0, table0, stored0, typeName, commands2, table2, stored2)
  {
    assert commands0 + (b.commands + step.commands) == (commands0 + b.commands) + step.commands;
    AddWordsAppend(table0, b.words, step.words);
    if !step.stored {
      assert b.words + step.words == b.words;
    }
  }

  /**
   * Handling the next event after events handled without an error: the
   * state reflects the longer batch, whose error is that of the event, and
   * an error there is the error of the whole sequence.
   */
  lemma HandledStep(contacts: map<IdTuple, Result<Contact, LoadError>>, events: seq<EntityUpdateData>, i: nat,
                    commands0: seq<IndexCommand>, table0: Suggestions.Table, stored0: map<string, Suggestions.Table>, typeName: string,
                    commands1: seq<IndexCommand>, table1: Suggestions.Table, stored1: map<string, Suggestions.Table>,
                    commands2: seq<IndexCommand>, table2: Suggestions.Table, stored2: map<string, Suggestions.Table>)
    requires i < |events|
    requires EventsBatch(contacts, events[..i]).error.None?
    requires Reflects(EventsBatch(contacts, events[..i]), commands0, table0, stored0, typeName, commands1, table1, stored1)
    requires Reflects(EventBatch(contacts, events[i]), commands1, table1, stored1, typeName, commands2, table2, stored2)
    ensures var b := EventsBatch(contacts, events[..i + 1]);
      && Reflects(b, commands0, table0, stored0, typeName, commands2, table2, stored2)
      && b.error == EventBatch(contacts, events[i]).error
      && (b.error.Some? ==> EventsBatch(contacts, events) == b)
  {
    EventsBatchSnoc(contacts, events, i);
    ReflectsThen(EventsBatch(contacts, events[..i]), EventBatch(contacts, events[i]), commands0, table0, stored0,
                 typeName, commands1, table1, stored1, commands2, table2, stored2);
    if EventBatch(contacts, events[i]).error.Some? {
      EventsBatchStops(contacts, events, i + 1);
    }
  }

  /** The contacts of a full list in order: the entries to add and the suggestion words. */
  function ListCommands(contacts: seq<Contact>): seq<IndexCommand>
  {
    if contacts == [] then []
    else ListCommands(contacts[..|contacts| - 1]) + [AddEntries(contacts[|contacts| - 1].id, contacts[|contacts| - 1].ownerGroup, ContactEntries(contacts[|contacts| - 1]))]
  }

  function ListWords(contacts: seq<Contact>): seq<string>
  {
    if contacts == [] then [] else ListWords(contacts[..|contacts| - 1]) + SuggestionWords(contacts[|contacts| - 1])
  }

  /** A full list adds exactly one command per contact, the entries of that contact. */
  lemma {:induction false} ListCommandsPerContact(contacts: seq<Contact>)
    ensures |ListCommands(contacts)| == |contacts|
    ensures forall k :: 0 <= k < |contacts| ==>
      ListCommands(contacts)[k] == AddEntries(contacts[k].id, contacts[k].ownerGroup, ContactEntries(contacts[k]))
  {
    if contacts != [] {
      var init := contacts[..|contacts| - 1];
      ListCommandsPerContact(init);
      forall k | 0 <= k < |init|
        ensures ListCommands(contacts)[k] == AddEntries(contacts[k].id, contacts[k].ownerGroup, ContactEntries(contacts[k]))
      {
        assert init[k] == contacts[k];
      }
    }
  }

  class ContactIndexer {
    /** What `entityClient.load(ContactTypeRef, id)` returns. */
    const contacts: map<IdTuple, Result<Contact, LoadError>>
    /** What `entityClient.loadAll(ContactTypeRef, listId)` returns. */
    const contactLists: map<Id, Result<seq<Contact>, LoadError>>
    const suggestionFacade: Suggestions.SuggestionFacade
    /** `GroupDataOS`: the index timestamp of every group. */
    var groupData: map<Id, int>
    /** The index updates written to the database, in order. */
    var written: seq<IndexCommand>

    constructor (contacts: map<IdTuple, Result<Contact, LoadError>>, contactLists: map<Id, Result<seq<Contact>, LoadError>>,
                 suggestionFacade: Suggestions.SuggestionFacade, groupData: map<Id, int>)
      ensures this.contacts == contacts && this.contactLists == contactLists && this.suggestionFacade == suggestionFacade
      ensures this.groupData == groupData && written == []
    {
      this.contacts := contacts;
      this.contactLists := contactLists;
      this.suggestionFacade := suggestionFacade;
      this.groupData := groupData;
      written := [];
    }

    /** `createContactIndexEntries`: the contact's entries; its suggestion words go into the table. */
    method CreateContactIndexEntries(c: Contact) returns (entries: seq<AttributeEntry>)
      requires suggestionFacade.Valid()
      modifies suggestionFacade
      ensures suggestionFacade.Valid()
      ensures entries == ContactEntries(c)
      ensures suggestionFacade.suggestions == Suggestions.AddWords(old(suggestionFacade.suggestions), SuggestionWords(c))
    {
      entries := ContactEntries(c);
      suggestionFacade.AddSuggestions(SuggestionWords(c));
    }

    /**
     * `processNewContact`: loads the contact of the event, adds its
     * suggestion words and stores the table; a contact that is not found or
     * not accessible gives nothing, any other load error is returned.
     */
    method ProcessNewContact(event: EntityUpdateData) returns (r: Result<Option<(Contact, seq<AttributeEntry>)>, LoadError>)
      requires suggestionFacade.Valid()
      modifies suggestionFacade, suggestionFacade.db
      ensures suggestionFacade.Valid()
      ensures var loaded := NewContact(contacts, event);
        && (loaded.Err? ==> r == Err(loaded.error))
        && (loaded.Ok? && loaded.value.None? ==> r == Ok(None))
        && (loaded.Ok? && loaded.value.Some? ==> r == Ok(Some((loaded.value.value, ContactEntries(loaded.value.value)))))
      ensures suggestionFacade.suggestions == Suggestions.AddWords(old(suggestionFacade.suggestions), Added(NewContact(contacts, event)).words)
      ensures Added(NewContact(contacts, event)).stored ==>
        suggestionFacade.db.suggestionsOS == old(suggestionFacade.db.suggestionsOS)[suggestionFacade.typeName := suggestionFacade.suggestions]
      ensures !Added(NewContact(contacts, event)).stored ==> suggestionFacade.db.suggestionsOS == old(suggestionFacade.db.suggestionsOS)
    {
      var load := LoadContact(contacts, EventId(event));
      if load.Err? {
        if load.error == NotFoundError || load.error == NotAuthorizedError {
          return Ok(None);
        }
        return Err(load.error);
      }
      var entries := CreateContactIndexEntries(load.value);
      suggestionFacade.Store();
      r := Ok(Some((load.value, entries)));
    }

    /** Handles one event, adding to the index update. */
    method ProcessEvent(event: EntityUpdateData, indexUpdate: IndexUpdate) returns (outcome: Outcome<LoadError>)
      requires suggestionFacade.Valid()
      modifies suggestionFacade, suggestionFacade.db, indexUpdate
      ensures suggestionFacade.Valid()
      ensures var b := EventBatch(contacts, event);
        && Reflects(b, old(indexUpdate.commands), old(suggestionFacade.suggestions), old(suggestionFacade.db.suggestionsOS),
                    suggestionFacade.typeName, indexUpdate.commands, suggestionFacade.suggestions, suggestionFacade.db.suggestionsOS)
        && (b.error.None? <==> outcome.Pass?)
        && (b.error.Some? ==> outcome == Fail(b.error.value))
    {
      outcome := Pass;
      if event.operation == Delete {
        indexUpdate.commands := indexUpdate.commands + [RemoveInstance(EventId(event))];
        assert Suggestions.AddWords(old(suggestionFacade.suggestions), []) == old(suggestionFacade.suggestions);
        return;
      }
      if event.operation == Update {
        indexUpdate.commands := indexUpdate.commands + [RemoveInstance(EventId(event))];
      }
      var result := ProcessNewContact(event);
      if result.Err? {
        return Fail(result.error);
      }
      if result.value.Some? {
        var (c, entries) := result.value.value;
        indexUpdate.commands := indexUpdate.commands + [AddEntries(c.id, c.ownerGroup, entries)];
      }
    }

    /**
     * The state after handling the first `i` events without an error: the
     * index update, the suggestion table and the stored tables reflect their
     * batch on top of the state before the first event.
     */
    ghost predicate HandledUpTo(events: seq<EntityUpdateData>, i: nat, indexUpdate: IndexUpdate,
                                commands0: seq<IndexCommand>, table0: Suggestions.Table, stored0: map<string, Suggestions.Table>)
      reads indexUpdate, suggestionFacade, suggestionFacade.db
    {
      && i <= |events|
      && EventsBatch(contacts, events[..i]).error.None?
      && Reflects(EventsBatch(contacts, events[..i]), commands0, table0, stored0,
                  suggestionFacade.typeName, indexUpdate.commands, suggestionFacade.suggestions, suggestionFacade.db.suggestionsOS)
    }

    /** One round of `processEntityEvents`: the next event is handled, extending the batch of those before it. */
    method HandleNext(events: seq<EntityUpdateData>, i: nat, indexUpdate: IndexUpdate,
                      ghost commands0: seq<IndexCommand>, ghost table0: Suggestions.Table, ghost stored0: map<string, Suggestions.Table>)
      returns (outcome: Outcome<LoadError>)
      requires i < |events|
      requires suggestionFacade.Valid()
      requires HandledUpTo(events, i, indexUpdate, commands0, table0, stored0)
      modifies suggestionFacade, suggestionFacade.db, indexUpdate
      ensures suggestionFacade.Valid()
      ensures outcome.Pass? ==> HandledUpTo(events, i + 1, indexUpdate, commands0, table0, stored0)
      ensures outcome.Fail? ==>
        var b := EventsBatch(contacts, events);
        && Reflects(b, commands0, table0, stored0, suggestionFacade.typeName, indexUpdate.commands, suggestionFacade.suggestions, suggestionFacade.db.suggestionsOS)
        && b.error == Some(outcome.error)
    {
      ghost var commands1, table1, stored1 := indexUpdate.commands, suggestionFacade.suggestions, suggestionFacade.db.suggestionsOS;
      outcome := ProcessEvent(events[i], indexUpdate);
      HandledStep(contacts, events, i, commands0, table0, stored0, suggestionFacade.typeName, commands1, table1, stored1,
                  indexUpdate.commands, suggestionFacade.suggestions, suggestionFacade.db.suggestionsOS);
    }

    /**
     * `processEntityEvents`: the events are handled one after the other, all
     * adding to the same index update; the first error ends the handling
     * and is returned.
     */
    method ProcessEntityEvents(events: seq<EntityUpdateData>, indexUpdate: IndexUpdate) returns (outcome: Outcome<LoadError>)
      requires suggestionFacade.Valid()
      modifies suggestionFacade, suggestionFacade.db, indexUpdate
      ensures suggestionFacade.Valid()
      ensures var b := EventsBatch(contacts, events);
        && Reflects(b, old(indexUpdate.commands), old(suggestionFacade.suggestions), old(suggestionFacade.db.suggestionsOS),
                    suggestionFacade.typeName, indexUpdate.commands, suggestionFacade.suggestions, suggestionFacade.db.suggestionsOS)
        && (b.error.None? <==> outcome.Pass?)
        && (b.error.Some? ==> outcome == Fail(b.error.value))
    {
      ghost var commands0, table0, stored0 := indexUpdate.commands, suggestionFacade.suggestions, suggestionFacade.db.suggestionsOS;
      outcome := Pass;
      var i := 0;
      assert events[..0] == [];
      assert Suggestions.AddWords(table0, []) == table0;
      while i < |events|
        invariant i <= |events|
        invariant suggestionFacade.Valid()
        invariant outcome == Pass
        invariant HandledUpTo(events, i, indexUpdate, commands0, table0, stored0)
      {
        outcome := HandleNext(events, i, indexUpdate, commands0, table0, stored0);
        if outcome.Fail? {
          return;
        }
        i := i + 1;
      }
      assert events[..i] == events;
    }

    /** `getIndexTimestamp`: the index timestamp stored for the list's owner group, if any. */
    function GetIndexTimestamp(contactList: ContactList): (r: Option<int>)
      reads this
      ensures r.Some? <==> contactList.ownerGroup in groupData
      ensures r.Some? ==> r.value == groupData[contactList.ownerGroup]
    {
      if contactList.ownerGroup in groupData then Some(groupData[contactList.ownerGroup]) else None
    }

    /** The entries of every contact, in one index update. */
    method IndexContacts(list: seq<Contact>, indexUpdate: IndexUpdate)
      requires suggestionFacade.Valid()
      modifies suggestionFacade, indexUpdate
      ensures suggestionFacade.Valid()
      ensures indexUpdate.commands == old(indexUpdate.commands) + ListCommands(list)
      ensures suggestionFacade.suggestions == Suggestions.AddWords(old(suggestionFacade.suggestions), ListWords(list))
    {
      var i := 0;
      assert list[..0] == [];
      while i < |list|
        invariant 0 <= i <= |list|
        invariant suggestionFacade.Valid()
        invariant indexUpdate.commands == old(indexUpdate.commands) + ListCommands(list[..i])
        invariant suggestionFacade.suggestions == Suggestions.AddWords(old(suggestionFacade.suggestions), ListWords(list[..i]))
      {
        assert list[..i + 1][..i] == list[..i];
        var c := list[i];
        var entries := CreateContactIndexEntries(c);
        indexUpdate.commands := indexUpdate.commands + [AddEntries(c.id, c.ownerGroup, entries)];
        AddWordsAppend(old(suggestionFacade.suggestions), ListWords(list[..i]), SuggestionWords(c));
        i := i + 1;
      }
      assert list[..i] == list;
    }

    /**
     * `indexFullContactList`: indexes every contact of the list in one index
     * update, writes it with the group marked as fully indexed and stores
     * the suggestions. A list that is not found is left alone; any other
     * load error is returned.
     */
    method IndexFullContactList(contactList: ContactList) returns (outcome: Outcome<LoadError>)
      requires suggestionFacade.Valid()
      modifies this, suggestionFacade, suggestionFacade.db
      ensures suggestionFacade.Valid()
      ensures var loaded := if contactList.contacts in contactLists then contactLists[contactList.contacts] else Err(NotFoundError);
        match loaded
        case Ok(list) =>
          && outcome == Pass
          && written == old(written) + ListCommands(list)
          && groupData == old(groupData)[contactList.ownerGroup := FULL_INDEXED_TIMESTAMP]
          && GetIndexTimestamp(contactList) == Some(FULL_INDEXED_TIMESTAMP)
          && suggestionFacade.suggestions == Suggestions.AddWords(old(suggestionFacade.suggestions), ListWords(list))
          && suggestionFacade.db.suggestionsOS == old(suggestionFacade.db.suggestionsOS)[suggestionFacade.typeName := suggestionFacade.suggestions]
        case Err(e) =>
          && outcome == (if e == NotFoundError then Pass else Fail(e))
          && written == old(written) && groupData == old(groupData)
          && suggestionFacade.suggestions == old(suggestionFacade.suggestions)
          && suggestionFacade.db.suggestionsOS == old(suggestionFacade.db.suggestionsOS)
    {
      var groupId := contactList.ownerGroup;
      var indexUpdate := new IndexUpdate();
      var loaded := if contactList.contacts in contactLists then contactLists[contactList.contacts] else Err(NotFoundError);
      if loaded.Err? {
        if loaded.error == NotFoundError {
          return Pass;
        }
        return Fail(loaded.error);
      }
      IndexContacts(loaded.value, indexUpdate);
      groupData := groupData[groupId := FULL_INDEXED_TIMESTAMP];
      written := written + indexUpdate.commands;
      suggestionFacade.Store();
      outcome := Pass;
    }
  }

  /** Adding two lists of words is adding their concatenation. */
  lemma {:induction false} AddWordsAppend(t: Suggestions.Table, a: seq<string>, b: seq<string>)
    ensures Suggestions.AddWords(Suggestions.AddWords(t, a), b) == Suggestions.AddWords(t, a + b)
    decreases |b|
  {
    if b == [] {
      assert a + b == a;
    } else {
      var init := b[..|b| - 1];
      var w := b[|b| - 1];
      AddWordsAppend(t, a, init);
      assert b == init + [w];
      assert a + b == (a + init) + [w];
      Suggestions.AddWordsSnoc(Suggestions.AddWords(t, a), init, w);
      Suggestions.AddWordsSnoc(t, a + init, w);
    }
  }
}
