/**
 * The records the search reads and produces: postings in their encrypted and
 * decrypted forms, per-token metadata rows, search restrictions, and the view
 * of the index database that one read transaction sees.
 *
 * Encryption is modelled by keeping the plaintext next to the ciphertext:
 * decrypting with the database key gives it back, and encrypting an index key
 * is deterministic and injective (the identity here).
 */
module SearchTypes {
  import opened Wrappers
  import opened EntityIds

  /** The encrypted element id at the head of an encrypted posting, read as a number. */
  type EncId = nat

  /** `SearchIndexEntry`: one occurrence list of a word in one attribute of one element. */
  datatype IndexEntry = IndexEntry(id: Id, attribute: nat, positions: seq<nat>)

  /** `EncryptedSearchIndexEntry`: the encrypted id followed by the encrypted posting `sealed`. */
  datatype EncryptedEntry = EncryptedEntry(encId: EncId, sealed: IndexEntry)

  /** `EncryptedSearchIndexEntryWithHash`. */
  datatype EntryWithHash = EntryWithHash(encEntry: EncryptedEntry, idHash: int)

  /** `DecryptedSearchIndexEntry`, also standing for `MoreResultsIndexEntry`. */
  datatype DecryptedEntry = DecryptedEntry(id: Id, attribute: nat, positions: seq<nat>, encId: EncId)

  /** `KeyToEncryptedIndexEntries`. */
  datatype KeyToEncrypted = KeyToEncrypted(indexKey: string, indexEntries: seq<EntryWithHash>)

  /** `KeyToIndexEntries`. */
  datatype KeyToEntries = KeyToEntries(indexKey: string, indexEntries: seq<DecryptedEntry>)

  /** `SearchIndexMetadataEntry`: a pointer to one row of postings of a word for one type. */
  datatype MetaEntry = MetaEntry(key: nat, size: nat, typeRef: TypeRef, oldestElementTimestamp: int)

  /** `SearchIndexMetaDataRow`: all rows of one word, stored oldest first. */
  datatype MetaDataRow = MetaDataRow(id: int, word: string, rows: seq<MetaEntry>)

  /** `SearchRestriction`; `start`, `end` and `attributeIds` may be absent (`null`). */
  datatype SearchRestriction = SearchRestriction(
    typeRef: TypeRef,
    start: Option<int>,
    end: Option<int>,
    attributeIds: Option<seq<nat>>,
    folderIds: seq<Id>)

  /** The part of a mail the folder filter reads: its id and the mail sets it is in. */
  datatype Mail = Mail(id: IdTuple, sets: seq<IdTuple>)

  /** The errors a load can fail with. */
  datatype LoadError = NotFoundError | NotAuthorizedError | OtherError

  /** A value of an entity the suggestion check reads: a string value, or all string values of an aggregation. */
  datatype AttributeValue = StringValue(attribute: nat, text: string) | AggregateValues(attribute: nat, texts: seq<string>)

  /** The string values and aggregations of a loaded entity. */
  datatype Entity = Entity(id: IdTuple, values: seq<AttributeValue>)

  /**
   * What one read transaction sees of the index database: the metadata rows by
   * index key, the rows of postings by metadata key, and for every encrypted
   * element id the list id of the element (`ElementDataOS`).
   */
  datatype IndexDb = IndexDb(
    metaData: map<string, MetaDataRow>,
    searchIndex: map<nat, seq<EncryptedEntry>>,
    elementData: map<EncId, Id>)

  /** JavaScript truthiness of an optional number: present and not 0. */
  predicate Truthy(n: Option<int>)
  {
    n.Some? && n.value != 0
  }

  /** `encryptIndexKeyBase64`: deterministic and injective. */
  function IndexKey(token: string): string
  {
    token
  }

  /** `arrayHash` of an encrypted id: a 32-bit hash, so different ids may collide. */
  function IdHash(encId: EncId): int
  {
    encId % 0x1_0000_0000
  }

  /** `decryptSearchIndexEntry`. */
  function Decrypt(e: EncryptedEntry): DecryptedEntry
  {
    DecryptedEntry(e.sealed.id, e.sealed.attribute, e.sealed.positions, e.encId)
  }
}
