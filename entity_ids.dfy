/**
 * Element ids, type references and the timestamp constants shared by the
 * search index and the entity cache.
 *
 * An element id is represented by its rank in the id order of its family, so
 * that `firstBiggerThanSecond(a, b)` is `a > b`. A generated id carries its
 * creation time in its high part: the ids created in millisecond `t` are
 * exactly `t * ID_PER_MILLISECOND .. (t + 1) * ID_PER_MILLISECOND - 1`, the low
 * part standing for the server and counter bits.
 */
module EntityIds {

  type Id = nat

  /** `[listId, elementId]`. */
  datatype IdTuple = IdTuple(listId: Id, elementId: Id)

  /** The entity types that this part of the system tells apart. */
  datatype TypeRef = MailType | ContactType | CalendarEventType | OtherType(app: string, typeId: nat)

  /** Number of generated ids per millisecond of creation time. */
  const ID_PER_MILLISECOND: nat := 0x1_0000_0000

  /** `Number.MAX_SAFE_INTEGER`. */
  const MAX_SAFE_INTEGER: int := 0x1F_FFFF_FFFF_FFFF

  /** Group index timestamp meaning "indexed completely". */
  const FULL_INDEXED_TIMESTAMP: int := 0

  /** Group index timestamp meaning "indexing has not started" (2^42 - 1). */
  const NOTHING_INDEXED_TIMESTAMP: int := 0x3FF_FFFF_FFFF

  /** `firstBiggerThanSecond(first, second)`. */
  predicate FirstBiggerThanSecond(first: Id, second: Id)
  {
    first > second
  }

  /** `timestampToGeneratedId(timestamp)`: the smallest id generated in that millisecond. */
  function TimestampToGeneratedId(timestamp: int): (id: Id)
    ensures timestamp >= 0 ==> GeneratedIdTimestamp(id) == timestamp
  {
    if timestamp <= 0 then 0 else timestamp * ID_PER_MILLISECOND
  }

  /** The creation time encoded in a generated id. */
  function GeneratedIdTimestamp(id: Id): nat
  {
    id / ID_PER_MILLISECOND
  }

  /**
   * An id lies at or above the smallest id of millisecond `t` exactly when it
   * was generated in millisecond `t` or later.
   */
  lemma AtLeastGeneratedId(id: Id, t: int)
    requires t >= 0
    ensures id >= TimestampToGeneratedId(t) <==> GeneratedIdTimestamp(id) >= t
  {
    var q := id / ID_PER_MILLISECOND;
    assert id == q * ID_PER_MILLISECOND + id % ID_PER_MILLISECOND;
    if q >= t {
      assert q * ID_PER_MILLISECOND >= t * ID_PER_MILLISECOND;
    } else {
      assert q + 1 <= t;
      assert (q + 1) * ID_PER_MILLISECOND <= t * ID_PER_MILLISECOND;
    }
  }
}
