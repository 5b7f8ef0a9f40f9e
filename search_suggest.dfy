/**
 * Completing the last word of a query against the loaded entities: whether
 * an entity has a string value (directly or inside an aggregation) that
 * contains the query, and the reduction of a result list to the first
 * entities that do (`containsSuggestionToken`, `loadAndReduce`).
 */
module SearchSuggest {
  import opened Wrappers
  import opened Seqs
  import opened EntityIds
  import opened SearchTypes
  import opened Tokenizer

  /** `normalizeQuery`: the tokens of the query joined by single spaces. */
  function NormalizeQuery(query: string): string
  {
    Join(Tokenize(query), " ")
  }

  /** A normalized query has the same tokens as the query. */
  lemma NormalizeQueryTokens(query: string)
    ensures Tokenize(NormalizeQuery(query)) == Tokenize(query)
  {
    TokenizeJoin(Tokenize(query), ' ');
    TokensOfTokens(Tokenize(query));
  }

  /** Normalizing twice is normalizing once. */
  lemma NormalizeQueryIdempotent(query: string)
    ensures NormalizeQuery(NormalizeQuery(query)) == NormalizeQuery(query)
  {
    NormalizeQueryTokens(query);
  }

  /** `b.indexOf(a) !== -1`. */
  predicate IsInfix(a: string, b: string)
    decreases |b|
  {
    a <= b || (|b| > 0 && IsInfix(a, b[1..]))
  }

  /** `a` occurs in `b` at some index. */
  lemma {:induction false} IsInfixAt(a: string, b: string)
    ensures IsInfix(a, b) <==> exists i :: 0 <= i <= |b| - |a| && a <= b[i..]
    decreases |b|
  {
    if |b| == 0 {
      if a <= b {
        assert a <= b[0..];
      }
    } else {
      IsInfixAt(a, b[1..]);
      if a <= b {
        assert a <= b[0..];
      }
      if IsInfix(a, b[1..]) && !(a <= b) {
        var i :| 0 <= i <= |b| - 1 - |a| && a <= b[1..][i..];
        assert b[1..][i..] == b[i + 1..];
      }
      forall i | 0 < i <= |b| - |a| && a <= b[i..]
        ensures IsInfix(a, b[1..])
      {
        assert b[1..][i - 1..] == b[i..];
      }
    }
  }

  /** The attribute is among the ones to look in (`null` meaning all of them). */
  predicate Selected(attributeIds: Option<seq<nat>>, attribute: nat)
  {
    attributeIds.None? || attribute in attributeIds.value
  }

  /**
   * A non-empty string value matches: with word order its normalized text
   * contains the (normalized) query, otherwise one of its tokens starts
   * with the suggestion token.
   */
  predicate TextMatches(text: string, token: string, matchWordOrder: bool)
  {
    && |text| > 0
    && if matchWordOrder then IsInfix(token, NormalizeQuery(text))
       else exists w :: w in Tokenize(text) && token <= w
  }

  /** A string value matches, or one of the string values of an aggregation does. */
  predicate ValueMatches(v: AttributeValue, token: string, matchWordOrder: bool)
  {
    match v
    case StringValue(_, text) => TextMatches(text, token, matchWordOrder)
    case AggregateValues(_, texts) => exists t :: t in texts && TextMatches(t, token, matchWordOrder)
  }

  /**
   * `containsSuggestionToken` over the values of `entity` from index `from`:
   * the values are searched one after the other until one matches.
   */
  function ContainsFrom(values: seq<AttributeValue>, from: nat, attributeIds: Option<seq<nat>>, token: string, matchWordOrder: bool): (r: bool)
    requires from <= |values|
    ensures r <==> exists i :: from <= i < |values| && Selected(attributeIds, values[i].attribute) && ValueMatches(values[i], token, matchWordOrder)
    decreases |values| - from
  {
    if from == |values| then false
    else if Selected(attributeIds, values[from].attribute) && ValueMatches(values[from], token, matchWordOrder) then true
    else ContainsFrom(values, from + 1, attributeIds, token, matchWordOrder)
  }

  /**
   * `containsSuggestionToken`: some selected value of the entity, or some
   * string value of a selected aggregation, matches.
   */
  function ContainsSuggestionToken(entity: Entity, attributeIds: Option<seq<nat>>, token: string, matchWordOrder: bool): (r: bool)
    ensures r <==> exists v :: v in entity.values && Selected(attributeIds, v.attribute) && ValueMatches(v, token, matchWordOrder)
  {
    ContainsFrom(entity.values, 0, attributeIds, token, matchWordOrder)
  }

  /** An entity has a string value with a token that the suggestion token starts. */
  lemma PrefixOfTokenFound(entity: Entity, attribute: nat, text: string, token: string, w: string)
    requires StringValue(attribute, text) in entity.values
    requires w in Tokenize(text) && token <= w
    ensures ContainsSuggestionToken(entity, None, token, false)
  {
  }

  /** `entityClient.load` of an entity of the given type; an unknown id is not found. */
  function LoadEntity(store: map<(TypeRef, IdTuple), Result<Entity, LoadError>>, typeRef: TypeRef, id: IdTuple): Result<Entity, LoadError>
  {
    if (typeRef, id) in store then store[(typeRef, id)] else Err(NotFoundError)
  }

  /** The entity loads and contains the suggestion query. */
  predicate LoadsAndMatches(store: map<(TypeRef, IdTuple), Result<Entity, LoadError>>, typeRef: TypeRef, id: IdTuple,
                            attributeIds: Option<seq<nat>>, query: string, matchWordOrder: bool)
  {
    LoadEntity(store, typeRef, id).Ok? && ContainsSuggestionToken(LoadEntity(store, typeRef, id).value, attributeIds, query, matchWordOrder)
  }

  /**
   * The loop of `loadAndReduce` over the remaining `ids`, with `found` the
   * ids kept so far: stop once `minCount` are kept; an entity that is not
   * found or not accessible is skipped; any other load error ends it.
   */
  function Reduced(store: map<(TypeRef, IdTuple), Result<Entity, LoadError>>, typeRef: TypeRef, ids: seq<IdTuple>, found: seq<IdTuple>,
                   minCount: int, attributeIds: Option<seq<nat>>, query: string, matchWordOrder: bool): Result<seq<IdTuple>, LoadError>
    decreases |ids|
  {
    if ids == [] || |found| >= minCount then Ok(found)
    else
      match LoadEntity(store, typeRef, ids[0])
      case Err(e) =>
        if e == OtherError then Err(e)
        else Reduced(store, typeRef, ids[1..], found, minCount, attributeIds, query, matchWordOrder)
      case Ok(entity) =>
        var found' := if ContainsSuggestionToken(entity, attributeIds, query, matchWordOrder) then found + [ids[0]] else found;
        Reduced(store, typeRef, ids[1..], found', minCount, attributeIds, query, matchWordOrder)
  }

  /** The ids kept after those kept before are a subsequence of the input: `loadAndReduce` keeps the input's order. */
  lemma {:induction false} ReducedInOrder(store: map<(TypeRef, IdTuple), Result<Entity, LoadError>>, typeRef: TypeRef, ids: seq<IdTuple>,
                                         found: seq<IdTuple>, minCount: int, attributeIds: Option<seq<nat>>, query: string, matchWordOrder: bool)
    ensures var r := Reduced(store, typeRef, ids, found, minCount, attributeIds, query, matchWordOrder);
      r.Ok? ==> found <= r.value && IsSubsequence(r.value[|found|..], ids)
    decreases |ids|
  {
    var r := Reduced(store, typeRef, ids, found, minCount, attributeIds, query, matchWordOrder);
    if ids == [] || |found| >= minCount {
      assert r.Ok? ==> r.value[|found|..] == [];
    } else {
      var found' := if LoadsAndMatches(store, typeRef, ids[0], attributeIds, query, matchWordOrder) then found + [ids[0]] else found;
      ReducedInOrder(store, typeRef, ids[1..], found', minCount, attributeIds, query, matchWordOrder);
      if r.Ok? {
        assert r == Reduced(store, typeRef, ids[1..], found', minCount, attributeIds, query, matchWordOrder);
        var rest := r.value[|found'|..];
        if |found'| == |found| {
          SubsequenceOfCons(rest, ids);
        } else {
          assert r.value[|found|..] == [ids[0]] + rest;
        }
      }
    }
  }

  /**
   * The kept ids extend the ids kept before, by ids of the input whose
   * entities load and match, in the order of the input.
   */
  lemma {:induction false} ReducedKeepsMatches(store: map<(TypeRef, IdTuple), Result<Entity, LoadError>>, typeRef: TypeRef, ids: seq<IdTuple>,
                                              found: seq<IdTuple>, minCount: int, attributeIds: Option<seq<nat>>, query: string, matchWordOrder: bool)
    ensures var r := Reduced(store, typeRef, ids, found, minCount, attributeIds, query, matchWordOrder);
      r.Ok? ==> (found <= r.value
                 && IsSubsequence(r.value[|found|..], ids)
                 && forall j :: |found| <= j < |r.value| ==> r.value[j] in ids && LoadsAndMatches(store, typeRef, r.value[j], attributeIds, query, matchWordOrder))
    decreases |ids|
  {
    ReducedInOrder(store, typeRef, ids, found, minCount, attributeIds, query, matchWordOrder);
    if ids != [] && |found| < minCount {
      var found' := if LoadEntity(store, typeRef, ids[0]).Ok? && LoadsAndMatches(store, typeRef, ids[0], attributeIds, query, matchWordOrder)
                    then found + [ids[0]] else found;
      ReducedKeepsMatches(store, typeRef, ids[1..], found', minCount, attributeIds, query, matchWordOrder);
      var r := Reduced(store, typeRef, ids, found, minCount, attributeIds, query, matchWordOrder);
      if r.Ok? {
        assert r == Reduced(store, typeRef, ids[1..], found', minCount, attributeIds, query, matchWordOrder);
        forall j | |found| <= j < |found'|
          ensures r.value[j] in ids && LoadsAndMatches(store, typeRef, r.value[j], attributeIds, query, matchWordOrder)
        {
          assert r.value[j] == found'[j] == ids[0];
        }
      }
    }
  }

  /** No more ids are kept than asked for, unless that many were kept before. */
  lemma {:induction false} ReducedBound(store: map<(TypeRef, IdTuple), Result<Entity, LoadError>>, typeRef: TypeRef, ids: seq<IdTuple>,
                                       found: seq<IdTuple>, minCount: int, attributeIds: Option<seq<nat>>, query: string, matchWordOrder: bool)
    requires |found| <= minCount
    ensures var r := Reduced(store, typeRef, ids, found, minCount, attributeIds, query, matchWordOrder);
      r.Ok? ==> |r.value| <= minCount
    decreases |ids|
  {
    if ids != [] && |found| < minCount {
      var found' := if LoadsAndMatches(store, typeRef, ids[0], attributeIds, query, matchWordOrder) then found + [ids[0]] else found;
      ReducedBound(store, typeRef, ids[1..], found', minCount, attributeIds, query, matchWordOrder);
    }
  }

  /**
   * When fewer ids than asked for are kept, none was missed: every id of
   * the input whose entity loads and matches is kept.
   */
  lemma {:induction false} ReducedComplete(store: map<(TypeRef, IdTuple), Result<Entity, LoadError>>, typeRef: TypeRef, ids: seq<IdTuple>,
                                          found: seq<IdTuple>, minCount: int, attributeIds: Option<seq<nat>>, query: string, matchWordOrder: bool)
    ensures var r := Reduced(store, typeRef, ids, found, minCount, attributeIds, query, matchWordOrder);
      r.Ok? && |r.value| < minCount ==>
        forall x :: x in ids && LoadsAndMatches(store, typeRef, x, attributeIds, query, matchWordOrder) ==> x in r.value
    decreases |ids|
  {
    if ids != [] && |found| < minCount {
      var found' := if LoadsAndMatches(store, typeRef, ids[0], attributeIds, query, matchWordOrder) then found + [ids[0]] else found;
      ReducedComplete(store, typeRef, ids[1..], found', minCount, attributeIds, query, matchWordOrder);
      ReducedKeepsMatches(store, typeRef, ids[1..], found', minCount, attributeIds, query, matchWordOrder);
      var r := Reduced(store, typeRef, ids, found, minCount, attributeIds, query, matchWordOrder);
      if r.Ok? && |r.value| < minCount && LoadsAndMatches(store, typeRef, ids[0], attributeIds, query, matchWordOrder) {
        assert ids[0] in found';
      }
    }
  }
}
