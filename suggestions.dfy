/**
 * The autocomplete word table of one entity kind (`SuggestionFacade`): a map
 * from a first character to the ascending, repetition-free list of the
 * words that start with it, persisted as a whole in the suggestion region of
 * the encrypted store.
 */
module Suggestions {
  import opened Seqs
  import opened EntityIds
  import LexOrder

  /** `SuggestionsType`: first character to its bucket of words. */
  type Table = map<char, seq<string>>

  predicate StrictlyAscending(b: seq<string>)
  {
    forall i, j :: 0 <= i < j < |b| ==> LexOrder.Less(b[i], b[j])
  }

  /** A bucket is ascending and holds only non-empty words starting with its key. */
  predicate BucketValid(key: char, b: seq<string>)
  {
    StrictlyAscending(b) && forall w :: w in b ==> |w| > 0 && w[0] == key
  }

  predicate TableValid(t: Table)
  {
    forall k :: k in t ==> BucketValid(k, t[k])
  }

  /** `findIndex(v => word < v)`, with "not found" as `|b|`. */
  function FirstGreater(b: seq<string>, w: string): (i: nat)
    ensures i <= |b|
    ensures forall j :: 0 <= j < i ==> !LexOrder.Less(w, b[j])
    ensures i < |b| ==> LexOrder.Less(w, b[i])
  {
    if b == [] then 0
    else if LexOrder.Less(w, b[0]) then 0
    else 1 + FirstGreater(b[1..], w)
  }

  /** The bucket after adding `w`: placed before the first greater word, unless present. */
  function InsertSorted(b: seq<string>, w: string): (r: seq<string>)
    ensures forall x :: x in r <==> x in b || x == w
    ensures w in b ==> r == b
  {
    if w in b then b
    else
      var i := FirstGreater(b, w);
      assert b == b[..i] + b[i..];
      b[..i] + [w] + b[i..]
  }

  /** Placing `w` between the words below it and the words above it keeps a bucket ascending. */
  lemma InsertAtAscending(b: seq<string>, w: string, i: nat)
    requires StrictlyAscending(b) && i <= |b|
    requires forall j :: 0 <= j < i ==> LexOrder.Less(b[j], w)
    requires forall j :: i <= j < |b| ==> LexOrder.Less(w, b[j])
    ensures StrictlyAscending(b[..i] + [w] + b[i..])
  {
    var r := b[..i] + [w] + b[i..];
    forall p, q | 0 <= p < q < |r|
      ensures LexOrder.Less(r[p], r[q])
    {
      if q < i {
        assert r[p] == b[p] && r[q] == b[q];
      } else if q == i {
        assert r[p] == b[p] && r[q] == w;
      } else if p == i {
        assert r[p] == w && r[q] == b[q - 1];
      } else if p < i {
        assert r[p] == b[p] && r[q] == b[q - 1];
      } else {
        assert r[p] == b[p - 1] && r[q] == b[q - 1];
      }
    }
  }

  /** Ordered insertion keeps a bucket ascending and free of repetitions. */
  lemma {:induction false} InsertSortedAscending(b: seq<string>, w: string)
    requires StrictlyAscending(b)
    ensures StrictlyAscending(InsertSorted(b, w))
  {
    if w !in b {
      var i := FirstGreater(b, w);
      forall j | 0 <= j < i
        ensures LexOrder.Less(b[j], w)
      {
        LexOrder.LessTotal(b[j], w);
      }
      forall j | i <= j < |b|
        ensures LexOrder.Less(w, b[j])
      {
        if j > i {
          LexOrder.LessTransitive(w, b[i], b[j]);
        }
      }
      InsertAtAscending(b, w, i);
    }
  }

  /** One iteration of `addSuggestions`: the table after adding the single word `w`. */
  function AddWord(t: Table, w: string): (r: Table)
    ensures |w| == 0 ==> r == t
    ensures r.Keys == if |w| == 0 then t.Keys else t.Keys + {w[0]}
    ensures forall k :: k in t && (|w| == 0 || k != w[0]) ==> r[k] == t[k]
    ensures |w| > 0 ==> w in r[w[0]]
    ensures forall k, x :: k in t && x in t[k] ==> x in r[k]
    ensures |w| > 0 && w[0] in t && w in t[w[0]] ==> r == t
  {
    if |w| == 0 then t
    else if w[0] in t then t[w[0] := InsertSorted(t[w[0]], w)]
    else t[w[0] := [w]]
  }

  /** The table after `addSuggestions(words)`, adding the words front to back. */
  function AddWords(t: Table, words: seq<string>): Table
  {
    if words == [] then t
    else AddWord(AddWords(t, words[..|words| - 1]), words[|words| - 1])
  }

  /** One more word of the list is one more `AddWord`. */
  lemma AddWordsStep(t: Table, words: seq<string>, i: nat)
    requires i < |words|
    ensures AddWords(t, words[..i + 1]) == AddWord(AddWords(t, words[..i]), words[i])
  {
    assert words[..i + 1][..i] == words[..i];
  }

  lemma AddWordsSnoc(t: Table, words: seq<string>, w: string)
    ensures AddWords(t, words + [w]) == AddWord(AddWords(t, words), w)
  {
    assert (words + [w])[..|words|] == words;
  }

  /** Adding a word keeps every bucket ascending and under its own first character. */
  lemma AddWordValid(t: Table, w: string)
    requires TableValid(t)
    ensures TableValid(AddWord(t, w))
  {
    if |w| > 0 && w[0] in t {
      InsertSortedAscending(t[w[0]], w);
    }
  }

  lemma {:induction false} AddWordsValid(t: Table, words: seq<string>)
    requires TableValid(t)
    ensures TableValid(AddWords(t, words))
  {
    if words != [] {
      AddWordsValid(t, words[..|words| - 1]);
      AddWordValid(AddWords(t, words[..|words| - 1]), words[|words| - 1]);
    }
  }

  /** Adding words changes only the buckets of their first characters. */
  lemma {:induction false} AddWordsTouchesOwnBuckets(t: Table, words: seq<string>, k: char)
    requires k in t
    requires forall w :: w in words && |w| > 0 ==> w[0] != k
    ensures k in AddWords(t, words) && AddWords(t, words)[k] == t[k]
  {
    if words != [] {
      var init := words[..|words| - 1];
      assert forall w :: w in init ==> w in words;
      AddWordsTouchesOwnBuckets(t, init, k);
    }
  }

  /** Every non-empty added word, and every word present before, ends up stored. */
  lemma {:induction false} AddWordsStores(t: Table, words: seq<string>)
    ensures forall w :: w in words && |w| > 0 ==> w[0] in AddWords(t, words) && w in AddWords(t, words)[w[0]]
    ensures forall k, x :: k in t && x in t[k] ==> k in AddWords(t, words) && x in AddWords(t, words)[k]
  {
    if words != [] {
      var init := words[..|words| - 1];
      AddWordsStores(t, init);
      forall w | w in words && |w| > 0
        ensures w[0] in AddWords(t, words) && w in AddWords(t, words)[w[0]]
      {
        if w != words[|words| - 1] {
          assert w in init by {
            var i :| 0 <= i < |words| && words[i] == w;
            assert init[i] == w;
          }
        }
      }
    }
  }

  /**
   * `getSuggestions(word)`: the words of the bucket of the first character that
   * start with `word`, in bucket order; nothing for an empty word or a missing bucket.
   */
  function SuggestionsFor(t: Table, word: string): (r: seq<string>)
    ensures forall x :: x in r <==> |word| > 0 && word[0] in t && x in t[word[0]] && word <= x
    ensures |word| > 0 && word[0] in t ==> IsSubsequence(r, t[word[0]])
    ensures |word| == 0 || word[0] !in t ==> r == []
  {
    if |word| > 0 then
      var key := word[0];
      if key in t then
        FilterIsSubsequence(t[key], (x: string) => word <= x);
        Filter(t[key], (x: string) => word <= x)
      else []
    else []
  }

  /** After adding, every non-empty added word is suggested for itself. */
  lemma AddedWordsSuggested(t: Table, words: seq<string>)
    ensures forall w :: w in words && |w| > 0 ==> w in SuggestionsFor(AddWords(t, words), w)
  {
    AddWordsStores(t, words);
  }

  /** In a valid table the lookup finds every stored word with the prefix, whatever its bucket. */
  lemma SuggestionsComplete(t: Table, word: string, k: char, x: string)
    requires TableValid(t)
    requires |word| > 0 && k in t && x in t[k] && word <= x
    ensures x in SuggestionsFor(t, word)
  {
    assert x[0] == word[0];
  }

  /** A subsequence of an ascending list is ascending. */
  lemma {:induction false} SubsequenceAscending(r: seq<string>, b: seq<string>)
    requires StrictlyAscending(b) && IsSubsequence(r, b)
    ensures StrictlyAscending(r)
  {
    if r != [] && b != [] {
      if r[0] == b[0] {
        SubsequenceAscending(r[1..], b[1..]);
        SubsequenceMembers(r[1..], b[1..]);
        forall q | 0 < q < |r|
          ensures LexOrder.Less(r[0], r[q])
        {
          assert r[q] in b[1..];
        }
      } else {
        SubsequenceAscending(r, b[1..]);
      }
    }
  }

  /** The suggestions come out in ascending order without repetitions. */
  lemma SuggestionsAscending(t: Table, word: string)
    requires TableValid(t)
    ensures StrictlyAscending(SuggestionsFor(t, word))
  {
    if |word| > 0 && word[0] in t {
      SubsequenceAscending(SuggestionsFor(t, word), t[word[0]]);
    }
  }

  /**
   * The insertion of `addSuggestions` into an existing bucket: before the
   * first word greater than `word` (`findIndex`, then `splice`), or at the
   * end when there is none (`push`).
   */
  method InsertIntoBucket(existingValues: seq<string>, word: string) returns (bucket: seq<string>)
    requires word !in existingValues
    ensures bucket == InsertSorted(existingValues, word)
  {
    var insertIndex := FirstGreater(existingValues, word);
    if insertIndex == |existingValues| {
      bucket := existingValues + [word];
    } else {
      bucket := existingValues[..insertIndex] + [word] + existingValues[insertIndex..];
    }
  }

  /** The `SearchTermSuggestionsOS` region: lowercased type name to stored table. */
  class SuggestionStore {
    var suggestionsOS: map<string, Table>

    constructor ()
      ensures suggestionsOS == map[]
    {
      suggestionsOS := map[];
    }
  }

  class SuggestionFacade {
    /** The entity type whose words the table holds. */
    const typeRef: TypeRef
    /** The lowercased name of the entity type, the key of the stored table. */
    const typeName: string
    const db: SuggestionStore
    var suggestions: Table

    ghost predicate Valid()
      reads this, db
    {
      && TableValid(suggestions)
      && forall n :: n in db.suggestionsOS ==> TableValid(db.suggestionsOS[n])
    }

    constructor (typeRef: TypeRef, typeName: string, db: SuggestionStore)
      requires forall n :: n in db.suggestionsOS ==> TableValid(db.suggestionsOS[n])
      ensures Valid()
      ensures this.typeRef == typeRef && this.typeName == typeName && this.db == db && suggestions == map[]
    {
      this.typeRef := typeRef;
      this.typeName := typeName;
      this.db := db;
      suggestions := map[];
    }

    /** `load()`: replace the whole table by the stored one, or by the empty table. */
    method Load()
      requires Valid()
      modifies this
      ensures Valid()
      ensures suggestions == if typeName in db.suggestionsOS then db.suggestionsOS[typeName] else map[]
    {
      if typeName in db.suggestionsOS {
        suggestions := db.suggestionsOS[typeName];
      } else {
        suggestions := map[];
      }
    }

    /** `store()`: persist a snapshot of the whole table under the type name. */
    method Store()
      requires Valid()
      modifies db
      ensures Valid()
      ensures db.suggestionsOS == old(db.suggestionsOS)[typeName := suggestions]
    {
      db.suggestionsOS := db.suggestionsOS[typeName := suggestions];
    }

    /** `addSuggestions(words)`: ordered insertion of each non-empty word into its bucket. */
    method AddSuggestions(words: seq<string>)
      requires Valid()
      modifies this
      ensures Valid()
      ensures suggestions == AddWords(old(suggestions), words)
      ensures forall w :: w in words && |w| > 0 ==> w in GetSuggestions(w)
    {
      var i := 0;
      while i < |words|
        invariant 0 <= i <= |words|
        invariant suggestions == AddWords(old(suggestions), words[..i])
        invariant TableValid(suggestions)
      {
        var word := words[i];
        AddWordsStep(old(suggestions), words, i);
        AddWordValid(suggestions, word);
        if |word| > 0 {
          var key := word[0];
          if key in suggestions {
            var existingValues := suggestions[key];
            if word !in existingValues {
              var bucket := InsertIntoBucket(existingValues, word);
              suggestions := suggestions[key := bucket];
            }
          } else {
            suggestions := suggestions[key := [word]];
          }
        }
        i := i + 1;
      }
      assert words[..i] == words;
      AddedWordsSuggested(old(suggestions), words);
    }

    /** `getSuggestions(word)`. */
    function GetSuggestions(word: string): seq<string>
      reads this
    {
      SuggestionsFor(suggestions, word)
    }
  }

  // The four insertions of the "add and get suggestion" test, one table at a time;
  // each ordered insertion into a bucket is computed by its own lemma.

  lemma InsertAb()
    ensures InsertSorted(["a", "anton", "arne"], "ab") == ["a", "ab", "anton", "arne"]
  {
  }

  lemma InsertAz()
    ensures InsertSorted(["a", "ab", "anton", "arne"], "az") == ["a", "ab", "anton", "arne", "az"]
  {
  }

  lemma InsertAa()
    ensures InsertSorted(["a", "ab", "anton", "arne", "az"], "aa") == ["a", "aa", "ab", "anton", "arne", "az"]
  {
  }

  lemma InsertAnne()
    ensures InsertSorted(["a", "aa", "ab", "anton", "arne", "az"], "anne")
         == ["a", "aa", "ab", "anne", "anton", "arne", "az"]
  {
  }

  lemma AddAndGetStep1()
    ensures AddWords(map[], ["a"]) == map['a' := ["a"]]
  {
    assert ["a"][..0] == [];
  }

  lemma AddAnton()
    ensures AddWord(map['a' := ["a"]], "anton") == map['a' := ["a", "anton"]]
  {
    assert InsertSorted(["a"], "anton") == ["a", "anton"];
  }

  lemma AddArne()
    ensures AddWord(map['a' := ["a", "anton"]], "arne") == map['a' := ["a", "anton", "arne"]]
  {
    assert InsertSorted(["a", "anton"], "arne") == ["a", "anton", "arne"];
  }

  lemma AddAndGetStep2()
    ensures AddWords(map['a' := ["a"]], ["anton", "arne"]) == map['a' := ["a", "anton", "arne"]]
  {
    var t0: Table := map['a' := ["a"]];
    assert ["anton", "arne"] == ["anton"] + ["arne"];
    assert ["anton"] == [] + ["anton"];
    AddWordsSnoc(t0, [], "anton");
    AddAnton();
    AddWordsSnoc(t0, ["anton"], "arne");
    AddArne();
  }

  lemma AddAb()
    ensures AddWord(map['a' := ["a", "anton", "arne"]], "ab") == map['a' := ["a", "ab", "anton", "arne"]]
  {
    InsertAb();
  }

  lemma AddAz()
    ensures AddWord(map['a' := ["a", "ab", "anton", "arne"]], "az") == map['a' := ["a", "ab", "anton", "arne", "az"]]
  {
    InsertAz();
  }

  lemma AddArneAgain()
    ensures AddWord(map['a' := ["a", "ab", "anton", "arne", "az"]], "arne") == map['a' := ["a", "ab", "anton", "arne", "az"]]
  {
  }

  lemma AddAndGetStep3()
    ensures AddWords(map['a' := ["a", "anton", "arne"]], ["ab", "az", "arne"])
         == map['a' := ["a", "ab", "anton", "arne", "az"]]
  {
    var t0: Table := map['a' := ["a", "anton", "arne"]];
    assert ["ab", "az", "arne"] == ["ab", "az"] + ["arne"];
    assert ["ab", "az"] == ["ab"] + ["az"];
    assert ["ab"] == [] + ["ab"];
    AddWordsSnoc(t0, [], "ab");
    AddAb();
    AddWordsSnoc(t0, ["ab"], "az");
    AddAz();
    AddWordsSnoc(t0, ["ab", "az"], "arne");
    AddArneAgain();
  }

  lemma AddAa()
    ensures AddWord(map['a' := ["a", "ab", "anton", "arne", "az"]], "aa") == map['a' := ["a", "aa", "ab", "anton", "arne", "az"]]
  {
    InsertAa();
  }

  lemma AddAnne()
    ensures AddWord(map['a' := ["a", "aa", "ab", "anton", "arne", "az"]], "anne")
         == map['a' := ["a", "aa", "ab", "anne", "anton", "arne", "az"]]
  {
    InsertAnne();
  }

  lemma AddBernd()
    ensures AddWord(map['a' := ["a", "aa", "ab", "anne", "anton", "arne", "az"]], "bernd")
         == map['a' := ["a", "aa", "ab", "anne", "anton", "arne", "az"], 'b' := ["bernd"]]
  {
  }

  lemma AddAndGetStep4()
    ensures AddWords(map['a' := ["a", "ab", "anton", "arne", "az"]], ["aa", "anne", "bernd"])
         == map['a' := ["a", "aa", "ab", "anne", "anton", "arne", "az"], 'b' := ["bernd"]]
  {
    var t0: Table := map['a' := ["a", "ab", "anton", "arne", "az"]];
    assert ["aa", "anne", "bernd"] == ["aa", "anne"] + ["bernd"];
    assert ["aa", "anne"] == ["aa"] + ["anne"];
    assert ["aa"] == [] + ["aa"];
    AddWordsSnoc(t0, [], "aa");
    AddAa();
    AddWordsSnoc(t0, ["aa"], "anne");
    AddAnne();
    AddWordsSnoc(t0, ["aa", "anne"], "bernd");
    AddBernd();
  }

  // The prefix lookups of the "add and get suggestion" test on the final table.

  lemma LookupA(t: Table)
    requires t == map['a' := ["a", "aa", "ab", "anne", "anton", "arne", "az"], 'b' := ["bernd"]]
    ensures SuggestionsFor(t, "a") == ["a", "aa", "ab", "anne", "anton", "arne", "az"]
  {
    var b := t['a'];
    assert forall x :: x in b ==> "a" <= x;
    FilterAll(b, (x: string) => "a" <= x);
  }

  lemma LookupAnParts()
    ensures Filter(["a", "aa", "ab"], (x: string) => "an" <= x) == []
    ensures Filter(["anne", "anton"], (x: string) => "an" <= x) == ["anne", "anton"]
    ensures Filter(["arne", "az"], (x: string) => "an" <= x) == []
  {
    var p := (x: string) => "an" <= x;
    assert "aa"[1] != 'n' && "ab"[1] != 'n';
    FilterNone(["a", "aa", "ab"], p);
    FilterAll(["anne", "anton"], p);
    assert "arne"[1] != 'n' && "az"[1] != 'n';
    FilterNone(["arne", "az"], p);
  }

  lemma LookupAn(t: Table)
    requires t == map['a' := ["a", "aa", "ab", "anne", "anton", "arne", "az"], 'b' := ["bernd"]]
    ensures SuggestionsFor(t, "an") == ["anne", "anton"]
  {
    var p := (x: string) => "an" <= x;
    var b1, b2, b3 := ["a", "aa", "ab"], ["anne", "anton"], ["arne", "az"];
    assert t['a'] == b1 + b2 + b3;
    FilterAppend(b1 + b2, b3, p);
    FilterAppend(b1, b2, p);
    LookupAnParts();
  }

  lemma LookupAnnet(t: Table)
    requires t == map['a' := ["a", "aa", "ab", "anne", "anton", "arne", "az"], 'b' := ["bernd"]]
    ensures SuggestionsFor(t, "annet") == []
  {
    var p := (x: string) => "annet" <= x;
    assert "aa"[1] != 'n' && "ab"[1] != 'n' && "anton"[3] != 'e';
    assert "arne"[1] != 'n' && "az"[1] != 'n';
    FilterNone(t['a'], p);
  }

  lemma LookupB(t: Table)
    requires t == map['a' := ["a", "aa", "ab", "anne", "anton", "arne", "az"], 'b' := ["bernd"]]
    ensures SuggestionsFor(t, "b") == ["bernd"]
  {
    FilterAll(t['b'], (x: string) => "b" <= x);
  }

  /** The "add and get suggestion" scenario, run against the facade. */
  method AddAndGetExample()
  {
    var db := new SuggestionStore();
    var facade := new SuggestionFacade(ContactType, "contact", db);
    facade.AddSuggestions(["a"]);
    AddAndGetStep1();
    facade.AddSuggestions(["anton", "arne"]);
    AddAndGetStep2();
    facade.AddSuggestions(["ab", "az", "arne"]);
    AddAndGetStep3();
    facade.AddSuggestions(["aa", "anne", "bernd"]);
    AddAndGetStep4();
    LookupA(facade.suggestions);
    LookupAn(facade.suggestions);
    LookupAnnet(facade.suggestions);
    LookupB(facade.suggestions);
    assert facade.GetSuggestions("a") == ["a", "aa", "ab", "anne", "anton", "arne", "az"];
    assert facade.GetSuggestions("an") == ["anne", "anton"];
    assert facade.GetSuggestions("annet") == [];
    assert facade.GetSuggestions("b") == ["bernd"];
  }

  /** The tables of the "store and load" test. */
  lemma StoreAndLoadSteps()
    ensures AddWords(map[], ["aaaa"]) == map['a' := ["aaaa"]]
    ensures SuggestionsFor(map['a' := ["aaaa"]], "a") == ["aaaa"]
    ensures SuggestionsFor(map['a' := ["aaaa"]], "b") == []
  {
    assert ["aaaa"][..0] == [];
  }

  /** The "store and load" scenario: words added after `store` are gone after `load`. */
  method StoreAndLoadExample()
  {
    var db := new SuggestionStore();
    var facade := new SuggestionFacade(ContactType, "contact", db);
    StoreAndLoadSteps();
    facade.AddSuggestions(["aaaa"]);
    assert facade.suggestions == map['a' := ["aaaa"]];
    facade.Store();
    assert db.suggestionsOS == map["contact" := map['a' := ["aaaa"]]];
    facade.AddSuggestions(["accc", "bbbb"]);
    facade.Load();
    assert facade.suggestions == map['a' := ["aaaa"]];
    assert facade.GetSuggestions("a") == ["aaaa"];
    assert facade.GetSuggestions("b") == [];
  }
}
