/**
 * Splitting free text into search tokens (`tokenize`): maximal runs of
 * non-separator characters, lowercased; separators are the ASCII characters
 * that are neither letters nor digits.
 */
module Tokenizer {

  predicate IsSeparator(c: char)
  {
    c < 128 as char && !('a' <= c <= 'z' || 'A' <= c <= 'Z' || '0' <= c <= '9')
  }

  function Lower(c: char): char
  {
    if 'A' <= c <= 'Z' then (c as int + 32) as char else c
  }

  /** A word without separators and without ASCII capitals. */
  predicate IsWordPart(w: string)
  {
    forall i :: 0 <= i < |w| ==> !IsSeparator(w[i]) && Lower(w[i]) == w[i]
  }

  /** A token is a non-empty lowercased word without separators. */
  predicate IsToken(w: string)
  {
    |w| > 0 && IsWordPart(w)
  }

  /** Emits the word read so far, if there is one. */
  function Emit(current: string): seq<string>
  {
    if |current| > 0 then [current] else []
  }

  /** The tokens of `text`, when `current` holds the characters of the word being read. */
  function Split(text: string, current: string): (r: seq<string>)
    requires IsWordPart(current)
    ensures forall w :: w in r ==> IsToken(w)
    decreases |text|
  {
    if text == [] then Emit(current)
    else if IsSeparator(text[0]) then Emit(current) + Split(text[1..], "")
    else Split(text[1..], current + [Lower(text[0])])
  }

  function Tokenize(text: string): (r: seq<string>)
    ensures forall w :: w in r ==> IsToken(w)
  {
    Split(text, "")
  }

  /** `words.join(sep)`. */
  function Join(words: seq<string>, sep: string): string
  {
    if words == [] then ""
    else if |words| == 1 then words[0]
    else words[0] + sep + Join(words[1..], sep)
  }

  /** A separator ends the current word: the text on either side is tokenized independently. */
  lemma {:induction false} SplitAtSeparator(a: string, c: char, b: string, current: string)
    requires IsSeparator(c)
    requires IsWordPart(current)
    ensures Split(a + [c] + b, current) == Split(a, current) + Split(b, "")
    decreases |a|
  {
    if a == [] {
      assert a + [c] + b == [c] + b;
      assert ([c] + b)[1..] == b;
    } else {
      assert (a + [c] + b)[0] == a[0];
      assert (a + [c] + b)[1..] == a[1..] + [c] + b;
      if IsSeparator(a[0]) {
        SplitAtSeparator(a[1..], c, b, "");
      } else {
        SplitAtSeparator(a[1..], c, b, current + [Lower(a[0])]);
      }
    }
  }

  /** Tokenizing texts joined by a separator yields the tokens of each text in turn. */
  lemma TokenizeAtSeparator(a: string, c: char, b: string)
    requires IsSeparator(c)
    ensures Tokenize(a + [c] + b) == Tokenize(a) + Tokenize(b)
  {
    SplitAtSeparator(a, c, b, "");
  }

  /** The tokens of all texts, in order. */
  function TokensOfAll(texts: seq<string>): seq<string>
  {
    if texts == [] then [] else Tokenize(texts[0]) + TokensOfAll(texts[1..])
  }

  /** Tokenizing a list of texts joined by a separator yields the tokens of each text in turn. */
  lemma {:induction false} TokenizeJoin(texts: seq<string>, c: char)
    requires IsSeparator(c)
    ensures Tokenize(Join(texts, [c])) == TokensOfAll(texts)
  {
    if |texts| == 1 {
      assert TokensOfAll(texts[1..]) == [];
    } else if |texts| > 1 {
      TokenizeJoin(texts[1..], c);
      assert Join(texts, [c]) == texts[0] + [c] + Join(texts[1..], [c]);
      TokenizeAtSeparator(texts[0], c, Join(texts[1..], [c]));
    }
  }

  /** A word part continues the word being read. */
  lemma {:induction false} SplitWordPart(w: string, current: string)
    requires IsWordPart(current) && IsWordPart(w)
    ensures Split(w, current) == Emit(current + w)
    decreases |w|
  {
    if w != [] {
      assert IsWordPart(current + [Lower(w[0])]);
      SplitWordPart(w[1..], current + [Lower(w[0])]);
      assert current + [w[0]] + w[1..] == current + w;
    } else {
      assert current + w == current;
    }
  }

  /** A token tokenizes to itself. */
  lemma TokenizeToken(w: string)
    requires IsToken(w)
    ensures Tokenize(w) == [w]
  {
    SplitWordPart(w, "");
    assert "" + w == w;
  }

  /** Tokens are left as they are by tokenizing each of them. */
  lemma {:induction false} TokensOfTokens(words: seq<string>)
    requires forall w :: w in words ==> IsToken(w)
    ensures TokensOfAll(words) == words
  {
    if words != [] {
      TokenizeToken(words[0]);
      TokensOfTokens(words[1..]);
    }
  }
}
