/** `tokenize_2gram`, the character-bigram tokenizer of the token-indexed
    engine (src/lib.rs): every pair of adjacent characters, then the text
    itself. */
module Tokenizer {

  /** The overlapping two-character substrings, left to right. */
  function Pairs(text: string): seq<string>
    decreases |text|
  {
    if |text| < 2 then [] else [text[..2]] + Pairs(text[1..])
  }

  /** What `tokenize_2gram` returns: nothing for the empty text, the text alone
      for one character, otherwise the pairs followed by the whole text. */
  function Bigrams(text: string): seq<string>
  {
    if text == [] then [] else Pairs(text) + [text]
  }

  lemma {:induction false} PairsShape(text: string)
    decreases |text|
    ensures |Pairs(text)| == if |text| < 2 then 0 else |text| - 1
    ensures forall i :: 0 <= i < |Pairs(text)| ==> Pairs(text)[i] == text[i..i + 2]
  {
    if |text| >= 2 {
      PairsShape(text[1..]);
      var p := Pairs(text);
      forall i | 0 <= i < |p| ensures p[i] == text[i..i + 2] {
        if i > 0 {
          assert p[i] == Pairs(text[1..])[i - 1];
          assert text[1..][i - 1..i + 1] == text[i..i + 2];
        }
      }
    }
  }

  /** The token list `tokenize_2gram` promises: `[]` for no character,
      `[text]` for one, and for n >= 2 characters n tokens, the n - 1
      adjacent pairs in order and then the whole text. */
  lemma BigramsShape(text: string)
    ensures |text| == 0 ==> Bigrams(text) == []
    ensures |text| == 1 ==> Bigrams(text) == [text]
    ensures |text| >= 2 ==> (
      && |Bigrams(text)| == |text|
      && (forall i :: 0 <= i < |text| - 1 ==> Bigrams(text)[i] == text[i..i + 2])
      && Bigrams(text)[|text| - 1] == text)
  {
    PairsShape(text);
  }

  /** Tokenizing a token again yields nothing new: a pair gives itself twice,
      and the whole text gives its own tokens. */
  lemma BigramsOfToken(w: string, t: string, u: string)
    requires t in Bigrams(w) && u in Bigrams(t)
    ensures u == t || u in Bigrams(w)
  {
    PairsShape(w);
    if t != w {
      var i :| 0 <= i < |Pairs(w)| && Pairs(w)[i] == t;
      assert |t| == 2;
      assert Pairs(t[1..]) == [];
      assert t[..2] == t;
      assert Bigrams(t) == [t, t];
    }
  }

  /** `tokenize_2gram` as written: a loop over the character positions. */
  method Tokenize2gram(text: string) returns (tokens: seq<string>)
    ensures tokens == Bigrams(text)
  {
    var n := |text|;
    if n <= 1 {
      if n == 0 {
        return [];
      }
      return [text];
    }
    tokens := [];
    var i := 0;
    while i < n - 1
      invariant 0 <= i <= n - 1
      invariant tokens + Pairs(text[i..]) == Pairs(text)
    {
      assert text[i..][..2] == text[i..i + 2];
      assert text[i..][1..] == text[i + 1..];
      tokens := tokens + [text[i..i + 2]];
      i := i + 1;
    }
    tokens := tokens + [text];
  }
}
