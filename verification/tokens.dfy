/** Token counting for the usage metrics (`count_tokens`). */
module Tokens {
  import opened Wrappers
  import opened Text

  /** A tokenizer: the token ids of a text. */
  type Encoding = string -> seq<nat>

  /** The number of tokens in `text`. `encoding` is what the tokenizer
      library resolves the model name to, or None when it does not know the
      model (the library raises KeyError); then the count falls back to the
      number of whitespace-separated words, `len(text.split())`. */
  function CountTokens(text: string, encoding: Option<Encoding>): (n: nat)
    ensures encoding.Some? ==> n == |encoding.value(text)|
    ensures encoding.None? ==> n == RunStarts(text, true)
    ensures encoding.None? ==> n <= |text|
    ensures encoding.None? ==> (n == 0 <==> AllSpace(text))
  {
    match encoding
    case Some(encode) => |encode(text)|
    case None =>
      WordsCountRuns(text);
      |Words(text)|
  }

  /** Three words give three tokens when the model has no encoding. */
  lemma CountTokensWords()
    ensures CountTokens("a b c", None) == 3
  {
    var s := "a b c";
    assert RunStarts(s[4..], false) == 0;
    assert RunStarts(s[3..], true) == 1;
    assert RunStarts(s[2..], false) == 1;
    assert RunStarts(s[1..], true) == 2;
  }
}
