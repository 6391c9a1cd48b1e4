/**
 * The secure code generator of src/services/codeService.js: sixteen random
 * 32-bit words, each mapped onto a 70-symbol alphabet by taking it modulo
 * the alphabet's length. The random words are a parameter; where they come
 * from (the browser's cryptographic source) is not modelled.
 */
module CodeGenerator {

  /** An element of a Uint32Array. */
  newtype u32 = x: int | 0 <= x < 0x1_0000_0000

  /** The symbols a code is drawn from: upper- and lower-case letters, digits and eight punctuation marks. */
  const Alphabet: string := "ABCDEFGHIJKLMNOPQRSTUVWXYZabcdefghijklmnopqrstuvwxyz0123456789!@#$%^&*"

  /** The number of random words drawn, hence the number of symbols in a code. */
  const CodeLength: nat := 16

  /** The symbol one random word selects. */
  function Symbol(w: u32): (c: char)
    ensures c in Alphabet
  {
    Alphabet[w as int % |Alphabet|]
  }

  /** A string every character of which is a symbol of the alphabet. */
  predicate OverAlphabet(s: string) {
    forall i :: 0 <= i < |s| ==> s[i] in Alphabet
  }

  /** The code a sequence of random words produces: one symbol per word, in order. */
  function Encode(words: seq<u32>): (code: string)
    ensures |code| == |words|
    ensures OverAlphabet(code)
    ensures forall i :: 0 <= i < |words| ==> code[i] == Symbol(words[i])
  {
    if words == [] then ""
    else Encode(words[..|words| - 1]) + [Symbol(words[|words| - 1])]
  }

  /** Builds the code by appending one symbol per random word. */
  method GenerateSecureCode(words: seq<u32>) returns (code: string)
    requires |words| == CodeLength
    ensures code == Encode(words)
    ensures |code| == CodeLength && OverAlphabet(code)
  {
    code := "";
    for i := 0 to |words|
      invariant code == Encode(words[..i])
    {
      assert words[..i + 1][..i] == words[..i];
      code := code + [Alphabet[words[i] as int % |Alphabet|]];
    }
    assert words[..|words|] == words;
  }

  /** The position of a symbol in the alphabet. */
  function IndexOf(c: char, s: string): (i: nat)
    requires c in s
    ensures i < |s| && s[i] == c
  {
    if s[0] == c then 0 else 1 + IndexOf(c, s[1..])
  }

  /** A word smaller than the alphabet's length selects the symbol at that position. */
  lemma SymbolOfIndex(i: nat)
    requires i < |Alphabet|
    ensures Symbol(i as u32) == Alphabet[i]
  {
    assert |Alphabet| == 70;
    assert i % 70 == i;
  }

  /** The smallest random words that produce a given code: each symbol's position in the alphabet. */
  function Decode(code: string): (words: seq<u32>)
    requires OverAlphabet(code)
    ensures |words| == |code|
  {
    if code == [] then []
    else
      var i := IndexOf(code[|code| - 1], Alphabet);
      Decode(code[..|code| - 1]) + [i as u32]
  }

  /** Decoding a code over the alphabet and encoding the words again gives the code back. */
  lemma {:induction false} EncodeDecode(code: string)
    requires OverAlphabet(code)
    ensures Encode(Decode(code)) == code
  {
    if code != [] {
      var prefix := code[..|code| - 1];
      EncodeDecode(prefix);
      var words := Decode(code);
      var last := code[|code| - 1];
      assert words == Decode(prefix) + [IndexOf(last, Alphabet) as u32];
      assert words[..|words| - 1] == Decode(prefix);
      SymbolOfIndex(IndexOf(last, Alphabet));
      calc {
        Encode(words);
        Encode(Decode(prefix)) + [Symbol(words[|words| - 1])];
        prefix + [last];
        code;
      }
    }
  }

  /** Every string of sixteen alphabet symbols is a code some random draw produces. */
  lemma EveryCodeReachable(code: string)
    requires |code| == CodeLength && OverAlphabet(code)
    ensures exists words :: |words| == CodeLength && Encode(words) == code
  {
    EncodeDecode(code);
    var words := Decode(code);
    assert |words| == CodeLength && Encode(words) == code;
  }
}
