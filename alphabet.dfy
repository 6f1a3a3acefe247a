/** The answer letters offered for each question (`generateOptions`). */
module Alphabet {

  /** `generateOptions(n)`: the n characters with codes 65, 66, ... ("A", "B", ...).
      The bound keeps every code below the surrogate range, where a JavaScript code unit
      stops being a character on its own. */
  function GenerateOptions(n: nat): (r: seq<char>)
    requires n <= 0xD800 - 65
    ensures |r| == n
    ensures forall i :: 0 <= i < n ==> r[i] as int == 65 + i
  {
    seq(n, i requires 0 <= i < n => (65 + i) as char)
  }

  /** A character is offered exactly when it is one of the first n letters from 'A'. */
  lemma OfferedLetters(n: nat, c: char)
    requires n <= 0xD800 - 65
    ensures c in GenerateOptions(n) <==> 65 <= c as int < 65 + n
  {
    if 65 <= c as int < 65 + n {
      assert GenerateOptions(n)[c as int - 65] == c;
    }
  }

  /** Each letter is offered once. */
  lemma {:induction false} OptionsDistinct(n: nat)
    requires n <= 0xD800 - 65
    ensures forall i, j :: 0 <= i < j < n ==> GenerateOptions(n)[i] != GenerateOptions(n)[j]
  {
  }

  /** Fewer options are a prefix of more options: letters keep their place. */
  lemma OptionsPrefix(n: nat, m: nat)
    requires n <= m <= 0xD800 - 65
    ensures GenerateOptions(n) == GenerateOptions(m)[..n]
  {
  }

  /** The selector's range 3..6 yields the alphabets A..C up to A..F. */
  lemma SelectorAlphabets()
    ensures GenerateOptions(3) == "ABC"
    ensures GenerateOptions(6) == "ABCDEF"
  {
    assert GenerateOptions(6) == "ABCDEF";
    OptionsPrefix(3, 6);
  }
}
