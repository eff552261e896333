// C strings: the text in a piece of memory up to its terminating NUL.
module CString {

  const NUL: char := '\0'

  function Text(memory: seq<char>): (text: string)
    ensures |text| <= |memory| && text == memory[..|text|]
    ensures NUL !in text
    ensures |text| < |memory| ==> memory[|text|] == NUL
  {
    if memory == [] || memory[0] == NUL then [] else [memory[0]] + Text(memory[1..])
  }

  lemma {:induction false} TextEnds(memory: seq<char>)
    requires NUL in memory
    ensures |Text(memory)| < |memory|
  {
    if memory[0] != NUL {
      TextEnds(memory[1..]);
    }
  }

  // What stands before the first NUL is the text.
  lemma {:induction false} TextIs(memory: seq<char>, text: string)
    requires |text| < |memory| && memory[..|text|] == text && memory[|text|] == NUL && NUL !in text
    ensures Text(memory) == text
  {
    if text != [] {
      assert memory[0] == text[0];
      assert memory[1..][..|text[1..]|] == text[1..];
      TextIs(memory[1..], text[1..]);
    }
  }

  // As much of a text as fits in n characters.
  function Cut(text: string, n: nat): string {
    if |text| <= n then text else text[..n]
  }
}
