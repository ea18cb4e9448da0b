/**
  The demonstration input of the program's entry point: the sentence
  "Hello, World!", whose first word is "Hello," ending at byte index 6.
 */
module Demo {
  import opened Bytes
  import opened Slices

  const Sentence: string := "Hello, World!"

  /**
    Runs `first_word` and `first_word_slice` on the sentence, as the entry point
    does, and returns the index and the slice's text.
   */
  method HelloWorld() returns (index: nat, word: string)
    ensures index == 6
    ensures word == "Hello,"
  {
    var s := FromAscii(Sentence);
    assert s[6] == Space;
    assert NoSpace(s[..6]);
    BoundaryIsFirstSpaceIndex(s, 6);
    index := FirstWord(s);
    var v := FirstWordSlice(s);
    var bytes := v.Of(s);
    AsciiBytesSlice(s, v.start, v.end);
    word := ToAscii(bytes);
  }
}
