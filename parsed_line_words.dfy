/** The two list accessors of `ParsedLineWords`: the first and the last word of a parsed line. */
module ParsedLineWords {

  /** A word of a parsed line: its text and the index in the line at which it starts. */
  datatype ParsedWord = ParsedWord(word: string, lineIndex: int)

  /** What `firstWord` hands back for a line without words: empty text at index 0. */
  const EmptyWord := ParsedWord("", 0)

  /** The last word of a non-empty list; the source indexes `size - 1` unguarded, so an empty
      list is an out-of-bounds error there and a precondition here. */
  function LastWord(words: seq<ParsedWord>): (w: ParsedWord)
    requires |words| > 0
    ensures w in words
    ensures w == words[|words| - 1]
  {
    words[|words| - 1]
  }

  /** The first word of the list, or `EmptyWord` when there is none. */
  function FirstWord(words: seq<ParsedWord>): (w: ParsedWord)
    ensures |words| > 0 ==> w in words && w == words[0]
    ensures |words| == 0 ==> w == EmptyWord
  {
    if |words| > 0 then words[0] else EmptyWord
  }

  /** A list of one word has that word both first and last. */
  lemma SingletonFirstIsLast(w: ParsedWord)
    ensures FirstWord([w]) == LastWord([w]) == w
  {
  }

  /** Appending words behind a non-empty list leaves its first word alone; in front of an
      empty one, the appended list decides. */
  lemma FirstWordOfConcat(a: seq<ParsedWord>, b: seq<ParsedWord>)
    ensures FirstWord(a + b) == if |a| > 0 then FirstWord(a) else FirstWord(b)
  {
    if |a| == 0 {
      assert a + b == b;
    }
  }

  /** Prepending words in front of a non-empty list leaves its last word alone. */
  lemma LastWordOfConcat(a: seq<ParsedWord>, b: seq<ParsedWord>)
    requires |b| > 0
    ensures LastWord(a + b) == LastWord(b)
  {
  }
}
