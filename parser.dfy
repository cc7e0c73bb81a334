/** The line helpers the dispatcher and the completion handler lean on: Java's `String.trim`
    test for an empty line, and the command name of a line (`Parser.findFirstWord`), taken here
    as the text of the first word handed back by `FirstWord`, where words are separated by any
    character at or below U+0020, control characters included, as `trim` strips. */
module Parser {
  import opened ParsedLineWords

  /** A character `String.trim` strips: any code point at or below U+0020. */
  predicate IsBlankChar(c: char) {
    c <= ' '
  }

  /** True when every character of `s` is one `trim` strips. */
  predicate IsBlank(s: string) {
    forall i :: 0 <= i < |s| ==> IsBlankChar(s[i])
  }

  /** A word: non-empty, without a blank character. */
  predicate IsToken(w: string) {
    |w| > 0 && forall i :: 0 <= i < |w| ==> !IsBlankChar(w[i])
  }

  /** `s` without its leading blank characters. */
  function TrimStart(s: string): (t: string)
    ensures |t| <= |s| && t == s[|s| - |t|..]
    ensures IsBlank(s[..|s| - |t|])
    ensures t == [] || !IsBlankChar(t[0])
  {
    if |s| > 0 && IsBlankChar(s[0]) then
      var t := TrimStart(s[1..]);
      assert s[..|s| - |t|] == [s[0]] + s[1..][..|s| - 1 - |t|];
      t
    else
      s
  }

  /** The number of blank characters `trim` skips at the start of `s`. */
  function LeadingBlanks(s: string): (k: nat)
    ensures k <= |s|
    ensures forall i :: 0 <= i < k ==> IsBlankChar(s[i])
    ensures k < |s| ==> !IsBlankChar(s[k])
  {
    if |s| == 0 || !IsBlankChar(s[0]) then 0 else 1 + LeadingBlanks(s[1..])
  }

  /** Where `trim` stops dropping trailing blank characters of `s`, never going below `start`. */
  function KeptEnd(s: string, start: nat): (e: nat)
    requires start <= |s|
    ensures start <= e <= |s|
    ensures forall i :: e <= i < |s| ==> IsBlankChar(s[i])
    ensures start < e ==> !IsBlankChar(s[e - 1])
  {
    if |s| == start || !IsBlankChar(s[|s| - 1]) then |s| else KeptEnd(s[..|s| - 1], start)
  }

  /** Java's `String.trim`: the slice of `s` between its leading and its trailing blank
      characters; it starts and ends with a character `trim` keeps. */
  function Trim(s: string): (t: string)
    ensures var k := LeadingBlanks(s);
      && k + |t| <= |s| && t == s[k..k + |t|]
      && IsBlank(s[..k]) && IsBlank(s[k + |t|..])
    ensures t == [] || (!IsBlankChar(t[0]) && !IsBlankChar(t[|t| - 1]))
  {
    var k := LeadingBlanks(s);
    var e := KeptEnd(s, k);
    assert IsBlank(s[..k]) by {
      forall i | 0 <= i < k ensures IsBlankChar(s[..k][i]) {
        assert s[..k][i] == s[i];
      }
    }
    assert IsBlank(s[e..]) by {
      forall i | 0 <= i < |s| - e ensures IsBlankChar(s[e..][i]) {
        assert s[e..][i] == s[e + i];
      }
    }
    assert k < |s| ==> k < e;
    s[k..e]
  }

  /** `trim()` leaves nothing exactly when the line is blank. */
  lemma TrimEmptyIffBlank(s: string)
    ensures |Trim(s)| == 0 <==> IsBlank(s)
  {
    var k := LeadingBlanks(s);
    if |Trim(s)| == 0 {
      assert k == |s|;
      forall i | 0 <= i < |s| ensures IsBlankChar(s[i]) {
        assert s[..k][i] == s[i];
      }
    } else {
      assert !IsBlankChar(s[k]);
    }
  }

  /** The length of the run of non-blank characters that starts `s`. */
  function TokenLength(s: string): (n: nat)
    ensures n <= |s|
    ensures forall i :: 0 <= i < n ==> !IsBlankChar(s[i])
    ensures n < |s| ==> IsBlankChar(s[n])
  {
    if |s| == 0 || IsBlankChar(s[0]) then 0 else 1 + TokenLength(s[1..])
  }

  /** The words of `s`, each with the index it starts at, when `s` starts at index `offset` of
      its line: the maximal runs of non-blank characters, left to right. */
  function WordsFrom(s: string, offset: int): (words: seq<ParsedWord>)
    ensures words == [] <==> IsBlank(s)
    ensures forall k :: 0 <= k < |words| ==> IsToken(words[k].word)
    decreases |s|
  {
    if |s| == 0 then []
    else if IsBlankChar(s[0]) then
      var rest := WordsFrom(s[1..], offset + 1);
      assert IsBlank(s) <==> IsBlank(s[1..]) by {
        if IsBlank(s[1..]) {
          forall i | 0 <= i < |s| ensures IsBlankChar(s[i]) {
            if i > 0 { assert s[1..][i - 1] == s[i]; }
          }
        }
      }
      rest
    else
      var n := TokenLength(s);
      [ParsedWord(s[..n], offset)] + WordsFrom(s[n..], offset + n)
  }

  /** The words of a whole line. */
  function Words(line: string): seq<ParsedWord> {
    WordsFrom(line, 0)
  }

  /** The command name of a line: the text of its first word, empty for a blank line. */
  function FindFirstWord(line: string): string {
    FirstWord(Words(line)).word
  }

  /** The first word of `s` is the leading run of non-blank characters left once the blank
      prefix is dropped, and it starts where that prefix ends. */
  lemma {:induction false} FirstOfWordsFrom(s: string, offset: int)
    requires !IsBlank(s)
    ensures var t := TrimStart(s);
      WordsFrom(s, offset)[0] == ParsedWord(t[..TokenLength(t)], offset + |s| - |t|)
    decreases |s|
  {
    if IsBlankChar(s[0]) {
      assert !IsBlank(s[1..]) by {
        var i :| 0 <= i < |s| && !IsBlankChar(s[i]);
        assert s[1..][i - 1] == s[i];
      }
      FirstOfWordsFrom(s[1..], offset + 1);
    }
  }

  /** The command name of a line is empty exactly when the line is blank; otherwise it is the
      first run of non-blank characters after the leading blanks, and it is a word. */
  lemma FindFirstWordSpec(line: string)
    ensures FindFirstWord(line) == "" <==> IsBlank(line)
    ensures !IsBlank(line) ==>
      var t := TrimStart(line);
      FindFirstWord(line) == t[..TokenLength(t)] && IsToken(FindFirstWord(line))
  {
    if !IsBlank(line) {
      FirstOfWordsFrom(line, 0);
      assert IsToken(Words(line)[0].word);
    }
  }

  /** A line that `trim()` does not empty has a word for its command name. */
  lemma TextLineHasName(line: string)
    requires |Trim(line)| > 0
    ensures IsToken(FindFirstWord(line))
  {
    TrimEmptyIffBlank(line);
    FindFirstWordSpec(line);
  }
}
