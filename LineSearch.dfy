/** findStringInFile (JavaReviewer.java, lines 474-488): the numbers of the lines
    of a text file that contain a given string. Reading the file is not part of
    this model: the method receives the lines `readLine` would return, without
    their terminators. */
module LineSearch {

  /** `needle` occurs in `line` at some position (Java's `String.contains`);
      the empty string occurs in every line. */
  predicate Contains(line: string, needle: string)
  {
    exists i | 0 <= i <= |line| - |needle| :: OccursAt(line, needle, i)
  }

  /** `needle` occurs in `line` starting at index `i`. */
  predicate OccursAt(line: string, needle: string, i: nat)
  {
    i + |needle| <= |line| && line[i..i + |needle|] == needle
  }

  lemma ContainsInfix(before: string, needle: string, after: string)
    ensures Contains(before + needle + after, needle)
  {
    var line := before + needle + after;
    assert OccursAt(line, needle, |before|);
  }

  /** A line shorter than the string looked for never contains it. */
  lemma ShorterLineNeverContains(line: string, needle: string)
    requires |line| < |needle|
    ensures !Contains(line, needle)
  {
  }

  /** findStringInFile: counts lines from 1 and keeps the number of every line that
      contains `searchString`, so the result lists exactly those line numbers, each
      once and in increasing order. */
  method FindStringInFile(lines: seq<string>, searchString: string) returns (lineNumbers: seq<int>)
    ensures forall k :: k in lineNumbers <==> 1 <= k <= |lines| && Contains(lines[k - 1], searchString)
    ensures forall i, j :: 0 <= i < j < |lineNumbers| ==> lineNumbers[i] < lineNumbers[j]
  {
    lineNumbers := [];
    var lineNumber := 0;
    while lineNumber < |lines|
      invariant 0 <= lineNumber <= |lines|
      invariant forall k :: k in lineNumbers <==> 1 <= k <= lineNumber && Contains(lines[k - 1], searchString)
      invariant forall i, j :: 0 <= i < j < |lineNumbers| ==> lineNumbers[i] < lineNumbers[j]
      invariant forall i :: 0 <= i < |lineNumbers| ==> lineNumbers[i] <= lineNumber
    {
      var line := lines[lineNumber];
      lineNumber := lineNumber + 1;
      if Contains(line, searchString) {
        lineNumbers := lineNumbers + [lineNumber];
      }
    }
  }

  /** Looking for the empty string reports every line. */
  lemma EmptyStringMatchesEveryLine(line: string)
    ensures Contains(line, "")
  {
    assert OccursAt(line, "", 0);
  }
}
