/**
 The concrete inputs of the repository's unit tests, with the results the
 tests expect.
 */
module Scenarios {
  import opened Patterns
  import opened LineSearch

  /** The two lines of the "quick brown fox" test, split at the newline. */
  function FoxLines(): seq<string>
  {
    ["The quick brown fox", "        jumps over the lazy dog"]
  }

  /** The six lines of the C snippet test, split at the newline. */
  function SnippetLines(): seq<string>
  {
    [ "#include <stdio.h>",
      "        int main() {",
      "           // printf() displays the string inside quotation",
      "           printf(\"Hello, World!\");",
      "           return 0;",
      "        }" ]
  }

  /** An occurrence of a three-letter pattern spells it out in the line. */
  lemma Spell3(t: string, line: string, i: nat)
    requires |t| == 3 && OccursAt(t, line, i)
    ensures line[i] == t[0] && line[i + 1] == t[1] && line[i + 2] == t[2]
  {
    assert line[i..i + 3][0] == line[i] && line[i..i + 3][1] == line[i + 1] && line[i..i + 3][2] == line[i + 2];
  }

  /** A three-letter pattern is found in the lowercased line when the three
      characters at `i` lowercase to it. */
  lemma FoundInLowercase3(t: string, line: string, i: nat)
    requires |t| == 3 && i + 3 <= |line|
    requires LowerChar(line[i]) == t[0] && LowerChar(line[i + 1]) == t[1] && LowerChar(line[i + 2]) == t[2]
    ensures Occurs(t, Lowercase(line))
  {
    assert Lowercase(line)[i..i + 3] == t;
    assert OccursAt(t, Lowercase(line), i);
  }

  /** A case-insensitive three-letter pattern accepts a line whose three
      characters at `i` lowercase to it. */
  lemma FoundAt(c: Configuration, line: string, i: nat)
    requires c.caseInsensitive && |c.pattern.text| == 3 && i + 3 <= |line|
    requires LowerChar(line[i]) == c.pattern.text[0] && LowerChar(line[i + 1]) == c.pattern.text[1]
    requires LowerChar(line[i + 2]) == c.pattern.text[2]
    ensures MatchesLine(c, line)
  {
    FoundInLowercase3(c.pattern.text, line, i);
  }

  lemma NoThe(line: string)
    requires line == "The quick brown fox"
    ensures !Occurs("the", line)
  {
    if Occurs("the", line) {
      var i: nat :| OccursAt("the", line, i);
      Spell3("the", line, i);
      assert false;
    }
  }

  lemma TheInJumps(line: string)
    requires line == "        jumps over the lazy dog"
    ensures Occurs("the", line)
  {
    assert line[19..22] == "the";
    assert OccursAt("the", line, 19);
  }

  /** A line without upper-case letters in which no `n` is followed by `t`
      does not contain "int", in either case. */
  lemma NoInt(line: string)
    requires forall j :: 0 <= j < |line| ==> !IsAsciiUpper(line[j])
    requires forall j :: 0 <= j < |line| - 1 && line[j] == 'n' ==> line[j + 1] != 't'
    ensures !Occurs("int", Lowercase(line))
  {
    LowercaseFixesLower(line);
    if Occurs("int", line) {
      var i: nat :| OccursAt("int", line, i);
      Spell3("int", line, i);
      assert false;
    }
  }

  /** The match a scan reports for `line` at row `row`, if any. */
  function MatchAt(c: Configuration, row: nat, line: string): seq<Match>
  {
    if ConstructFilteringPredicate(c)(line) then [Match(row, line)] else []
  }

  lemma {:induction false} FindInNoLines(c: Configuration)
    ensures FindInLines([], c) == []
  {
    assert Numbered([]) == [];
  }

  /** The scan of two lines, line by line. */
  lemma {:induction false} FindInTwoLines(a: string, b: string, c: Configuration)
    ensures FindInLines([a, b], c) == MatchAt(c, 1, a) + MatchAt(c, 2, b)
  {
    FindInNoLines(c);
    assert [a] == [] + [a];
    FindInLinesSnoc([], a, c);
    assert [a, b] == [a] + [b];
    FindInLinesSnoc([a], b, c);
  }

  /** Scanning one more line, stated with `MatchAt`. */
  lemma ScanOneMore(lines: seq<string>, line: string, c: Configuration)
    ensures FindInLines(lines + [line], c) == FindInLines(lines, c) + MatchAt(c, |lines| + 1, line)
  {
    FindInLinesSnoc(lines, line, c);
  }

  /** The scan of six lines, line by line. */
  lemma {:induction false} FindInSixLines(a: string, b: string, d: string, e: string, f: string, g: string, c: Configuration)
    ensures FindInLines([a, b, d, e, f, g], c)
         == MatchAt(c, 1, a) + MatchAt(c, 2, b) + MatchAt(c, 3, d) + MatchAt(c, 4, e) + MatchAt(c, 5, f) + MatchAt(c, 6, g)
  {
    var m1, m2, m3 := MatchAt(c, 1, a), MatchAt(c, 2, b), MatchAt(c, 3, d);
    var m4, m5, m6 := MatchAt(c, 4, e), MatchAt(c, 5, f), MatchAt(c, 6, g);
    FindInTwoLines(a, b, c);
    assert [a, b, d] == [a, b] + [d];
    ScanOneMore([a, b], d, c);
    assert FindInLines([a, b, d], c) == m1 + m2 + m3;
    assert [a, b, d, e] == [a, b, d] + [e];
    ScanOneMore([a, b, d], e, c);
    assert FindInLines([a, b, d, e], c) == m1 + m2 + m3 + m4;
    assert [a, b, d, e, f] == [a, b, d, e] + [f];
    ScanOneMore([a, b, d, e], f, c);
    assert FindInLines([a, b, d, e, f], c) == m1 + m2 + m3 + m4 + m5;
    assert [a, b, d, e, f, g] == [a, b, d, e, f] + [g];
    ScanOneMore([a, b, d, e, f], g, c);
  }

  /** Two lines of which the first is rejected and the second accepted. */
  lemma {:induction false} OnlySecondRow(a: string, b: string, c: Configuration)
    requires !MatchesLine(c, a) && MatchesLine(c, b)
    ensures FindInLines([a, b], c) == [Match(2, b)]
  {
    FindInTwoLines(a, b, c);
  }

  /** Two lines, both accepted. */
  lemma {:induction false} BothRows(a: string, b: string, c: Configuration)
    requires MatchesLine(c, a) && MatchesLine(c, b)
    ensures FindInLines([a, b], c) == [Match(1, a), Match(2, b)]
  {
    FindInTwoLines(a, b, c);
  }

  /** Two lines, both rejected. */
  lemma {:induction false} NoRows(a: string, b: string, c: Configuration)
    requires !MatchesLine(c, a) && !MatchesLine(c, b)
    ensures FindInLines([a, b], c) == []
  {
    FindInTwoLines(a, b, c);
  }

  /** Case-sensitive "the": only the second line matches. */
  lemma FoxCaseSensitive()
    ensures FindInLines(FoxLines(), Configuration(false, Text("the"))) == [Match(2, FoxLines()[1])]
  {
    var lines := FoxLines();
    NoThe(lines[0]);
    TheInJumps(lines[1]);
    assert lines == [lines[0], lines[1]];
    OnlySecondRow(lines[0], lines[1], Configuration(false, Text("the")));
  }

  /** Case-insensitive "The": the pattern keeps its capital letter while the
      lines are lowercased, so neither line matches. */
  lemma FoxCapitalisedPattern()
    ensures FindInLines(FoxLines(), Configuration(true, Text("The"))) == []
  {
    var lines := FoxLines();
    UpperCasePatternNeverMatchesInsensitive("The", 0, lines[0]);
    UpperCasePatternNeverMatchesInsensitive("The", 0, lines[1]);
    assert lines == [lines[0], lines[1]];
    NoRows(lines[0], lines[1], Configuration(true, Text("The")));
  }

  /** Case-insensitive "the": both lines match. */
  lemma FoxCaseInsensitive()
    ensures FindInLines(FoxLines(), Configuration(true, Text("the")))
         == [Match(1, FoxLines()[0]), Match(2, FoxLines()[1])]
  {
    var lines := FoxLines();
    var c := Configuration(true, Text("the"));
    FoundAt(c, lines[0], 0);
    FoundAt(c, lines[1], 19);
    assert lines == [lines[0], lines[1]];
    BothRows(lines[0], lines[1], c);
  }

  /** Six lines of which exactly the second, third and fourth are accepted. */
  lemma {:induction false} RowsTwoToFour(a: string, b: string, d: string, e: string, f: string, g: string, c: Configuration)
    requires !MatchesLine(c, a) && MatchesLine(c, b) && MatchesLine(c, d)
    requires MatchesLine(c, e) && !MatchesLine(c, f) && !MatchesLine(c, g)
    ensures FindInLines([a, b, d, e, f, g], c) == [Match(2, b), Match(3, d), Match(4, e)]
  {
    FindInSixLines(a, b, d, e, f, g, c);
  }

  /** The configuration of the C snippet test. */
  function IntInsensitive(): Configuration
  {
    Configuration(true, Text("int"))
  }

  lemma IntInMain(line: string)
    requires line == "        int main() {"
    ensures MatchesLine(IntInsensitive(), line)
  {
    FoundInLowercase3("int", line, 8);
  }

  lemma IntInComment(line: string)
    requires line == "           // printf() displays the string inside quotation"
    ensures MatchesLine(IntInsensitive(), line)
  {
    FoundInLowercase3("int", line, 16);
  }

  lemma IntInPrintf(line: string)
    requires line == "           printf(\"Hello, World!\");"
    ensures MatchesLine(IntInsensitive(), line)
  {
    FoundInLowercase3("int", line, 13);
  }

  lemma SnippetAccepted()
    ensures MatchesLine(IntInsensitive(), SnippetLines()[1])
    ensures MatchesLine(IntInsensitive(), SnippetLines()[2])
    ensures MatchesLine(IntInsensitive(), SnippetLines()[3])
  {
    var lines := SnippetLines();
    IntInMain(lines[1]);
    IntInComment(lines[2]);
    IntInPrintf(lines[3]);
  }

  lemma SnippetRejected()
    ensures !MatchesLine(IntInsensitive(), SnippetLines()[0])
    ensures !MatchesLine(IntInsensitive(), SnippetLines()[4])
    ensures !MatchesLine(IntInsensitive(), SnippetLines()[5])
  {
    var lines := SnippetLines();
    NoInt(lines[0]);
    NoInt(lines[4]);
    NoInt(lines[5]);
  }

  /** Case-insensitive "int": rows 2, 3 and 4, in that order, and no others. */
  lemma SnippetRows()
    ensures FindInLines(SnippetLines(), IntInsensitive())
         == [Match(2, SnippetLines()[1]), Match(3, SnippetLines()[2]), Match(4, SnippetLines()[3])]
  {
    var lines := SnippetLines();
    SnippetAccepted();
    SnippetRejected();
    assert lines == [lines[0], lines[1], lines[2], lines[3], lines[4], lines[5]];
    RowsTwoToFour(lines[0], lines[1], lines[2], lines[3], lines[4], lines[5], IntInsensitive());
  }
}
