/**
 The pattern-matching engine of fif: a literal pattern plus a case-sensitivity
 flag is turned into a predicate on one line of text.
 */
module Patterns {

  /** The pattern to look for. Only the literal-text variant is modelled. */
  datatype Pattern = Text(text: string)

  /** The options of one search run. */
  datatype Configuration = Configuration(caseInsensitive: bool, pattern: Pattern)

  /** The default pattern: empty text, which occurs in every line. */
  function DefaultPattern(): (p: Pattern)
    ensures forall line :: Occurs(p.text, line)
  {
    assert forall line :: Occurs("", line) by {
      forall line ensures Occurs("", line) {
        assert OccursAt("", line, 0);
      }
    }
    Text("")
  }

  /** The default configuration: case-sensitive, and its pattern accepts every
      line. */
  function DefaultConfiguration(): (c: Configuration)
    ensures !c.caseInsensitive
    ensures forall line :: MatchesLine(c, line)
  {
    Configuration(false, DefaultPattern())
  }

  /** A case-sensitive configuration that looks for the literal `text`. */
  function DefaultFromPattern(text: string): (c: Configuration)
    ensures forall line :: MatchesLine(c, line) <==> Occurs(text, line)
  {
    DefaultConfiguration().(pattern := Text(text))
  }

  // ---------------------------------------------------------------------------
  // Substring search

  /** `t` occurs in `line` starting at position `i`. */
  ghost predicate OccursAt(t: string, line: string, i: nat)
  {
    i + |t| <= |line| && line[i..i + |t|] == t
  }

  /** `t` is a contiguous substring of `line`: the meaning of `str::contains`. */
  ghost predicate Occurs(t: string, line: string)
  {
    exists i: nat :: OccursAt(t, line, i)
  }

  lemma OccursAtShift(t: string, line: string, i: nat)
    requires |line| > 0
    ensures OccursAt(t, line, i + 1) <==> OccursAt(t, line[1..], i)
  {
    if i + 1 + |t| <= |line| {
      assert line[1..][i..i + |t|] == line[i + 1..i + 1 + |t|];
    }
  }

  /** The search `line.contains(t)` performs: try every start position in turn. */
  function Contains(line: string, t: string): (found: bool)
    ensures found <==> Occurs(t, line)
    decreases |line|
  {
    if |line| < |t| then
      assert forall i: nat :: !OccursAt(t, line, i);
      false
    else if line[..|t|] == t then
      assert OccursAt(t, line, 0);
      true
    else
      var rest := Contains(line[1..], t);
      assert !OccursAt(t, line, 0);
      assert forall i: nat :: OccursAt(t, line, i + 1) <==> OccursAt(t, line[1..], i) by {
        forall i: nat ensures OccursAt(t, line, i + 1) <==> OccursAt(t, line[1..], i) {
          OccursAtShift(t, line, i);
        }
      }
      assert Occurs(t, line) ==> Occurs(t, line[1..]) by {
        if Occurs(t, line) {
          var i: nat :| OccursAt(t, line, i);
          assert i != 0;
          assert OccursAt(t, line[1..], i - 1);
        }
      }
      assert Occurs(t, line[1..]) ==> Occurs(t, line) by {
        if Occurs(t, line[1..]) {
          var i: nat :| OccursAt(t, line[1..], i);
          assert OccursAt(t, line, i + 1);
        }
      }
      rest
  }

  // ---------------------------------------------------------------------------
  // Lowercasing (ASCII letters only)

  predicate IsAsciiUpper(c: char)
  {
    'A' <= c <= 'Z'
  }

  function LowerChar(c: char): char
  {
    if IsAsciiUpper(c) then (c as int + 32) as char else c
  }

  /** The lower-case ASCII alphabet, in the order of the upper-case one. */
  const Alphabet: string := "abcdefghijklmnopqrstuvwxyz"

  /** `LowerChar` maps the upper-case letter `c` to the letter of the same
      place in the lower-case alphabet. */
  lemma LowerCharTable(c: char)
    requires IsAsciiUpper(c)
    ensures LowerChar(c) == Alphabet[c as int - 'A' as int]
  {
  }

  /** The line as `to_lowercase` returns it, restricted to ASCII letters. */
  function Lowercase(s: string): (lower: string)
    ensures |lower| == |s|
    ensures forall i :: 0 <= i < |lower| ==> !IsAsciiUpper(lower[i])
    ensures forall i :: 0 <= i < |s| && !IsAsciiUpper(s[i]) ==> lower[i] == s[i]
    ensures forall i :: 0 <= i < |s| && IsAsciiUpper(s[i]) ==> lower[i] == Alphabet[s[i] as int - 'A' as int]
  {
    assert forall c :: IsAsciiUpper(c) ==> LowerChar(c) == Alphabet[c as int - 'A' as int] by {
      forall c | IsAsciiUpper(c) ensures LowerChar(c) == Alphabet[c as int - 'A' as int] {
        LowerCharTable(c);
      }
    }
    seq(|s|, i requires 0 <= i < |s| => LowerChar(s[i]))
  }

  /** A string without upper-case letters is its own lower-case form. */
  lemma LowercaseFixesLower(s: string)
    requires forall i :: 0 <= i < |s| ==> !IsAsciiUpper(s[i])
    ensures Lowercase(s) == s
  {
  }

  lemma LowercaseSlice(s: string, i: nat, j: nat)
    requires i <= j <= |s|
    ensures Lowercase(s)[i..j] == Lowercase(s[i..j])
  {
  }

  // ---------------------------------------------------------------------------
  // The line predicate

  /** What the predicate of configuration `c` is meant to accept: the pattern
      text, as given, occurs in the line, lowercased first when the search is
      case-insensitive. */
  ghost predicate MatchesLine(c: Configuration, line: string)
  {
    Occurs(c.pattern.text, if c.caseInsensitive then Lowercase(line) else line)
  }

  /** `Pattern::into_matching_function` for the `Text` variant. In
      case-insensitive mode the line is lowercased but the pattern is not. */
  function IntoMatchingFunction(p: Pattern, caseInsensitive: bool): (accepts: string -> bool)
    ensures !caseInsensitive ==> forall line :: accepts(line) <==> Occurs(p.text, line)
    ensures caseInsensitive ==> forall line :: accepts(line) <==> Occurs(p.text, Lowercase(line))
  {
    match p
    case Text(t) =>
      if caseInsensitive then
        (line: string) => Contains(Lowercase(line), t)
      else
        (line: string) => Contains(line, t)
  }

  /** `construct_filtering_predicate`: compile a configuration into its predicate. */
  function ConstructFilteringPredicate(c: Configuration): (accepts: string -> bool)
    ensures forall line :: accepts(line) <==> MatchesLine(c, line)
  {
    IntoMatchingFunction(c.pattern, c.caseInsensitive)
  }

  // ---------------------------------------------------------------------------
  // Properties of the predicate

  /** Since only the line is lowercased, a pattern that holds an upper-case
      letter never matches in case-insensitive mode. */
  lemma UpperCasePatternNeverMatchesInsensitive(t: string, j: nat, line: string)
    requires j < |t| && IsAsciiUpper(t[j])
    ensures !IntoMatchingFunction(Text(t), true)(line)
  {
  }

  /** With a pattern free of upper-case letters, every line matched
      case-sensitively is also matched case-insensitively. */
  lemma InsensitiveExtendsSensitive(t: string, line: string)
    requires forall j :: 0 <= j < |t| ==> !IsAsciiUpper(t[j])
    requires IntoMatchingFunction(Text(t), false)(line)
    ensures IntoMatchingFunction(Text(t), true)(line)
  {
    var i: nat :| OccursAt(t, line, i);
    LowercaseSlice(line, i, i + |t|);
    LowercaseFixesLower(t);
    assert OccursAt(t, Lowercase(line), i);
  }

  /** The empty pattern of the default configuration accepts every line. */
  lemma DefaultAcceptsEveryLine(line: string)
    ensures ConstructFilteringPredicate(DefaultConfiguration())(line)
  {
    assert OccursAt("", line, 0);
  }

  /** Only the empty pattern accepts the empty line, in either mode. */
  lemma EmptyLineMatchesOnlyEmptyPattern(c: Configuration)
    ensures ConstructFilteringPredicate(c)("") <==> c.pattern.text == ""
  {
    assert Lowercase("") == "";
    if c.pattern.text == "" {
      assert OccursAt("", "", 0);
    }
  }
}
