/**
 The line scanner of fif: number the lines of a file from 1 and keep those the
 configured predicate accepts, in their original order.
 */
module LineSearch {
  import opened Patterns

  /** One matching line: its 1-based row in the file and its text. */
  datatype Match = Match(row: nat, line: string)

  /** One line as `BufRead::lines` yields it: its text, or the error for a line
      that cannot be decoded as UTF-8. */
  datatype LineRead = Decoded(text: string) | DecodeError

  /** Every line paired with its row number: `enumerate` followed by `row + 1`. */
  function Numbered(lines: seq<string>): (numbered: seq<Match>)
    ensures |numbered| == |lines| && RowsIncreasing(numbered)
    ensures forall m :: m in numbered <==> 1 <= m.row <= |lines| && m.line == lines[m.row - 1]
  {
    var numbered := seq(|lines|, i requires 0 <= i < |lines| => Match(i + 1, lines[i]));
    assert forall m: Match :: 1 <= m.row <= |lines| && m.line == lines[m.row - 1] ==> m in numbered by {
      forall m: Match | 1 <= m.row <= |lines| && m.line == lines[m.row - 1] ensures m in numbered {
        assert numbered[m.row - 1] == m;
      }
    }
    numbered
  }

  /** The `filter` step: keep the entries whose line is accepted, in order. */
  function KeepAccepted(ms: seq<Match>, accepts: string -> bool): (kept: seq<Match>)
    ensures |kept| <= |ms|
    ensures forall m :: m in kept <==> m in ms && accepts(m.line)
  {
    if ms == [] then []
    else
      var rest := KeepAccepted(ms[1..], accepts);
      assert forall m :: m in ms <==> m == ms[0] || m in ms[1..];
      if accepts(ms[0].line) then [ms[0]] + rest else rest
  }

  /** Rows strictly increase along the sequence. */
  ghost predicate RowsIncreasing(ms: seq<Match>)
  {
    forall j, k :: 0 <= j < k < |ms| ==> ms[j].row < ms[k].row
  }

  /** Filtering keeps rows strictly increasing. */
  lemma {:induction false} KeepAcceptedIncreasing(ms: seq<Match>, accepts: string -> bool)
    requires RowsIncreasing(ms)
    ensures RowsIncreasing(KeepAccepted(ms, accepts))
  {
    if ms != [] {
      KeepAcceptedIncreasing(ms[1..], accepts);
      var rest := KeepAccepted(ms[1..], accepts);
      forall k | 0 <= k < |rest| ensures ms[0].row < rest[k].row {
        assert rest[k] in ms[1..];
      }
    }
  }

  /** `find_in_lines`: the matches of `lines` under configuration `c`. */
  function FindInLines(lines: seq<string>, c: Configuration): (ms: seq<Match>)
    ensures RowsIncreasing(ms) && |ms| <= |lines|
    ensures forall m :: m in ms <==> 1 <= m.row <= |lines| && m.line == lines[m.row - 1] && MatchesLine(c, m.line)
  {
    KeepAcceptedIncreasing(Numbered(lines), ConstructFilteringPredicate(c));
    KeepAccepted(Numbered(lines), ConstructFilteringPredicate(c))
  }

  /** Every match names a real row (1-based) and carries that row's text, which
      the predicate accepts. */
  lemma FindInLinesSound(lines: seq<string>, c: Configuration)
    ensures forall m :: m in FindInLines(lines, c) ==>
      1 <= m.row <= |lines| && m.line == lines[m.row - 1] && MatchesLine(c, m.line)
  {
    forall m | m in FindInLines(lines, c)
      ensures 1 <= m.row <= |lines| && m.line == lines[m.row - 1]
    {
      var i :| 0 <= i < |lines| && Numbered(lines)[i] == m;
    }
  }

  /** A row is reported exactly when the predicate accepts the line there. */
  lemma FindInLinesComplete(lines: seq<string>, c: Configuration)
    ensures forall i :: 0 <= i < |lines| ==>
      (Match(i + 1, lines[i]) in FindInLines(lines, c) <==> MatchesLine(c, lines[i]))
  {
    forall i | 0 <= i < |lines|
      ensures Match(i + 1, lines[i]) in Numbered(lines)
    {
      assert Numbered(lines)[i] == Match(i + 1, lines[i]);
    }
  }

  /** Matches come out in input order, at most one per line. */
  lemma FindInLinesOrdered(lines: seq<string>, c: Configuration)
    ensures RowsIncreasing(FindInLines(lines, c))
    ensures |FindInLines(lines, c)| <= |lines|
  {
    KeepAcceptedIncreasing(Numbered(lines), ConstructFilteringPredicate(c));
  }

  /** Filtering distributes over concatenation. */
  lemma {:induction false} KeepAcceptedAppend(xs: seq<Match>, ys: seq<Match>, accepts: string -> bool)
    ensures KeepAccepted(xs + ys, accepts) == KeepAccepted(xs, accepts) + KeepAccepted(ys, accepts)
  {
    if xs != [] {
      assert (xs + ys)[1..] == xs[1..] + ys;
      KeepAcceptedAppend(xs[1..], ys, accepts);
    } else {
      assert xs + ys == ys;
    }
  }

  /** Scanning one more line appends at most that line's match: the scan
      needs only the current line and its row number. */
  lemma FindInLinesSnoc(lines: seq<string>, line: string, c: Configuration)
    ensures FindInLines(lines + [line], c)
         == FindInLines(lines, c) + (if MatchesLine(c, line) then [Match(|lines| + 1, line)] else [])
  {
    assert Numbered(lines + [line]) == Numbered(lines) + [Match(|lines| + 1, line)];
    KeepAcceptedAppend(Numbered(lines), [Match(|lines| + 1, line)], ConstructFilteringPredicate(c));
  }

  /** Under the default configuration every row is reported. */
  lemma DefaultFindsEveryLine(lines: seq<string>)
    ensures FindInLines(lines, DefaultConfiguration()) == Numbered(lines)
  {
    forall line ensures ConstructFilteringPredicate(DefaultConfiguration())(line) {
      DefaultAcceptsEveryLine(line);
    }
    KeepAllAccepted(Numbered(lines), ConstructFilteringPredicate(DefaultConfiguration()));
  }

  lemma {:induction false} KeepAllAccepted(ms: seq<Match>, accepts: string -> bool)
    requires forall line :: accepts(line)
    ensures KeepAccepted(ms, accepts) == ms
  {
    if ms != [] {
      KeepAllAccepted(ms[1..], accepts);
    }
  }

  /** The lines `find_in_file` hands to the scanner: a line that could not be
      decoded becomes the empty line, and no line is dropped or added. */
  function UnwrapOrDefault(read: seq<LineRead>): (lines: seq<string>)
    ensures |lines| == |read|
    ensures forall i :: 0 <= i < |read| && read[i].Decoded? ==> lines[i] == read[i].text
    ensures forall i :: 0 <= i < |read| && read[i].DecodeError? ==> lines[i] == ""
  {
    seq(|read|, i requires 0 <= i < |read| => if read[i].Decoded? then read[i].text else "")
  }

  /** `find_in_file` once the file is open: scan the read lines. */
  function FindInFile(read: seq<LineRead>, c: Configuration): (ms: seq<Match>)
    ensures RowsIncreasing(ms) && |ms| <= |read|
    ensures forall m :: m in ms ==> 1 <= m.row <= |read| && MatchesLine(c, m.line)
    ensures forall m :: m in ms && read[m.row - 1].Decoded? ==> m.line == read[m.row - 1].text
    ensures forall m :: m in ms && read[m.row - 1].DecodeError? ==> m.line == ""
  {
    FindInLines(UnwrapOrDefault(read), c)
  }

  /** A line that fails to decode neither shifts later row numbers nor ends the
      scan; it is reported, as an empty line, only for the empty pattern. */
  lemma FindInFileDecodeErrors(read: seq<LineRead>, c: Configuration)
    ensures forall i :: 0 <= i < |read| && read[i].Decoded? ==>
      (Match(i + 1, read[i].text) in FindInFile(read, c) <==> MatchesLine(c, read[i].text))
    ensures forall i :: 0 <= i < |read| && read[i].DecodeError? ==>
      (Match(i + 1, "") in FindInFile(read, c) <==> c.pattern.text == "")
  {
    var lines := UnwrapOrDefault(read);
    FindInLinesComplete(lines, c);
    EmptyLineMatchesOnlyEmptyPattern(c);
    forall i | 0 <= i < |read| ensures lines[i] == (if read[i].Decoded? then read[i].text else "") {
    }
  }
}
