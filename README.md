# fif: line matching and result grouping, in Dafny

fif is a line-oriented search tool written in Rust. It walks a directory tree,
tests every line of every file against a pattern, and returns the matching
lines grouped by file, each with its 1-based row number. This project models
the sequential, deterministic core of `src/fif.rs`:

- **Patterns** (`patterns.dfy`). This module holds the `Pattern` (its `Text`
  variant) and the `Configuration` with its defaults. It models how
  `Pattern::into_matching_function` and `construct_filtering_predicate` turn
  them into a line predicate (`string -> bool`). The predicate is built on a
  model of `str::contains` (`Contains`), which is proved equal to the
  "contiguous substring" relation (`Occurs`), and on an ASCII model of
  `to_lowercase`.
- **LineSearch** (`lines.dfy`). This module models `find_in_lines` as the
  iterator chain it is: number the lines from 1 (`Numbered`), keep the
  accepted ones (`KeepAccepted`), and return the `Match { row, line }` values.
  It also models the scan `find_in_file` runs once the file is open: a line
  that cannot be decoded as UTF-8 becomes the empty line.
- **Grouping** (`grouping.dfy`). This module models the drain loop at the end
  of `find_in_files`. It is a method with a `while` loop that folds the
  `(file, Match)` results into a `map<string, seq<Match>>`, the way
  `entry(file).or_default().push(m)` does.
- **Scenarios** (`scenarios.dfy`). This module holds the inputs of the
  repository's unit tests, with the results those tests expect, proved.

Case-insensitive matching lowercases the line but not the pattern
(`src/fif.rs:48`), so in case-insensitive mode a pattern with an upper-case
letter matches nothing (`UpperCasePatternNeverMatchesInsensitive`,
`FoxCapitalisedPattern`).

## Model

| member | source | states |
|---|---|---|
| `Patterns.DefaultPattern` | src/fif.rs:18-22 | The default pattern occurs in every line: it is the empty text. |
| `Patterns.DefaultConfiguration` | src/fif.rs:71-78 | The default configuration is case-sensitive and accepts every line. |
| `Patterns.DefaultFromPattern` | src/fif.rs:81-86 | The configuration built from a text is case-sensitive: it accepts a line exactly when the text is a contiguous substring of it. |
| `Patterns.Contains` | src/fif.rs:50 | The `contains` search (try each start position in turn) is true exactly when the pattern occurs as a contiguous substring of the line. The empty pattern occurs everywhere. |
| `Patterns.Lowercase` | src/fif.rs:48 | Lowercasing keeps the length and leaves no upper-case ASCII letter. It turns each upper-case letter into the letter at the same place of the lower-case alphabet `"abcdefghijklmnopqrstuvwxyz"`, and leaves every other character unchanged. |
| `Patterns.IntoMatchingFunction` | src/fif.rs:44-52 | For a `Text` pattern: case-sensitive, the predicate holds exactly when the text occurs in the line. Case-insensitive, it holds exactly when the text, as given and not lowercased, occurs in the lowercased line. |
| `Patterns.ConstructFilteringPredicate` | src/fif.rs:183-186 | The predicate built from a configuration accepts exactly the lines that match its pattern under its case setting. |
| `Patterns.UpperCasePatternNeverMatchesInsensitive` | src/fif.rs:47-48 | In case-insensitive mode a pattern with an upper-case ASCII letter accepts no line at all. |
| `Patterns.InsensitiveExtendsSensitive` | src/fif.rs:46-51 | For a pattern without upper-case letters, every line accepted case-sensitively is also accepted case-insensitively. |
| `Patterns.DefaultAcceptsEveryLine` | src/fif.rs:18-22 | The default pattern (empty text) accepts every line. |
| `Patterns.EmptyLineMatchesOnlyEmptyPattern` | src/fif.rs:46-51 | In either mode, the empty line is accepted exactly when the pattern text is empty. |
| `LineSearch.Numbered` | src/fif.rs:178-180 | Numbering keeps one entry per line. Rows strictly increase, and an entry is present exactly when its row lies between 1 and the number of lines and it carries the line at that row. |
| `LineSearch.KeepAccepted` | src/fif.rs:179 | The filter step keeps an entry exactly when it is in the input and its line is accepted, and it never lengthens the sequence. |
| `LineSearch.KeepAcceptedIncreasing` | src/fif.rs:178-179 | Filtering keeps the rows strictly increasing. |
| `LineSearch.FindInLines` | src/fif.rs:170-181 | `find_in_lines` reports, in strictly increasing row order and at most once per line, exactly the matches whose row lies between 1 and the number of lines, whose text is the line at that row, and whose line the configuration accepts. |
| `LineSearch.FindInLinesSound` | src/fif.rs:176-180 | Every reported match has a row between 1 and the number of lines, its text is the line at that row, and the predicate accepts it. |
| `LineSearch.FindInLinesComplete` | src/fif.rs:178-180 | For every position, the match (row = position + 1, that line) is reported exactly when the predicate accepts the line. |
| `LineSearch.FindInLinesOrdered` | src/fif.rs:176-180 | Reported rows are strictly increasing (input order, no duplicates), and there are no more matches than lines. |
| `LineSearch.KeepAcceptedAppend` | src/fif.rs:179 | Filtering a concatenation is the concatenation of the filtered parts. |
| `LineSearch.FindInLinesSnoc` | src/fif.rs:176-180 | Scanning one more line appends exactly that line's match, at row count + 1, when it is accepted, and nothing otherwise. |
| `LineSearch.DefaultFindsEveryLine` | src/fif.rs:71-78 | Under the default configuration every line is reported, numbered from 1. |
| `LineSearch.UnwrapOrDefault` | src/fif.rs:165 | `unwrap_or_default` keeps one line per read result: decoded text stays as it is, and a line that cannot be decoded as UTF-8 becomes the empty line. |
| `LineSearch.FindInFile` | src/fif.rs:159-168 | Once the file is open, the reported rows strictly increase and lie within the read lines. Every reported line is accepted, and it is the decoded text of its row, or the empty line for a row that could not be decoded. |
| `LineSearch.FindInFileDecodeErrors` | src/fif.rs:163-166 | A line that cannot be decoded as UTF-8 becomes the empty line. It does not shift the row numbers of the other lines, and it is reported only when the pattern is empty. Decoded lines are reported exactly when they are accepted. |
| `Grouping.MatchesForEmpty` | src/fif.rs:153-155 | A file's list of matches is empty exactly when the file does not occur among the results. |
| `Grouping.Push` | src/fif.rs:154 | `entry(file).or_default().push(m)` adds `file` as a key, appends `m` to its list (starting from an empty list when absent), leaves every other entry unchanged, and raises the total number of matches by one. |
| `Grouping.GroupByFile` | src/fif.rs:144-156 | After the drain loop, the keys are exactly the files that occur in the results. Each file's list is the subsequence of its results in arrival order, and it is never empty. The list lengths sum to the number of results. |
| `Scenarios.FoxCaseSensitive` | src/tests.rs:5-15 | Case-sensitive `the` over the two "quick brown fox" lines reports one match, at row 2. |
| `Scenarios.FoxCaseInsensitive` | src/tests.rs:17-27 | Case-insensitive `the` over the same lines reports two matches, at rows 1 and 2. |
| `Scenarios.FoxCapitalisedPattern` | src/fif.rs:47-48 | Case-insensitive `The` over the same lines reports nothing, because the pattern is not lowercased. |
| `Scenarios.SnippetRows` | src/tests.rs:29-47 | Case-insensitive `int` over the six-line C snippet reports rows 2, 3 and 4, in that order, and no other rows. |

## Left out

- The `Pattern::Regex` variant (src/fif.rs:53-60) is not modelled. It exists only behind the `regex` feature. It compiles through the external `regex` crate, whose matching semantics are not visible here, and it panics on an invalid expression.
- `collector`, the directory walk (src/fif.rs:97-114), is not modelled. It is driven by `fs::read_dir` and file metadata, and it panics when either fails. Modelling it would mean inventing a file system.
- `matcher` and the channel and `tokio::join!` orchestration of `find_in_files` (src/fif.rs:116-152) are not modelled. This is concurrency, channel plumbing and `eprintln!` diagnostics. The grouping loop takes the drained results as a sequence in arrival order.
- The file-opening part of `find_in_file` (src/fif.rs:163-164) is not modelled: opening the file and `BufReader` I/O, with the open error returned to the caller. `FindInFile` starts from the per-line read results.
- LineSearch.FindInFile: each `LineRead` stands for exactly one physical line. That holds for a line that is not valid UTF-8, because `read_line` consumes the whole line before it reports the error. An I/O error in the middle of a line is not modelled: `Lines` drops the partial line and returns the rest of it as the next item, which shifts later rows. A persistent I/O error is not modelled either: `lines()` then yields errors without end, and `unwrap_or_default` turns them into an endless run of empty lines.
- Patterns.Lowercase: lowercases ASCII letters only. Rust's `to_lowercase` follows full Unicode rules, which can change a string's length. The model's claims about lowercasing hold for the ASCII model only.
- `Clone` for `Pattern` and `Configuration`, `clone_pattern` and `text_from_string` (src/fif.rs:24-37, 88-90) have no separate members. Dafny datatypes are values, so copying them is identity.
- Row numbers are unbounded `nat`s. The `usize` width of `Match::row` is not modelled.
- src/main.rs, the command-line glue, is not part of this model.
