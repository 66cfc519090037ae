# assert_cli: a verified model of the assertion core

`assert_cli` is a Rust library for testing command-line programs. You
describe what a command should do:

- whether it should succeed or fail, and with which exit code;
- what its standard output and standard error should contain, equal or match.

The library runs the command once and reports the first expectation that
does not hold. It can render a coloured line diff to explain a mismatch.

This project models the decision layer that sits on top of running the
process. The captured result of the process is an input value: an exit code
that is absent when a signal ended the process, plus the bytes of stdout and
stderr. The modules follow the source files:

| module | source | what it models |
|---|---|---|
| `Wrappers` | — | `Option` and a pass/fail `Outcome` |
| `Text` | Rust's `str` | `char::is_whitespace`, `trim`, `contains`, `split` on one character, lossy decoding |
| `Changeset` | the `difference` crate | a line/word edit script (`Same`/`Add`/`Rem`) and its distance |
| `Output` | src/output.rs | one output predicate (`OutputAssertion`): stream selection, containment and exact checks, error variants |
| `Assert` | src/assert.rs | the `Assert` builder as a class with fields, the `OutputAssertionBuilder`, and `execute`'s check sequence |
| `Diff` | src/diff.rs | `render`, the line-by-line report with word-level highlighting |
| `ParseCmd` | src/parse_cmd.rs | `ToCmd` for strings (the quote-stack tokenizer) and for slices |
| `Legacy` | src/lib.rs | `assert_cli_output`, `assert_cli_output_error` and the `assert_cli!` arms |

Summary of what the model covers:

- **Builder state.** The builder methods change the fields of an `Assert`
  object. Each method's contract states the whole new configuration.
- **`execute`.** It is a method over the captured result. It is proved
  equal to `Verdict`, a function whose properties are lemmas:
  - status is checked first, then the exit code, then the predicates in
    insertion order;
  - the first failure wins;
  - it passes exactly when every check passes.
- **`render` and `to_cmd`.** Both are loops. Each is proved equal to a
  specification function (`Rendered`, `Tokenize`), and the promised
  properties are proved about those functions. This includes the unit
  tests of src/parse_cmd.rs.

Where the sources disagree, the model follows the code:

- The error type of src/lib.rs is used with the variant `WrongExitCode`.
  src/cli_error.rs names that variant `NoSuccess`. The model uses
  `WrongExitCode`, as src/lib.rs does.
- tests/macro.rs uses `assert_cli!` arms without an expected output (lines
  13, 20 and 22). The macro in src/lib.rs does not define them. The model has
  only the three arms src/lib.rs defines.
- Later revisions of the library compare byte-level content through
  `Is`/`Contains` predicate variants. The src/output.rs modelled here has an
  `OutputAssertion` with a `fuzzy` flag and a polarity flag, while
  src/assert.rs builds its predicates through `Output::contains` and
  friends from another revision.
  The model uses `OutputAssertion` throughout:
  - `contains` and `doesnt_contain` are containment checks with polarity true and false;
  - `is` and `isnt` are exact checks with polarity true and false;
  - `matches`, `matches_ntimes` and `satisfies` are further expectation kinds.

## Model

| member | source | states |
|---|---|---|
| Output.Select | src/output.rs:107-112 | stdout is selected for `StdOut` and stderr for `StdErr`; the output is a value, so nothing is modified |
| Output.MatchesFuzzy | src/output.rs:26-50 | passes iff the condition (substring containment, untrimmed, for strings) equals the polarity; a failing string check is `OutputDoesntContain(expected, got)` under polarity true and `OutputContains(expected, got)` under polarity false; a failing regex check is `OutputDoesntMatchRegex(pattern, got)`; a failing match count is `OutputMatchCountMismatch(pattern, expected count, found count, got)`; a failing custom predicate is `OutputPredicateFails(message, got)` |
| Output.MatchesExact | src/output.rs:52-82 | passes iff (trimmed expected == trimmed actual) equals the polarity, because the line edit script has distance 0 exactly when the trimmed texts are equal; on failure under polarity true it is `OutputDoesntMatch(expected, got, rendered diff)`, with the diff rendered by the corrected renderer (see Left out), under polarity false `OutputMatches(got)` with no diff; a failing regex check is `OutputDoesntMatchRegex`, a failing match count `OutputMatchCountMismatch` with both counts, a failing custom predicate `OutputPredicateFails` with the caller's message |
| Output.Check | src/output.rs:87-91 | dispatch on `fuzzy`: passes iff the mode's condition equals the polarity |
| Output.Execute | src/output.rs:84-97 | checks the lossily decoded selected stream; it passes iff the condition equals the polarity; a failure is `OutputMismatch` carrying the command, the stream and the inner error of the check |
| Output.NegationLaw | src/output.rs:30-46 | for every expectation kind and both modes, flipping only the polarity flips pass and fail |
| Output.ModeMattersOnlyForStrings | src/output.rs:39-46 | a regex (or other non-string) check gives the same result, including its error, in containment and exact mode |
| Output.ExactIgnoresSurroundingWhitespace | src/output.rs:54-58 | an exact check's verdict and its line edit script do not change when whitespace surrounds the actual text |
| Output.ExactReflexive | src/output.rs:55-67 | `is(s)` accepts `s` itself; `isnt(s)` rejects it with `OutputMatches(s)` |
| Output.ContainsAround | src/output.rs:29-35 | `contains(n)` accepts every text that has `n` inside it; `doesnt_contain(n)` rejects it with `OutputContains` |
| Output.ExecuteReadsSelectedStream | src/output.rs:84-86 | `execute` depends only on the selected stream: two outputs that agree on it get the same result |
| Assert.Assert.Default | src/assert.rs:31-44 | command `cargo run --quiet --`, inherited environment, no directory, expect success, no exit code, no predicates, no stdin |
| Assert.Assert.MainBinary | src/assert.rs:51-53 | the same configuration as the default |
| Assert.Assert.CargoBinary | src/assert.rs:58-72 | the default configuration with command `cargo run --quiet --bin <name> --` |
| Assert.Assert.Command | src/assert.rs:86-91 | the default configuration with command `argv` |
| Assert.Assert.WithArgs | src/assert.rs:106-109 | the command becomes the old command followed by the arguments; every other field is unchanged |
| Assert.Assert.Stdin | src/assert.rs:123-126 | stdin contents are overwritten (the last call wins); every other field is unchanged |
| Assert.Assert.CurrentDir | src/assert.rs:141-144 | the directory is overwritten (the last call wins); every other field is unchanged |
| Assert.Assert.WithEnv | src/assert.rs:175-179 | the environment is replaced; every other field is unchanged |
| Assert.Assert.Succeeds | src/assert.rs:209-213 | sets (expect success, exit code) to (`Some(true)`, `None`) and nothing else |
| Assert.Assert.Fails | src/assert.rs:231-234 | sets expect success to `Some(false)`; the expected exit code and every other field stay unchanged |
| Assert.Assert.FailsWith | src/assert.rs:249-253 | sets (expect success, exit code) to (`Some(false)`, `Some(n)`) and nothing else |
| Assert.Assert.IgnoreStatus | src/assert.rs:273-277 | sets (expect success, exit code) to (`None`, `None`) and nothing else |
| Assert.Assert.Push | src/assert.rs:434 | appends exactly one predicate to the end of the predicate list; every other field is unchanged |
| Assert.Assert.Stdout | src/assert.rs:290-295 | a new builder for this assertion, on stdout |
| Assert.Assert.Stderr | src/assert.rs:310-315 | a new builder for this assertion, on stderr |
| Assert.Assert.Execute | src/assert.rs:329-392 | once the process has terminated, the result equals `Verdict` of the configuration: the status check, then the exit-code check, then the predicates in order, stopping at the first failure; the command must be non-empty (`cmd[0]`) |
| Assert.OutputAssertionBuilder.constructor | src/assert.rs:415-418 | the builder holds its assertion and its stream |
| Assert.OutputAssertionBuilder.Contains | src/assert.rs:432-436 | appends one containment predicate with polarity true, tagged with the builder's stream; returns the same assertion; nothing else changes |
| Assert.OutputAssertionBuilder.Is | src/assert.rs:449-453 | appends one exact predicate with polarity true on the builder's stream; nothing else changes |
| Assert.OutputAssertionBuilder.Matches | src/assert.rs:465-469 | appends one regex predicate on the builder's stream; nothing else changes |
| Assert.OutputAssertionBuilder.MatchesNTimes | src/assert.rs:481-485 | appends one match-count predicate on the builder's stream; nothing else changes |
| Assert.OutputAssertionBuilder.DoesntContain | src/assert.rs:498-502 | appends one containment predicate with polarity false on the builder's stream; nothing else changes |
| Assert.OutputAssertionBuilder.Isnt | src/assert.rs:515-519 | appends one exact predicate with polarity false on the builder's stream; nothing else changes |
| Assert.OutputAssertionBuilder.Satisfies | src/assert.rs:532-540 | appends one caller-predicate check, with its message, on the builder's stream; nothing else changes |
| Assert.Outcomes | src/assert.rs:382-389 | one outcome per predicate, in insertion order, each the predicate's `execute` on the output |
| Assert.StringPredicatesMeaning | src/assert.rs:432-519 | `contains` passes iff the stream contains the text, `doesnt_contain` iff it does not; `is` passes iff the trimmed texts are equal, `isnt` iff they differ |
| Assert.PatternPredicatesMeaning | src/assert.rs:465-540 | `matches` passes iff the regex matches; `matches_ntimes(n)` iff it matches exactly `n` times; `satisfies(f)` iff `f` holds of the stream |
| Assert.FirstFailurePassIff | src/assert.rs:382-391 | the predicate stage passes iff every predicate passes |
| Assert.FirstFailureIndex | src/assert.rs:382-389 | a failure of the predicate stage is the outcome of some predicate, and every predicate before it passed |
| Assert.FirstFailureStops | src/assert.rs:382-389 | after the first failure, later outcomes are never consulted |
| Assert.FirstFailureAfterPasses | src/assert.rs:382-389 | when every earlier predicate passes, the result is decided by the later ones |
| Assert.OutcomesAppend | src/assert.rs:382-389 | the outcomes of a longer predicate list extend those of the shorter one |
| Assert.LaterPredicateIgnored | src/assert.rs:360-389 | a predicate pushed after a failing assertion does not change the verdict |
| Assert.VerdictPassIff | src/assert.rs:360-391 | `execute` passes iff the status, the exit code and every predicate pass |
| Assert.StatusCheckedFirst | src/assert.rs:360-369 | a status mismatch is reported as such, and the verdict does not depend on the exit code or predicates |
| Assert.ExitCodeMismatchIff | src/assert.rs:371-380 | an exit-code mismatch is reported iff the status check passed, an exit code is expected, and the actual code is not that code |
| Assert.SignalFailsExitCode | src/assert.rs:371-380 | a signal-killed process, which has no code, fails every expected exit code, and its error carries `None` |
| Assert.OutputFailureIsFirst | src/assert.rs:382-389 | a reported predicate failure is that of the first failing predicate in insertion order, and status and exit code passed |
| Assert.FailsWithOwnCode | src/assert.rs:249-253 | `fails_with(n)` accepts the status and exit code of a process that exited with non-zero code `n` |
| Assert.EchoExample | src/assert.rs:100-103 | `command(["echo"]).with_args(["42"]).stdout().contains("42")` passes on the output `42\n` |
| Diff.Render | src/diff.rs:9-49 | the report of the whole edit script equals `Rendered` over the whole script, line by line, with an `Add` at index 0 treated as not preceded by a `Rem` (see Findings) |
| Diff.RenderWords | src/diff.rs:21-34 | the inner loop's spans are the word spans of the word edit script of the removed line against the added line |
| Diff.WordSpansText | src/diff.rs:22-34 | without colours, the word spans are the new line's words, each followed by one space; removed words are omitted |
| Diff.LineContents | src/diff.rs:14-44 | `Same(x)` gives exactly ` x` and a newline; `Rem(x)` gives red `-x` and a newline; an `Add(x)` not after a `Rem` gives green-dimmed `+x` and a newline; an `Add(x)` after a `Rem` gives a green `+`, then the words of `x` each followed by a space, then a newline |
| Diff.RenderedLineCount | src/diff.rs:12-46 | if no element contains a newline, each element contributes exactly one line |
| Diff.RenderedPrefixStable | src/diff.rs:12-46 | the lines already rendered do not depend on the elements after them, so the lines come in script order |
| Diff.AsWrittenPanicsOnLeadingAdd | src/diff.rs:17-18 | as written, a script that begins with `Add` panics |
| Diff.AsWrittenAgreesOtherwise | src/diff.rs:9-49 | as written, a script that does not begin with `Add` renders as `Render` does |
| Diff.RenderAsWrittenPanics | src/diff.rs:18 | the line script of expected `a` against actual `b\na` is `[Add(b), Same(a)]`, and rendering it as written panics |
| Changeset.Diff | src/output.rs:55 | the edit script's old side (Same and Rem) is the old sequence, and its new side (Same and Add) is the new sequence |
| Changeset.DistanceZeroIffEqual | src/output.rs:55-56 | the edit script has distance 0 iff the two sequences are equal |
| Text.TrimOfPadded | src/output.rs:55 | whitespace around a text never changes its trimmed form |
| Text.TrimTrailing | src/lib.rs:94-95 | trailing whitespace, such as the newline `echo` prints, never changes the trimmed text |
| Text.Contains | src/output.rs:29 | substring containment holds iff the needle occurs at some position |
| Text.JoinSplit | src/output.rs:55 | joining the pieces of a split with the separator gives back the text |
| Text.SplitInjective | src/output.rs:55-56 | texts with the same line split are equal |
| ParseCmd.PushPop | src/parse_cmd.rs:20-26 | a quote equal to the innermost open quote closes it; any other quote opens a new level, even one equal to a deeper open quote; other characters leave the stack alone |
| ParseCmd.ToCmd | src/parse_cmd.rs:5-35 | the character loop computes `Tokenize(s)` |
| ParseCmd.SliceToCmd | src/parse_cmd.rs:41-43 | the slice implementation returns the elements unchanged, in order |
| ParseCmd.ArgumentsJoinToKept | src/parse_cmd.rs:11-31 | joining the arguments gives the input with exactly the separators removed (whitespace met while no quote is open) |
| ParseCmd.ArgumentCount | src/parse_cmd.rs:12-16 | every separator ends one argument; at most one more (the final one) is added |
| ParseCmd.LeadingWhitespace | src/parse_cmd.rs:12-16 | a leading separator pushes an empty first argument in front of the rest |
| ParseCmd.DoubleSeparator | src/parse_cmd.rs:12-16 | two consecutive separators push an empty argument between them |
| ParseCmd.KeptCharOpensArgument | src/parse_cmd.rs:18 | after a character that is not a separator, the current argument is not empty |
| ParseCmd.TrailingWhitespace | src/parse_cmd.rs:29-31 | one whitespace character after a complete, unquoted last argument adds nothing, since the final argument is pushed only when non-empty; each further separator still pushes an empty argument |
| ParseCmd.TwoTrailingSeparators | src/parse_cmd.rs:12-16 | two whitespace characters after a complete, unquoted last argument add exactly one empty argument, because the second separator pushes the empty current argument (`a  ` gives `["a", ""]`) |
| ParseCmd.PlainSpan | src/parse_cmd.rs:12-18 | a run of non-quote characters, with no whitespace unless a quote is open, is appended to the current argument whole |
| ParseCmd.SpellsIsEquality | src/parse_cmd.rs:64-96 | `Spells(s, text)`, the character-by-character form in which the longer unit tests state their input, holds iff `s == text`, so those lemmas state the tests exactly |
| ParseCmd.SliceExample | src/parse_cmd.rs:51-56 | `["echo", "42"]` as a slice gives `["echo", "42"]` |
| ParseCmd.EchoExample | src/parse_cmd.rs:60-63 | `echo 42` gives `["echo", "42"]` |
| ParseCmd.DoubleQuotedExample | src/parse_cmd.rs:64-67 | `echo "42"` keeps the double quotes in the argument |
| ParseCmd.SingleQuotedExample | src/parse_cmd.rs:68-71 | `echo '42'` keeps the single quotes in the argument |
| ParseCmd.QuotedSpacesExample | src/parse_cmd.rs:72-75 | whitespace inside single quotes stays in the argument |
| ParseCmd.RealWorldExample | src/parse_cmd.rs:79-84 | `cargo run --bin whatever -- --input="Lorem ipsum" -f` gives seven arguments, with the quoted value kept whole |
| ParseCmd.NestedQuotesExample | src/parse_cmd.rs:88-91 | a single-quoted word inside double quotes stays in one argument |
| ParseCmd.DeeplyNestedQuotesExample | src/parse_cmd.rs:93-96 | a double quote inside single quotes inside double quotes opens a third level, and the whole quoted text is one argument |
| Legacy.CompareTrimmed | src/lib.rs:93-101 | passes iff the trimmed texts are equal; otherwise fails with `OutputMissmatch` of the line edit script |
| Legacy.AssertCliOutput | src/lib.rs:88-102 | fails with `WrongExitCode(output)` when the status is not success, before any comparison; passes iff the status is success and the trimmed expected text equals the trimmed, lossily decoded stdout; otherwise fails with `OutputMissmatch` |
| Legacy.AssertCliOutputError | src/lib.rs:140-160 | fails with `WrongExitCode` when the command succeeded, or when both exit codes are present and differ; passes iff neither happens and the trimmed expected text equals the trimmed stderr; otherwise fails with `OutputMissmatch` |
| Legacy.AssertCli | src/lib.rs:180-190 | `=> Success` calls `assert_cli_output`; `=> Error` passes code `None`; `=> Error n` passes `Some(n)` |
| Legacy.SuccessAndErrorExclusive | src/lib.rs:89-91 | no output passes both `=> Success` and an `Error` arm |
| Legacy.ErrorWithIsErrorPlusCode | src/lib.rs:145-149 | `=> Error n` passes iff `=> Error` passes and the actual code, when present, is `n` |
| Legacy.NoCodeIgnoresExpectedCode | src/lib.rs:145-149 | with no actual code, `=> Error n` is the same as `=> Error` |
| Legacy.OtherCodeRejectedFirst | src/lib.rs:145-149 | a differing actual code fails with `WrongExitCode` whatever text is expected |
| Legacy.OtherStreamIgnored | src/lib.rs:93-94 | `=> Success` compares stdout only, and the `Error` arms compare stderr only (line 151) |
| Legacy.EchoPassesSuccess | tests/macro.rs:14 | a successful command that prints the expected text plus trailing whitespace passes `=> Success` |
| Legacy.PrintedErrorPasses | tests/macro.rs:21-23 | a command that exits with `n` after printing the expected text to stderr passes `=> Error n` and `=> Error` |
| Legacy.SuccessFailsErrorArms | tests/macro.rs:25-26 | a successful command fails `=> Error` and `=> Error 11` with `WrongExitCode` |

## Left out

- Spawning the process, writing stdin, waiting for the output and the pipe-deadlock hazard (src/assert.rs:330-358, src/lib.rs:83-86). These are I/O and concurrency. `execute` and the legacy assertions take the captured result as input. src/cmd.rs is not part of this model.
- Assert.Assert.Execute: requires a non-empty command. The source indexes `cmd[0]` and panics on an empty command, and the model does not represent that panic.
- Assert.Assert.WithEnv: does not model how an environment is composed or compiled. The `Environment` module is not part of this model, so the environment is carried as an opaque value.
- `and()` (src/assert.rs:194-196) returns the assertion unchanged. The model's builder methods change one object in place, so no call is needed to chain them.
- Assert.OutputAssertionBuilder: the source moves the `Assert` into the builder and back. The model keeps one `Assert` object and a reference to it, so ownership transfer is not modelled.
- The regex engine. Whether a regex matches a text, and how many matches it finds there, are uninterpreted fields of `Regex`. Compiling the pattern string given to `matches` and `matches_ntimes`, and its error path, are not modelled.
- The `difference` crate. `Changeset.Diff` is a stand-in edit script (common prefix and suffix, the rest removed and added). Its contract is the one the source relies on: the old side is the old sequence, the new side is the new sequence, and distance 0 means equality. The crate's minimal (LCS) script is not modelled.
- Output.MatchesExact: renders the mismatch report with the corrected `Diff.Rendered`. When the line edit script begins with an `Add`, the source's `render` (called at src/output.rs:60) panics (src/diff.rs:18), while the model reports an ordinary `OutputDoesntMatch`. Output.Execute and Assert.Assert.Execute inherit this: where the source panics, they return that failure. See Findings.
- ANSI colouring. The `colored` crate's escape codes become colour tags on the spans of the report.
- Text.LossyDecode: maps ASCII bytes exactly and every other byte to U+FFFD. UTF-8 decoding of multi-byte sequences is not modelled.
- Text.IsWhitespace follows Unicode's White_Space list. Trimming works on code points; no normalisation is modelled.
- The panic path: `unwrap` and `display_chain` (src/assert.rs:405-409). Error message formatting (src/errors.rs, src/cli_error.rs) is also left out, so errors are typed values, not texts.
- The error-returning `?` of `write!` in `render`. Writing to a `String` cannot fail, so `Render` returns the report directly.
- The tests of src/assert.rs (environment and `printenv` based), tests/cargo.rs, src/cargo.rs, src/temp.rs, src/macros.rs, build.rs and the fixture binaries. They need real processes, cargo or the filesystem.

## Findings

| source | as written | input that shows it | evidently intended | confidence | as-written member | corrected member |
|---|---|---|---|---|---|---|
| src/diff.rs:18 | an `Add` at index 0 reads `diffs[i - 1]`; the unsigned subtraction underflows and the program panics | an exact check with expected `a` and actual `b\na`: the line script is `[Add("b"), Same("a")]` | an `Add` at index 0 is treated as not preceded by a `Rem` and rendered green-dimmed | not executed | Diff.RenderAsWrittenPanics | Diff.Render |
