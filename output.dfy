/**
 * Output predicates (src/output.rs): one expectation about one captured
 * stream, decided against the lossily decoded text of that stream.
 */
module Output {
  import opened Wrappers
  import opened Text
  import opened Changeset
  import Diff

  /** Rust's `i32`, the type of exit codes. */
  type i32 = x: int | -0x8000_0000 <= x < 0x8000_0000

  /** Rust's `u32`, the type of expected match counts. */
  type u32 = x: int | 0 <= x < 0x1_0000_0000

  /** How the process ended: its exit code, absent when a signal killed it. */
  datatype ExitStatus = ExitStatus(code: Option<i32>)
  {
    /** `ExitStatus::success`: the process exited normally with code 0. */
    predicate Success()
    {
      code == Some(0)
    }
  }

  /** What the process left behind once it terminated (`std::process::Output`). */
  datatype CapturedOutput = CapturedOutput(status: ExitStatus, stdout: seq<byte>, stderr: seq<byte>)

  datatype OutputKind = StdOut | StdErr

  /** `OutputKind::select`: the bytes of the chosen stream. */
  function Select(kind: OutputKind, o: CapturedOutput): (bytes: seq<byte>)
    ensures kind == StdOut ==> bytes == o.stdout
    ensures kind == StdErr ==> bytes == o.stderr
  {
    match kind
    case StdOut => o.stdout
    case StdErr => o.stderr
  }

  /** The text a predicate is checked against: the selected stream, decoded lossily. */
  function Observed(kind: OutputKind, o: CapturedOutput): string
  {
    LossyDecode(Select(kind, o))
  }

  /**
   * A compiled regular expression. The regex engine is not part of this
   * model: whether it matches a text, and how many non-overlapping matches
   * it finds there, are left uninterpreted.
   */
  datatype Regex = Regex(source: string, isMatch: string -> bool, countMatches: string -> nat)

  /** What a predicate expects of the text. */
  datatype ExpectType =
    | Str(text: string)
    | Re(regex: Regex)
    | ReCount(regex: Regex, times: u32)
    | Predicate(holds: string -> bool, message: string)

  /** `OutputAssertion`: an expectation, containment or exact mode, a polarity and a stream. */
  datatype OutputAssertion = OutputAssertion(expectation: ExpectType, fuzzy: bool, expectedResult: bool, kind: OutputKind)

  /** The lowest-level mismatch, with the context each kind of check carries. */
  datatype OutputError =
    | OutputDoesntContain(expected: string, got: string)
    | OutputContains(expected: string, got: string)
    | OutputDoesntMatch(expected: string, got: string, diff: seq<Diff.Span>)
    | OutputMatches(got: string)
    | OutputDoesntMatchRegex(regex: string, got: string)
    | OutputMatchCountMismatch(regex: string, times: nat, found: nat, got: string)
    | OutputPredicateFails(message: string, got: string)

  /** A predicate's failure on one stream of one command. */
  datatype Mismatch = OutputMismatch(cmd: seq<string>, inner: OutputError, kind: OutputKind)

  /**
   * The condition a predicate tests, before its polarity is applied: a
   * substring test in containment mode, equality of the trimmed texts in
   * exact mode, and the same test in both modes for everything but strings.
   */
  predicate Holds(e: ExpectType, fuzzy: bool, got: string)
  {
    match e
    case Str(s) => if fuzzy then Contains(got, s) else Trim(s) == Trim(got)
    case Re(re) => re.isMatch(got)
    case ReCount(re, n) => re.countMatches(got) == n
    case Predicate(f, _) => f(got)
  }

  /** The branches that do not depend on the mode: regular expressions and custom predicates. */
  function MatchesPattern(a: OutputAssertion, got: string): (r: Outcome<OutputError>)
    requires !a.expectation.Str?
    ensures r.Pass? <==> Holds(a.expectation, a.fuzzy, got) == a.expectedResult
  {
    match a.expectation
    case Re(re) =>
      if re.isMatch(got) != a.expectedResult then Fail(OutputDoesntMatchRegex(re.source, got)) else Pass
    case ReCount(re, n) =>
      var found := re.countMatches(got);
      if (found == n) != a.expectedResult then Fail(OutputMatchCountMismatch(re.source, n, found, got)) else Pass
    case Predicate(f, message) =>
      if f(got) != a.expectedResult then Fail(OutputPredicateFails(message, got)) else Pass
  }

  /** `matches_fuzzy`: containment, neither side trimmed. */
  function MatchesFuzzy(a: OutputAssertion, got: string): (r: Outcome<OutputError>)
    ensures r.Pass? <==> Holds(a.expectation, true, got) == a.expectedResult
    ensures a.expectation.Str? && r.Fail? ==>
      r.error == if a.expectedResult then OutputDoesntContain(a.expectation.text, got)
                 else OutputContains(a.expectation.text, got)
    ensures a.expectation.Re? && r.Fail? ==> r.error == OutputDoesntMatchRegex(a.expectation.regex.source, got)
    ensures a.expectation.ReCount? && r.Fail? ==>
      r.error == OutputMatchCountMismatch(a.expectation.regex.source, a.expectation.times,
                                          a.expectation.regex.countMatches(got), got)
    ensures a.expectation.Predicate? && r.Fail? ==> r.error == OutputPredicateFails(a.expectation.message, got)
  {
    match a.expectation
    case Str(s) =>
      if Contains(got, s) != a.expectedResult then
        if a.expectedResult then Fail(OutputDoesntContain(s, got)) else Fail(OutputContains(s, got))
      else Pass
    case _ => MatchesPattern(a, got)
  }

  /** The line edit script between the trimmed expected and actual texts. */
  function LineChanges(expected: string, got: string): seq<Difference>
  {
    Changeset.Diff(Split(Trim(expected), '\n'), Split(Trim(got), '\n'))
  }

  /** `matches_exact`: line-by-line equality of the trimmed texts. */
  function MatchesExact(a: OutputAssertion, got: string): (r: Outcome<OutputError>)
    ensures r.Pass? <==> Holds(a.expectation, false, got) == a.expectedResult
    ensures a.expectation.Str? && r.Fail? && a.expectedResult ==>
      var changes := LineChanges(a.expectation.text, got);
      r.error == OutputDoesntMatch(a.expectation.text, got, Diff.Rendered(changes, |changes|))
    ensures a.expectation.Str? && r.Fail? && !a.expectedResult ==> r.error == OutputMatches(got)
    ensures a.expectation.Re? && r.Fail? ==> r.error == OutputDoesntMatchRegex(a.expectation.regex.source, got)
    ensures a.expectation.ReCount? && r.Fail? ==>
      r.error == OutputMatchCountMismatch(a.expectation.regex.source, a.expectation.times,
                                          a.expectation.regex.countMatches(got), got)
    ensures a.expectation.Predicate? && r.Fail? ==> r.error == OutputPredicateFails(a.expectation.message, got)
  {
    match a.expectation
    case Str(s) =>
      var differences := LineChanges(s, got);
      DistanceZeroIffEqual(Split(Trim(s), '\n'), Split(Trim(got), '\n'));
      SplitInjective(Trim(s), Trim(got), '\n');
      if (Distance(differences) == 0) != a.expectedResult then
        if a.expectedResult then
          Fail(OutputDoesntMatch(s, got, Diff.Rendered(differences, |differences|)))
        else
          Fail(OutputMatches(got))
      else Pass
    case _ => MatchesPattern(a, got)
  }

  /** The check `execute` runs on the decoded text: containment or exact mode. */
  function Check(a: OutputAssertion, got: string): (r: Outcome<OutputError>)
    ensures r.Pass? <==> Holds(a.expectation, a.fuzzy, got) == a.expectedResult
  {
    if a.fuzzy then MatchesFuzzy(a, got) else MatchesExact(a, got)
  }

  /** `OutputAssertion::execute`: check the selected stream, naming command and stream on failure. */
  function Execute(a: OutputAssertion, o: CapturedOutput, cmd: seq<string>): (r: Outcome<Mismatch>)
    ensures r.Pass? <==> Holds(a.expectation, a.fuzzy, LossyDecode(Select(a.kind, o))) == a.expectedResult
    ensures r.Fail? ==>
      r.error.cmd == cmd && r.error.kind == a.kind &&
      Check(a, Observed(a.kind, o)) == Fail(r.error.inner)
  {
    match Check(a, Observed(a.kind, o))
    case Pass => Pass
    case Fail(e) => Fail(OutputMismatch(cmd, e, a.kind))
  }

  /** Flipping the polarity, and nothing else, flips pass and fail, for every kind of expectation. */
  lemma NegationLaw(a: OutputAssertion, got: string)
    ensures Check(a.(expectedResult := !a.expectedResult), got).Pass? <==> !Check(a, got).Pass?
  {
  }

  /** Only strings tell the two modes apart. */
  lemma ModeMattersOnlyForStrings(a: OutputAssertion, got: string)
    requires !a.expectation.Str?
    ensures MatchesFuzzy(a, got) == MatchesExact(a, got)
  {
  }

  /** An exact check's verdict, and its line diff, ignore whitespace around the actual text. */
  lemma ExactIgnoresSurroundingWhitespace(a: OutputAssertion, w1: string, core: string, w2: string)
    requires a.expectation.Str? && !a.fuzzy
    requires AllWhitespace(w1) && AllWhitespace(w2)
    ensures Check(a, w1 + core + w2).Pass? <==> Check(a, core).Pass?
    ensures LineChanges(a.expectation.text, w1 + core + w2) == LineChanges(a.expectation.text, core)
  {
    TrimOfPadded(w1, core, w2);
  }

  /** `is(s)` accepts `s` itself and `isnt(s)` rejects it, reporting the text. */
  lemma ExactReflexive(s: string, kind: OutputKind)
    ensures Check(OutputAssertion(Str(s), false, true, kind), s) == Pass
    ensures Check(OutputAssertion(Str(s), false, false, kind), s) == Fail(OutputMatches(s))
  {
  }

  /** `contains(n)` accepts any text built around `n`; `doesnt_contain(n)` rejects it. */
  lemma ContainsAround(pre: string, needle: string, post: string, kind: OutputKind)
    ensures Check(OutputAssertion(Str(needle), true, true, kind), pre + needle + post) == Pass
    ensures Check(OutputAssertion(Str(needle), true, false, kind), pre + needle + post)
         == Fail(OutputContains(needle, pre + needle + post))
  {
    ContainsEmbedded(pre, needle, post);
  }

  /** `execute` depends on the selected stream alone. */
  lemma ExecuteReadsSelectedStream(a: OutputAssertion, o: CapturedOutput, o': CapturedOutput, cmd: seq<string>)
    requires Select(a.kind, o) == Select(a.kind, o')
    ensures Execute(a, o, cmd) == Execute(a, o', cmd)
  {
  }
}
