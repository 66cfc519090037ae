/**
 * The one-shot assertions of src/lib.rs: what `assert_cli_output` and
 * `assert_cli_output_error` decide once the command has returned, and the
 * arms of the `assert_cli!` macro that call them.
 */
module Legacy {
  import opened Wrappers
  import opened Text
  import opened Changeset
  import opened Output

  /** The errors the one-shot assertions raise (`CliError`). */
  datatype CliError =
    | WrongExitCode(output: CapturedOutput)
    | OutputMissmatch(changes: seq<Difference>)

  /**
   * The comparison both assertions end with: the line edit script between
   * the trimmed texts, failing when it adds or removes anything.
   */
  function CompareTrimmed(expected: string, got: string): (r: Outcome<CliError>)
    ensures r.Pass? <==> Trim(expected) == Trim(got)
    ensures r.Fail? ==> r == Fail(OutputMissmatch(LineChanges(expected, got)))
  {
    var changes := LineChanges(expected, got);
    DistanceZeroIffEqual(Split(Trim(expected), '\n'), Split(Trim(got), '\n'));
    SplitInjective(Trim(expected), Trim(got), '\n');
    if Distance(changes) > 0 then Fail(OutputMissmatch(changes)) else Pass
  }

  /** `assert_cli_output`, after the command ran: success first, then the trimmed stdout. */
  function AssertCliOutput(o: CapturedOutput, expected: string): (r: Outcome<CliError>)
    ensures !o.status.Success() ==> r == Fail(WrongExitCode(o))
    ensures r.Pass? <==> o.status.Success() && Trim(expected) == Trim(LossyDecode(o.stdout))
    ensures o.status.Success() && r.Fail? ==>
      r == Fail(OutputMissmatch(LineChanges(expected, LossyDecode(o.stdout))))
  {
    if !o.status.Success() then Fail(WrongExitCode(o))
    else CompareTrimmed(expected, LossyDecode(o.stdout))
  }

  /** The exit-code test of `assert_cli_output_error`: it fires only when both codes are known and differ. */
  predicate CodeRejected(errorCode: Option<i32>, actual: Option<i32>)
  {
    errorCode.Some? && actual.Some? && errorCode.value != actual.value
  }

  /**
   * `assert_cli_output_error`, after the command ran: failure first, then
   * the exit code when one is expected, then the trimmed stderr.
   */
  function AssertCliOutputError(o: CapturedOutput, errorCode: Option<i32>, expected: string): (r: Outcome<CliError>)
    ensures o.status.Success() ==> r == Fail(WrongExitCode(o))
    ensures CodeRejected(errorCode, o.status.code) ==> r == Fail(WrongExitCode(o))
    ensures r.Pass? <==>
      !o.status.Success() && !CodeRejected(errorCode, o.status.code) &&
      Trim(expected) == Trim(LossyDecode(o.stderr))
    ensures !o.status.Success() && !CodeRejected(errorCode, o.status.code) && r.Fail? ==>
      r == Fail(OutputMissmatch(LineChanges(expected, LossyDecode(o.stderr))))
  {
    if o.status.Success() then Fail(WrongExitCode(o))
    else if CodeRejected(errorCode, o.status.code) then Fail(WrongExitCode(o))
    else CompareTrimmed(expected, LossyDecode(o.stderr))
  }

  /** The arms of `assert_cli!`: `=> Success`, `=> Error` and `=> Error n`. */
  datatype Arm = Success | Error | ErrorWith(code: i32)

  /** `assert_cli!`: each arm calls one of the two assertions. */
  function AssertCli(o: CapturedOutput, arm: Arm, expected: string): (r: Outcome<CliError>)
    ensures arm.Success? ==> r == AssertCliOutput(o, expected)
    ensures arm.Error? ==> r == AssertCliOutputError(o, None, expected)
    ensures arm.ErrorWith? ==> r == AssertCliOutputError(o, Some(arm.code), expected)
  {
    match arm
    case Success => AssertCliOutput(o, expected)
    case Error => AssertCliOutputError(o, None, expected)
    case ErrorWith(n) => AssertCliOutputError(o, Some(n), expected)
  }

  /** No output passes both `=> Success` and `=> Error`, whatever texts they expect. */
  lemma SuccessAndErrorExclusive(o: CapturedOutput, arm: Arm, e1: string, e2: string)
    requires !arm.Success?
    ensures !(AssertCli(o, Success, e1).Pass? && AssertCli(o, arm, e2).Pass?)
  {
  }

  /** `=> Error n` is `=> Error` plus the exit-code test. */
  lemma ErrorWithIsErrorPlusCode(o: CapturedOutput, n: i32, expected: string)
    ensures AssertCli(o, ErrorWith(n), expected).Pass? <==>
      AssertCli(o, Error, expected).Pass? && (o.status.code.Some? ==> o.status.code.value == n)
  {
  }

  /** When a signal ended the process there is no code, and `=> Error n` acts as `=> Error`. */
  lemma NoCodeIgnoresExpectedCode(o: CapturedOutput, n: i32, expected: string)
    requires o.status.code == None
    ensures AssertCli(o, ErrorWith(n), expected) == AssertCli(o, Error, expected)
  {
  }

  /** A wrong exit code is reported before stderr is looked at. */
  lemma OtherCodeRejectedFirst(o: CapturedOutput, n: i32, expected: string, expected': string)
    requires o.status.code.Some? && o.status.code.value != n
    ensures AssertCli(o, ErrorWith(n), expected) == Fail(WrongExitCode(o))
    ensures AssertCli(o, ErrorWith(n), expected) == AssertCli(o, ErrorWith(n), expected')
  {
  }

  /**
   * Only the compared stream decides: stderr plays no part in passing
   * `=> Success`, stdout none in passing the `Error` arms. (A failure
   * carries the whole output, so only the verdict is the same.)
   */
  lemma OtherStreamIgnored(o: CapturedOutput, out: seq<byte>, err: seq<byte>, arm: Arm, expected: string)
    ensures arm.Success? ==> AssertCli(o.(stderr := err), arm, expected).Pass? == AssertCli(o, arm, expected).Pass?
    ensures !arm.Success? ==> AssertCli(o.(stdout := out), arm, expected).Pass? == AssertCli(o, arm, expected).Pass?
  {
  }

  // The cases of tests/macro.rs, for any text the command prints.

  /**
   * A command that prints the expected text followed by whitespace (the
   * newline `echo` adds), then succeeds, passes `=> Success`.
   */
  lemma EchoPassesSuccess(o: CapturedOutput, text: string, tail: string)
    requires AllWhitespace(tail)
    requires o.status.Success() && LossyDecode(o.stdout) == text + tail
    ensures AssertCli(o, Success, text) == Pass
  {
    TrimTrailing(text, tail);
  }

  /**
   * A command that prints the expected text and trailing whitespace to
   * stderr, then exits with `n`, passes `=> Error n` and `=> Error`.
   */
  lemma PrintedErrorPasses(o: CapturedOutput, n: i32, text: string, tail: string)
    requires AllWhitespace(tail)
    requires n != 0 && o.status.code == Some(n) && LossyDecode(o.stderr) == text + tail
    ensures AssertCli(o, ErrorWith(n), text) == Pass
    ensures AssertCli(o, Error, text) == Pass
  {
    TrimTrailing(text, tail);
    var got := LossyDecode(o.stderr);
    assert Trim(text) == Trim(got);
    assert !o.status.Success() && !CodeRejected(Some(n), o.status.code);
    assert CompareTrimmed(text, got) == Pass;
  }

  /** A command that succeeds fails `=> Error` and `=> Error 11`, whatever it prints. */
  lemma SuccessFailsErrorArms(o: CapturedOutput, expected: string)
    requires o.status.Success()
    ensures AssertCli(o, Error, expected) == Fail(WrongExitCode(o))
    ensures AssertCli(o, ErrorWith(11), expected) == Fail(WrongExitCode(o))
  {
  }
}
