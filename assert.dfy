/**
 * The `Assert` builder (src/assert.rs): a command, what its exit status
 * should be and which output predicates must hold, checked in a fixed
 * order once the process has terminated.
 */
module Assert {
  import opened Wrappers
  import opened Text
  import opened Output

  /**
   * The environment given to the child. How it is composed is not part of
   * this model: it is carried along unchanged.
   */
  datatype Environment = Environment(inherit: bool, vars: seq<(string, string)>)

  /** `Environment::inherit`: the parent's environment, with nothing added. */
  const Inherited := Environment(true, [])

  /** `cargo run --quiet --`, the command of `Assert::default`. */
  const CargoRun: seq<string> := ["cargo", "run", "--quiet", "--"]

  /** Why the assertion on a command failed. */
  datatype Cause =
    | StatusMismatch(expectedSuccess: bool, out: string, err: string)
    | ExitCodeMismatch(expectedCode: Option<i32>, gotCode: Option<i32>, out: string, err: string)
    | OutputFailed(mismatch: Mismatch)

  /** `AssertionFailed(cmd)` chained on top of its cause. */
  datatype AssertError = AssertionFailed(cmd: seq<string>, cause: Cause)

  /** A snapshot of every field of an `Assert`. */
  datatype AssertConfig = AssertConfig(
    cmd: seq<string>,
    env: Environment,
    currentDir: Option<string>,
    expectSuccess: Option<bool>,
    expectExitCode: Option<i32>,
    expectOutput: seq<OutputAssertion>,
    stdinContents: Option<seq<byte>>)

  /** The configuration every constructor starts from, with its command. */
  function Initial(cmd: seq<string>): AssertConfig
  {
    AssertConfig(cmd, Inherited, None, Some(true), None, [], None)
  }

  /** The status check: only a present expectation is compared with `success()`. */
  predicate StatusOk(c: AssertConfig, o: CapturedOutput)
  {
    c.expectSuccess.None? || c.expectSuccess.value == o.status.Success()
  }

  /** The exit-code check: a present expectation must equal the code, which a signal leaves absent. */
  predicate ExitCodeOk(c: AssertConfig, o: CapturedOutput)
  {
    c.expectExitCode.None? || c.expectExitCode == o.status.code
  }

  /** The outcome of each predicate of `preds` on `o`, in order. */
  function Outcomes(preds: seq<OutputAssertion>, o: CapturedOutput, cmd: seq<string>): (rs: seq<Outcome<Mismatch>>)
    ensures |rs| == |preds|
    ensures forall i :: 0 <= i < |preds| ==> rs[i] == Execute(preds[i], o, cmd)
  {
    seq(|preds|, i requires 0 <= i < |preds| => Execute(preds[i], o, cmd))
  }

  /** The first failure among `rs`, or `Pass` when there is none. */
  function FirstFailure(rs: seq<Outcome<Mismatch>>): Outcome<Mismatch>
  {
    if rs == [] then Pass
    else if rs[0].Fail? then rs[0]
    else FirstFailure(rs[1..])
  }

  /** What `execute` reports for a configuration and a captured result. */
  function Verdict(c: AssertConfig, o: CapturedOutput): Outcome<AssertError>
  {
    if !StatusOk(c, o) then
      Fail(AssertionFailed(c.cmd, StatusMismatch(c.expectSuccess.value, LossyDecode(o.stdout), LossyDecode(o.stderr))))
    else if !ExitCodeOk(c, o) then
      Fail(AssertionFailed(c.cmd, ExitCodeMismatch(c.expectExitCode, o.status.code, LossyDecode(o.stdout), LossyDecode(o.stderr))))
    else
      match FirstFailure(Outcomes(c.expectOutput, o, c.cmd))
      case Pass => Pass
      case Fail(m) => Fail(AssertionFailed(c.cmd, OutputFailed(m)))
  }

  /** Assertions for one command. */
  class Assert {
    var cmd: seq<string>
    var env: Environment
    var currentDir: Option<string>
    var expectSuccess: Option<bool>
    var expectExitCode: Option<i32>
    var expectOutput: seq<OutputAssertion>
    var stdinContents: Option<seq<byte>>

    function Config(): AssertConfig
      reads this
    {
      AssertConfig(cmd, env, currentDir, expectSuccess, expectExitCode, expectOutput, stdinContents)
    }

    /** `Assert::default`: run the crate through cargo, expecting success. */
    constructor Default()
      ensures Config() == Initial(CargoRun)
    {
      cmd := CargoRun;
      env := Inherited;
      currentDir := None;
      expectSuccess := Some(true);
      expectExitCode := None;
      expectOutput := [];
      stdinContents := None;
    }

    /** `Assert::main_binary`: the same as the default. */
    constructor MainBinary()
      ensures Config() == Initial(CargoRun)
    {
      cmd := CargoRun;
      env := Inherited;
      currentDir := None;
      expectSuccess := Some(true);
      expectExitCode := None;
      expectOutput := [];
      stdinContents := None;
    }

    /** `Assert::cargo_binary`: run one named binary of the crate through cargo. */
    constructor CargoBinary(name: string)
      ensures Config() == Initial(["cargo", "run", "--quiet", "--bin", name, "--"])
    {
      cmd := ["cargo", "run", "--quiet", "--bin", name, "--"];
      env := Inherited;
      currentDir := None;
      expectSuccess := Some(true);
      expectExitCode := None;
      expectOutput := [];
      stdinContents := None;
    }

    /** `Assert::command`: run `argv` as given; everything else as in the default. */
    constructor Command(argv: seq<string>)
      ensures Config() == Initial(argv)
    {
      cmd := argv;
      env := Inherited;
      currentDir := None;
      expectSuccess := Some(true);
      expectExitCode := None;
      expectOutput := [];
      stdinContents := None;
    }

    /** `with_args`: the arguments go after the ones already there. */
    method WithArgs(args: seq<string>)
      modifies this
      ensures Config() == old(Config()).(cmd := old(cmd) + args)
    {
      cmd := cmd + args;
    }

    /** `stdin`: the last contents given win. */
    method Stdin(contents: seq<byte>)
      modifies this
      ensures Config() == old(Config()).(stdinContents := Some(contents))
    {
      stdinContents := Some(contents);
    }

    /** `current_dir`: the last directory given wins. */
    method CurrentDir(dir: string)
      modifies this
      ensures Config() == old(Config()).(currentDir := Some(dir))
    {
      currentDir := Some(dir);
    }

    /** `with_env`: replaces the environment. */
    method WithEnv(e: Environment)
      modifies this
      ensures Config() == old(Config()).(env := e)
    {
      env := e;
    }

    /** `succeeds`: expect success and forget any expected exit code. */
    method Succeeds()
      modifies this
      ensures Config() == old(Config()).(expectSuccess := Some(true), expectExitCode := None)
    {
      expectExitCode := None;
      expectSuccess := Some(true);
    }

    /** `fails`: expect failure; an expected exit code stays as it was. */
    method Fails()
      modifies this
      ensures Config() == old(Config()).(expectSuccess := Some(false))
    {
      expectSuccess := Some(false);
    }

    /** `fails_with`: expect failure with exactly this exit code. */
    method FailsWith(code: i32)
      modifies this
      ensures Config() == old(Config()).(expectSuccess := Some(false), expectExitCode := Some(code))
    {
      expectSuccess := Some(false);
      expectExitCode := Some(code);
    }

    /** `ignore_status`: neither the status nor the exit code is checked. */
    method IgnoreStatus()
      modifies this
      ensures Config() == old(Config()).(expectSuccess := None, expectExitCode := None)
    {
      expectExitCode := None;
      expectSuccess := None;
    }

    /** One more output predicate, checked after those already there. */
    method Push(p: OutputAssertion)
      modifies this
      ensures Config() == old(Config()).(expectOutput := old(expectOutput) + [p])
    {
      expectOutput := expectOutput + [p];
    }

    /** `stdout`: a builder for a predicate on standard output of this assertion. */
    method Stdout() returns (b: OutputAssertionBuilder)
      ensures fresh(b) && b.assertion == this && b.kind == StdOut
    {
      b := new OutputAssertionBuilder(this, StdOut);
    }

    /** `stderr`: a builder for a predicate on standard error of this assertion. */
    method Stderr() returns (b: OutputAssertionBuilder)
      ensures fresh(b) && b.assertion == this && b.kind == StdErr
    {
      b := new OutputAssertionBuilder(this, StdErr);
    }

    /**
     * `execute` once the process has terminated with `o`: status first,
     * then exit code, then every output predicate in order, up to the
     * first failure.
     */
    method Execute(o: CapturedOutput) returns (r: Outcome<AssertError>)
      requires |cmd| > 0
      ensures r == Verdict(Config(), o)
    {
      if expectSuccess.Some? && expectSuccess.value != o.status.Success() {
        var out := LossyDecode(o.stdout);
        var err := LossyDecode(o.stderr);
        return Fail(AssertionFailed(cmd, StatusMismatch(expectSuccess.value, out, err)));
      }
      if expectExitCode.Some? && expectExitCode != o.status.code {
        var out := LossyDecode(o.stdout);
        var err := LossyDecode(o.stderr);
        return Fail(AssertionFailed(cmd, ExitCodeMismatch(expectExitCode, o.status.code, out, err)));
      }
      ghost var rs := Outcomes(expectOutput, o, cmd);
      var i := 0;
      while i < |expectOutput|
        invariant 0 <= i <= |expectOutput|
        invariant FirstFailure(rs) == FirstFailure(rs[i..])
        decreases |expectOutput| - i
      {
        var v := Output.Execute(expectOutput[i], o, cmd);
        assert rs[i..][0] == v;
        if v.Fail? {
          return Fail(AssertionFailed(cmd, OutputFailed(v.error)));
        }
        assert rs[i..][1..] == rs[i + 1..];
        i := i + 1;
      }
      return Pass;
    }
  }

  /** A predicate under construction: the stream is chosen, the expectation not yet. */
  class OutputAssertionBuilder {
    const assertion: Assert
    const kind: OutputKind

    constructor (assertion: Assert, kind: OutputKind)
      ensures this.assertion == assertion && this.kind == kind
    {
      this.assertion := assertion;
      this.kind := kind;
    }

    /** `contains`: the stream contains `output`. */
    method Contains(output: string) returns (a: Assert)
      modifies assertion
      ensures a == assertion
      ensures a.Config() == old(assertion.Config()).(expectOutput := old(assertion.expectOutput) + [ContainsPredicate(output, kind)])
    {
      assertion.Push(ContainsPredicate(output, kind));
      a := assertion;
    }

    /** `is`: the stream, trimmed, is `output`, trimmed. */
    method Is(output: string) returns (a: Assert)
      modifies assertion
      ensures a == assertion
      ensures a.Config() == old(assertion.Config()).(expectOutput := old(assertion.expectOutput) + [IsPredicate(output, kind)])
    {
      assertion.Push(IsPredicate(output, kind));
      a := assertion;
    }

    /** `matches`: the regular expression matches the stream. */
    method Matches(re: Regex) returns (a: Assert)
      modifies assertion
      ensures a == assertion
      ensures a.Config() == old(assertion.Config()).(expectOutput := old(assertion.expectOutput) + [MatchesPredicate(re, kind)])
    {
      assertion.Push(MatchesPredicate(re, kind));
      a := assertion;
    }

    /** `matches_ntimes`: the regular expression matches the stream exactly `n` times. */
    method MatchesNTimes(re: Regex, n: u32) returns (a: Assert)
      modifies assertion
      ensures a == assertion
      ensures a.Config() == old(assertion.Config()).(expectOutput := old(assertion.expectOutput) + [MatchesNTimesPredicate(re, n, kind)])
    {
      assertion.Push(MatchesNTimesPredicate(re, n, kind));
      a := assertion;
    }

    /** `doesnt_contain`: the stream does not contain `output`. */
    method DoesntContain(output: string) returns (a: Assert)
      modifies assertion
      ensures a == assertion
      ensures a.Config() == old(assertion.Config()).(expectOutput := old(assertion.expectOutput) + [DoesntContainPredicate(output, kind)])
    {
      assertion.Push(DoesntContainPredicate(output, kind));
      a := assertion;
    }

    /** `isnt`: the stream, trimmed, is not `output`, trimmed. */
    method Isnt(output: string) returns (a: Assert)
      modifies assertion
      ensures a == assertion
      ensures a.Config() == old(assertion.Config()).(expectOutput := old(assertion.expectOutput) + [IsntPredicate(output, kind)])
    {
      assertion.Push(IsntPredicate(output, kind));
      a := assertion;
    }

    /** `satisfies`: a caller-supplied test holds of the stream, described by `message`. */
    method Satisfies(pred: string -> bool, message: string) returns (a: Assert)
      modifies assertion
      ensures a == assertion
      ensures a.Config() == old(assertion.Config()).(expectOutput := old(assertion.expectOutput) + [SatisfiesPredicate(pred, message, kind)])
    {
      assertion.Push(SatisfiesPredicate(pred, message, kind));
      a := assertion;
    }
  }

  // The predicate each builder method appends.

  function ContainsPredicate(s: string, kind: OutputKind): OutputAssertion
  { OutputAssertion(Str(s), true, true, kind) }

  function DoesntContainPredicate(s: string, kind: OutputKind): OutputAssertion
  { OutputAssertion(Str(s), true, false, kind) }

  function IsPredicate(s: string, kind: OutputKind): OutputAssertion
  { OutputAssertion(Str(s), false, true, kind) }

  function IsntPredicate(s: string, kind: OutputKind): OutputAssertion
  { OutputAssertion(Str(s), false, false, kind) }

  function MatchesPredicate(re: Regex, kind: OutputKind): OutputAssertion
  { OutputAssertion(Re(re), true, true, kind) }

  function MatchesNTimesPredicate(re: Regex, n: u32, kind: OutputKind): OutputAssertion
  { OutputAssertion(ReCount(re, n), true, true, kind) }

  function SatisfiesPredicate(pred: string -> bool, message: string, kind: OutputKind): OutputAssertion
  { OutputAssertion(Predicate(pred, message), true, true, kind) }

  /** What each string predicate demands of the text of its stream. */
  lemma StringPredicatesMeaning(s: string, kind: OutputKind, o: CapturedOutput, cmd: seq<string>)
    ensures Execute(ContainsPredicate(s, kind), o, cmd).Pass? <==> Contains(Observed(kind, o), s)
    ensures Execute(DoesntContainPredicate(s, kind), o, cmd).Pass? <==> !Contains(Observed(kind, o), s)
    ensures Execute(IsPredicate(s, kind), o, cmd).Pass? <==> Trim(s) == Trim(Observed(kind, o))
    ensures Execute(IsntPredicate(s, kind), o, cmd).Pass? <==> Trim(s) != Trim(Observed(kind, o))
  {
  }

  /** What each pattern predicate demands of the text of its stream. */
  lemma PatternPredicatesMeaning(re: Regex, n: u32, pred: string -> bool, message: string,
                                 kind: OutputKind, o: CapturedOutput, cmd: seq<string>)
    ensures Execute(MatchesPredicate(re, kind), o, cmd).Pass? <==> re.isMatch(Observed(kind, o))
    ensures Execute(MatchesNTimesPredicate(re, n, kind), o, cmd).Pass? <==> re.countMatches(Observed(kind, o)) == n
    ensures Execute(SatisfiesPredicate(pred, message, kind), o, cmd).Pass? <==> pred(Observed(kind, o))
  {
  }

  /** `FirstFailure` passes exactly when every outcome passes. */
  lemma {:induction false} FirstFailurePassIff(rs: seq<Outcome<Mismatch>>)
    ensures FirstFailure(rs) == Pass <==> forall i :: 0 <= i < |rs| ==> rs[i].Pass?
  {
    if rs != [] {
      FirstFailurePassIff(rs[1..]);
      assert forall i :: 1 <= i < |rs| ==> rs[i] == rs[1..][i - 1];
    }
  }

  /** A failure of `FirstFailure` is some outcome, every one before which passed. */
  lemma {:induction false} FirstFailureIndex(rs: seq<Outcome<Mismatch>>) returns (k: nat)
    requires FirstFailure(rs).Fail?
    ensures k < |rs| && rs[k] == FirstFailure(rs)
    ensures forall j :: 0 <= j < k ==> rs[j].Pass?
  {
    if rs[0].Fail? {
      k := 0;
    } else {
      var k' := FirstFailureIndex(rs[1..]);
      k := k' + 1;
      assert forall j :: 1 <= j < k ==> rs[j] == rs[1..][j - 1];
    }
  }

  /** Once an outcome has failed, the ones after it are never consulted. */
  lemma {:induction false} FirstFailureStops(rs: seq<Outcome<Mismatch>>, later: seq<Outcome<Mismatch>>)
    requires FirstFailure(rs).Fail?
    ensures FirstFailure(rs + later) == FirstFailure(rs)
  {
    assert (rs + later)[0] == rs[0];
    if rs[0].Pass? {
      assert (rs + later)[1..] == rs[1..] + later;
      FirstFailureStops(rs[1..], later);
    }
  }

  /** When every earlier outcome passes, the result is up to the later ones. */
  lemma {:induction false} FirstFailureAfterPasses(rs: seq<Outcome<Mismatch>>, later: seq<Outcome<Mismatch>>)
    requires FirstFailure(rs) == Pass
    ensures FirstFailure(rs + later) == FirstFailure(later)
  {
    if rs == [] {
      assert rs + later == later;
    } else {
      assert (rs + later)[0] == rs[0];
      assert (rs + later)[1..] == rs[1..] + later;
      FirstFailureAfterPasses(rs[1..], later);
    }
  }

  /** The outcomes of a longer predicate list extend those of the shorter one. */
  lemma OutcomesAppend(ps: seq<OutputAssertion>, qs: seq<OutputAssertion>, o: CapturedOutput, cmd: seq<string>)
    ensures Outcomes(ps + qs, o, cmd) == Outcomes(ps, o, cmd) + Outcomes(qs, o, cmd)
  {
    assert forall i :: 0 <= i < |ps| ==> (ps + qs)[i] == ps[i];
    assert forall i :: |ps| <= i < |ps| + |qs| ==> (ps + qs)[i] == qs[i - |ps|];
  }

  /** A predicate pushed after one that already fails changes nothing in the verdict. */
  lemma LaterPredicateIgnored(c: AssertConfig, p: OutputAssertion, o: CapturedOutput)
    requires Verdict(c, o).Fail?
    ensures Verdict(c.(expectOutput := c.expectOutput + [p]), o) == Verdict(c, o)
  {
    if StatusOk(c, o) && ExitCodeOk(c, o) {
      OutcomesAppend(c.expectOutput, [p], o, c.cmd);
      FirstFailureStops(Outcomes(c.expectOutput, o, c.cmd), Outcomes([p], o, c.cmd));
    }
  }

  /** `execute` passes exactly when the status, the exit code and every predicate pass. */
  lemma VerdictPassIff(c: AssertConfig, o: CapturedOutput)
    ensures Verdict(c, o) == Pass <==>
      StatusOk(c, o) && ExitCodeOk(c, o) &&
      forall i :: 0 <= i < |c.expectOutput| ==> Execute(c.expectOutput[i], o, c.cmd).Pass?
  {
    FirstFailurePassIff(Outcomes(c.expectOutput, o, c.cmd));
  }

  /** A status mismatch is reported before, and regardless of, anything else. */
  lemma StatusCheckedFirst(c: AssertConfig, c': AssertConfig, o: CapturedOutput)
    requires c'.cmd == c.cmd && c'.expectSuccess == c.expectSuccess
    requires !StatusOk(c, o)
    ensures Verdict(c, o).Fail? && Verdict(c, o).error.cause.StatusMismatch?
    ensures Verdict(c', o) == Verdict(c, o)
  {
  }

  /** An exit-code mismatch is reported exactly when the status passes and the expected code is present and differs. */
  lemma ExitCodeMismatchIff(c: AssertConfig, o: CapturedOutput)
    ensures (Verdict(c, o).Fail? && Verdict(c, o).error.cause.ExitCodeMismatch?) <==>
      StatusOk(c, o) && c.expectExitCode.Some? && o.status.code != c.expectExitCode
  {
  }

  /** A process killed by a signal, which has no exit code, fails every expected exit code. */
  lemma SignalFailsExitCode(c: AssertConfig, o: CapturedOutput)
    requires StatusOk(c, o) && c.expectExitCode.Some? && o.status.code.None?
    ensures Verdict(c, o) == Fail(AssertionFailed(c.cmd, ExitCodeMismatch(c.expectExitCode, None, LossyDecode(o.stdout), LossyDecode(o.stderr))))
  {
  }

  /** The output failure `execute` reports is the first failing predicate in insertion order. */
  lemma OutputFailureIsFirst(c: AssertConfig, o: CapturedOutput) returns (k: nat)
    requires Verdict(c, o).Fail? && Verdict(c, o).error.cause.OutputFailed?
    ensures StatusOk(c, o) && ExitCodeOk(c, o)
    ensures k < |c.expectOutput| && Execute(c.expectOutput[k], o, c.cmd) == Fail(Verdict(c, o).error.cause.mismatch)
    ensures forall j :: 0 <= j < k ==> Execute(c.expectOutput[j], o, c.cmd).Pass?
  {
    k := FirstFailureIndex(Outcomes(c.expectOutput, o, c.cmd));
  }

  /** `fails_with(n)` on a process that exited with code `n` passes the status and exit-code checks. */
  lemma FailsWithOwnCode(c: AssertConfig, n: i32, o: CapturedOutput)
    requires n != 0 && o.status.code == Some(n)
    ensures StatusOk(c.(expectSuccess := Some(false), expectExitCode := Some(n)), o)
    ensures ExitCodeOk(c.(expectSuccess := Some(false), expectExitCode := Some(n)), o)
  {
  }

  /** `echo 42` as a client would write it: the builder chain, and its verdict on `42\n`. */
  method EchoExample() returns (r: Outcome<AssertError>)
    ensures r == Pass
  {
    var a := new Assert.Command(["echo"]);
    a.WithArgs(["42"]);
    var b := a.Stdout();
    a := b.Contains("42");
    var o := CapturedOutput(ExitStatus(Some(0)), [52, 50, 10], []);
    assert LossyDecode(o.stdout) == "42\n";
    ContainsEmbedded("", "42", "\n");
    assert "" + "42" + "\n" == "42\n";
    assert a.Config() == Initial(["echo", "42"]).(expectOutput := [ContainsPredicate("42", StdOut)]);
    var rs := Outcomes(a.expectOutput, o, a.cmd);
    assert rs[0] == Pass;
    assert rs[1..] == [];
    r := a.Execute(o);
  }
}
