/**
 * `ToCmd` (src/parse_cmd.rs): split a command line into arguments at
 * whitespace outside quotes, keeping the quote characters themselves.
 */
module ParseCmd {
  import opened Text

  /** The tokenizer's state: arguments so far, the argument being read, the open quotes. */
  datatype Tokenizer = Tokenizer(args: seq<string>, current: string, inQuote: seq<char>)

  predicate IsQuote(c: char)
  {
    c == '"' || c == '\''
  }

  /**
   * The quote stack after `c`: a quote equal to the innermost open one
   * closes it, any other quote opens a new level, other characters leave
   * it alone.
   */
  function PushPop(inQuote: seq<char>, c: char): (r: seq<char>)
    ensures !IsQuote(c) ==> r == inQuote
    ensures IsQuote(c) && |inQuote| > 0 && inQuote[|inQuote| - 1] == c ==> r == inQuote[..|inQuote| - 1]
    ensures IsQuote(c) && (|inQuote| == 0 || inQuote[|inQuote| - 1] != c) ==> r == inQuote + [c]
  {
    if IsQuote(c) then
      if |inQuote| > 0 && inQuote[|inQuote| - 1] == c then inQuote[..|inQuote| - 1] else inQuote + [c]
    else inQuote
  }

  /** One iteration of the character loop. */
  function Step(st: Tokenizer, c: char): Tokenizer
  {
    if st.inQuote == [] && IsWhitespace(c) then Tokenizer(st.args + [st.current], "", [])
    else Tokenizer(st.args, st.current + [c], PushPop(st.inQuote, c))
  }

  /** The state after the characters of `s` from index `i` on. */
  function Run(s: string, i: nat, st: Tokenizer): Tokenizer
    requires i <= |s|
    decreases |s| - i
  {
    if i == |s| then st else Run(s, i + 1, Step(st, s[i]))
  }

  /** The arguments of `s`: the final argument counts only when it is not empty. */
  function Tokenize(s: string): seq<string>
  {
    var st := Run(s, 0, Tokenizer([], "", []));
    if st.current == [] then st.args else st.args + [st.current]
  }

  /** `str::to_cmd`, the character loop itself. */
  method ToCmd(s: string) returns (args: seq<string>)
    ensures args == Tokenize(s)
  {
    args := [];
    var current := "";
    var inQuote := [];
    for i := 0 to |s|
      invariant Run(s, i, Tokenizer(args, current, inQuote)) == Run(s, 0, Tokenizer([], "", []))
    {
      var c := s[i];
      if inQuote == [] && IsWhitespace(c) {
        args := args + [current];
        current := "";
        continue;
      }
      current := current + [c];
      if c == '"' || c == '\'' {
        if |inQuote| > 0 && inQuote[|inQuote| - 1] == c {
          inQuote := inQuote[..|inQuote| - 1];
        } else {
          inQuote := inQuote + [c];
        }
      }
    }
    if current != [] {
      args := args + [current];
    }
  }

  /** The slice implementation: every element, as a string, in order. */
  function SliceToCmd(xs: seq<string>): (r: seq<string>)
    ensures r == xs
  {
    if xs == [] then [] else [xs[0]] + SliceToCmd(xs[1..])
  }

  // Separators: whitespace met while no quote is open.

  /** The quote stack before index `i` of `s`. */
  function StackAt(s: string, i: nat): seq<char>
    requires i <= |s|
  {
    if i == 0 then [] else PushPop(StackAt(s, i - 1), s[i - 1])
  }

  predicate IsSeparator(s: string, i: nat)
    requires i < |s|
  {
    StackAt(s, i) == [] && IsWhitespace(s[i])
  }

  /** The characters of `s` from `i` on that are not separators. */
  function KeptFrom(s: string, i: nat): string
    requires i <= |s|
    decreases |s| - i
  {
    if i == |s| then [] else (if IsSeparator(s, i) then [] else [s[i]]) + KeptFrom(s, i + 1)
  }

  /** The number of separators in `s` from `i` on. */
  function SeparatorsFrom(s: string, i: nat): nat
    requires i <= |s|
    decreases |s| - i
  {
    if i == |s| then 0 else (if IsSeparator(s, i) then 1 else 0) + SeparatorsFrom(s, i + 1)
  }

  function Concat(xs: seq<string>): string
  {
    if xs == [] then [] else Concat(xs[..|xs| - 1]) + xs[|xs| - 1]
  }

  lemma ConcatSnoc(xs: seq<string>, x: string)
    ensures Concat(xs + [x]) == Concat(xs) + x
  {
    assert (xs + [x])[..|xs|] == xs;
  }

  /** Whitespace never opens or closes a quote. */
  lemma WhitespaceIsNoQuote(c: char)
    requires IsWhitespace(c)
    ensures !IsQuote(c)
  {
  }

  /** One step keeps the stack in line with `StackAt` and moves one character or ends one argument. */
  lemma StepTracks(s: string, i: nat, st: Tokenizer)
    requires i < |s| && st.inQuote == StackAt(s, i)
    ensures Step(st, s[i]).inQuote == StackAt(s, i + 1)
    ensures Concat(Step(st, s[i]).args) + Step(st, s[i]).current
         == Concat(st.args) + st.current + (if IsSeparator(s, i) then [] else [s[i]])
    ensures |Step(st, s[i]).args| == |st.args| + (if IsSeparator(s, i) then 1 else 0)
  {
    if IsSeparator(s, i) {
      WhitespaceIsNoQuote(s[i]);
      ConcatSnoc(st.args, st.current);
      assert Concat(st.args + [st.current]) + "" == Concat(st.args) + st.current + [];
    } else {
      assert st.current + [s[i]] == st.current + [s[i]];
    }
  }

  /**
   * The loop's invariant, from index `i` on: every kept character lands in
   * an argument.
   */
  lemma {:induction false} RunKept(s: string, i: nat, st: Tokenizer)
    requires i <= |s| && st.inQuote == StackAt(s, i)
    ensures Concat(Run(s, i, st).args) + Run(s, i, st).current == Concat(st.args) + st.current + KeptFrom(s, i)
    decreases |s| - i
  {
    if i < |s| {
      var st' := Step(st, s[i]);
      var kept: string := if IsSeparator(s, i) then [] else [s[i]];
      StepTracks(s, i, st);
      RunKept(s, i + 1, st');
      var r := Run(s, i + 1, st');
      assert Run(s, i, st) == r;
      var before := Concat(st.args) + st.current;
      var rest := KeptFrom(s, i + 1);
      assert KeptFrom(s, i) == kept + rest;
      Assoc(before, kept, rest);
    }
  }

  /** Concatenation regroups. */
  lemma Assoc(a: string, b: string, c: string)
    ensures a + b + c == a + (b + c)
  {
  }

  /** The loop's invariant, from index `i` on: every separator ends one argument. */
  lemma {:induction false} RunCount(s: string, i: nat, st: Tokenizer)
    requires i <= |s| && st.inQuote == StackAt(s, i)
    ensures |Run(s, i, st).args| == |st.args| + SeparatorsFrom(s, i)
    decreases |s| - i
  {
    if i < |s| {
      StepTracks(s, i, st);
      RunCount(s, i + 1, Step(st, s[i]));
    }
  }

  /** The stack the loop keeps is `StackAt`. */
  lemma {:induction false} RunStack(s: string, i: nat, st: Tokenizer)
    requires i <= |s| && st.inQuote == StackAt(s, i)
    ensures Run(s, i, st).inQuote == StackAt(s, |s|)
    decreases |s| - i
  {
    if i < |s| {
      if IsSeparator(s, i) {
        WhitespaceIsNoQuote(s[i]);
      }
      RunStack(s, i + 1, Step(st, s[i]));
    }
  }

  /** Joining the arguments gives back the input without its separators. */
  lemma ArgumentsJoinToKept(s: string)
    ensures Concat(Tokenize(s)) == KeptFrom(s, 0)
  {
    var st := Run(s, 0, Tokenizer([], "", []));
    RunKept(s, 0, Tokenizer([], "", []));
    assert Concat(st.args) + st.current == KeptFrom(s, 0);
    if st.current != [] {
      ConcatSnoc(st.args, st.current);
    } else {
      assert Concat(st.args) + st.current == Concat(st.args);
    }
  }

  /** Every separator ends one argument; only the final argument may be added besides. */
  lemma ArgumentCount(s: string)
    ensures SeparatorsFrom(s, 0) <= |Tokenize(s)| <= SeparatorsFrom(s, 0) + 1
  {
    RunCount(s, 0, Tokenizer([], "", []));
  }

  lemma {:induction false} RunShift(c: char, s: string, i: nat, st: Tokenizer)
    requires i <= |s|
    ensures Run([c] + s, i + 1, st) == Run(s, i, st)
    decreases |s| - i
  {
    if i < |s| {
      assert ([c] + s)[i + 1] == s[i];
      RunShift(c, s, i + 1, Step(st, s[i]));
    }
  }

  lemma {:induction false} RunArgsPrefix(s: string, i: nat, st: Tokenizer, prefix: seq<string>)
    requires i <= |s|
    ensures Run(s, i, st.(args := prefix + st.args)) == Run(s, i, st).(args := prefix + Run(s, i, st).args)
    decreases |s| - i
  {
    if i < |s| {
      assert (prefix + st.args) + [st.current] == prefix + (st.args + [st.current]);
      assert Step(st.(args := prefix + st.args), s[i]) == Step(st, s[i]).(args := prefix + Step(st, s[i]).args);
      RunArgsPrefix(s, i + 1, Step(st, s[i]), prefix);
    }
  }

  /** A leading separator yields an empty first argument in front of the rest. */
  lemma LeadingWhitespace(w: char, s: string)
    requires IsWhitespace(w)
    ensures Tokenize([w] + s) == [""] + Tokenize(s)
  {
    var start := Tokenizer([], "", []);
    assert Step(start, w) == start.(args := [""] + start.args);
    RunShift(w, s, 0, Step(start, w));
    RunArgsPrefix(s, 0, start, [""]);
    var st := Run(s, 0, start);
    if st.current != [] {
      assert ([""] + st.args) + [st.current] == [""] + (st.args + [st.current]);
    }
  }

  lemma {:induction false} RunSnoc(s: string, c: char, i: nat, st: Tokenizer)
    requires i <= |s|
    ensures Run(s + [c], i, st) == Step(Run(s, i, st), c)
    decreases |s| - i
  {
    if i < |s| {
      assert (s + [c])[i] == s[i];
      RunSnoc(s, c, i + 1, Step(st, s[i]));
    } else {
      assert (s + [c])[i] == c;
    }
  }

  /** Consecutive separators yield an empty argument between them. */
  lemma DoubleSeparator(s: string, w1: char, w2: char)
    requires IsWhitespace(w1) && IsWhitespace(w2) && StackAt(s, |s|) == []
    ensures Tokenize(s + [w1] + [w2]) == Run(s, 0, Tokenizer([], "", [])).args + [Run(s, 0, Tokenizer([], "", [])).current, ""]
  {
    var start := Tokenizer([], "", []);
    RunStack(s, 0, start);
    RunSnoc(s, w1, 0, start);
    RunSnoc(s + [w1], w2, 0, start);
  }

  /** The last character of `s` is the last step. */
  lemma RunLast(s: string, st: Tokenizer)
    requires |s| > 0
    ensures Run(s, 0, st) == Step(Run(s[..|s| - 1], 0, st), s[|s| - 1])
  {
    var n := |s| - 1;
    RunSnoc(s[..n], s[n], 0, st);
    assert s == s[..n] + [s[n]];
  }

  /** After a character that is not a separator, the current argument is not empty. */
  lemma KeptCharOpensArgument(s: string)
    requires |s| > 0 && !IsSeparator(s, |s| - 1)
    ensures Run(s, 0, Tokenizer([], "", [])).current != []
  {
    var start := Tokenizer([], "", []);
    var n := |s| - 1;
    var p := s[..n];
    var x := Run(p, 0, start);
    RunStack(p, 0, start);
    assert p[..n] == s[..n];
    StackAgree(p, s, n);
    RunLast(s, start);
    assert x.inQuote == StackAt(s, n);
    assert Step(x, s[n]).current == x.current + [s[n]];
  }

  /**
   * One whitespace character after a complete, unquoted last argument adds
   * nothing; each further separator pushes an empty argument (see
   * `TwoTrailingSeparators`).
   */
  lemma TrailingWhitespace(s: string, w: char)
    requires IsWhitespace(w) && StackAt(s, |s|) == []
    requires |s| > 0 && !IsSeparator(s, |s| - 1)
    ensures Tokenize(s + [w]) == Tokenize(s)
  {
    var start := Tokenizer([], "", []);
    KeptCharOpensArgument(s);
    RunStack(s, 0, start);
    RunSnoc(s, w, 0, start);
  }

  /** A second trailing separator is not absorbed: it pushes an empty argument. */
  lemma TwoTrailingSeparators(s: string, w1: char, w2: char)
    requires IsWhitespace(w1) && IsWhitespace(w2) && StackAt(s, |s|) == []
    requires |s| > 0 && !IsSeparator(s, |s| - 1)
    ensures Tokenize(s + [w1] + [w2]) == Tokenize(s) + [""]
  {
    DoubleSeparator(s, w1, w2);
    KeptCharOpensArgument(s);
    var st := Run(s, 0, Tokenizer([], "", []));
    assert st.args + [st.current, ""] == (st.args + [st.current]) + [""];
  }

  /** The quote stack depends only on the characters before the index. */
  lemma {:induction false} StackAgree(s: string, t: string, i: nat)
    requires i <= |s| && i <= |t| && s[..i] == t[..i]
    ensures StackAt(s, i) == StackAt(t, i)
  {
    if i > 0 {
      assert s[i - 1] == s[..i][i - 1] == t[..i][i - 1] == t[i - 1];
      assert s[..i - 1] == s[..i][..i - 1] == t[..i][..i - 1] == t[..i - 1];
      StackAgree(s, t, i - 1);
    }
  }

  /**
   * A span of ordinary characters is appended to the current argument as
   * it stands: it holds no quote, and no whitespace unless a quote is open.
   */
  lemma {:induction false} PlainSpan(s: string, i: nat, j: nat, st: Tokenizer)
    requires i <= j <= |s|
    requires forall k :: i <= k < j ==> !IsQuote(s[k])
    requires st.inQuote != [] || forall k :: i <= k < j ==> !IsWhitespace(s[k])
    ensures Run(s, i, st) == Run(s, j, st.(current := st.current + s[i..j]))
    decreases j - i
  {
    if i < j {
      var c := s[i];
      assert !IsQuote(c);
      assert st.inQuote != [] || !IsWhitespace(c);
      var st' := st.(current := st.current + [c]);
      assert Step(st, c) == st';
      assert Run(s, i, st) == Run(s, i + 1, st');
      PlainSpan(s, i + 1, j, st');
      assert s[i..j] == [c] + s[i + 1..j];
      Assoc(st.current, [c], s[i + 1..j]);
      assert st'.(current := st'.current + s[i + 1..j]) == st.(current := st.current + s[i..j]);
    } else {
      assert st.current + s[i..j] == st.current;
    }
  }

  /** `s` begins with `p`, stated character by character. */
  predicate SpellsPrefix(s: string, p: string)
  {
    |p| <= |s| && forall i :: 0 <= i < |p| ==> s[i] == p[i]
  }

  /**
   * `s` is `text`. Stated as `s == text`, the verifier would evaluate the
   * tokenizer on the whole literal at once.
   */
  predicate Spells(s: string, text: string)
  {
    |s| == |text| && SpellsPrefix(s, text)
  }

  /** `Spells` is equality, stated character by character. */
  lemma SpellsIsEquality(s: string, text: string)
    ensures Spells(s, text) <==> s == text
  {
    if Spells(s, text) {
      assert forall i :: 0 <= i < |s| ==> s[i] == text[i];
    }
  }

  /** A prefix `p + x` of `s` gives the prefix `p` and the slice `x` after it. */
  lemma PeelLast(s: string, p: string, x: string)
    requires SpellsPrefix(s, p + x)
    ensures SpellsPrefix(s, p) && s[|p|..|p| + |x|] == x
  {
    assert forall i :: 0 <= i < |p| ==> (p + x)[i] == p[i];
  }

  /** The first piece of a prefix as a slice. */
  lemma PeelFirst(s: string, x: string)
    requires SpellsPrefix(s, x)
    ensures s[0..|x|] == x
  {
  }

  /** A span of ordinary characters, given as text, moves the tokenizer from `st` to `st'`. */
  lemma SpanStep(s: string, i: nat, j: nat, piece: string, st: Tokenizer, st': Tokenizer)
    requires i <= j <= |s| && s[i..j] == piece
    requires forall k :: 0 <= k < |piece| ==> !IsQuote(piece[k])
    requires st.inQuote != [] || forall k :: 0 <= k < |piece| ==> !IsWhitespace(piece[k])
    requires st' == st.(current := st.current + piece)
    ensures Run(s, i, st) == Run(s, j, st')
  {
    forall k | i <= k < j
      ensures s[k] == piece[k - i]
    {
      assert s[i..j][k - i] == s[k];
    }
    PlainSpan(s, i, j, st);
  }

  /** One character, known by value, moves the tokenizer from `st` to `st'`. */
  lemma CharStep(s: string, i: nat, c: char, st: Tokenizer, st': Tokenizer)
    requires i < |s| && s[i..i + 1] == [c]
    requires st' == Step(st, c)
    ensures Run(s, i, st) == Run(s, i + 1, st')
  {
    assert s[i] == s[i..i + 1][0];
  }

  // The unit tests of src/parse_cmd.rs.

  lemma SliceExample()
    ensures SliceToCmd(["echo", "42"]) == ["echo", "42"]
  {
  }

  lemma EchoExample()
    ensures Tokenize("echo 42") == ["echo", "42"]
  {
    var r := Tokenize("echo 42");
    assert r[0] == "echo";
    assert r[1] == "42";
    assert |r| == 2;
  }

  /** Double quotes stay in the argument. */
  lemma DoubleQuotedExample(s: string)
    requires Spells(s, "echo" + " " + "\"" + "42" + "\"")
    ensures Tokenize(s) == ["echo", "\"42\""]
  {
    DoubleQuotedExamplePieces(s);
    DoubleQuotedExamplePart1(s);
    DoubleQuotedExamplePart2(s);
    assert Run(s, 9, Tokenizer(["echo"], "\"" + "42" + "\"", [])) == Tokenizer(["echo"], "\"" + "42" + "\"", []);
    DoubleQuotedExampleArgument1();
  }

  lemma DoubleQuotedExampleArgument1()
    ensures "\"" + "42" + "\"" == "\"42\""
  {
    assert "\"" + "42" == "\"42";
    assert "\"42" + "\"" == "\"42\"";
  }

  lemma DoubleQuotedExamplePieces(s: string)
    requires Spells(s, "echo" + " " + "\"" + "42" + "\"")
    ensures |s| == 9
    ensures s[0..4] == "echo"
    ensures s[4..5] == " "
    ensures s[5..6] == "\""
    ensures s[6..8] == "42"
    ensures s[8..9] == "\""
  {
    PeelLast(s, "echo" + " " + "\"" + "42", "\"");
    PeelLast(s, "echo" + " " + "\"", "42");
    PeelLast(s, "echo" + " ", "\"");
    PeelLast(s, "echo", " ");
    PeelFirst(s, "echo");
  }

  lemma DoubleQuotedExamplePart1(s: string)
    requires |s| == 9
    requires s[0..4] == "echo"
    requires s[4..5] == " "
    requires s[5..6] == "\""
    requires s[6..8] == "42"
    ensures Run(s, 0, Tokenizer([], "", [])) == Run(s, 8, Tokenizer(["echo"], "\"" + "42", ['"']))
  {
    assert Run(s, 0, Tokenizer([], "", [])) == Run(s, 4, Tokenizer([], "echo", [])) by {
      SpanStep(s, 0, 4, "echo", Tokenizer([], "", []), Tokenizer([], "echo", []));
    }
    assert Run(s, 4, Tokenizer([], "echo", [])) == Run(s, 5, Tokenizer(["echo"], "", [])) by {
      CharStep(s, 4, ' ', Tokenizer([], "echo", []), Tokenizer(["echo"], "", []));
    }
    assert Run(s, 5, Tokenizer(["echo"], "", [])) == Run(s, 6, Tokenizer(["echo"], "\"", ['"'])) by {
      CharStep(s, 5, '"', Tokenizer(["echo"], "", []), Tokenizer(["echo"], "\"", ['"']));
    }
    assert Run(s, 6, Tokenizer(["echo"], "\"", ['"'])) == Run(s, 8, Tokenizer(["echo"], "\"" + "42", ['"'])) by {
      SpanStep(s, 6, 8, "42", Tokenizer(["echo"], "\"", ['"']), Tokenizer(["echo"], "\"" + "42", ['"']));
    }
  }

  lemma DoubleQuotedExamplePart2(s: string)
    requires |s| == 9
    requires s[8..9] == "\""
    ensures Run(s, 8, Tokenizer(["echo"], "\"" + "42", ['"'])) == Run(s, 9, Tokenizer(["echo"], "\"" + "42" + "\"", []))
  {
    assert Run(s, 8, Tokenizer(["echo"], "\"" + "42", ['"'])) == Run(s, 9, Tokenizer(["echo"], "\"" + "42" + "\"", [])) by {
      CharStep(s, 8, '"', Tokenizer(["echo"], "\"" + "42", ['"']), Tokenizer(["echo"], "\"" + "42" + "\"", []));
    }
  }

  /** Single quotes stay in the argument. */
  lemma SingleQuotedExample(s: string)
    requires Spells(s, "echo" + " " + "'" + "42" + "'")
    ensures Tokenize(s) == ["echo", "'42'"]
  {
    SingleQuotedExamplePieces(s);
    SingleQuotedExamplePart1(s);
    SingleQuotedExamplePart2(s);
    assert Run(s, 9, Tokenizer(["echo"], "'" + "42" + "'", [])) == Tokenizer(["echo"], "'" + "42" + "'", []);
    SingleQuotedExampleArgument1();
  }

  lemma SingleQuotedExampleArgument1()
    ensures "'" + "42" + "'" == "'42'"
  {
    assert "'" + "42" == "'42";
    assert "'42" + "'" == "'42'";
  }

  lemma SingleQuotedExamplePieces(s: string)
    requires Spells(s, "echo" + " " + "'" + "42" + "'")
    ensures |s| == 9
    ensures s[0..4] == "echo"
    ensures s[4..5] == " "
    ensures s[5..6] == "'"
    ensures s[6..8] == "42"
    ensures s[8..9] == "'"
  {
    PeelLast(s, "echo" + " " + "'" + "42", "'");
    PeelLast(s, "echo" + " " + "'", "42");
    PeelLast(s, "echo" + " ", "'");
    PeelLast(s, "echo", " ");
    PeelFirst(s, "echo");
  }

  lemma SingleQuotedExamplePart1(s: string)
    requires |s| == 9
    requires s[0..4] == "echo"
    requires s[4..5] == " "
    requires s[5..6] == "'"
    requires s[6..8] == "42"
    ensures Run(s, 0, Tokenizer([], "", [])) == Run(s, 8, Tokenizer(["echo"], "'" + "42", ['\'']))
  {
    assert Run(s, 0, Tokenizer([], "", [])) == Run(s, 4, Tokenizer([], "echo", [])) by {
      SpanStep(s, 0, 4, "echo", Tokenizer([], "", []), Tokenizer([], "echo", []));
    }
    assert Run(s, 4, Tokenizer([], "echo", [])) == Run(s, 5, Tokenizer(["echo"], "", [])) by {
      CharStep(s, 4, ' ', Tokenizer([], "echo", []), Tokenizer(["echo"], "", []));
    }
    assert Run(s, 5, Tokenizer(["echo"], "", [])) == Run(s, 6, Tokenizer(["echo"], "'", ['\''])) by {
      CharStep(s, 5, '\'', Tokenizer(["echo"], "", []), Tokenizer(["echo"], "'", ['\'']));
    }
    assert Run(s, 6, Tokenizer(["echo"], "'", ['\''])) == Run(s, 8, Tokenizer(["echo"], "'" + "42", ['\''])) by {
      SpanStep(s, 6, 8, "42", Tokenizer(["echo"], "'", ['\'']), Tokenizer(["echo"], "'" + "42", ['\'']));
    }
  }

  lemma SingleQuotedExamplePart2(s: string)
    requires |s| == 9
    requires s[8..9] == "'"
    ensures Run(s, 8, Tokenizer(["echo"], "'" + "42", ['\''])) == Run(s, 9, Tokenizer(["echo"], "'" + "42" + "'", []))
  {
    assert Run(s, 8, Tokenizer(["echo"], "'" + "42", ['\''])) == Run(s, 9, Tokenizer(["echo"], "'" + "42" + "'", [])) by {
      CharStep(s, 8, '\'', Tokenizer(["echo"], "'" + "42", ['\'']), Tokenizer(["echo"], "'" + "42" + "'", []));
    }
  }

  /** Whitespace inside quotes stays in the argument. */
  lemma QuotedSpacesExample(s: string)
    requires Spells(s, "echo" + " " + "'" + "42 is the answer" + "'")
    ensures Tokenize(s) == ["echo", "'42 is the answer'"]
  {
    QuotedSpacesExamplePieces(s);
    QuotedSpacesExamplePart1(s);
    QuotedSpacesExamplePart2(s);
    assert Run(s, 23, Tokenizer(["echo"], "'" + "42 is the answer" + "'", [])) == Tokenizer(["echo"], "'" + "42 is the answer" + "'", []);
    QuotedSpacesExampleArgument1();
  }

  lemma QuotedSpacesExampleArgument1()
    ensures "'" + "42 is the answer" + "'" == "'42 is the answer'"
  {
    assert "'" + "42 is the answer" == "'42 is the answer";
    assert "'42 is the answer" + "'" == "'42 is the answer'";
  }

  lemma QuotedSpacesExamplePieces(s: string)
    requires Spells(s, "echo" + " " + "'" + "42 is the answer" + "'")
    ensures |s| == 23
    ensures s[0..4] == "echo"
    ensures s[4..5] == " "
    ensures s[5..6] == "'"
    ensures s[6..22] == "42 is the answer"
    ensures s[22..23] == "'"
  {
    PeelLast(s, "echo" + " " + "'" + "42 is the answer", "'");
    PeelLast(s, "echo" + " " + "'", "42 is the answer");
    PeelLast(s, "echo" + " ", "'");
    PeelLast(s, "echo", " ");
    PeelFirst(s, "echo");
  }

  lemma QuotedSpacesExamplePart1(s: string)
    requires |s| == 23
    requires s[0..4] == "echo"
    requires s[4..5] == " "
    requires s[5..6] == "'"
    requires s[6..22] == "42 is the answer"
    ensures Run(s, 0, Tokenizer([], "", [])) == Run(s, 22, Tokenizer(["echo"], "'" + "42 is the answer", ['\'']))
  {
    assert Run(s, 0, Tokenizer([], "", [])) == Run(s, 4, Tokenizer([], "echo", [])) by {
      SpanStep(s, 0, 4, "echo", Tokenizer([], "", []), Tokenizer([], "echo", []));
    }
    assert Run(s, 4, Tokenizer([], "echo", [])) == Run(s, 5, Tokenizer(["echo"], "", [])) by {
      CharStep(s, 4, ' ', Tokenizer([], "echo", []), Tokenizer(["echo"], "", []));
    }
    assert Run(s, 5, Tokenizer(["echo"], "", [])) == Run(s, 6, Tokenizer(["echo"], "'", ['\''])) by {
      CharStep(s, 5, '\'', Tokenizer(["echo"], "", []), Tokenizer(["echo"], "'", ['\'']));
    }
    assert Run(s, 6, Tokenizer(["echo"], "'", ['\''])) == Run(s, 22, Tokenizer(["echo"], "'" + "42 is the answer", ['\''])) by {
      SpanStep(s, 6, 22, "42 is the answer", Tokenizer(["echo"], "'", ['\'']), Tokenizer(["echo"], "'" + "42 is the answer", ['\'']));
    }
  }

  lemma QuotedSpacesExamplePart2(s: string)
    requires |s| == 23
    requires s[22..23] == "'"
    ensures Run(s, 22, Tokenizer(["echo"], "'" + "42 is the answer", ['\''])) == Run(s, 23, Tokenizer(["echo"], "'" + "42 is the answer" + "'", []))
  {
    assert Run(s, 22, Tokenizer(["echo"], "'" + "42 is the answer", ['\''])) == Run(s, 23, Tokenizer(["echo"], "'" + "42 is the answer" + "'", [])) by {
      CharStep(s, 22, '\'', Tokenizer(["echo"], "'" + "42 is the answer", ['\'']), Tokenizer(["echo"], "'" + "42 is the answer" + "'", []));
    }
  }

  /** A realistic command line: seven arguments, the quoted value kept whole. */
  lemma RealWorldExample(s: string)
    requires Spells(s, "cargo" + " " + "run" + " " + "--bin" + " " + "whatever" + " " + "--" + " " + "--input=" + "\"" + "Lorem ipsum" + "\"" + " " + "-f")
    ensures Tokenize(s) == ["cargo", "run", "--bin", "whatever", "--", "--input=\"Lorem ipsum\"", "-f"]
  {
    RealWorldExamplePieces(s);
    RealWorldExamplePart1(s);
    RealWorldExamplePart2(s);
    RealWorldExamplePart3(s);
    RealWorldExamplePart4(s);
    assert Run(s, 52, Tokenizer(["cargo", "run", "--bin", "whatever", "--", "--input=" + "\"" + "Lorem ipsum" + "\""], "-f", [])) == Tokenizer(["cargo", "run", "--bin", "whatever", "--", "--input=" + "\"" + "Lorem ipsum" + "\""], "-f", []);
    RealWorldExampleArgument5();
  }

  lemma RealWorldExampleArgument5()
    ensures "--input=" + "\"" + "Lorem ipsum" + "\"" == "--input=\"Lorem ipsum\""
  {
    assert "--input=" + "\"" == "--input=\"";
    assert "--input=\"" + "Lorem ipsum" == "--input=\"Lorem ipsum";
    assert "--input=\"Lorem ipsum" + "\"" == "--input=\"Lorem ipsum\"";
  }

  lemma RealWorldExamplePieces(s: string)
    requires Spells(s, "cargo" + " " + "run" + " " + "--bin" + " " + "whatever" + " " + "--" + " " + "--input=" + "\"" + "Lorem ipsum" + "\"" + " " + "-f")
    ensures |s| == 52
    ensures s[0..5] == "cargo"
    ensures s[5..6] == " "
    ensures s[6..9] == "run"
    ensures s[9..10] == " "
    ensures s[10..15] == "--bin"
    ensures s[15..16] == " "
    ensures s[16..24] == "whatever"
    ensures s[24..25] == " "
    ensures s[25..27] == "--"
    ensures s[27..28] == " "
    ensures s[28..36] == "--input="
    ensures s[36..37] == "\""
    ensures s[37..48] == "Lorem ipsum"
    ensures s[48..49] == "\""
    ensures s[49..50] == " "
    ensures s[50..52] == "-f"
  {
    PeelLast(s, "cargo" + " " + "run" + " " + "--bin" + " " + "whatever" + " " + "--" + " " + "--input=" + "\"" + "Lorem ipsum" + "\"" + " ", "-f");
    PeelLast(s, "cargo" + " " + "run" + " " + "--bin" + " " + "whatever" + " " + "--" + " " + "--input=" + "\"" + "Lorem ipsum" + "\"", " ");
    PeelLast(s, "cargo" + " " + "run" + " " + "--bin" + " " + "whatever" + " " + "--" + " " + "--input=" + "\"" + "Lorem ipsum", "\"");
    PeelLast(s, "cargo" + " " + "run" + " " + "--bin" + " " + "whatever" + " " + "--" + " " + "--input=" + "\"", "Lorem ipsum");
    PeelLast(s, "cargo" + " " + "run" + " " + "--bin" + " " + "whatever" + " " + "--" + " " + "--input=", "\"");
    PeelLast(s, "cargo" + " " + "run" + " " + "--bin" + " " + "whatever" + " " + "--" + " ", "--input=");
    PeelLast(s, "cargo" + " " + "run" + " " + "--bin" + " " + "whatever" + " " + "--", " ");
    PeelLast(s, "cargo" + " " + "run" + " " + "--bin" + " " + "whatever" + " ", "--");
    PeelLast(s, "cargo" + " " + "run" + " " + "--bin" + " " + "whatever", " ");
    PeelLast(s, "cargo" + " " + "run" + " " + "--bin" + " ", "whatever");
    PeelLast(s, "cargo" + " " + "run" + " " + "--bin", " ");
    PeelLast(s, "cargo" + " " + "run" + " ", "--bin");
    PeelLast(s, "cargo" + " " + "run", " ");
    PeelLast(s, "cargo" + " ", "run");
    PeelLast(s, "cargo", " ");
    PeelFirst(s, "cargo");
  }

  lemma RealWorldExamplePart1(s: string)
    requires |s| == 52
    requires s[0..5] == "cargo"
    requires s[5..6] == " "
    requires s[6..9] == "run"
    requires s[9..10] == " "
    ensures Run(s, 0, Tokenizer([], "", [])) == Run(s, 10, Tokenizer(["cargo", "run"], "", []))
  {
    assert Run(s, 0, Tokenizer([], "", [])) == Run(s, 5, Tokenizer([], "cargo", [])) by {
      SpanStep(s, 0, 5, "cargo", Tokenizer([], "", []), Tokenizer([], "cargo", []));
    }
    assert Run(s, 5, Tokenizer([], "cargo", [])) == Run(s, 6, Tokenizer(["cargo"], "", [])) by {
      CharStep(s, 5, ' ', Tokenizer([], "cargo", []), Tokenizer(["cargo"], "", []));
    }
    assert Run(s, 6, Tokenizer(["cargo"], "", [])) == Run(s, 9, Tokenizer(["cargo"], "run", [])) by {
      SpanStep(s, 6, 9, "run", Tokenizer(["cargo"], "", []), Tokenizer(["cargo"], "run", []));
    }
    assert Run(s, 9, Tokenizer(["cargo"], "run", [])) == Run(s, 10, Tokenizer(["cargo", "run"], "", [])) by {
      CharStep(s, 9, ' ', Tokenizer(["cargo"], "run", []), Tokenizer(["cargo", "run"], "", []));
    }
  }

  lemma RealWorldExamplePart2(s: string)
    requires |s| == 52
    requires s[10..15] == "--bin"
    requires s[15..16] == " "
    requires s[16..24] == "whatever"
    requires s[24..25] == " "
    ensures Run(s, 10, Tokenizer(["cargo", "run"], "", [])) == Run(s, 25, Tokenizer(["cargo", "run", "--bin", "whatever"], "", []))
  {
    assert Run(s, 10, Tokenizer(["cargo", "run"], "", [])) == Run(s, 15, Tokenizer(["cargo", "run"], "--bin", [])) by {
      SpanStep(s, 10, 15, "--bin", Tokenizer(["cargo", "run"], "", []), Tokenizer(["cargo", "run"], "--bin", []));
    }
    assert Run(s, 15, Tokenizer(["cargo", "run"], "--bin", [])) == Run(s, 16, Tokenizer(["cargo", "run", "--bin"], "", [])) by {
      CharStep(s, 15, ' ', Tokenizer(["cargo", "run"], "--bin", []), Tokenizer(["cargo", "run", "--bin"], "", []));
    }
    assert Run(s, 16, Tokenizer(["cargo", "run", "--bin"], "", [])) == Run(s, 24, Tokenizer(["cargo", "run", "--bin"], "whatever", [])) by {
      SpanStep(s, 16, 24, "whatever", Tokenizer(["cargo", "run", "--bin"], "", []), Tokenizer(["cargo", "run", "--bin"], "whatever", []));
    }
    assert Run(s, 24, Tokenizer(["cargo", "run", "--bin"], "whatever", [])) == Run(s, 25, Tokenizer(["cargo", "run", "--bin", "whatever"], "", [])) by {
      CharStep(s, 24, ' ', Tokenizer(["cargo", "run", "--bin"], "whatever", []), Tokenizer(["cargo", "run", "--bin", "whatever"], "", []));
    }
  }

  lemma RealWorldExamplePart3(s: string)
    requires |s| == 52
    requires s[25..27] == "--"
    requires s[27..28] == " "
    requires s[28..36] == "--input="
    requires s[36..37] == "\""
    ensures Run(s, 25, Tokenizer(["cargo", "run", "--bin", "whatever"], "", [])) == Run(s, 37, Tokenizer(["cargo", "run", "--bin", "whatever", "--"], "--input=" + "\"", ['"']))
  {
    assert Run(s, 25, Tokenizer(["cargo", "run", "--bin", "whatever"], "", [])) == Run(s, 27, Tokenizer(["cargo", "run", "--bin", "whatever"], "--", [])) by {
      SpanStep(s, 25, 27, "--", Tokenizer(["cargo", "run", "--bin", "whatever"], "", []), Tokenizer(["cargo", "run", "--bin", "whatever"], "--", []));
    }
    assert Run(s, 27, Tokenizer(["cargo", "run", "--bin", "whatever"], "--", [])) == Run(s, 28, Tokenizer(["cargo", "run", "--bin", "whatever", "--"], "", [])) by {
      CharStep(s, 27, ' ', Tokenizer(["cargo", "run", "--bin", "whatever"], "--", []), Tokenizer(["cargo", "run", "--bin", "whatever", "--"], "", []));
    }
    assert Run(s, 28, Tokenizer(["cargo", "run", "--bin", "whatever", "--"], "", [])) == Run(s, 36, Tokenizer(["cargo", "run", "--bin", "whatever", "--"], "--input=", [])) by {
      SpanStep(s, 28, 36, "--input=", Tokenizer(["cargo", "run", "--bin", "whatever", "--"], "", []), Tokenizer(["cargo", "run", "--bin", "whatever", "--"], "--input=", []));
    }
    assert Run(s, 36, Tokenizer(["cargo", "run", "--bin", "whatever", "--"], "--input=", [])) == Run(s, 37, Tokenizer(["cargo", "run", "--bin", "whatever", "--"], "--input=" + "\"", ['"'])) by {
      CharStep(s, 36, '"', Tokenizer(["cargo", "run", "--bin", "whatever", "--"], "--input=", []), Tokenizer(["cargo", "run", "--bin", "whatever", "--"], "--input=" + "\"", ['"']));
    }
  }

  lemma RealWorldExamplePart4(s: string)
    requires |s| == 52
    requires s[37..48] == "Lorem ipsum"
    requires s[48..49] == "\""
    requires s[49..50] == " "
    requires s[50..52] == "-f"
    ensures Run(s, 37, Tokenizer(["cargo", "run", "--bin", "whatever", "--"], "--input=" + "\"", ['"'])) == Run(s, 52, Tokenizer(["cargo", "run", "--bin", "whatever", "--", "--input=" + "\"" + "Lorem ipsum" + "\""], "-f", []))
  {
    assert Run(s, 37, Tokenizer(["cargo", "run", "--bin", "whatever", "--"], "--input=" + "\"", ['"'])) == Run(s, 48, Tokenizer(["cargo", "run", "--bin", "whatever", "--"], "--input=" + "\"" + "Lorem ipsum", ['"'])) by {
      SpanStep(s, 37, 48, "Lorem ipsum", Tokenizer(["cargo", "run", "--bin", "whatever", "--"], "--input=" + "\"", ['"']), Tokenizer(["cargo", "run", "--bin", "whatever", "--"], "--input=" + "\"" + "Lorem ipsum", ['"']));
    }
    assert Run(s, 48, Tokenizer(["cargo", "run", "--bin", "whatever", "--"], "--input=" + "\"" + "Lorem ipsum", ['"'])) == Run(s, 49, Tokenizer(["cargo", "run", "--bin", "whatever", "--"], "--input=" + "\"" + "Lorem ipsum" + "\"", [])) by {
      CharStep(s, 48, '"', Tokenizer(["cargo", "run", "--bin", "whatever", "--"], "--input=" + "\"" + "Lorem ipsum", ['"']), Tokenizer(["cargo", "run", "--bin", "whatever", "--"], "--input=" + "\"" + "Lorem ipsum" + "\"", []));
    }
    assert Run(s, 49, Tokenizer(["cargo", "run", "--bin", "whatever", "--"], "--input=" + "\"" + "Lorem ipsum" + "\"", [])) == Run(s, 50, Tokenizer(["cargo", "run", "--bin", "whatever", "--", "--input=" + "\"" + "Lorem ipsum" + "\""], "", [])) by {
      CharStep(s, 49, ' ', Tokenizer(["cargo", "run", "--bin", "whatever", "--"], "--input=" + "\"" + "Lorem ipsum" + "\"", []), Tokenizer(["cargo", "run", "--bin", "whatever", "--", "--input=" + "\"" + "Lorem ipsum" + "\""], "", []));
    }
    assert Run(s, 50, Tokenizer(["cargo", "run", "--bin", "whatever", "--", "--input=" + "\"" + "Lorem ipsum" + "\""], "", [])) == Run(s, 52, Tokenizer(["cargo", "run", "--bin", "whatever", "--", "--input=" + "\"" + "Lorem ipsum" + "\""], "-f", [])) by {
      SpanStep(s, 50, 52, "-f", Tokenizer(["cargo", "run", "--bin", "whatever", "--", "--input=" + "\"" + "Lorem ipsum" + "\""], "", []), Tokenizer(["cargo", "run", "--bin", "whatever", "--", "--input=" + "\"" + "Lorem ipsum" + "\""], "-f", []));
    }
  }

  /** A single-quoted word inside double quotes. */
  lemma NestedQuotesExample(s: string)
    requires Spells(s, "echo" + " " + "\"" + "lorem ipsum " + "'" + "dolor" + "'" + " sit amet" + "\"")
    ensures Tokenize(s) == ["echo", "\"lorem ipsum 'dolor' sit amet\""]
  {
    NestedQuotesExamplePieces(s);
    NestedQuotesExamplePart1(s);
    NestedQuotesExamplePart2(s);
    NestedQuotesExamplePart3(s);
    assert Run(s, 35, Tokenizer(["echo"], "\"" + "lorem ipsum " + "'" + "dolor" + "'" + " sit amet" + "\"", [])) == Tokenizer(["echo"], "\"" + "lorem ipsum " + "'" + "dolor" + "'" + " sit amet" + "\"", []);
    NestedQuotesExampleArgument1();
  }

  lemma NestedQuotesExampleArgument1()
    ensures "\"" + "lorem ipsum " + "'" + "dolor" + "'" + " sit amet" + "\"" == "\"lorem ipsum 'dolor' sit amet\""
  {
    assert "\"" + "lorem ipsum " == "\"lorem ipsum ";
    assert "\"lorem ipsum " + "'" == "\"lorem ipsum '";
    assert "\"lorem ipsum '" + "dolor" == "\"lorem ipsum 'dolor";
    assert "\"lorem ipsum 'dolor" + "'" == "\"lorem ipsum 'dolor'";
    assert "\"lorem ipsum 'dolor'" + " sit amet" == "\"lorem ipsum 'dolor' sit amet";
    assert "\"lorem ipsum 'dolor' sit amet" + "\"" == "\"lorem ipsum 'dolor' sit amet\"";
  }

  lemma NestedQuotesExamplePieces(s: string)
    requires Spells(s, "echo" + " " + "\"" + "lorem ipsum " + "'" + "dolor" + "'" + " sit amet" + "\"")
    ensures |s| == 35
    ensures s[0..4] == "echo"
    ensures s[4..5] == " "
    ensures s[5..6] == "\""
    ensures s[6..18] == "lorem ipsum "
    ensures s[18..19] == "'"
    ensures s[19..24] == "dolor"
    ensures s[24..25] == "'"
    ensures s[25..34] == " sit amet"
    ensures s[34..35] == "\""
  {
    PeelLast(s, "echo" + " " + "\"" + "lorem ipsum " + "'" + "dolor" + "'" + " sit amet", "\"");
    PeelLast(s, "echo" + " " + "\"" + "lorem ipsum " + "'" + "dolor" + "'", " sit amet");
    PeelLast(s, "echo" + " " + "\"" + "lorem ipsum " + "'" + "dolor", "'");
    PeelLast(s, "echo" + " " + "\"" + "lorem ipsum " + "'", "dolor");
    PeelLast(s, "echo" + " " + "\"" + "lorem ipsum ", "'");
    PeelLast(s, "echo" + " " + "\"", "lorem ipsum ");
    PeelLast(s, "echo" + " ", "\"");
    PeelLast(s, "echo", " ");
    PeelFirst(s, "echo");
  }

  lemma NestedQuotesExamplePart1(s: string)
    requires |s| == 35
    requires s[0..4] == "echo"
    requires s[4..5] == " "
    requires s[5..6] == "\""
    requires s[6..18] == "lorem ipsum "
    ensures Run(s, 0, Tokenizer([], "", [])) == Run(s, 18, Tokenizer(["echo"], "\"" + "lorem ipsum ", ['"']))
  {
    assert Run(s, 0, Tokenizer([], "", [])) == Run(s, 4, Tokenizer([], "echo", [])) by {
      SpanStep(s, 0, 4, "echo", Tokenizer([], "", []), Tokenizer([], "echo", []));
    }
    assert Run(s, 4, Tokenizer([], "echo", [])) == Run(s, 5, Tokenizer(["echo"], "", [])) by {
      CharStep(s, 4, ' ', Tokenizer([], "echo", []), Tokenizer(["echo"], "", []));
    }
    assert Run(s, 5, Tokenizer(["echo"], "", [])) == Run(s, 6, Tokenizer(["echo"], "\"", ['"'])) by {
      CharStep(s, 5, '"', Tokenizer(["echo"], "", []), Tokenizer(["echo"], "\"", ['"']));
    }
    assert Run(s, 6, Tokenizer(["echo"], "\"", ['"'])) == Run(s, 18, Tokenizer(["echo"], "\"" + "lorem ipsum ", ['"'])) by {
      SpanStep(s, 6, 18, "lorem ipsum ", Tokenizer(["echo"], "\"", ['"']), Tokenizer(["echo"], "\"" + "lorem ipsum ", ['"']));
    }
  }

  lemma NestedQuotesExamplePart2(s: string)
    requires |s| == 35
    requires s[18..19] == "'"
    requires s[19..24] == "dolor"
    requires s[24..25] == "'"
    requires s[25..34] == " sit amet"
    ensures Run(s, 18, Tokenizer(["echo"], "\"" + "lorem ipsum ", ['"'])) == Run(s, 34, Tokenizer(["echo"], "\"" + "lorem ipsum " + "'" + "dolor" + "'" + " sit amet", ['"']))
  {
    assert Run(s, 18, Tokenizer(["echo"], "\"" + "lorem ipsum ", ['"'])) == Run(s, 19, Tokenizer(["echo"], "\"" + "lorem ipsum " + "'", ['"', '\''])) by {
      CharStep(s, 18, '\'', Tokenizer(["echo"], "\"" + "lorem ipsum ", ['"']), Tokenizer(["echo"], "\"" + "lorem ipsum " + "'", ['"', '\'']));
    }
    assert Run(s, 19, Tokenizer(["echo"], "\"" + "lorem ipsum " + "'", ['"', '\''])) == Run(s, 24, Tokenizer(["echo"], "\"" + "lorem ipsum " + "'" + "dolor", ['"', '\''])) by {
      SpanStep(s, 19, 24, "dolor", Tokenizer(["echo"], "\"" + "lorem ipsum " + "'", ['"', '\'']), Tokenizer(["echo"], "\"" + "lorem ipsum " + "'" + "dolor", ['"', '\'']));
    }
    assert Run(s, 24, Tokenizer(["echo"], "\"" + "lorem ipsum " + "'" + "dolor", ['"', '\''])) == Run(s, 25, Tokenizer(["echo"], "\"" + "lorem ipsum " + "'" + "dolor" + "'", ['"'])) by {
      CharStep(s, 24, '\'', Tokenizer(["echo"], "\"" + "lorem ipsum " + "'" + "dolor", ['"', '\'']), Tokenizer(["echo"], "\"" + "lorem ipsum " + "'" + "dolor" + "'", ['"']));
    }
    assert Run(s, 25, Tokenizer(["echo"], "\"" + "lorem ipsum " + "'" + "dolor" + "'", ['"'])) == Run(s, 34, Tokenizer(["echo"], "\"" + "lorem ipsum " + "'" + "dolor" + "'" + " sit amet", ['"'])) by {
      SpanStep(s, 25, 34, " sit amet", Tokenizer(["echo"], "\"" + "lorem ipsum " + "'" + "dolor" + "'", ['"']), Tokenizer(["echo"], "\"" + "lorem ipsum " + "'" + "dolor" + "'" + " sit amet", ['"']));
    }
  }

  lemma NestedQuotesExamplePart3(s: string)
    requires |s| == 35
    requires s[34..35] == "\""
    ensures Run(s, 34, Tokenizer(["echo"], "\"" + "lorem ipsum " + "'" + "dolor" + "'" + " sit amet", ['"'])) == Run(s, 35, Tokenizer(["echo"], "\"" + "lorem ipsum " + "'" + "dolor" + "'" + " sit amet" + "\"", []))
  {
    assert Run(s, 34, Tokenizer(["echo"], "\"" + "lorem ipsum " + "'" + "dolor" + "'" + " sit amet", ['"'])) == Run(s, 35, Tokenizer(["echo"], "\"" + "lorem ipsum " + "'" + "dolor" + "'" + " sit amet" + "\"", [])) by {
      CharStep(s, 34, '"', Tokenizer(["echo"], "\"" + "lorem ipsum " + "'" + "dolor" + "'" + " sit amet", ['"']), Tokenizer(["echo"], "\"" + "lorem ipsum " + "'" + "dolor" + "'" + " sit amet" + "\"", []));
    }
  }

  /** A double quote inside single quotes inside double quotes opens a third level. */
  lemma DeeplyNestedQuotesExample(s: string)
    requires Spells(s, "echo" + " " + "\"" + "lorem ipsum (" + "'" + "dolor " + "\"" + "doloris" + "\"" + " septetur" + "'" + ") sit amet" + "\"")
    ensures Tokenize(s) == ["echo", "\"lorem ipsum ('dolor \"doloris\" septetur') sit amet\""]
  {
    DeeplyNestedQuotesExamplePieces(s);
    DeeplyNestedQuotesExamplePart1(s);
    DeeplyNestedQuotesExamplePart2(s);
    DeeplyNestedQuotesExamplePart3(s);
    DeeplyNestedQuotesExamplePart4(s);
    assert Run(s, 56, Tokenizer(["echo"], "\"" + "lorem ipsum (" + "'" + "dolor " + "\"" + "doloris" + "\"" + " septetur" + "'" + ") sit amet" + "\"", [])) == Tokenizer(["echo"], "\"" + "lorem ipsum (" + "'" + "dolor " + "\"" + "doloris" + "\"" + " septetur" + "'" + ") sit amet" + "\"", []);
    DeeplyNestedQuotesExampleArgument1();
  }

  lemma DeeplyNestedQuotesExampleArgument1()
    ensures "\"" + "lorem ipsum (" + "'" + "dolor " + "\"" + "doloris" + "\"" + " septetur" + "'" + ") sit amet" + "\"" == "\"lorem ipsum ('dolor \"doloris\" septetur') sit amet\""
  {
    assert "\"" + "lorem ipsum (" == "\"lorem ipsum (";
    assert "\"lorem ipsum (" + "'" == "\"lorem ipsum ('";
    assert "\"lorem ipsum ('" + "dolor " == "\"lorem ipsum ('dolor ";
    assert "\"lorem ipsum ('dolor " + "\"" == "\"lorem ipsum ('dolor \"";
    assert "\"lorem ipsum ('dolor \"" + "doloris" == "\"lorem ipsum ('dolor \"doloris";
    assert "\"lorem ipsum ('dolor \"doloris" + "\"" == "\"lorem ipsum ('dolor \"doloris\"";
    assert "\"lorem ipsum ('dolor \"doloris\"" + " septetur" == "\"lorem ipsum ('dolor \"doloris\" septetur";
    assert "\"lorem ipsum ('dolor \"doloris\" septetur" + "'" == "\"lorem ipsum ('dolor \"doloris\" septetur'";
    assert "\"lorem ipsum ('dolor \"doloris\" septetur'" + ") sit amet" == "\"lorem ipsum ('dolor \"doloris\" septetur') sit amet";
    assert "\"lorem ipsum ('dolor \"doloris\" septetur') sit amet" + "\"" == "\"lorem ipsum ('dolor \"doloris\" septetur') sit amet\"";
  }

  lemma DeeplyNestedQuotesExamplePieces(s: string)
    requires Spells(s, "echo" + " " + "\"" + "lorem ipsum (" + "'" + "dolor " + "\"" + "doloris" + "\"" + " septetur" + "'" + ") sit amet" + "\"")
    ensures |s| == 56
    ensures s[0..4] == "echo"
    ensures s[4..5] == " "
    ensures s[5..6] == "\""
    ensures s[6..19] == "lorem ipsum ("
    ensures s[19..20] == "'"
    ensures s[20..26] == "dolor "
    ensures s[26..27] == "\""
    ensures s[27..34] == "doloris"
    ensures s[34..35] == "\""
    ensures s[35..44] == " septetur"
    ensures s[44..45] == "'"
    ensures s[45..55] == ") sit amet"
    ensures s[55..56] == "\""
  {
    PeelLast(s, "echo" + " " + "\"" + "lorem ipsum (" + "'" + "dolor " + "\"" + "doloris" + "\"" + " septetur" + "'" + ") sit amet", "\"");
    PeelLast(s, "echo" + " " + "\"" + "lorem ipsum (" + "'" + "dolor " + "\"" + "doloris" + "\"" + " septetur" + "'", ") sit amet");
    PeelLast(s, "echo" + " " + "\"" + "lorem ipsum (" + "'" + "dolor " + "\"" + "doloris" + "\"" + " septetur", "'");
    PeelLast(s, "echo" + " " + "\"" + "lorem ipsum (" + "'" + "dolor " + "\"" + "doloris" + "\"", " septetur");
    PeelLast(s, "echo" + " " + "\"" + "lorem ipsum (" + "'" + "dolor " + "\"" + "doloris", "\"");
    PeelLast(s, "echo" + " " + "\"" + "lorem ipsum (" + "'" + "dolor " + "\"", "doloris");
    PeelLast(s, "echo" + " " + "\"" + "lorem ipsum (" + "'" + "dolor ", "\"");
    PeelLast(s, "echo" + " " + "\"" + "lorem ipsum (" + "'", "dolor ");
    PeelLast(s, "echo" + " " + "\"" + "lorem ipsum (", "'");
    PeelLast(s, "echo" + " " + "\"", "lorem ipsum (");
    PeelLast(s, "echo" + " ", "\"");
    PeelLast(s, "echo", " ");
    PeelFirst(s, "echo");
  }

  lemma DeeplyNestedQuotesExamplePart1(s: string)
    requires |s| == 56
    requires s[0..4] == "echo"
    requires s[4..5] == " "
    requires s[5..6] == "\""
    requires s[6..19] == "lorem ipsum ("
    ensures Run(s, 0, Tokenizer([], "", [])) == Run(s, 19, Tokenizer(["echo"], "\"" + "lorem ipsum (", ['"']))
  {
    assert Run(s, 0, Tokenizer([], "", [])) == Run(s, 4, Tokenizer([], "echo", [])) by {
      SpanStep(s, 0, 4, "echo", Tokenizer([], "", []), Tokenizer([], "echo", []));
    }
    assert Run(s, 4, Tokenizer([], "echo", [])) == Run(s, 5, Tokenizer(["echo"], "", [])) by {
      CharStep(s, 4, ' ', Tokenizer([], "echo", []), Tokenizer(["echo"], "", []));
    }
    assert Run(s, 5, Tokenizer(["echo"], "", [])) == Run(s, 6, Tokenizer(["echo"], "\"", ['"'])) by {
      CharStep(s, 5, '"', Tokenizer(["echo"], "", []), Tokenizer(["echo"], "\"", ['"']));
    }
    assert Run(s, 6, Tokenizer(["echo"], "\"", ['"'])) == Run(s, 19, Tokenizer(["echo"], "\"" + "lorem ipsum (", ['"'])) by {
      SpanStep(s, 6, 19, "lorem ipsum (", Tokenizer(["echo"], "\"", ['"']), Tokenizer(["echo"], "\"" + "lorem ipsum (", ['"']));
    }
  }

  lemma DeeplyNestedQuotesExamplePart2(s: string)
    requires |s| == 56
    requires s[19..20] == "'"
    requires s[20..26] == "dolor "
    requires s[26..27] == "\""
    requires s[27..34] == "doloris"
    ensures Run(s, 19, Tokenizer(["echo"], "\"" + "lorem ipsum (", ['"'])) == Run(s, 34, Tokenizer(["echo"], "\"" + "lorem ipsum (" + "'" + "dolor " + "\"" + "doloris", ['"', '\'', '"']))
  {
    assert Run(s, 19, Tokenizer(["echo"], "\"" + "lorem ipsum (", ['"'])) == Run(s, 20, Tokenizer(["echo"], "\"" + "lorem ipsum (" + "'", ['"', '\''])) by {
      CharStep(s, 19, '\'', Tokenizer(["echo"], "\"" + "lorem ipsum (", ['"']), Tokenizer(["echo"], "\"" + "lorem ipsum (" + "'", ['"', '\'']));
    }
    assert Run(s, 20, Tokenizer(["echo"], "\"" + "lorem ipsum (" + "'", ['"', '\''])) == Run(s, 26, Tokenizer(["echo"], "\"" + "lorem ipsum (" + "'" + "dolor ", ['"', '\''])) by {
      SpanStep(s, 20, 26, "dolor ", Tokenizer(["echo"], "\"" + "lorem ipsum (" + "'", ['"', '\'']), Tokenizer(["echo"], "\"" + "lorem ipsum (" + "'" + "dolor ", ['"', '\'']));
    }
    assert Run(s, 26, Tokenizer(["echo"], "\"" + "lorem ipsum (" + "'" + "dolor ", ['"', '\''])) == Run(s, 27, Tokenizer(["echo"], "\"" + "lorem ipsum (" + "'" + "dolor " + "\"", ['"', '\'', '"'])) by {
      CharStep(s, 26, '"', Tokenizer(["echo"], "\"" + "lorem ipsum (" + "'" + "dolor ", ['"', '\'']), Tokenizer(["echo"], "\"" + "lorem ipsum (" + "'" + "dolor " + "\"", ['"', '\'', '"']));
    }
    assert Run(s, 27, Tokenizer(["echo"], "\"" + "lorem ipsum (" + "'" + "dolor " + "\"", ['"', '\'', '"'])) == Run(s, 34, Tokenizer(["echo"], "\"" + "lorem ipsum (" + "'" + "dolor " + "\"" + "doloris", ['"', '\'', '"'])) by {
      SpanStep(s, 27, 34, "doloris", Tokenizer(["echo"], "\"" + "lorem ipsum (" + "'" + "dolor " + "\"", ['"', '\'', '"']), Tokenizer(["echo"], "\"" + "lorem ipsum (" + "'" + "dolor " + "\"" + "doloris", ['"', '\'', '"']));
    }
  }

  lemma DeeplyNestedQuotesExamplePart3(s: string)
    requires |s| == 56
    requires s[34..35] == "\""
    requires s[35..44] == " septetur"
    requires s[44..45] == "'"
    requires s[45..55] == ") sit amet"
    ensures Run(s, 34, Tokenizer(["echo"], "\"" + "lorem ipsum (" + "'" + "dolor " + "\"" + "doloris", ['"', '\'', '"'])) == Run(s, 55, Tokenizer(["echo"], "\"" + "lorem ipsum (" + "'" + "dolor " + "\"" + "doloris" + "\"" + " septetur" + "'" + ") sit amet", ['"']))
  {
    assert Run(s, 34, Tokenizer(["echo"], "\"" + "lorem ipsum (" + "'" + "dolor " + "\"" + "doloris", ['"', '\'', '"'])) == Run(s, 35, Tokenizer(["echo"], "\"" + "lorem ipsum (" + "'" + "dolor " + "\"" + "doloris" + "\"", ['"', '\''])) by {
      CharStep(s, 34, '"', Tokenizer(["echo"], "\"" + "lorem ipsum (" + "'" + "dolor " + "\"" + "doloris", ['"', '\'', '"']), Tokenizer(["echo"], "\"" + "lorem ipsum (" + "'" + "dolor " + "\"" + "doloris" + "\"", ['"', '\'']));
    }
    assert Run(s, 35, Tokenizer(["echo"], "\"" + "lorem ipsum (" + "'" + "dolor " + "\"" + "doloris" + "\"", ['"', '\''])) == Run(s, 44, Tokenizer(["echo"], "\"" + "lorem ipsum (" + "'" + "dolor " + "\"" + "doloris" + "\"" + " septetur", ['"', '\''])) by {
      SpanStep(s, 35, 44, " septetur", Tokenizer(["echo"], "\"" + "lorem ipsum (" + "'" + "dolor " + "\"" + "doloris" + "\"", ['"', '\'']), Tokenizer(["echo"], "\"" + "lorem ipsum (" + "'" + "dolor " + "\"" + "doloris" + "\"" + " septetur", ['"', '\'']));
    }
    assert Run(s, 44, Tokenizer(["echo"], "\"" + "lorem ipsum (" + "'" + "dolor " + "\"" + "doloris" + "\"" + " septetur", ['"', '\''])) == Run(s, 45, Tokenizer(["echo"], "\"" + "lorem ipsum (" + "'" + "dolor " + "\"" + "doloris" + "\"" + " septetur" + "'", ['"'])) by {
      CharStep(s, 44, '\'', Tokenizer(["echo"], "\"" + "lorem ipsum (" + "'" + "dolor " + "\"" + "doloris" + "\"" + " septetur", ['"', '\'']), Tokenizer(["echo"], "\"" + "lorem ipsum (" + "'" + "dolor " + "\"" + "doloris" + "\"" + " septetur" + "'", ['"']));
    }
    assert Run(s, 45, Tokenizer(["echo"], "\"" + "lorem ipsum (" + "'" + "dolor " + "\"" + "doloris" + "\"" + " septetur" + "'", ['"'])) == Run(s, 55, Tokenizer(["echo"], "\"" + "lorem ipsum (" + "'" + "dolor " + "\"" + "doloris" + "\"" + " septetur" + "'" + ") sit amet", ['"'])) by {
      SpanStep(s, 45, 55, ") sit amet", Tokenizer(["echo"], "\"" + "lorem ipsum (" + "'" + "dolor " + "\"" + "doloris" + "\"" + " septetur" + "'", ['"']), Tokenizer(["echo"], "\"" + "lorem ipsum (" + "'" + "dolor " + "\"" + "doloris" + "\"" + " septetur" + "'" + ") sit amet", ['"']));
    }
  }

  lemma DeeplyNestedQuotesExamplePart4(s: string)
    requires |s| == 56
    requires s[55..56] == "\""
    ensures Run(s, 55, Tokenizer(["echo"], "\"" + "lorem ipsum (" + "'" + "dolor " + "\"" + "doloris" + "\"" + " septetur" + "'" + ") sit amet", ['"'])) == Run(s, 56, Tokenizer(["echo"], "\"" + "lorem ipsum (" + "'" + "dolor " + "\"" + "doloris" + "\"" + " septetur" + "'" + ") sit amet" + "\"", []))
  {
    assert Run(s, 55, Tokenizer(["echo"], "\"" + "lorem ipsum (" + "'" + "dolor " + "\"" + "doloris" + "\"" + " septetur" + "'" + ") sit amet", ['"'])) == Run(s, 56, Tokenizer(["echo"], "\"" + "lorem ipsum (" + "'" + "dolor " + "\"" + "doloris" + "\"" + " septetur" + "'" + ") sit amet" + "\"", [])) by {
      CharStep(s, 55, '"', Tokenizer(["echo"], "\"" + "lorem ipsum (" + "'" + "dolor " + "\"" + "doloris" + "\"" + " septetur" + "'" + ") sit amet", ['"']), Tokenizer(["echo"], "\"" + "lorem ipsum (" + "'" + "dolor " + "\"" + "doloris" + "\"" + " septetur" + "'" + ") sit amet" + "\"", []));
    }
  }
}
