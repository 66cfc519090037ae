/**
 * The diff renderer (src/diff.rs): turns a line edit script into a report,
 * one line per element, with word-level highlighting of an added line that
 * directly replaces a removed one. Terminal colours are kept as tags on the
 * spans of the report instead of escape codes.
 */
module Diff {
  import opened Wrappers
  import opened Text
  import opened Changeset

  /** The colourings the renderer applies. */
  datatype Colour = Plain | Red | Green | GreenDimmed | WhiteOnGreen

  /** A piece of the report written in one colour. */
  datatype Span = Span(colour: Colour, text: string)

  /** The report's text with the colours stripped. */
  function Uncoloured(t: seq<Span>): string
  {
    if t == [] then [] else t[0].text + Uncoloured(t[1..])
  }

  lemma {:induction false} UncolouredAppend(a: seq<Span>, b: seq<Span>)
    ensures Uncoloured(a + b) == Uncoloured(a) + Uncoloured(b)
  {
    if a == [] {
      assert a + b == b;
    } else {
      assert (a + b)[1..] == a[1..] + b;
      UncolouredAppend(a[1..], b);
    }
  }

  /** The word-level edit script of one replaced line, split on spaces. */
  function WordDiff(removed: string, added: string): seq<Difference>
  {
    Diff(Split(removed, ' '), Split(added, ' '))
  }

  /** One word of a replaced line: kept words green, added words highlighted, removed words omitted. */
  function WordSpan(w: Difference): seq<Span>
  {
    match w
    case Same(z) => [Span(Green, z), Span(Plain, " ")]
    case Add(z) => [Span(WhiteOnGreen, z), Span(Plain, " ")]
    case Rem(_) => []
  }

  function WordSpans(ws: seq<Difference>): seq<Span>
  {
    if ws == [] then [] else WordSpan(ws[0]) + WordSpans(ws[1..])
  }

  lemma {:induction false} WordSpansAppend(a: seq<Difference>, b: seq<Difference>)
    ensures WordSpans(a + b) == WordSpans(a) + WordSpans(b)
  {
    if a == [] {
      assert a + b == b;
    } else {
      assert (a + b)[1..] == a[1..] + b;
      WordSpansAppend(a[1..], b);
    }
  }

  /** Each word followed by one space. */
  function SpaceAfterEach(words: seq<string>): string
  {
    if words == [] then [] else words[0] + " " + SpaceAfterEach(words[1..])
  }

  /** The report line of element `i`; an `Add` looks back at element `i - 1`. */
  function Line(diffs: seq<Difference>, i: nat): seq<Span>
    requires i < |diffs|
  {
    match diffs[i]
    case Same(x) => [Span(Plain, " " + x + "\n")]
    case Add(x) =>
      if i > 0 && diffs[i - 1].Rem? then
        [Span(Green, "+")] + WordSpans(WordDiff(diffs[i - 1].text, x)) + [Span(Plain, "\n")]
      else
        [Span(GreenDimmed, "+" + x), Span(Plain, "\n")]
    case Rem(x) => [Span(Red, "-" + x), Span(Plain, "\n")]
  }

  /** The report of the first `n` elements. */
  function Rendered(diffs: seq<Difference>, n: nat): seq<Span>
    requires n <= |diffs|
  {
    if n == 0 then [] else Rendered(diffs, n - 1) + Line(diffs, n - 1)
  }

  /** `render`, with an `Add` at index 0 treated as not preceded by a `Rem`. */
  method Render(diffs: seq<Difference>) returns (t: seq<Span>)
    ensures t == Rendered(diffs, |diffs|)
  {
    t := [];
    for i := 0 to |diffs|
      invariant t == Rendered(diffs, i)
    {
      match diffs[i]
      case Same(x) =>
        t := t + [Span(Plain, " " + x + "\n")];
      case Add(x) =>
        if i > 0 && diffs[i - 1].Rem? {
          var words := RenderWords(diffs[i - 1].text, x);
          t := t + [Span(Green, "+")] + words + [Span(Plain, "\n")];
        } else {
          t := t + [Span(GreenDimmed, "+" + x), Span(Plain, "\n")];
        }
      case Rem(x) =>
        t := t + [Span(Red, "-" + x), Span(Plain, "\n")];
    }
  }

  /** The inner loop of `render`: the words of line `added` that replaces line `removed`. */
  method RenderWords(removed: string, added: string) returns (t: seq<Span>)
    ensures t == WordSpans(WordDiff(removed, added))
  {
    var words := WordDiff(removed, added);
    t := [];
    for j := 0 to |words|
      invariant t == WordSpans(words[..j])
    {
      ghost var before := t;
      match words[j] {
        case Same(z) =>
          t := t + [Span(Green, z)];
          t := t + [Span(Plain, " ")];
        case Add(z) =>
          t := t + [Span(WhiteOnGreen, z)];
          t := t + [Span(Plain, " ")];
        case Rem(_) =>
      }
      assert t == before + WordSpan(words[j]);
      WordSpansSnoc(words, j);
    }
    assert words[..|words|] == words;
  }

  lemma WordSpansSnoc(ws: seq<Difference>, j: nat)
    requires j < |ws|
    ensures WordSpans(ws[..j + 1]) == WordSpans(ws[..j]) + WordSpan(ws[j])
  {
    WordSpansAppend(ws[..j], [ws[j]]);
    assert ws[..j + 1] == ws[..j] + [ws[j]];
    assert WordSpans([ws[j]]) == WordSpan(ws[j]) + WordSpans([]);
  }

  /** The words of a replaced line as rendered: the new line's words, each followed by a space. */
  lemma {:induction false} WordSpansText(ws: seq<Difference>)
    ensures Uncoloured(WordSpans(ws)) == SpaceAfterEach(NewSide(ws))
  {
    if ws != [] {
      WordSpansText(ws[1..]);
      UncolouredAppend(WordSpan(ws[0]), WordSpans(ws[1..]));
      match ws[0]
      case Same(z) =>
        assert Uncoloured(WordSpan(ws[0])) == z + " ";
      case Add(z) =>
        assert Uncoloured(WordSpan(ws[0])) == z + " ";
      case Rem(_) =>
        assert WordSpans(ws) == WordSpans(ws[1..]);
        assert NewSide(ws) == NewSide(ws[1..]);
    }
  }

  /** What each kind of element contributes, colour and text. */
  lemma LineContents(diffs: seq<Difference>, i: nat)
    requires i < |diffs|
    ensures diffs[i].Same? ==> Uncoloured(Line(diffs, i)) == " " + diffs[i].text + "\n"
    ensures diffs[i].Rem? ==>
      Line(diffs, i)[0] == Span(Red, "-" + diffs[i].text) &&
      Uncoloured(Line(diffs, i)) == "-" + diffs[i].text + "\n"
    ensures diffs[i].Add? && !(i > 0 && diffs[i - 1].Rem?) ==>
      Line(diffs, i)[0] == Span(GreenDimmed, "+" + diffs[i].text) &&
      Uncoloured(Line(diffs, i)) == "+" + diffs[i].text + "\n"
    ensures diffs[i].Add? && i > 0 && diffs[i - 1].Rem? ==>
      Line(diffs, i)[0] == Span(Green, "+") &&
      Uncoloured(Line(diffs, i)) == "+" + SpaceAfterEach(Split(diffs[i].text, ' ')) + "\n"
  {
    var l := Line(diffs, i);
    if diffs[i].Add? && i > 0 && diffs[i - 1].Rem? {
      var ws := WordDiff(diffs[i - 1].text, diffs[i].text);
      UncolouredAppend([Span(Green, "+")], WordSpans(ws));
      UncolouredAppend([Span(Green, "+")] + WordSpans(ws), [Span(Plain, "\n")]);
      WordSpansText(ws);
    }
  }

  /** Number of newline characters in a text. */
  function Newlines(s: string): nat
  {
    if s == [] then 0 else (if s[0] == '\n' then 1 else 0) + Newlines(s[1..])
  }

  lemma {:induction false} NewlinesAppend(a: string, b: string)
    ensures Newlines(a + b) == Newlines(a) + Newlines(b)
  {
    if a == [] {
      assert a + b == b;
    } else {
      assert (a + b)[1..] == a[1..] + b;
      NewlinesAppend(a[1..], b);
    }
  }

  lemma {:induction false} NoNewlines(s: string)
    requires '\n' !in s
    ensures Newlines(s) == 0
  {
    if s != [] {
      NoNewlines(s[1..]);
    }
  }

  lemma {:induction false} SpaceAfterEachAvoidsNewline(words: seq<string>)
    requires forall k :: 0 <= k < |words| ==> '\n' !in words[k]
    ensures '\n' !in SpaceAfterEach(words)
  {
    if words != [] {
      SpaceAfterEachAvoidsNewline(words[1..]);
    }
  }

  /** No element of the script spans several lines. */
  predicate SingleLines(diffs: seq<Difference>)
  {
    forall k :: 0 <= k < |diffs| ==> '\n' !in diffs[k].text
  }

  /** Every element of a script of single lines contributes exactly one line. */
  lemma {:induction false} RenderedLineCount(diffs: seq<Difference>, n: nat)
    requires n <= |diffs| && SingleLines(diffs)
    ensures Newlines(Uncoloured(Rendered(diffs, n))) == n
  {
    if n > 0 {
      var i := n - 1;
      RenderedLineCount(diffs, i);
      UncolouredAppend(Rendered(diffs, i), Line(diffs, i));
      NewlinesAppend(Uncoloured(Rendered(diffs, i)), Uncoloured(Line(diffs, i)));
      LineContents(diffs, i);
      var x := diffs[i].text;
      var body: string;
      if diffs[i].Add? && i > 0 && diffs[i - 1].Rem? {
        SplitAvoids(x, ' ', '\n');
        SpaceAfterEachAvoidsNewline(Split(x, ' '));
        body := "+" + SpaceAfterEach(Split(x, ' '));
      } else {
        body := (if diffs[i].Same? then " " else if diffs[i].Rem? then "-" else "+") + x;
      }
      assert Uncoloured(Line(diffs, i)) == body + "\n";
      NoNewlines(body);
      NewlinesAppend(body, "\n");
    }
  }

  /** Lines already rendered do not depend on the elements after them. */
  lemma {:induction false} RenderedPrefixStable(diffs: seq<Difference>, more: seq<Difference>, n: nat)
    requires n <= |diffs|
    ensures Rendered(diffs + more, n) == Rendered(diffs, n)
  {
    if n > 0 {
      var all := diffs + more;
      RenderedPrefixStable(diffs, more, n - 1);
      LineStable(diffs, more, n - 1);
      assert Rendered(all, n) == Rendered(all, n - 1) + Line(all, n - 1);
    }
  }

  lemma LineStable(diffs: seq<Difference>, more: seq<Difference>, i: nat)
    requires i < |diffs|
    ensures Line(diffs + more, i) == Line(diffs, i)
  {
    assert (diffs + more)[i] == diffs[i];
    if i > 0 {
      assert (diffs + more)[i - 1] == diffs[i - 1];
    }
  }

  // ---------------------------------------------------------------------
  // `render` as written: an `Add` reads `diffs[i - 1]` even at index 0,
  // where the unsigned subtraction underflows and the program panics.
  // ---------------------------------------------------------------------

  /** The line of element `i` as the source computes it; `None` is the panic. */
  function LineAsWritten(diffs: seq<Difference>, i: nat): Option<seq<Span>>
    requires i < |diffs|
  {
    match diffs[i]
    case Same(x) => Some([Span(Plain, " " + x + "\n")])
    case Add(x) =>
      if i == 0 then None
      else
        match diffs[i - 1] {
          case Rem(y) => Some([Span(Green, "+")] + WordSpans(WordDiff(y, x)) + [Span(Plain, "\n")])
          case _ => Some([Span(GreenDimmed, "+" + x), Span(Plain, "\n")])
        }
    case Rem(x) => Some([Span(Red, "-" + x), Span(Plain, "\n")])
  }

  function RenderedAsWritten(diffs: seq<Difference>, n: nat): Option<seq<Span>>
    requires n <= |diffs|
  {
    if n == 0 then Some([])
    else
      match RenderedAsWritten(diffs, n - 1)
      case None => None
      case Some(t) =>
        match LineAsWritten(diffs, n - 1)
        case None => None
        case Some(l) => Some(t + l)
  }

  lemma {:induction false} AsWrittenPanicsOnLeadingAdd(diffs: seq<Difference>, n: nat)
    requires 0 < n <= |diffs| && diffs[0].Add?
    ensures RenderedAsWritten(diffs, n) == None
  {
    if n > 1 {
      AsWrittenPanicsOnLeadingAdd(diffs, n - 1);
    }
  }

  /** Away from a leading `Add`, the source and the corrected renderer agree. */
  lemma {:induction false} AsWrittenAgreesOtherwise(diffs: seq<Difference>, n: nat)
    requires n <= |diffs| && (diffs == [] || !diffs[0].Add?)
    ensures RenderedAsWritten(diffs, n) == Some(Rendered(diffs, n))
  {
    if n > 0 {
      AsWrittenAgreesOtherwise(diffs, n - 1);
      assert LineAsWritten(diffs, n - 1) == Some(Line(diffs, n - 1));
    }
  }

  /**
   * The line diff of "a" against "b\na" starts with an `Add`, so rendering it
   * as written panics.
   */
  lemma RenderAsWrittenPanics()
    ensures Diff(Split("a", '\n'), Split("b\na", '\n')) == [Add("b"), Same("a")]
    ensures RenderedAsWritten([Add("b"), Same("a")], 2) == None
  {
    assert Split("", '\n') == [""];
    assert "a"[1..] == "";
    assert ['a'] + "" == "a";
    assert Split("a", '\n') == [['a'] + ""] + [];
    assert "b\na"[1..] == "\na" && "\na"[1..] == "a";
    assert Split("\na", '\n') == ["", "a"];
    assert ['b'] + "" == "b";
    assert Split("b\na", '\n') == [['b'] + ""] + ["a"];
    assert Diff(["a"], ["b", "a"]) == [Add("b"), Same("a")] by {
      assert ["b", "a"][..1] == ["b"];
      assert Diff([], ["b"]) == [Add("b")];
    }
    AsWrittenPanicsOnLeadingAdd([Add("b"), Same("a")], 2);
  }
}
