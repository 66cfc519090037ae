/**
 * Stand-in for the `difference` crate's `Changeset`: an edit script over
 * pieces of text (lines, or words of one line). The crate's own algorithm is
 * not part of this model; this one keeps the common prefix and suffix and
 * reports the rest as removed then added, which meets the contract the
 * renderer and the checks rely on: the unchanged and removed pieces spell the
 * old text, the unchanged and added pieces spell the new one.
 */
module Changeset {

  datatype Difference = Same(text: string) | Add(text: string) | Rem(text: string)

  /** The pieces of the original text: `Same` and `Rem`. */
  function OldSide(d: seq<Difference>): seq<string>
  {
    if d == [] then []
    else (if d[0].Add? then [] else [d[0].text]) + OldSide(d[1..])
  }

  /** The pieces of the edited text: `Same` and `Add`. */
  function NewSide(d: seq<Difference>): seq<string>
  {
    if d == [] then []
    else (if d[0].Rem? then [] else [d[0].text]) + NewSide(d[1..])
  }

  /** How many pieces were added or removed. */
  function Distance(d: seq<Difference>): nat
  {
    if d == [] then 0 else (if d[0].Same? then 0 else 1) + Distance(d[1..])
  }

  lemma {:induction false} OldSideAppend(d: seq<Difference>, e: seq<Difference>)
    ensures OldSide(d + e) == OldSide(d) + OldSide(e)
  {
    if d == [] {
      assert d + e == e;
    } else {
      assert (d + e)[1..] == d[1..] + e;
      OldSideAppend(d[1..], e);
    }
  }

  lemma {:induction false} NewSideAppend(d: seq<Difference>, e: seq<Difference>)
    ensures NewSide(d + e) == NewSide(d) + NewSide(e)
  {
    if d == [] {
      assert d + e == e;
    } else {
      assert (d + e)[1..] == d[1..] + e;
      NewSideAppend(d[1..], e);
    }
  }

  lemma SidesAppend(d: seq<Difference>, e: seq<Difference>)
    ensures OldSide(d + e) == OldSide(d) + OldSide(e)
    ensures NewSide(d + e) == NewSide(d) + NewSide(e)
  {
    OldSideAppend(d, e);
    NewSideAppend(d, e);
  }

  /** A kept piece in front of a script is in front of both sides. */
  lemma SidesCons(x: string, d: seq<Difference>)
    ensures OldSide([Same(x)] + d) == [x] + OldSide(d)
    ensures NewSide([Same(x)] + d) == [x] + NewSide(d)
  {
    assert ([Same(x)] + d)[1..] == d;
  }

  function Removals(a: seq<string>): (d: seq<Difference>)
    ensures OldSide(d) == a && NewSide(d) == []
  {
    if a == [] then [] else [Rem(a[0])] + Removals(a[1..])
  }

  function Additions(b: seq<string>): (d: seq<Difference>)
    ensures OldSide(d) == [] && NewSide(d) == b
  {
    if b == [] then [] else [Add(b[0])] + Additions(b[1..])
  }

  lemma SplitLast(a: seq<string>)
    requires a != []
    ensures a == a[..|a| - 1] + [a[|a| - 1]]
  {
  }

  /** An edit script turning `a` into `b`. */
  function Diff(a: seq<string>, b: seq<string>): (d: seq<Difference>)
    ensures OldSide(d) == a && NewSide(d) == b
    decreases |a| + |b|
  {
    if a != [] && b != [] && a[0] == b[0] then
      var d := Diff(a[1..], b[1..]);
      SidesCons(a[0], d);
      assert a == [a[0]] + a[1..] && b == [b[0]] + b[1..];
      [Same(a[0])] + d
    else if a != [] && b != [] && a[|a| - 1] == b[|b| - 1] then
      var a', b' := a[..|a| - 1], b[..|b| - 1];
      var d := Diff(a', b');
      SidesAppend(d, [Same(a[|a| - 1])]);
      SplitLast(a);
      SplitLast(b);
      d + [Same(a[|a| - 1])]
    else
      SidesAppend(Removals(a), Additions(b));
      Removals(a) + Additions(b)
  }

  /** A script with nothing added or removed spells the same text on both sides. */
  lemma {:induction false} NoDistanceSameSides(d: seq<Difference>)
    requires Distance(d) == 0
    ensures OldSide(d) == NewSide(d)
  {
    if d != [] {
      NoDistanceSameSides(d[1..]);
    }
  }

  lemma {:induction false} DiffOfEqualIsAllSame(a: seq<string>)
    ensures Distance(Diff(a, a)) == 0
  {
    if a != [] {
      DiffOfEqualIsAllSame(a[1..]);
    }
  }

  /** Distance zero is exactly equality of the two piece sequences. */
  lemma DistanceZeroIffEqual(a: seq<string>, b: seq<string>)
    ensures Distance(Diff(a, b)) == 0 <==> a == b
  {
    if Distance(Diff(a, b)) == 0 {
      NoDistanceSameSides(Diff(a, b));
    }
    if a == b {
      DiffOfEqualIsAllSame(a);
    }
  }
}
