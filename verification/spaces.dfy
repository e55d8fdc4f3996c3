/** The preview clean-up `remove_extra_spaces`: every run of space
    characters becomes one space, then whitespace is stripped from both
    ends. Only `' '` is collapsed; tabs and newlines inside the text stay. */
module Spaces {
  import opened Strings

  predicate NoDoubleSpace(s: string) {
    forall i :: 0 <= i < |s| - 1 ==> !(s[i] == ' ' && s[i + 1] == ' ')
  }

  /** `s` with every `' '` removed and every other character kept. */
  function DropSpaces(s: string): string {
    if s == [] then [] else (if s[0] == ' ' then [] else [s[0]]) + DropSpaces(s[1..])
  }

  /** Number of `' '` characters that start `s`. */
  function SpaceRun(s: string): (n: nat)
    ensures n <= |s|
    ensures forall i :: 0 <= i < n ==> s[i] == ' '
    ensures n < |s| ==> s[n] != ' '
  {
    if |s| > 0 && s[0] == ' ' then 1 + SpaceRun(s[1..]) else 0
  }

  lemma {:induction false} DropSpaceRun(s: string, n: nat)
    requires n <= |s| && forall i :: 0 <= i < n ==> s[i] == ' '
    ensures DropSpaces(s) == DropSpaces(s[n..])
    decreases n
  {
    if n > 0 {
      DropSpaceRun(s[1..], n - 1);
      assert s[1..][n - 1..] == s[n..];
    }
  }

  /** `re.sub(' +', ' ', s)`: each maximal run of spaces becomes a single
      space. The result is never longer, is empty only for empty input and
      starts with the same character. */
  function CollapseSpaces(s: string): (r: string)
    ensures |r| <= |s| && (|r| == 0 <==> |s| == 0)
    ensures |s| > 0 ==> r[0] == s[0]
    decreases |s|
  {
    if s == [] then []
    else if s[0] == ' ' then [' '] + CollapseSpaces(s[SpaceRun(s)..])
    else [s[0]] + CollapseSpaces(s[1..])
  }

  /** How far `CollapseSpaces` consumes `s` before recursing. */
  function CollapseStep(s: string): (n: nat)
    requires s != []
    ensures 1 <= n <= |s|
    ensures CollapseSpaces(s) == [s[0]] + CollapseSpaces(s[n..])
    ensures n < |s| && s[0] == ' ' ==> s[n] != ' '
    ensures s[0] != ' ' ==> n == 1
    ensures s[0] == ' ' ==> forall i :: 0 <= i < n ==> s[i] == ' '
  {
    if s[0] == ' ' then SpaceRun(s) else 1
  }

  /** No two spaces are left next to each other. */
  lemma {:induction false} CollapseNoDoubleSpace(s: string)
    ensures NoDoubleSpace(CollapseSpaces(s))
    decreases |s|
  {
    if s != [] {
      var n := CollapseStep(s);
      var rest := CollapseSpaces(s[n..]);
      CollapseNoDoubleSpace(s[n..]);
      var r := CollapseSpaces(s);
      forall k | 0 <= k < |r| - 1
        ensures !(r[k] == ' ' && r[k + 1] == ' ')
      {
        if k == 0 {
          assert r[1] == rest[0] == s[n..][0];
        } else {
          assert r[k] == rest[k - 1] && r[k + 1] == rest[k];
        }
      }
    }
  }

  /** The characters other than spaces are exactly those of `s`, in order;
      tabs and newlines included. */
  lemma {:induction false} CollapseKeepsOthers(s: string)
    ensures DropSpaces(CollapseSpaces(s)) == DropSpaces(s)
    decreases |s|
  {
    if s != [] {
      var n := CollapseStep(s);
      var r := CollapseSpaces(s);
      CollapseKeepsOthers(s[n..]);
      assert r[1..] == CollapseSpaces(s[n..]);
      if s[0] == ' ' {
        DropSpaceRun(s, n);
      } else {
        assert s[1..] == s[n..];
      }
    }
  }

  /** The last character is kept too. */
  lemma {:induction false} CollapseLast(s: string)
    ensures |s| > 0 ==> CollapseSpaces(s)[|CollapseSpaces(s)| - 1] == s[|s| - 1]
    decreases |s|
  {
    if s != [] {
      var n := CollapseStep(s);
      CollapseLast(s[n..]);
      if n == |s| {
        assert s[|s| - 1] == s[0];
      }
    }
  }

  /** A string with no double space is already collapsed. */
  lemma {:induction false} CollapseFixedPoint(s: string)
    requires NoDoubleSpace(s)
    ensures CollapseSpaces(s) == s
    decreases |s|
  {
    if s != [] {
      var t := s[1..];
      assert NoDoubleSpace(t) by {
        forall k | 0 <= k < |t| - 1
          ensures !(t[k] == ' ' && t[k + 1] == ' ')
        {
          assert t[k] == s[k + 1] && t[k + 1] == s[k + 2];
        }
      }
      CollapseFixedPoint(t);
      var n := CollapseStep(s);
      assert n == 1;
      assert s == [s[0]] + t;
    }
  }

  /** `n` space characters. */
  function Blanks(n: nat): (b: string)
    ensures |b| == n && forall i :: 0 <= i < n ==> b[i] == ' '
  {
    seq(n, _ => ' ')
  }

  /** A run of one or more spaces on its own collapses to exactly one. */
  lemma CollapseBlanks(n: nat)
    requires n >= 1
    ensures CollapseSpaces(Blanks(n)) == " "
  {
    var b := Blanks(n);
    assert SpaceRun(b) == n;
    assert b[n..] == [];
  }

  /** Two texts that do not meet space to space collapse independently. */
  predicate Apart(a: string, b: string) {
    !(|a| > 0 && |b| > 0 && a[|a| - 1] == ' ' && b[0] == ' ')
  }

  lemma {:induction false} SpaceRunAppend(a: string, b: string)
    requires a != [] && Apart(a, b)
    ensures SpaceRun(a + b) == SpaceRun(a)
    decreases |a|
  {
    if a[0] == ' ' {
      if |a| == 1 {
        assert (a + b)[1..] == b;
        assert a[1..] == [];
      } else {
        assert (a + b)[1..] == a[1..] + b;
        SpaceRunAppend(a[1..], b);
      }
    }
  }

  /** `re.sub(' +', ' ', …)` works run by run: text that does not join two
      runs of spaces collapses as its parts do. */
  lemma {:induction false} CollapseAppend(a: string, b: string)
    requires Apart(a, b)
    ensures CollapseSpaces(a + b) == CollapseSpaces(a) + CollapseSpaces(b)
    decreases |a|
  {
    if a == [] {
      assert a + b == b;
    } else {
      var n := CollapseStep(a);
      StepAppend(a, b);
      CollapseAppend(a[n..], b);
      Assoc([a[0]], CollapseSpaces(a[n..]), CollapseSpaces(b));
    }
  }

  /** The first step over `a + b` is the first step over `a`. */
  lemma StepAppend(a: string, b: string)
    requires a != [] && Apart(a, b)
    ensures var n := CollapseStep(a);
      && CollapseSpaces(a + b) == [a[0]] + CollapseSpaces(a[n..] + b)
      && Apart(a[n..], b)
  {
    var ab := a + b;
    var n := CollapseStep(a);
    var m := CollapseStep(ab);
    if a[0] == ' ' {
      SpaceRunAppend(a, b);
    }
    assert m == n;
    var tail := a[n..];
    assert ab[n..] == tail + b;
    if |tail| > 0 {
      assert tail[|tail| - 1] == a[|a| - 1];
    }
  }

  /** Between two texts, a run of one or more spaces becomes exactly one. */
  lemma CollapseInterior(a: string, n: nat, b: string)
    requires n >= 1
    requires |a| > 0 ==> a[|a| - 1] != ' '
    requires |b| > 0 ==> b[0] != ' '
    ensures CollapseSpaces(a + Blanks(n) + b) == CollapseSpaces(a) + " " + CollapseSpaces(b)
  {
    var sp := Blanks(n);
    assert Apart(sp, b);
    CollapseAppend(sp, b);
    CollapseBlanks(n);
    var rest := sp + b;
    assert Apart(a, rest) by {
      if |a| > 0 {
        assert rest[0] == ' ';
      }
    }
    CollapseAppend(a, rest);
    Assoc(a, sp, b);
    Assoc(CollapseSpaces(a), " ", CollapseSpaces(b));
  }

  lemma Assoc(x: string, y: string, z: string)
    ensures x + y + z == x + (y + z)
  {
  }

  lemma {:induction false} SliceNoDoubleSpace(s: string, i: nat, j: nat)
    requires NoDoubleSpace(s) && i <= j <= |s|
    ensures NoDoubleSpace(s[i..j])
  {
    var t := s[i..j];
    forall k | 0 <= k < |t| - 1
      ensures !(t[k] == ' ' && t[k + 1] == ' ')
    {
      assert t[k] == s[i + k] && t[k + 1] == s[i + k + 1];
    }
  }

  /** `remove_extra_spaces`: the result has no two spaces in a row and no
      whitespace at either end. */
  function RemoveExtraSpaces(s: string): (r: string)
    ensures NoDoubleSpace(r)
    ensures NoEdgeSpace(r)
  {
    var c := CollapseSpaces(s);
    var r := Strip(c);
    var i := LeadingSpaces(c);
    CollapseNoDoubleSpace(s);
    SliceNoDoubleSpace(c, i, i + |r|);
    r
  }

  /** Cleaning twice is cleaning once. */
  lemma RemoveExtraSpacesIdempotent(s: string)
    ensures RemoveExtraSpaces(RemoveExtraSpaces(s)) == RemoveExtraSpaces(s)
  {
    var t := RemoveExtraSpaces(s);
    CollapseFixedPoint(t);
    StripNoEdgeSpace(t);
  }

  /** Cleaning two texts joined by a run of spaces: the run becomes
      exactly one space and each text is cleaned on its own. */
  lemma RemoveExtraSpacesInterior(a: string, n: nat, b: string)
    requires n >= 1 && a != [] && b != []
    requires NoEdgeSpace(a) && NoEdgeSpace(b)
    ensures RemoveExtraSpaces(a + Blanks(n) + b) == RemoveExtraSpaces(a) + " " + RemoveExtraSpaces(b)
  {
    var ca, cb := CollapseSpaces(a), CollapseSpaces(b);
    CollapseInterior(a, n, b);
    CollapseLast(a);
    CollapseLast(b);
    StripNoEdgeSpace(ca);
    StripNoEdgeSpace(cb);
    var c := ca + " " + cb;
    assert c[0] == ca[0] && c[|c| - 1] == cb[|cb| - 1];
    StripNoEdgeSpace(c);
  }

  /** Text that has no whitespace at either end loses only spaces: every
      other character, tabs and newlines included, is kept in order. */
  lemma RemoveExtraSpacesKeepsOthers(s: string)
    requires NoEdgeSpace(s)
    ensures DropSpaces(RemoveExtraSpaces(s)) == DropSpaces(s)
  {
    var c := CollapseSpaces(s);
    CollapseKeepsOthers(s);
    CollapseLast(s);
    StripNoEdgeSpace(c);
  }
}
