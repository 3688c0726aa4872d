/**
 * Global regular-expression replacements over runs of characters, as the page-text cleaners
 * use them, and the adjacency facts their results satisfy.
 */
module Whitespace {
  import opened JsString

  /** The length of the longest prefix of `s` whose characters all belong to the class `p`. */
  function Run(s: string, p: char -> bool): (n: nat)
    ensures n <= |s|
    ensures forall i :: 0 <= i < n ==> p(s[i])
    ensures n < |s| ==> !p(s[n])
    decreases |s|
  {
    if s != [] && p(s[0]) then 1 + Run(s[1..], p) else 0
  }

  /** `s.replace(/[class]+/g, ' ')`: every maximal run of class characters becomes one space. */
  function CollapseRuns(s: string, p: char -> bool): (r: string)
    ensures |r| <= |s|
    ensures s != [] ==> r != [] && r[0] == (if p(s[0]) then ' ' else s[0])
    decreases |s|
  {
    if s == [] then []
    else if p(s[0]) then " " + CollapseRuns(s[Run(s, p)..], p)
    else [s[0]] + CollapseRuns(s[1..], p)
  }

  /** No `a` is immediately followed by a `b`. */
  predicate NoAdj(s: string, a: char, b: char) {
    forall i :: 0 <= i < |s| - 1 ==> !(s[i] == a && s[i + 1] == b)
  }

  /** The only class character that occurs is the space. */
  predicate SpacesOnly(s: string, p: char -> bool) {
    forall i :: 0 <= i < |s| ==> s[i] == ' ' || !p(s[i])
  }

  lemma NoAdjCons(c: char, t: string, a: char, b: char)
    requires NoAdj(t, a, b)
    requires t != [] ==> !(c == a && t[0] == b)
    ensures NoAdj([c] + t, a, b)
  {
    var s := [c] + t;
    forall i | 0 <= i < |s| - 1
      ensures !(s[i] == a && s[i + 1] == b)
    {
      if i > 0 {
        assert s[i] == t[i - 1] && s[i + 1] == t[i];
      }
    }
  }

  lemma NoAdjSlice(t: string, s: string, a: char, b: char)
    requires IsSlice(t, s) && NoAdj(s, a, b)
    ensures NoAdj(t, a, b)
  {
    var i, j :| 0 <= i <= j <= |s| && t == s[i..j];
    forall k | 0 <= k < |t| - 1
      ensures !(t[k] == a && t[k + 1] == b)
    {
      assert t[k] == s[i + k] && t[k + 1] == s[i + k + 1];
    }
  }

  lemma SpacesOnlyCons(c: char, t: string, p: char -> bool)
    requires SpacesOnly(t, p) && (c == ' ' || !p(c))
    ensures SpacesOnly([c] + t, p)
  {
    var s := [c] + t;
    forall i | 0 <= i < |s|
      ensures s[i] == ' ' || !p(s[i])
    {
      if i > 0 {
        assert s[i] == t[i - 1];
      }
    }
  }

  lemma SpacesOnlySlice(t: string, s: string, p: char -> bool)
    requires IsSlice(t, s) && SpacesOnly(s, p)
    ensures SpacesOnly(t, p)
  {
    var i, j :| 0 <= i <= j <= |s| && t == s[i..j];
    forall k | 0 <= k < |t|
      ensures t[k] == ' ' || !p(t[k])
    {
      assert t[k] == s[i + k];
    }
  }

  /** When the space is itself in the class, collapsing leaves no class character but the
      space, and never two spaces in a row. */
  lemma {:induction false} CollapseRunsClean(s: string, p: char -> bool)
    requires p(' ')
    ensures SpacesOnly(CollapseRuns(s, p), p)
    ensures NoAdj(CollapseRuns(s, p), ' ', ' ')
    decreases |s|
  {
    if s == [] {
    } else if p(s[0]) {
      var u := s[Run(s, p)..];
      CollapseRunsClean(u, p);
      NoAdjCons(' ', CollapseRuns(u, p), ' ', ' ');
      SpacesOnlyCons(' ', CollapseRuns(u, p), p);
    } else {
      CollapseRunsClean(s[1..], p);
      NoAdjCons(s[0], CollapseRuns(s[1..], p), ' ', ' ');
      SpacesOnlyCons(s[0], CollapseRuns(s[1..], p), p);
    }
  }

  /** Text that is already collapsed is left as it is. */
  lemma {:induction false} CollapseRunsFixed(s: string, p: char -> bool)
    requires p(' ') && SpacesOnly(s, p) && NoAdj(s, ' ', ' ')
    ensures CollapseRuns(s, p) == s
    decreases |s|
  {
    if s != [] {
      assert SpacesOnly(s[1..], p) && NoAdj(s[1..], ' ', ' ') by {
        SliceSuffix(s, 1);
        SpacesOnlySlice(s[1..], s, p);
        NoAdjSlice(s[1..], s, ' ', ' ');
      }
      if p(s[0]) {
        assert s[0] == ' ';
        assert Run(s, p) == 1 by {
          if |s| > 1 {
            assert !(s[0] == ' ' && s[1] == ' ');
          }
        }
        CollapseRunsFixed(s[1..], p);
      } else {
        CollapseRunsFixed(s[1..], p);
      }
    }
  }

  /** Collapsing brings in no character but the space. */
  lemma {:induction false} CollapseRunsChars(s: string, p: char -> bool)
    ensures forall c :: c in CollapseRuns(s, p) ==> c in s || c == ' '
    decreases |s|
  {
    if s != [] {
      var u := if p(s[0]) then s[Run(s, p)..] else s[1..];
      CollapseRunsChars(u, p);
      SuffixChars(s, |s| - |u|);
      assert u == s[|s| - |u|..];
    }
  }

  /** A run of class characters holds nothing outside the class. */
  lemma RunWithout(s: string, p: char -> bool)
    ensures Without(s, p) == Without(s[Run(s, p)..], p)
  {
    var n := Run(s, p);
    var run := s[..n];
    assert s == run + s[n..];
    WithoutAppend(run, s[n..], p);
    assert forall i :: 0 <= i < |run| ==> run[i] == s[i];
    WithoutAll(run, p);
  }

  /** Collapsing the runs of a class that holds the space keeps every character outside the
      class, in order: only class characters are replaced. */
  lemma {:induction false} CollapseRunsKeeps(s: string, p: char -> bool)
    requires p(' ')
    ensures Without(CollapseRuns(s, p), p) == Without(s, p)
    decreases |s|
  {
    if s != [] {
      if p(s[0]) {
        var rest := s[Run(s, p)..];
        CollapseRunsKeeps(rest, p);
        RunWithout(s, p);
        WithoutAppend(" ", CollapseRuns(rest, p), p);
        assert Without(" ", p) == [] by {
          assert " "[1..] == [];
        }
      } else {
        CollapseRunsKeeps(s[1..], p);
        WithoutAppend([s[0]], CollapseRuns(s[1..], p), p);
        assert Without([s[0]], p) == [s[0]] by {
          assert [s[0]][1..] == [];
        }
      }
    }
  }

  // ---------------------------------------------------------------------------
  // what the replacement puts in place of each run

  /** Text with no class character is left as it is. */
  lemma {:induction false} CollapseRunsPlain(s: string, p: char -> bool)
    requires forall i :: 0 <= i < |s| ==> !p(s[i])
    ensures CollapseRuns(s, p) == s
    decreases |s|
  {
    if s != [] {
      CollapseRunsPlain(s[1..], p);
    }
  }

  /** A run that stops inside `a` stops at the same place when more text follows. */
  lemma {:induction false} RunExtend(a: string, t: string, p: char -> bool)
    requires Run(a, p) < |a|
    ensures Run(a + t, p) == Run(a, p)
    decreases |a|
  {
    assert (a + t)[0] == a[0];
    if p(a[0]) {
      assert (a + t)[1..] == a[1..] + t;
      RunExtend(a[1..], t, p);
    }
  }

  /** A run of class characters with no class character after it is as long as it is. */
  lemma {:induction false} RunAll(w: string, b: string, p: char -> bool)
    requires forall i :: 0 <= i < |w| ==> p(w[i])
    requires b == [] || !p(b[0])
    ensures Run(w + b, p) == |w|
    decreases |w|
  {
    if w != [] {
      assert (w + b)[0] == w[0];
      assert (w + b)[1..] == w[1..] + b;
      RunAll(w[1..], b, p);
    } else {
      assert w + b == b;
    }
  }

  /** Text that is empty or ends outside the class collapses on its own: no run crosses
      its end. */
  lemma {:induction false} CollapseRunsSplit(a: string, t: string, p: char -> bool)
    requires a == [] || !p(a[|a| - 1])
    ensures CollapseRuns(a + t, p) == CollapseRuns(a, p) + CollapseRuns(t, p)
    decreases |a|
  {
    if a == [] {
      assert a + t == t && CollapseRuns(a, p) == [];
    } else {
      CollapseRunsSplit(RunRest(a, p), t, p);
      if p(a[0]) {
        CollapseRunsSplitRun(a, t, p);
      } else {
        CollapseRunsSplitKeep(a, t, p);
      }
    }
  }

  /** What is left of the text after its first character, or after the run it opens. */
  function RunRest(a: string, p: char -> bool): (r: string)
    requires a != []
    ensures |r| < |a| && (r != [] ==> r[|r| - 1] == a[|a| - 1])
  {
    if p(a[0]) then a[Run(a, p)..] else a[1..]
  }

  /** The step of CollapseRunsSplit for text that opens with a run: the run becomes one
      space whatever follows. */
  lemma CollapseRunsSplitRun(a: string, t: string, p: char -> bool)
    requires a != [] && !p(a[|a| - 1]) && p(a[0])
    requires CollapseRuns(RunRest(a, p) + t, p) == CollapseRuns(RunRest(a, p), p) + CollapseRuns(t, p)
    ensures CollapseRuns(a + t, p) == CollapseRuns(a, p) + CollapseRuns(t, p)
  {
    var x, y := CollapseRuns(RunRest(a, p), p), CollapseRuns(t, p);
    var s := a + t;
    var n := Run(a, p);
    assert s[0] == a[0];
    assert n < |a|;
    RunExtend(a, t, p);
    assert s[n..] == a[n..] + t;
    assert CollapseRuns(s, p) == " " + (x + y);
    assert CollapseRuns(a, p) == " " + x;
    Concat3(" ", x, y);
  }

  /** The step of CollapseRunsSplit for text whose first character is outside the class:
      it is kept whatever follows. */
  lemma CollapseRunsSplitKeep(a: string, t: string, p: char -> bool)
    requires a != [] && !p(a[0])
    requires CollapseRuns(a[1..] + t, p) == CollapseRuns(a[1..], p) + CollapseRuns(t, p)
    ensures CollapseRuns(a + t, p) == CollapseRuns(a, p) + CollapseRuns(t, p)
  {
    var x, y := CollapseRuns(a[1..], p), CollapseRuns(t, p);
    var s := a + t;
    assert s[0] == a[0];
    assert s[1..] == a[1..] + t;
    assert CollapseRuns(s, p) == [a[0]] + (x + y);
    assert CollapseRuns(a, p) == [a[0]] + x;
    Concat3([a[0]], x, y);
  }

  lemma Concat3(x: string, y: string, z: string)
    ensures x + (y + z) == (x + y) + z
  {
  }

  /** A run of class characters, with no class character after it, becomes one space. */
  lemma CollapseRunsRun(w: string, b: string, p: char -> bool)
    requires w != [] && forall i :: 0 <= i < |w| ==> p(w[i])
    requires b == [] || !p(b[0])
    ensures CollapseRuns(w + b, p) == " " + CollapseRuns(b, p)
  {
    RunAll(w, b, p);
    assert (w + b)[0] == w[0];
    assert (w + b)[|w|..] == b;
  }

  /** The replacement itself: a maximal run of class characters between two pieces of text
      becomes exactly one space, and the pieces either side are collapsed on their own. */
  lemma CollapseRunsBetween(a: string, w: string, b: string, p: char -> bool)
    requires a == [] || !p(a[|a| - 1])
    requires w != [] && forall i :: 0 <= i < |w| ==> p(w[i])
    requires b == [] || !p(b[0])
    ensures CollapseRuns(a + w + b, p) == CollapseRuns(a, p) + " " + CollapseRuns(b, p)
  {
    Concat3(a, w, b);
    CollapseRunsSplit(a, w + b, p);
    CollapseRunsRun(w, b, p);
    Concat3(CollapseRuns(a, p), " ", CollapseRuns(b, p));
  }

  /** A last character outside the class stays the last character. */
  lemma {:induction false} CollapseRunsLast(s: string, p: char -> bool)
    requires s != [] && !p(s[|s| - 1])
    ensures var r := CollapseRuns(s, p); r != [] && r[|r| - 1] == s[|s| - 1]
    decreases |s|
  {
    if p(s[0]) {
      var n := Run(s, p);
      assert n < |s|;
      var u := s[n..];
      assert u[|u| - 1] == s[|s| - 1];
      CollapseRunsLast(u, p);
    } else if |s| > 1 {
      var u := s[1..];
      assert u[|u| - 1] == s[|s| - 1];
      CollapseRunsLast(u, p);
    }
  }

  /** Every character of a suffix occurs in the whole. */
  lemma SuffixChars(s: string, k: nat)
    requires k <= |s|
    ensures forall c :: c in s[k..] ==> c in s
  {
    forall c | c in s[k..]
      ensures c in s
    {
      var i :| 0 <= i < |s| - k && s[k..][i] == c;
      assert s[k + i] == c;
    }
  }

  lemma SliceSuffix(s: string, k: nat)
    requires k <= |s|
    ensures IsSlice(s[k..], s)
  {
    assert s[k..] == s[k..|s|];
  }
}
