/**
 * The job-description extractor's content script: the choice of the element that holds the
 * description, the normalisation of its text, and the result it reports.
 */
module DescriptionExtractor {
  import opened Wrappers
  import opened JsString
  import opened Whitespace
  import opened Dom

  // ---------------------------------------------------------------------------
  // normalisation

  predicate IsBlank(c: char) { c == ' ' || c == '\t' }
  predicate IsNewline(c: char) { c == '\n' }
  predicate IsReturn(c: char) { c == '\r' }

  /** How many characters of the cleaned text are returned. */
  const DescriptionLimit: nat := 12000

  /** `s.replace(/\r\n/g, '\n')` */
  function CrLfToLf(s: string): (r: string)
    ensures |r| <= |s|
    decreases |s|
  {
    if |s| >= 2 && s[0] == '\r' && s[1] == '\n' then "\n" + CrLfToLf(s[2..])
    else if s == [] then []
    else [s[0]] + CrLfToLf(s[1..])
  }

  /** `s.replace(/\r/g, '\n')`: every carriage return becomes a newline. */
  function CrToLf(s: string): (r: string)
    ensures |r| == |s| && '\r' !in r
    ensures forall i :: 0 <= i < |s| ==> r[i] == (if s[i] == '\r' then '\n' else s[i])
  {
    seq(|s|, i requires 0 <= i < |s| => if s[i] == '\r' then '\n' else s[i])
  }

  /** `s.replace(/\n[ \t]+/g, '\n')`: the blanks that open a line are dropped. */
  function DropLeadingBlanks(s: string): (r: string)
    ensures |r| <= |s|
    ensures s != [] ==> r != [] && r[0] == s[0]
    decreases |s|
  {
    if s == [] then []
    else if s[0] == '\n' then "\n" + DropLeadingBlanks(s[1..][Run(s[1..], IsBlank)..])
    else [s[0]] + DropLeadingBlanks(s[1..])
  }

  /** Whether `s` opens with a run of blanks that a newline ends. */
  predicate BlanksThenNewline(s: string) {
    s != [] && IsBlank(s[0]) && Run(s, IsBlank) < |s| && s[Run(s, IsBlank)] == '\n'
  }

  /** `s.replace(/[ \t]+\n/g, '\n')`: the blanks that close a line are dropped. */
  function DropTrailingBlanks(s: string): (r: string)
    ensures |r| <= |s|
    ensures s != [] ==> r != [] && r[0] == (if BlanksThenNewline(s) then '\n' else s[0])
    decreases |s|
  {
    if s == [] then []
    else if BlanksThenNewline(s) then "\n" + DropTrailingBlanks(s[Run(s, IsBlank) + 1..])
    else [s[0]] + DropTrailingBlanks(s[1..])
  }

  /** `s.replace(/\n{3,}/g, '\n\n')`: a run of three or more newlines becomes two. */
  function CapNewlines(s: string): (r: string)
    ensures |r| <= |s|
    ensures |s| >= 1 ==> |r| >= 1 && r[0] == s[0]
    ensures |s| >= 2 ==> |r| >= 2 && r[1] == s[1]
    decreases |s|
  {
    if s == [] then []
    else if s[0] == '\n' && Run(s, IsNewline) >= 3 then "\n\n" + CapNewlines(s[Run(s, IsNewline)..])
    else [s[0]] + CapNewlines(s[1..])
  }

  /** The replace chain and the trim, before the length cap. */
  function NormalizeDescription(text: string): (r: string)
    ensures |r| <= |text|
  {
    var lf := CrToLf(CrLfToLf(text));
    Trim(CapNewlines(DropTrailingBlanks(DropLeadingBlanks(CollapseRuns(lf, IsBlank)))))
  }

  /** The text `elementToCleanText` returns: the first 12000 characters of the normalised
      text, or all of it when it is shorter. */
  function CleanText(text: string): (r: string)
    ensures |r| == if |NormalizeDescription(text)| <= DescriptionLimit then |NormalizeDescription(text)| else DescriptionLimit
    ensures |r| <= DescriptionLimit && |r| <= |NormalizeDescription(text)|
    ensures r == NormalizeDescription(text)[..|r|]
    ensures |NormalizeDescription(text)| <= DescriptionLimit ==> r == NormalizeDescription(text)
  {
    Truncate(NormalizeDescription(text), DescriptionLimit)
  }

  /** No three newlines in a row. */
  predicate NoTriple(s: string) {
    forall i :: 0 <= i < |s| - 2 ==> !(s[i] == '\n' && s[i + 1] == '\n' && s[i + 2] == '\n')
  }

  /** The shape the chain promises: no carriage return, no tab, no two spaces in a row, no
      space after or before a newline, no three newlines in a row. */
  predicate Tidy(s: string) {
    '\r' !in s && '\t' !in s && NoAdj(s, ' ', ' ') && NoAdj(s, '\n', ' ') && NoAdj(s, ' ', '\n')
    && NoTriple(s)
  }

  /** The cleaned text is tidy and does not start with white space. The cut can end on a
      space, so nothing is said of its last character. */
  lemma CleanTextTidy(text: string)
    ensures Tidy(CleanText(text))
    ensures CleanText(text) == [] || !IsSpace(CleanText(text)[0])
  {
    var n := NormalizeDescription(text);
    NormalizedTidy(text);
    assert CleanText(text) == n[0..|CleanText(text)|];
    TidySlice(CleanText(text), n);
  }

  /** The normalised text is tidy and has no white space at either end. */
  lemma NormalizedTidy(text: string)
    ensures var n := NormalizeDescription(text);
      Tidy(n) && (n == [] || (!IsSpace(n[0]) && !IsSpace(n[|n| - 1])))
  {
    var b := CrToLf(CrLfToLf(text));
    var c := CollapseRuns(b, IsBlank);
    CollapsedNoReturn(b);
    var d := DropLeadingBlanks(c);
    LeadingStep(c);
    var e := DropTrailingBlanks(d);
    TrailingStep(d);
    var f := CapNewlines(e);
    CapStep(e);
    TidySlice(Trim(f), f);
  }

  lemma CollapsedNoReturn(b: string)
    requires '\r' !in b
    ensures var c := CollapseRuns(b, IsBlank);
      '\r' !in c && '\t' !in c && NoAdj(c, ' ', ' ')
  {
    var c := CollapseRuns(b, IsBlank);
    CollapseRunsClean(b, IsBlank);
    CollapseRunsChars(b, IsBlank);
    forall i | 0 <= i < |c|
      ensures c[i] != '\t'
    {
      assert c[i] == ' ' || !IsBlank(c[i]);
    }
  }

  lemma LeadingStep(c: string)
    requires '\r' !in c && '\t' !in c && NoAdj(c, ' ', ' ')
    ensures var d := DropLeadingBlanks(c);
      '\r' !in d && '\t' !in d && NoAdj(d, ' ', ' ') && NoAdj(d, '\n', ' ')
  {
    LeadingChars(c);
    LeadingAfterNewline(c, ' ');
    LeadingSpaces(c);
  }

  lemma TrailingStep(d: string)
    requires '\r' !in d && '\t' !in d && NoAdj(d, ' ', ' ') && NoAdj(d, '\n', ' ')
    ensures var e := DropTrailingBlanks(d);
      '\r' !in e && '\t' !in e && NoAdj(e, ' ', ' ') && NoAdj(e, '\n', ' ') && NoAdj(e, ' ', '\n')
  {
    TrailingChars(d);
    TrailingSpaces(d);
    TrailingAfterNewline(d);
    TrailingBeforeNewline(d);
  }

  lemma CapStep(e: string)
    requires '\r' !in e && '\t' !in e && NoAdj(e, ' ', ' ') && NoAdj(e, '\n', ' ') && NoAdj(e, ' ', '\n')
    ensures Tidy(CapNewlines(e))
  {
    CapChars(e);
    CapKeepsPairs(e, ' ', ' ');
    CapKeepsPairs(e, '\n', ' ');
    CapKeepsPairs(e, ' ', '\n');
    CapNoTriple(e);
  }

  lemma TidySlice(t: string, s: string)
    requires IsSlice(t, s) && Tidy(s)
    ensures Tidy(t)
  {
    NoAdjSlice(t, s, ' ', ' ');
    NoAdjSlice(t, s, '\n', ' ');
    NoAdjSlice(t, s, ' ', '\n');
    NoTripleSlice(t, s);
    var i, j :| 0 <= i <= j <= |s| && t == s[i..j];
    forall k | 0 <= k < |t|
      ensures t[k] != '\r' && t[k] != '\t'
    {
      assert t[k] == s[i + k];
    }
  }

  lemma NoTripleSlice(t: string, s: string)
    requires IsSlice(t, s) && NoTriple(s)
    ensures NoTriple(t)
  {
    var i, j :| 0 <= i <= j <= |s| && t == s[i..j];
    forall k | 0 <= k < |t| - 2
      ensures !(t[k] == '\n' && t[k + 1] == '\n' && t[k + 2] == '\n')
    {
      assert t[k] == s[i + k] && t[k + 1] == s[i + k + 1] && t[k + 2] == s[i + k + 2];
    }
  }

  lemma NoTripleCons(c: char, t: string)
    requires NoTriple(t)
    requires |t| >= 2 ==> !(c == '\n' && t[0] == '\n' && t[1] == '\n')
    ensures NoTriple([c] + t)
  {
    var s := [c] + t;
    forall i | 0 <= i < |s| - 2
      ensures !(s[i] == '\n' && s[i + 1] == '\n' && s[i + 2] == '\n')
    {
      if i > 0 {
        assert s[i] == t[i - 1] && s[i + 1] == t[i] && s[i + 2] == t[i + 1];
      }
    }
  }

  // --- the blanks after a newline

  lemma {:induction false} LeadingChars(s: string)
    ensures forall c :: c in DropLeadingBlanks(s) ==> c in s
    decreases |s|
  {
    if s != [] {
      var u := if s[0] == '\n' then s[1..][Run(s[1..], IsBlank)..] else s[1..];
      assert u == s[|s| - |u|..];
      LeadingChars(u);
      SuffixChars(s, |s| - |u|);
    }
  }

  /** No blank follows a newline in the result. */
  lemma {:induction false} LeadingAfterNewline(s: string, b: char)
    requires IsBlank(b)
    ensures NoAdj(DropLeadingBlanks(s), '\n', b)
    decreases |s|
  {
    if s != [] {
      if s[0] == '\n' {
        var u := s[1..][Run(s[1..], IsBlank)..];
        LeadingAfterNewline(u, b);
        NoAdjCons('\n', DropLeadingBlanks(u), '\n', b);
      } else {
        LeadingAfterNewline(s[1..], b);
        NoAdjCons(s[0], DropLeadingBlanks(s[1..]), '\n', b);
      }
    }
  }

  lemma {:induction false} LeadingSpaces(s: string)
    requires NoAdj(s, ' ', ' ')
    ensures NoAdj(DropLeadingBlanks(s), ' ', ' ')
    decreases |s|
  {
    if s != [] {
      var u := if s[0] == '\n' then s[1..][Run(s[1..], IsBlank)..] else s[1..];
      assert u == s[|s| - |u|..];
      SliceSuffix(s, |s| - |u|);
      NoAdjSlice(u, s, ' ', ' ');
      LeadingSpaces(u);
      if s[0] != '\n' && |s| >= 2 {
        assert !(s[0] == ' ' && s[1] == ' ');
      }
      NoAdjCons(s[0], DropLeadingBlanks(u), ' ', ' ');
    }
  }

  // --- the blanks before a newline

  lemma {:induction false} TrailingChars(s: string)
    ensures forall c :: c in DropTrailingBlanks(s) ==> c in s
    decreases |s|
  {
    if s != [] {
      var u := if BlanksThenNewline(s) then s[Run(s, IsBlank) + 1..] else s[1..];
      assert u == s[|s| - |u|..];
      TrailingChars(u);
      SuffixChars(s, |s| - |u|);
      if BlanksThenNewline(s) {
        assert s[Run(s, IsBlank)] == '\n';
      }
    }
  }

  lemma {:induction false} TrailingSpaces(s: string)
    requires NoAdj(s, ' ', ' ')
    ensures NoAdj(DropTrailingBlanks(s), ' ', ' ')
    decreases |s|
  {
    if s != [] {
      var u := if BlanksThenNewline(s) then s[Run(s, IsBlank) + 1..] else s[1..];
      assert u == s[|s| - |u|..];
      SliceSuffix(s, |s| - |u|);
      NoAdjSlice(u, s, ' ', ' ');
      TrailingSpaces(u);
      if BlanksThenNewline(s) {
        NoAdjCons('\n', DropTrailingBlanks(u), ' ', ' ');
      } else {
        if |s| >= 2 {
          assert !(s[0] == ' ' && s[1] == ' ');
        }
        NoAdjCons(s[0], DropTrailingBlanks(u), ' ', ' ');
      }
    }
  }

  lemma {:induction false} TrailingAfterNewline(s: string)
    requires NoAdj(s, '\n', ' ')
    ensures NoAdj(DropTrailingBlanks(s), '\n', ' ')
    decreases |s|
  {
    if s != [] {
      var u := if BlanksThenNewline(s) then s[Run(s, IsBlank) + 1..] else s[1..];
      assert u == s[|s| - |u|..];
      SliceSuffix(s, |s| - |u|);
      NoAdjSlice(u, s, '\n', ' ');
      TrailingAfterNewline(u);
      if BlanksThenNewline(s) {
        var k := Run(s, IsBlank);
        if u != [] {
          assert u[0] == s[k + 1] && s[k] == '\n';
        }
        NoAdjCons('\n', DropTrailingBlanks(u), '\n', ' ');
      } else {
        if |s| >= 2 {
          assert !(s[0] == '\n' && s[1] == ' ');
        }
        NoAdjCons(s[0], DropTrailingBlanks(u), '\n', ' ');
      }
    }
  }

  lemma {:induction false} TrailingBeforeNewline(s: string)
    requires '\t' !in s
    ensures NoAdj(DropTrailingBlanks(s), ' ', '\n')
    decreases |s|
  {
    if s != [] {
      var u := if BlanksThenNewline(s) then s[Run(s, IsBlank) + 1..] else s[1..];
      assert u == s[|s| - |u|..];
      SuffixChars(s, |s| - |u|);
      TrailingBeforeNewline(u);
      if BlanksThenNewline(s) {
        NoAdjCons('\n', DropTrailingBlanks(u), ' ', '\n');
      } else {
        if s[0] == ' ' && |s| >= 2 {
          assert Run(s, IsBlank) == 1 + Run(u, IsBlank);
          assert BlanksThenNewline(u) ==> BlanksThenNewline(s);
          assert u[0] == '\n' ==> BlanksThenNewline(s);
        }
        NoAdjCons(s[0], DropTrailingBlanks(u), ' ', '\n');
      }
    }
  }

  // --- the newline cap

  lemma {:induction false} CapChars(s: string)
    ensures forall c :: c in CapNewlines(s) ==> c in s
    decreases |s|
  {
    if s != [] {
      var u := if s[0] == '\n' && Run(s, IsNewline) >= 3 then s[Run(s, IsNewline)..] else s[1..];
      assert u == s[|s| - |u|..];
      CapChars(u);
      SuffixChars(s, |s| - |u|);
    }
  }

  /** The cap keeps every adjacency it found absent, except two newlines in a row. */
  lemma {:induction false} CapKeepsPairs(s: string, a: char, b: char)
    requires !(a == '\n' && b == '\n') && NoAdj(s, a, b)
    ensures NoAdj(CapNewlines(s), a, b)
    decreases |s|
  {
    if s != [] {
      var k := Run(s, IsNewline);
      var u := if s[0] == '\n' && k >= 3 then s[k..] else s[1..];
      assert u == s[|s| - |u|..];
      SliceSuffix(s, |s| - |u|);
      NoAdjSlice(u, s, a, b);
      CapKeepsPairs(u, a, b);
      if s[0] == '\n' && k >= 3 {
        CapRunKeepsPairs(s, a, b);
      } else {
        CapCharKeepsPairs(s, a, b);
      }
    }
  }

  /** A run of three or more newlines becomes two: the pairs around it stay absent. */
  lemma CapRunKeepsPairs(s: string, a: char, b: char)
    requires s != [] && s[0] == '\n' && Run(s, IsNewline) >= 3
    requires !(a == '\n' && b == '\n') && NoAdj(s, a, b)
    requires NoAdj(CapNewlines(s[Run(s, IsNewline)..]), a, b)
    ensures NoAdj(CapNewlines(s), a, b)
  {
    var k := Run(s, IsNewline);
    var rest := CapNewlines(s[k..]);
    assert CapNewlines(s) == "\n\n" + rest;
    if rest != [] {
      assert rest[0] == s[k] && s[k - 1] == '\n';
      assert !(s[k - 1] == a && s[k] == b);
    }
    NoAdjCons('\n', rest, a, b);
    NoAdjCons('\n', ['\n'] + rest, a, b);
    assert "\n\n" + rest == ['\n'] + (['\n'] + rest);
  }

  /** Any other first character is kept: the pair it forms with the next one stays absent. */
  lemma CapCharKeepsPairs(s: string, a: char, b: char)
    requires s != [] && !(s[0] == '\n' && Run(s, IsNewline) >= 3)
    requires NoAdj(s, a, b) && NoAdj(CapNewlines(s[1..]), a, b)
    ensures NoAdj(CapNewlines(s), a, b)
  {
    if |s| >= 2 {
      assert !(s[0] == a && s[1] == b);
    }
    NoAdjCons(s[0], CapNewlines(s[1..]), a, b);
  }

  lemma {:induction false} CapNoTriple(s: string)
    ensures NoTriple(CapNewlines(s))
    decreases |s|
  {
    if s != [] {
      var k := Run(s, IsNewline);
      if s[0] == '\n' && k >= 3 {
        var u := s[k..];
        CapNoTriple(u);
        NoTripleCons('\n', CapNewlines(u));
        NoTripleCons('\n', "\n" + CapNewlines(u));
        assert "\n\n" + CapNewlines(u) == ['\n'] + ("\n" + CapNewlines(u));
      } else {
        CapNoTriple(s[1..]);
        if |s| >= 3 {
          assert !(s[0] == '\n' && s[1] == '\n' && s[2] == '\n') by {
            if s[0] == '\n' && s[1] == '\n' {
              assert Run(s, IsNewline) == 2 + Run(s[2..], IsNewline) by {
                assert s[1..][1..] == s[2..];
              }
            }
          }
        }
        NoTripleCons(s[0], CapNewlines(s[1..]));
      }
    }
  }
  // --- what each replacement keeps

  /** `replace(/\r\n/g, '\n')` removes carriage returns and nothing else. */
  lemma {:induction false} CrLfToLfKeeps(s: string)
    ensures Without(CrLfToLf(s), IsReturn) == Without(s, IsReturn)
    decreases |s|
  {
    if |s| >= 2 && s[0] == '\r' && s[1] == '\n' {
      var u := s[2..];
      CrLfToLfKeeps(u);
      WithoutCons('\n', CrLfToLf(u), IsReturn);
      assert s == [s[0]] + ([s[1]] + u);
      WithoutCons(s[0], [s[1]] + u, IsReturn);
      WithoutCons(s[1], u, IsReturn);
    } else if s != [] {
      CrLfToLfKeeps(s[1..]);
      WithoutCons(s[0], CrLfToLf(s[1..]), IsReturn);
      assert s == [s[0]] + s[1..];
      WithoutCons(s[0], s[1..], IsReturn);
    }
  }

  /** Text without carriage returns passes unchanged. */
  lemma {:induction false} CrLfToLfClean(s: string)
    requires '\r' !in s
    ensures CrLfToLf(s) == s
    decreases |s|
  {
    if s != [] {
      assert s[0] != '\r';
      assert '\r' !in s[1..] by {
        SuffixChars(s, 1);
      }
      CrLfToLfClean(s[1..]);
      assert s == [s[0]] + s[1..];
    }
  }

  /** `replace(/\r/g, '\n')` turns white space into white space and touches nothing else. */
  lemma CrToLfKeeps(s: string)
    ensures Without(CrToLf(s), IsSpace) == Without(s, IsSpace)
  {
    WithoutPointwise(CrToLf(s), s, IsSpace);
  }

  /** `replace(/\n[ \t]+/g, '\n')` removes blanks and nothing else. */
  lemma {:induction false} DropLeadingBlanksKeeps(s: string)
    ensures Without(DropLeadingBlanks(s), IsBlank) == Without(s, IsBlank)
    decreases |s|
  {
    if s != [] {
      var t := s[1..];
      assert s == [s[0]] + t;
      WithoutCons(s[0], t, IsBlank);
      if s[0] == '\n' {
        var u := t[Run(t, IsBlank)..];
        DropLeadingBlanksKeeps(u);
        RunWithout(t, IsBlank);
        WithoutCons('\n', DropLeadingBlanks(u), IsBlank);
      } else {
        DropLeadingBlanksKeeps(t);
        WithoutCons(s[0], DropLeadingBlanks(t), IsBlank);
      }
    }
  }

  /** Text in which no blank follows a newline passes unchanged. */
  lemma {:induction false} DropLeadingBlanksClean(s: string)
    requires NoAdj(s, '\n', ' ') && NoAdj(s, '\n', '\t')
    ensures DropLeadingBlanks(s) == s
    decreases |s|
  {
    if s != [] {
      var t := s[1..];
      SliceSuffix(s, 1);
      NoAdjSlice(t, s, '\n', ' ');
      NoAdjSlice(t, s, '\n', '\t');
      if s[0] == '\n' && t != [] {
        assert t[0] == s[1];
        assert !IsBlank(t[0]);
      }
      assert s[0] == '\n' ==> t[Run(t, IsBlank)..] == t;
      DropLeadingBlanksClean(t);
      assert s == [s[0]] + t;
    }
  }

  /** `replace(/[ \t]+\n/g, '\n')` removes blanks and nothing else. */
  lemma {:induction false} DropTrailingBlanksKeeps(s: string)
    ensures Without(DropTrailingBlanks(s), IsBlank) == Without(s, IsBlank)
    decreases |s|
  {
    if s != [] {
      if BlanksThenNewline(s) {
        var n := Run(s, IsBlank);
        var u := s[n + 1..];
        DropTrailingBlanksKeeps(u);
        RunWithout(s, IsBlank);
        assert s[n..] == [s[n]] + u;
        WithoutCons(s[n], u, IsBlank);
        WithoutCons('\n', DropTrailingBlanks(u), IsBlank);
      } else {
        DropTrailingBlanksKeeps(s[1..]);
        assert s == [s[0]] + s[1..];
        WithoutCons(s[0], s[1..], IsBlank);
        WithoutCons(s[0], DropTrailingBlanks(s[1..]), IsBlank);
      }
    }
  }

  /** Where no blank comes right before a newline, no run of blanks ends at one. */
  lemma NoBlanksThenNewline(s: string)
    requires NoAdj(s, ' ', '\n') && NoAdj(s, '\t', '\n')
    ensures !BlanksThenNewline(s)
  {
    if s != [] && IsBlank(s[0]) && Run(s, IsBlank) < |s| {
      var n := Run(s, IsBlank);
      assert IsBlank(s[n - 1]);
      assert s[n] != '\n';
    }
  }

  /** Text in which no blank comes right before a newline passes unchanged. */
  lemma {:induction false} DropTrailingBlanksClean(s: string)
    requires NoAdj(s, ' ', '\n') && NoAdj(s, '\t', '\n')
    ensures DropTrailingBlanks(s) == s
    decreases |s|
  {
    if s != [] {
      NoBlanksThenNewline(s);
      var t := s[1..];
      SliceSuffix(s, 1);
      NoAdjSlice(t, s, ' ', '\n');
      NoAdjSlice(t, s, '\t', '\n');
      DropTrailingBlanksClean(t);
      assert s == [s[0]] + t;
    }
  }

  /** `replace(/\n{3,}/g, '\n\n')` removes newlines and nothing else. */
  lemma {:induction false} CapNewlinesKeeps(s: string)
    ensures Without(CapNewlines(s), IsNewline) == Without(s, IsNewline)
    decreases |s|
  {
    if s != [] {
      if s[0] == '\n' && Run(s, IsNewline) >= 3 {
        var u := s[Run(s, IsNewline)..];
        CapNewlinesKeeps(u);
        RunWithout(s, IsNewline);
        WithoutAppend("\n\n", CapNewlines(u), IsNewline);
        WithoutAll("\n\n", IsNewline);
      } else {
        CapNewlinesKeeps(s[1..]);
        assert s == [s[0]] + s[1..];
        WithoutCons(s[0], s[1..], IsNewline);
        WithoutCons(s[0], CapNewlines(s[1..]), IsNewline);
      }
    }
  }

  lemma ShortNewlineRun(s: string)
    requires s != [] && NoTriple(s)
    ensures Run(s, IsNewline) < 3
  {
    if |s| >= 3 && s[0] == '\n' && s[1] == '\n' {
      assert s[2] != '\n';
    }
  }

  /** Text with no three newlines in a row passes unchanged. */
  lemma {:induction false} CapNewlinesClean(s: string)
    requires NoTriple(s)
    ensures CapNewlines(s) == s
    decreases |s|
  {
    if s != [] {
      ShortNewlineRun(s);
      var t := s[1..];
      SliceSuffix(s, 1);
      NoTripleSlice(t, s);
      CapNewlinesClean(t);
      assert s == [s[0]] + t;
    }
  }

  // --- what each replacement puts in place of a match

  /** A leading `\r\n` becomes `\n`. */
  lemma CrLfToLfPairHead(s: string)
    requires |s| >= 2 && s[0] == '\r' && s[1] == '\n'
    ensures CrLfToLf(s) == "\n" + CrLfToLf(s[2..])
  {
  }

  /** A first character that does not open a `\r\n` pair is kept. */
  lemma CrLfToLfKeepHead(s: string)
    requires s != [] && !(|s| >= 2 && s[0] == '\r' && s[1] == '\n')
    ensures CrLfToLf(s) == [s[0]] + CrLfToLf(s[1..])
  {
  }

  /** What is left of the text after its first character, or after the `\r\n` pair it
      opens. */
  function CrLfRest(a: string): (r: string)
    requires a != []
    ensures |r| < |a| && (r != [] ==> r[|r| - 1] == a[|a| - 1])
  {
    if |a| >= 2 && a[0] == '\r' && a[1] == '\n' then a[2..] else a[1..]
  }

  /** Text that is empty or does not end in `\r` is rewritten by itself: no `\r\n` pair
      crosses its end. */
  lemma {:induction false} CrLfToLfSplit(a: string, t: string)
    requires a == [] || a[|a| - 1] != '\r'
    ensures CrLfToLf(a + t) == CrLfToLf(a) + CrLfToLf(t)
    decreases |a|
  {
    if a == [] {
      assert a + t == t && CrLfToLf(a) == [];
    } else {
      CrLfToLfSplit(CrLfRest(a), t);
      CrLfToLfSplitStep(a, t);
    }
  }

  /** The step of CrLfToLfSplit: the first character, or the pair it opens, is rewritten the
      same whatever follows. */
  lemma CrLfToLfSplitStep(a: string, t: string)
    requires a != [] && a[|a| - 1] != '\r'
    requires CrLfToLf(CrLfRest(a) + t) == CrLfToLf(CrLfRest(a)) + CrLfToLf(t)
    ensures CrLfToLf(a + t) == CrLfToLf(a) + CrLfToLf(t)
  {
    if |a| >= 2 && a[0] == '\r' && a[1] == '\n' {
      CrLfToLfSplitPair(a, t);
    } else {
      CrLfToLfSplitKeep(a, t);
    }
  }

  /** CrLfToLfSplitStep for text that opens with a `\r\n` pair. */
  lemma CrLfToLfSplitPair(a: string, t: string)
    requires |a| >= 2 && a[0] == '\r' && a[1] == '\n'
    requires CrLfToLf(a[2..] + t) == CrLfToLf(a[2..]) + CrLfToLf(t)
    ensures CrLfToLf(a + t) == CrLfToLf(a) + CrLfToLf(t)
  {
    var s := a + t;
    assert s[0] == '\r' && s[1] == '\n';
    assert s[2..] == a[2..] + t;
    CrLfToLfPairHead(a);
    CrLfToLfPairHead(s);
    Assoc("\n", CrLfToLf(a[2..]), CrLfToLf(t));
  }

  /** CrLfToLfSplitStep for text whose first character does not open a pair. */
  lemma CrLfToLfSplitKeep(a: string, t: string)
    requires a != [] && a[|a| - 1] != '\r'
    requires !(|a| >= 2 && a[0] == '\r' && a[1] == '\n')
    requires CrLfToLf(a[1..] + t) == CrLfToLf(a[1..]) + CrLfToLf(t)
    ensures CrLfToLf(a + t) == CrLfToLf(a) + CrLfToLf(t)
  {
    var s := a + t;
    assert s[0] == a[0];
    assert |a| >= 2 ==> s[1] == a[1];
    assert |a| == 1 ==> a[0] != '\r';
    assert s[1..] == a[1..] + t;
    CrLfToLfKeepHead(a);
    CrLfToLfKeepHead(s);
    Assoc([a[0]], CrLfToLf(a[1..]), CrLfToLf(t));
  }

  /** Each `\r\n` pair becomes one `\n`. */
  lemma CrLfToLfPair(a: string, b: string)
    requires a == [] || a[|a| - 1] != '\r'
    ensures CrLfToLf(a + "\r\n" + b) == CrLfToLf(a) + "\n" + CrLfToLf(b)
  {
    Assoc(a, "\r\n", b);
    CrLfToLfSplit(a, "\r\n" + b);
    CrLfToLfPairHead("\r\n" + b);
    assert ("\r\n" + b)[2..] == b;
    Assoc(CrLfToLf(a), "\n", CrLfToLf(b));
  }

  /** A `\r` that no `\n` follows is kept. */
  lemma CrLfToLfLoneReturn(a: string, b: string)
    requires a == [] || a[|a| - 1] != '\r'
    requires b == [] || b[0] != '\n'
    ensures CrLfToLf(a + "\r" + b) == CrLfToLf(a) + "\r" + CrLfToLf(b)
  {
    Assoc(a, "\r", b);
    CrLfToLfSplit(a, "\r" + b);
    CrLfToLfKeepHead("\r" + b);
    assert ("\r" + b)[1..] == b;
    Assoc(CrLfToLf(a), "\r", CrLfToLf(b));
  }

  /** Blanks after a leading newline go, whatever follows them, when a character that is
      not a blank ends them inside `a`. */
  lemma DropLeadingBlanksCutAppend(a: string, t: string)
    requires a != [] && a[0] == '\n' && Run(a[1..], IsBlank) < |a| - 1
    ensures DropLeadingBlanks(a + t) == "\n" + DropLeadingBlanks(a[1..][Run(a[1..], IsBlank)..] + t)
  {
    var s := a + t;
    var a1 := a[1..];
    var n := Run(a1, IsBlank);
    assert s[0] == a[0];
    assert s[1..] == a1 + t;
    RunExtend(a1, t, IsBlank);
    assert (a1 + t)[n..] == a1[n..] + t;
  }

  /** What is left of the text after its first character, or after the newline it opens
      and the blanks that follow it. */
  function LeadingRest(a: string): (r: string)
    requires a != []
    ensures |r| < |a| && (r != [] ==> r[|r| - 1] == a[|a| - 1])
  {
    if a[0] == '\n' then a[1..][Run(a[1..], IsBlank)..] else a[1..]
  }

  /** Text that is empty or ends in neither a newline nor a blank loses its line-opening
      blanks by itself: no match crosses its end. */
  lemma {:induction false} DropLeadingBlanksSplit(a: string, t: string)
    requires a == [] || (a[|a| - 1] != '\n' && !IsBlank(a[|a| - 1]))
    ensures DropLeadingBlanks(a + t) == DropLeadingBlanks(a) + DropLeadingBlanks(t)
    decreases |a|
  {
    if a == [] {
      assert a + t == t && DropLeadingBlanks(a) == [];
    } else {
      DropLeadingBlanksSplit(LeadingRest(a), t);
      if a[0] == '\n' {
        DropLeadingBlanksSplitCut(a, t);
      } else {
        DropLeadingBlanksSplitKeep(a, t);
      }
    }
  }

  /** The step of DropLeadingBlanksSplit for text that opens with a newline. */
  lemma DropLeadingBlanksSplitCut(a: string, t: string)
    requires a != [] && a[|a| - 1] != '\n' && !IsBlank(a[|a| - 1]) && a[0] == '\n'
    requires var u := a[1..][Run(a[1..], IsBlank)..];
      DropLeadingBlanks(u + t) == DropLeadingBlanks(u) + DropLeadingBlanks(t)
    ensures DropLeadingBlanks(a + t) == DropLeadingBlanks(a) + DropLeadingBlanks(t)
  {
    var a1 := a[1..];
    assert a1[|a1| - 1] == a[|a| - 1];
    var u := a1[Run(a1, IsBlank)..];
    DropLeadingBlanksCutAppend(a, t);
    Assoc("\n", DropLeadingBlanks(u), DropLeadingBlanks(t));
  }

  /** The step of DropLeadingBlanksSplit for text that does not open with a newline. */
  lemma DropLeadingBlanksSplitKeep(a: string, t: string)
    requires a != [] && a[0] != '\n'
    requires DropLeadingBlanks(a[1..] + t) == DropLeadingBlanks(a[1..]) + DropLeadingBlanks(t)
    ensures DropLeadingBlanks(a + t) == DropLeadingBlanks(a) + DropLeadingBlanks(t)
  {
    var x, y := DropLeadingBlanks(a[1..]), DropLeadingBlanks(t);
    var s := a + t;
    assert s[0] == a[0];
    assert s[1..] == a[1..] + t;
    assert DropLeadingBlanks(s) == [a[0]] + (x + y);
    assert DropLeadingBlanks(a) == [a[0]] + x;
    Assoc([a[0]], x, y);
  }

  /** The blanks right after a newline go, up to the next character that is not a blank. */
  lemma DropLeadingBlanksRun(w: string, b: string)
    requires forall i :: 0 <= i < |w| ==> IsBlank(w[i])
    requires b == [] || !IsBlank(b[0])
    ensures DropLeadingBlanks("\n" + w + b) == "\n" + DropLeadingBlanks(b)
  {
    var s := "\n" + w + b;
    assert s[1..] == w + b;
    RunAll(w, b, IsBlank);
    assert (w + b)[|w|..] == b;
  }

  /** Blanks not preceded by a newline are kept. */
  lemma {:induction false} DropLeadingBlanksKeepsBlanks(w: string, b: string)
    requires forall i :: 0 <= i < |w| ==> IsBlank(w[i])
    ensures DropLeadingBlanks(w + b) == w + DropLeadingBlanks(b)
    decreases |w|
  {
    if w == [] {
      assert w + b == b;
    } else {
      assert (w + b)[0] == w[0];
      assert (w + b)[1..] == w[1..] + b;
      DropLeadingBlanksKeepsBlanks(w[1..], b);
    }
  }

  /** The replacement in context: the blanks after a newline go. */
  lemma DropLeadingBlanksAfterNewline(a: string, w: string, b: string)
    requires a == [] || (a[|a| - 1] != '\n' && !IsBlank(a[|a| - 1]))
    requires forall i :: 0 <= i < |w| ==> IsBlank(w[i])
    requires b == [] || !IsBlank(b[0])
    ensures DropLeadingBlanks(a + "\n" + w + b) == DropLeadingBlanks(a) + "\n" + DropLeadingBlanks(b)
  {
    Assoc(a, "\n", w);
    Assoc(a, "\n" + w, b);
    DropLeadingBlanksSplit(a, "\n" + w + b);
    DropLeadingBlanksRun(w, b);
    Assoc(DropLeadingBlanks(a), "\n", DropLeadingBlanks(b));
  }

  /** The replacement in context: blanks after any character but a newline stay. */
  lemma DropLeadingBlanksElsewhere(a: string, w: string, b: string)
    requires a != [] && a[|a| - 1] != '\n' && !IsBlank(a[|a| - 1])
    requires forall i :: 0 <= i < |w| ==> IsBlank(w[i])
    ensures DropLeadingBlanks(a + w + b) == DropLeadingBlanks(a) + w + DropLeadingBlanks(b)
  {
    Assoc(a, w, b);
    DropLeadingBlanksSplit(a, w + b);
    DropLeadingBlanksKeepsBlanks(w, b);
    Assoc(DropLeadingBlanks(a), w, DropLeadingBlanks(b));
  }

  /** What is left of the text after its first character, or after the blanks and the
      newline it opens with. */
  function TrailingRest(a: string): (r: string)
    requires a != []
    ensures |r| < |a| && (r != [] ==> r[|r| - 1] == a[|a| - 1])
  {
    if BlanksThenNewline(a) then a[Run(a, IsBlank) + 1..] else a[1..]
  }

  /** Text that is empty or does not end in a blank loses its line-closing blanks by
      itself: no match crosses its end. */
  lemma {:induction false} DropTrailingBlanksSplit(a: string, t: string)
    requires a == [] || !IsBlank(a[|a| - 1])
    ensures DropTrailingBlanks(a + t) == DropTrailingBlanks(a) + DropTrailingBlanks(t)
    decreases |a|
  {
    if a == [] {
      assert a + t == t && DropTrailingBlanks(a) == [];
    } else {
      DropTrailingBlanksSplit(TrailingRest(a), t);
      if BlanksThenNewline(a) {
        DropTrailingBlanksSplitCut(a, t);
      } else {
        DropTrailingBlanksSplitKeep(a, t);
      }
    }
  }

  /** The step of DropTrailingBlanksSplit for text that opens with blanks and a newline. */
  lemma DropTrailingBlanksSplitCut(a: string, t: string)
    requires BlanksThenNewline(a)
    requires DropTrailingBlanks(TrailingRest(a) + t)
      == DropTrailingBlanks(TrailingRest(a)) + DropTrailingBlanks(t)
    ensures DropTrailingBlanks(a + t) == DropTrailingBlanks(a) + DropTrailingBlanks(t)
  {
    var x, y := DropTrailingBlanks(TrailingRest(a)), DropTrailingBlanks(t);
    DropTrailingBlanksCutAppend(a, t);
    assert DropTrailingBlanks(a) == "\n" + x;
    Assoc("\n", x, y);
  }

  /** The step of DropTrailingBlanksSplit for text whose first character is kept. */
  lemma DropTrailingBlanksSplitKeep(a: string, t: string)
    requires a != [] && !IsBlank(a[|a| - 1]) && !BlanksThenNewline(a)
    requires DropTrailingBlanks(a[1..] + t) == DropTrailingBlanks(a[1..]) + DropTrailingBlanks(t)
    ensures DropTrailingBlanks(a + t) == DropTrailingBlanks(a) + DropTrailingBlanks(t)
  {
    DropTrailingBlanksKeepAppend(a, t);
    Assoc([a[0]], DropTrailingBlanks(a[1..]), DropTrailingBlanks(t));
  }

  /** Blanks and the newline that ends them are replaced the same whatever follows. */
  lemma DropTrailingBlanksCutAppend(a: string, t: string)
    requires BlanksThenNewline(a)
    ensures DropTrailingBlanks(a + t) == "\n" + DropTrailingBlanks(a[Run(a, IsBlank) + 1..] + t)
  {
    var n := Run(a, IsBlank);
    var s := a + t;
    RunExtend(a, t, IsBlank);
    assert s[0] == a[0] && s[n] == a[n];
    assert s[n + 1..] == a[n + 1..] + t;
  }

  /** A first character that opens no match is kept whatever follows, when the text does
      not end in a blank. */
  lemma DropTrailingBlanksKeepAppend(a: string, t: string)
    requires a != [] && !IsBlank(a[|a| - 1]) && !BlanksThenNewline(a)
    ensures DropTrailingBlanks(a + t) == [a[0]] + DropTrailingBlanks(a[1..] + t)
  {
    var s := a + t;
    assert s[0] == a[0];
    if IsBlank(a[0]) {
      var n := Run(a, IsBlank);
      assert n < |a|;
      RunExtend(a, t, IsBlank);
      assert s[n] == a[n];
    }
    assert !BlanksThenNewline(s);
    assert s[1..] == a[1..] + t;
  }

  /** Blanks right before a newline go. */
  lemma DropTrailingBlanksRun(w: string, b: string)
    requires w != [] && forall i :: 0 <= i < |w| ==> IsBlank(w[i])
    ensures DropTrailingBlanks(w + "\n" + b) == "\n" + DropTrailingBlanks(b)
  {
    var s := w + ("\n" + b);
    assert w + "\n" + b == s;
    RunAll(w, "\n" + b, IsBlank);
    assert s[0] == w[0] && s[|w|] == '\n';
    assert s[|w| + 1..] == b;
  }

  /** Blanks that no newline follows are kept. */
  lemma {:induction false} DropTrailingBlanksKeepsBlanks(w: string, b: string)
    requires forall i :: 0 <= i < |w| ==> IsBlank(w[i])
    requires b == [] || (b[0] != '\n' && !IsBlank(b[0]))
    ensures DropTrailingBlanks(w + b) == w + DropTrailingBlanks(b)
    decreases |w|
  {
    if w == [] {
      assert w + b == b;
    } else {
      var s := w + b;
      RunAll(w, b, IsBlank);
      assert |w| < |s| ==> s[|w|] == b[0];
      assert !BlanksThenNewline(s);
      assert s[0] == w[0];
      assert s[1..] == w[1..] + b;
      DropTrailingBlanksKeepsBlanks(w[1..], b);
    }
  }

  /** The replacement in context: the blanks before a newline go. */
  lemma DropTrailingBlanksBeforeNewline(a: string, w: string, b: string)
    requires a == [] || !IsBlank(a[|a| - 1])
    requires w != [] && forall i :: 0 <= i < |w| ==> IsBlank(w[i])
    ensures DropTrailingBlanks(a + w + "\n" + b) == DropTrailingBlanks(a) + "\n" + DropTrailingBlanks(b)
  {
    Assoc(a, w, "\n");
    Assoc(a, w + "\n", b);
    DropTrailingBlanksSplit(a, w + "\n" + b);
    DropTrailingBlanksRun(w, b);
    Assoc(DropTrailingBlanks(a), "\n", DropTrailingBlanks(b));
  }

  /** The replacement in context: blanks before any character but a newline, or at the
      end, stay. */
  lemma DropTrailingBlanksElsewhere(a: string, w: string, b: string)
    requires a == [] || !IsBlank(a[|a| - 1])
    requires forall i :: 0 <= i < |w| ==> IsBlank(w[i])
    requires b == [] || (b[0] != '\n' && !IsBlank(b[0]))
    ensures DropTrailingBlanks(a + w + b) == DropTrailingBlanks(a) + w + DropTrailingBlanks(b)
  {
    Assoc(a, w, b);
    DropTrailingBlanksSplit(a, w + b);
    DropTrailingBlanksKeepsBlanks(w, b);
    Assoc(DropTrailingBlanks(a), w, DropTrailingBlanks(b));
  }

  /** A run of three or more newlines opening the text becomes two. */
  lemma CapNewlinesCut(s: string)
    requires s != [] && s[0] == '\n' && Run(s, IsNewline) >= 3
    ensures CapNewlines(s) == "\n\n" + CapNewlines(s[Run(s, IsNewline)..])
  {
  }

  /** Text that is empty or does not end in a newline is capped by itself: no run of
      newlines crosses its end. */
  lemma {:induction false} CapNewlinesSplit(a: string, t: string)
    requires a == [] || a[|a| - 1] != '\n'
    ensures CapNewlines(a + t) == CapNewlines(a) + CapNewlines(t)
    decreases |a|
  {
    if a == [] {
      assert a + t == t;
    } else {
      var n := Run(a, IsNewline);
      var u := if a[0] == '\n' && n >= 3 then a[n..] else a[1..];
      assert u != [] ==> u[|u| - 1] == a[|a| - 1];
      CapNewlinesSplit(u, t);
      if a[0] == '\n' && n >= 3 {
        CapNewlinesSplitCut(a, t);
      } else {
        CapNewlinesSplitKeep(a, t);
      }
    }
  }

  /** The step of CapNewlinesSplit for text that opens with a run of three or more. */
  lemma CapNewlinesSplitCut(a: string, t: string)
    requires a != [] && a[|a| - 1] != '\n' && a[0] == '\n' && Run(a, IsNewline) >= 3
    requires CapNewlines(a[Run(a, IsNewline)..] + t) == CapNewlines(a[Run(a, IsNewline)..]) + CapNewlines(t)
    ensures CapNewlines(a + t) == CapNewlines(a) + CapNewlines(t)
  {
    var u := a[Run(a, IsNewline)..];
    CapNewlinesCutAppend(a, t);
    CapNewlinesCut(a);
    Assoc("\n\n", CapNewlines(u), CapNewlines(t));
  }

  /** A run of three or more newlines that ends inside `a` is cut the same whatever follows. */
  lemma CapNewlinesCutAppend(a: string, t: string)
    requires a != [] && a[0] == '\n' && 3 <= Run(a, IsNewline) < |a|
    ensures CapNewlines(a + t) == "\n\n" + CapNewlines(a[Run(a, IsNewline)..] + t)
  {
    var n := Run(a, IsNewline);
    var s := a + t;
    RunExtend(a, t, IsNewline);
    assert s[0] == a[0];
    assert s[n..] == a[n..] + t;
  }

  /** The step of CapNewlinesSplit for text whose first character is kept. */
  lemma CapNewlinesSplitKeep(a: string, t: string)
    requires a != [] && a[|a| - 1] != '\n' && !(a[0] == '\n' && Run(a, IsNewline) >= 3)
    requires CapNewlines(a[1..] + t) == CapNewlines(a[1..]) + CapNewlines(t)
    ensures CapNewlines(a + t) == CapNewlines(a) + CapNewlines(t)
  {
    CapNewlinesKeepAppend(a, t);
    assert a == [a[0]] + a[1..];
    CapNewlinesKeep(a[0], a[1..]);
    Assoc([a[0]], CapNewlines(a[1..]), CapNewlines(t));
  }

  /** A first character that opens no run of three or more is kept whatever follows, when
      the text does not end in a newline. */
  lemma CapNewlinesKeepAppend(a: string, t: string)
    requires a != [] && a[|a| - 1] != '\n' && !(a[0] == '\n' && Run(a, IsNewline) >= 3)
    ensures CapNewlines(a + t) == [a[0]] + CapNewlines(a[1..] + t)
  {
    if a[0] == '\n' {
      RunExtend(a, t, IsNewline);
    }
    assert a + t == [a[0]] + (a[1..] + t);
    CapNewlinesKeep(a[0], a[1..] + t);
  }

  /** A character that does not open a run of three or more newlines is kept. */
  lemma CapNewlinesKeep(c: char, t: string)
    requires c != '\n' || Run([c] + t, IsNewline) < 3
    ensures CapNewlines([c] + t) == [c] + CapNewlines(t)
  {
    assert ([c] + t)[1..] == t;
  }

  /** A single newline that no newline follows is kept. */
  lemma CapNewlinesOne(b: string)
    requires b == [] || b[0] != '\n'
    ensures CapNewlines("\n" + b) == "\n" + CapNewlines(b)
  {
    RunAll("\n", b, IsNewline);
    CapNewlinesKeep('\n', b);
  }

  /** Two newlines that no newline follows are kept. */
  lemma CapNewlinesTwo(b: string)
    requires b == [] || b[0] != '\n'
    ensures CapNewlines("\n\n" + b) == "\n\n" + CapNewlines(b)
  {
    var v := "\n" + b;
    assert "\n\n" + b == [('\n')] + v;
    RunAll("\n\n", b, IsNewline);
    CapNewlinesKeep('\n', v);
    CapNewlinesOne(b);
    Assoc("\n", "\n", CapNewlines(b));
  }

  /** A run of at most two newlines is kept as it is. */
  lemma CapNewlinesShortRun(w: string, b: string)
    requires 1 <= |w| <= 2 && forall i :: 0 <= i < |w| ==> w[i] == '\n'
    requires b == [] || b[0] != '\n'
    ensures CapNewlines(w + b) == w + CapNewlines(b)
  {
    if |w| == 1 {
      assert w == "\n";
      CapNewlinesOne(b);
    } else {
      assert w == "\n\n";
      CapNewlinesTwo(b);
    }
  }

  /** A run of three or more newlines, with no newline after it, becomes two. */
  lemma CapNewlinesLongRun(w: string, b: string)
    requires |w| >= 3 && forall i :: 0 <= i < |w| ==> w[i] == '\n'
    requires b == [] || b[0] != '\n'
    ensures CapNewlines(w + b) == "\n\n" + CapNewlines(b)
  {
    RunAll(w, b, IsNewline);
    assert (w + b)[0] == w[0];
    CapNewlinesCut(w + b);
    assert (w + b)[|w|..] == b;
  }

  /** The replacement in context: a maximal run of three or more newlines becomes exactly
      two, and a shorter run is kept. */
  lemma CapNewlinesBetween(a: string, w: string, b: string)
    requires a == [] || a[|a| - 1] != '\n'
    requires w != [] && forall i :: 0 <= i < |w| ==> w[i] == '\n'
    requires b == [] || b[0] != '\n'
    ensures CapNewlines(a + w + b) == CapNewlines(a) + (if |w| >= 3 then "\n\n" else w) + CapNewlines(b)
  {
    Assoc(a, w, b);
    CapNewlinesSplit(a, w + b);
    if |w| >= 3 {
      CapNewlinesLongRun(w, b);
    } else {
      CapNewlinesShortRun(w, b);
    }
    Assoc(CapNewlines(a), if |w| >= 3 then "\n\n" else w, CapNewlines(b));
  }

  lemma Assoc(x: string, y: string, z: string)
    ensures x + (y + z) == (x + y) + z
  {
  }

  /** The replace chain and the trim remove or replace white space only: the visible
      characters of the text all survive, in their order. */
  lemma DescriptionKeepsText(text: string)
    ensures Without(NormalizeDescription(text), IsSpace) == Without(text, IsSpace)
  {
    var a := CrLfToLf(text);
    CrLfToLfKeeps(text);
    SameWithout(a, text, IsReturn, IsSpace);
    var b := CrToLf(a);
    CrToLfKeeps(a);
    var c := CollapseRuns(b, IsBlank);
    CollapseRunsKeeps(b, IsBlank);
    SameWithout(c, b, IsBlank, IsSpace);
    var d := DropLeadingBlanks(c);
    DropLeadingBlanksKeeps(c);
    SameWithout(d, c, IsBlank, IsSpace);
    var e := DropTrailingBlanks(d);
    DropTrailingBlanksKeeps(d);
    SameWithout(e, d, IsBlank, IsSpace);
    var f := CapNewlines(e);
    CapNewlinesKeeps(e);
    SameWithout(f, e, IsNewline, IsSpace);
    TrimKeepsVisible(f);
  }

  /** The returned text holds the visible characters of the element's text, in order, cut
      short only when the normalised text is over the limit. */
  lemma CleanTextKeepsText(text: string)
    ensures Without(CleanText(text), IsSpace) <= Without(text, IsSpace)
    ensures |NormalizeDescription(text)| <= DescriptionLimit ==>
      Without(CleanText(text), IsSpace) == Without(text, IsSpace)
  {
    DescriptionKeepsText(text);
    PrefixWithout(CleanText(text), NormalizeDescription(text), IsSpace);
  }


  // ---------------------------------------------------------------------------
  // choosing the element

  /** The LinkedIn description containers, tried first. */
  const LinkedInSelectors: seq<string> := [
    ".jobs-description-content__text", ".jobs-description-content__text--stretch",
    ".jobs-description__container", ".jobs-description"]

  /** The site-specific and generic containers, in order. */
  const DescriptionSelectors: seq<string> := [
    "#jobDescriptionText", ".jobsearch-jobDescriptionText", ".job__description",
    ".section[data-qa=\"job-description\"]", "[data-automation-id=\"jobPostingDescription\"]",
    ".ashby-job-posting-description", ".job-description", "#job-description",
    "[class*=\"jobDescription\"]", "[id*=\"jobDescription\"]", "[class*=\"job-description\"]",
    "[id*=\"job-description\"]", "article", "main"]

  /** An element counts once its trimmed text is longer than this. */
  const MinDescriptionLength: nat := 100

  /** The selector matches an element whose trimmed text is long enough. */
  predicate Long(query: Query, selector: string) {
    query(selector).Found? && |Trim(query(selector).element.innerText)| > MinDescriptionLength
  }

  /** The LinkedIn loop stops at a selector that throws or that matches a long element. */
  function StopsLinkedIn(query: Query): string -> bool {
    selector => Long(query, selector) || query(selector).Invalid?
  }

  /** The generic loop stops at a long element only; selectors that throw are passed over. */
  function LongIn(query: Query): string -> bool {
    selector => Long(query, selector)
  }

  /** What `findLinkedInDescription` gives: an element, none, or the error it throws. */
  function LinkedInChoice(query: Query): Result<Option<Element>> {
    var k := FirstWhere(LinkedInSelectors, StopsLinkedIn(query));
    if k == |LinkedInSelectors| then Success(None)
    else match query(LinkedInSelectors[k])
      case Invalid(m) => Failure(m)
      case Found(e) => Success(Some(e))
      case NotFound => Success(None)
  }

  /** What `findJobDescriptionElement` gives: the first long match, else the body. */
  function GenericChoice(query: Query, body: Element): Element {
    var k := FirstWhere(DescriptionSelectors, LongIn(query));
    if k < |DescriptionSelectors| then query(DescriptionSelectors[k]).element else body
  }

  /** `findLinkedInDescription`: the candidate loop, whose early return yields the element
      and whose uncaught error propagates. */
  method FindLinkedInDescription(query: Query) returns (r: Result<Option<Element>>)
    ensures r == LinkedInChoice(query)
  {
    var k := FindFirst(LinkedInSelectors, StopsLinkedIn(query));
    if k == |LinkedInSelectors| {
      return Success(None);
    }
    var el := query(LinkedInSelectors[k]);
    if el.Invalid? {
      return Failure(el.message);
    }
    return Success(Some(el.element));
  }

  /** `findJobDescriptionElement`: the selector loop, skipping selectors that throw, with the
      body as the fallback. */
  method FindJobDescriptionElement(query: Query, body: Element) returns (el: Element)
    ensures el == GenericChoice(query, body)
  {
    var k := FindFirst(DescriptionSelectors, LongIn(query));
    if k < |DescriptionSelectors| {
      return query(DescriptionSelectors[k]).element;
    }
    return body;
  }

  // ---------------------------------------------------------------------------
  // the result

  /** `String(className).split(' ')[0]`: the class name up to its first space. */
  function ClassToken(className: string): (t: string)
    ensures ' ' !in t && |t| <= |className| && t == className[..|t|]
    ensures |t| < |className| ==> className[|t|] == ' '
  {
    var i := IndexOf(className, ' ');
    if i < 0 then className else className[..i]
  }

  /** The `extractedFrom` label: the tag name, then `#id` when there is an id, then `.` and
      the first class when there is a class. */
  function ExtractedFrom(el: Element): (r: string)
    ensures el.id == "" && el.className == "" ==> r == el.tagName
    ensures el.id != "" && el.className == "" ==> r == el.tagName + "#" + el.id
    ensures el.id == "" && el.className != "" ==> r == el.tagName + "." + ClassToken(el.className)
    ensures el.id != "" && el.className != "" ==> r == el.tagName + "#" + el.id + "." + ClassToken(el.className)
  {
    el.tagName + (if el.id != "" then "#" + el.id else "")
      + (if el.className != "" then "." + ClassToken(el.className) else "")
  }

  datatype Extraction =
    | Extracted(text: string, url: string, title: string, extractedFrom: string, characterCount: nat)
    | ExtractionFailed(error: string)

  /** `extractJobDescription` after the "See more" expansion: the LinkedIn container when
      there is one, else the generic choice; its cleaned text; the label and the count. */
  method ExtractJobDescription(query: Query, body: Element, url: string, title: string) returns (r: Extraction)
    ensures LinkedInChoice(query).Failure? ==> r == ExtractionFailed(LinkedInChoice(query).error)
    ensures LinkedInChoice(query).Success? ==>
      var el := if LinkedInChoice(query).value.Some? then LinkedInChoice(query).value.value else GenericChoice(query, body);
      r == Extracted(CleanText(el.cloneText), url, title, ExtractedFrom(el), |CleanText(el.cloneText)|)
    ensures r.Extracted? ==> r.characterCount == |r.text| && r.characterCount <= DescriptionLimit && Tidy(r.text)
  {
    var linkedIn := FindLinkedInDescription(query);
    if linkedIn.Failure? {
      return ExtractionFailed(linkedIn.error);
    }
    var el: Element;
    if linkedIn.value.Some? {
      el := linkedIn.value.value;
    } else {
      el := FindJobDescriptionElement(query, body);
    }
    var text := CleanText(el.cloneText);
    CleanTextTidy(el.cloneText);
    r := Extracted(text, url, title, ExtractedFrom(el), |text|);
  }
}
