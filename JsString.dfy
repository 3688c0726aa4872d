/**
 * The JavaScript string built-ins the extension relies on, stated over `seq<char>`:
 * `trim`, the `\s` class, `startsWith`, `includes`, `indexOf`, `lastIndexOf`,
 * `substring` (with its clamping and argument swap), `split` on one character,
 * `join`, `replace` with a string pattern (including the `$` substitution patterns of
 * the replacement), global removal of a literal pattern, ASCII lower-casing and the
 * decimal rendering of numbers.
 */
module JsString {

  /** White space as `String.prototype.trim` and the regular-expression class `\s` see it:
      the WhiteSpace and LineTerminator code points of ECMA-262 (sections 12.2 and 12.3). */
  predicate IsSpace(c: char) {
    c == '\t' || c == '\n' || c == '\U{000B}' || c == '\U{000C}' || c == '\r' || c == ' '
    || c == '\U{00A0}' || c == '\U{1680}' || ('\U{2000}' <= c <= '\U{200A}')
    || c == '\U{2028}' || c == '\U{2029}' || c == '\U{202F}' || c == '\U{205F}'
    || c == '\U{3000}' || c == '\U{FEFF}'
  }

  /** `s.startsWith(p)` */
  predicate StartsWith(s: string, p: string) {
    |p| <= |s| && s[..|p|] == p
  }

  /** `s.includes(p)`: some position of `s` starts an occurrence of `p`. */
  predicate Contains(s: string, p: string)
    decreases |s|
  {
    StartsWith(s, p) || (s != [] && Contains(s[1..], p))
  }

  /** `t` is a contiguous piece of `s`. */
  ghost predicate IsSlice(t: string, s: string) {
    exists i, j :: 0 <= i <= j <= |s| && t == s[i..j]
  }

  lemma {:induction false} ContainsLength(s: string, p: string)
    requires Contains(s, p)
    ensures |p| <= |s|
    decreases |s|
  {
    if !StartsWith(s, p) {
      ContainsLength(s[1..], p);
    }
  }

  lemma {:induction false} ContainsAt(s: string, p: string, i: nat)
    requires i + |p| <= |s| && s[i..i + |p|] == p
    ensures Contains(s, p)
    decreases i
  {
    if i == 0 {
      assert s[..|p|] == s[0..|p|];
    } else {
      assert s[1..][i - 1..i - 1 + |p|] == s[i..i + |p|];
      ContainsAt(s[1..], p, i - 1);
    }
  }

  lemma {:induction false} ContainsWitness(s: string, p: string) returns (i: nat)
    requires Contains(s, p)
    ensures i + |p| <= |s| && s[i..i + |p|] == p
    decreases |s|
  {
    if StartsWith(s, p) {
      i := 0;
    } else {
      var k := ContainsWitness(s[1..], p);
      assert s[1..][k..k + |p|] == s[k + 1..k + 1 + |p|];
      i := k + 1;
    }
  }

  /** An occurrence of `q` holds an occurrence of each piece of `q`. */
  lemma ContainsInner(s: string, q: string, p: string, k: nat)
    requires Contains(s, q) && k + |p| <= |q| && q[k..k + |p|] == p
    ensures Contains(s, p)
  {
    var i := ContainsWitness(s, q);
    forall m | 0 <= m < |p|
      ensures s[i + k + m] == p[m]
    {
      assert s[i + k + m] == s[i..i + |q|][k + m] == q[k + m];
    }
    assert s[i + k..i + k + |p|] == p;
    ContainsAt(s, p, i + k);
  }

  /** An occurrence inside a piece of `s` is an occurrence in `s`. */
  lemma SliceContains(t: string, s: string, p: string)
    requires IsSlice(t, s) && Contains(t, p)
    ensures Contains(s, p)
  {
    var i, j :| 0 <= i <= j <= |s| && t == s[i..j];
    var k := ContainsWitness(t, p);
    var u, v := s[i + k..i + k + |p|], t[k..k + |p|];
    forall m | 0 <= m < |p| ensures u[m] == v[m] {
      assert u[m] == s[i + k + m] && v[m] == t[k + m];
    }
    assert u == v;
    ContainsAt(s, p, i + k);
  }

  /** A piece of a string that avoids a pattern avoids it too. */
  lemma SliceAvoids(t: string, s: string, p: string)
    requires IsSlice(t, s) && !Contains(s, p)
    ensures !Contains(t, p)
  {
    if Contains(t, p) {
      SliceContains(t, s, p);
    }
  }

  lemma ContainsLeft(a: string, b: string, p: string)
    requires Contains(a, p)
    ensures Contains(a + b, p)
  {
    assert (a + b)[0..|a|] == a;
    SliceContains(a, a + b, p);
  }

  lemma ContainsRight(a: string, b: string, p: string)
    requires Contains(b, p)
    ensures Contains(a + b, p)
  {
    assert (a + b)[|a|..|a + b|] == b;
    SliceContains(b, a + b, p);
  }

  /** Every character of an occurrence is a character of the string. */
  lemma ContainsChars(s: string, p: string, c: char)
    requires Contains(s, p) && c in p
    ensures c in s
  {
    var i := ContainsWitness(s, p);
    var k :| 0 <= k < |p| && p[k] == c;
    assert s[i + k] == s[i..i + |p|][k];
  }

  lemma SliceOfSelf(s: string)
    ensures IsSlice(s, s)
  {
    assert s == s[0..|s|];
  }

  lemma SliceTransitive(u: string, t: string, s: string)
    requires IsSlice(u, t) && IsSlice(t, s)
    ensures IsSlice(u, s)
  {
    var i, j :| 0 <= i <= j <= |t| && u == t[i..j];
    var i', j' :| 0 <= i' <= j' <= |s| && t == s[i'..j'];
    var v := s[i' + i..i' + j];
    forall m | 0 <= m < |u| ensures u[m] == v[m] {
      assert u[m] == t[i + m] && v[m] == s[i' + i + m];
    }
    assert u == v;
  }

  // ---------------------------------------------------------------------------
  // trim

  /** `s.trimStart()` */
  function TrimStart(s: string): (r: string)
    ensures |r| <= |s| && r == s[|s| - |r|..]
    ensures r == [] || !IsSpace(r[0])
    ensures forall k :: 0 <= k < |s| - |r| ==> IsSpace(s[k])
    decreases |s|
  {
    if s != [] && IsSpace(s[0]) then TrimStart(s[1..]) else s
  }

  /** `s.trimEnd()` */
  function TrimEnd(s: string): (r: string)
    ensures |r| <= |s| && r == s[..|r|]
    ensures r == [] || !IsSpace(r[|r| - 1])
    ensures forall k :: |r| <= k < |s| ==> IsSpace(s[k])
    decreases |s|
  {
    if s != [] && IsSpace(s[|s| - 1]) then TrimEnd(s[..|s| - 1]) else s
  }

  /** How many white-space characters `s` opens with. */
  function LeadingSpace(s: string): (n: nat)
    ensures n <= |s|
    ensures forall k :: 0 <= k < n ==> IsSpace(s[k])
    ensures n < |s| ==> !IsSpace(s[n])
  {
    |s| - |TrimStart(s)|
  }

  /** `s.trim()`: the piece of `s` that starts after its leading white space and ends before
      its trailing white space; it is empty exactly when `s` is all white space. */
  function Trim(s: string): (r: string)
    ensures LeadingSpace(s) + |r| <= |s| && r == s[LeadingSpace(s)..LeadingSpace(s) + |r|]
    ensures forall k :: LeadingSpace(s) + |r| <= k < |s| ==> IsSpace(s[k])
    ensures r == [] || (!IsSpace(r[0]) && !IsSpace(r[|r| - 1]))
    ensures IsSlice(r, s)
    ensures forall c :: c in r ==> c in s
  {
    var t := TrimStart(s);
    var r := TrimEnd(t);
    assert r == s[|s| - |t|..|s| - |t| + |r|];
    assert forall k :: |s| - |t| + |r| <= k < |s| ==> s[k] == t[k - (|s| - |t|)];
    r
  }

  /** `trim` gives the empty string exactly for a string of white space only. */
  lemma TrimEmpty(s: string)
    ensures Trim(s) == [] <==> forall k :: 0 <= k < |s| ==> IsSpace(s[k])
  {
    var r := Trim(s);
    var i := LeadingSpace(s);
    if r == [] {
      forall k | 0 <= k < |s|
        ensures IsSpace(s[k])
      {
      }
    } else {
      assert !IsSpace(s[i]) by {
        assert r[0] == s[i];
      }
    }
  }

  /** Trimming a string that neither starts nor ends with white space changes nothing. */
  lemma TrimClean(s: string)
    requires s == [] || (!IsSpace(s[0]) && !IsSpace(s[|s| - 1]))
    ensures Trim(s) == s
  {
  }

  // ---------------------------------------------------------------------------
  // indexOf, lastIndexOf

  /** `s.indexOf(c)` for a one-character needle. */
  function IndexOf(s: string, c: char): (r: int)
    ensures -1 <= r < |s|
    ensures r == -1 <==> c !in s
    ensures r >= 0 ==> s[r] == c && c !in s[..r]
    decreases |s|
  {
    if s == [] then -1
    else if s[0] == c then 0
    else
      var k := IndexOf(s[1..], c);
      assert s[1..][..k + 1] == s[1..k + 2] by { if k >= 0 { } }
      if k < 0 then -1 else k + 1
  }

  /** `s.lastIndexOf(c)` for a one-character needle. */
  function LastIndexOf(s: string, c: char): (r: int)
    ensures -1 <= r < |s|
    ensures r == -1 <==> c !in s
    ensures r >= 0 ==> s[r] == c && c !in s[r + 1..]
    decreases |s|
  {
    if s == [] then -1
    else if s[|s| - 1] == c then |s| - 1
    else
      var init := s[..|s| - 1];
      var k := LastIndexOf(init, c);
      assert s == init + [s[|s| - 1]];
      assert k >= 0 ==> s[k + 1..] == init[k + 1..] + [s[|s| - 1]];
      k
  }

  /** `s.indexOf(p)` for a string needle: the first position starting an occurrence of `p`. */
  function IndexOfSeq(s: string, p: string): (r: int)
    ensures r < 0 <==> !Contains(s, p)
    ensures r >= 0 ==> r + |p| <= |s| && s[r..r + |p|] == p
    ensures r >= 0 ==> forall k :: 0 <= k < r ==> !StartsWith(s[k..], p)
    decreases |s|
  {
    if StartsWith(s, p) then 0
    else if s == [] then -1
    else
      var k := IndexOfSeq(s[1..], p);
      if k < 0 then -1
      else
        assert s[1..][k..k + |p|] == s[k + 1..k + 1 + |p|];
        assert forall j :: 1 <= j <= k ==> s[j..] == s[1..][j - 1..];
        k + 1
  }

  /** The first occurrence of `p` is right after a prefix that cannot start one. */
  lemma {:induction false} IndexOfSeqAt(a: string, p: string, b: string)
    requires p != [] && p[0] !in a
    ensures IndexOfSeq(a + p + b, p) == |a|
    decreases |a|
  {
    var s := a + p + b;
    if a == [] {
      assert s == p + b;
      assert s[..|p|] == p;
    } else {
      assert s[0] == a[0];
      assert !StartsWith(s, p) by {
        assert s[..|p|][0] == a[0];
      }
      assert s[1..] == a[1..] + p + b;
      IndexOfSeqAt(a[1..], p, b);
    }
  }

  // ---------------------------------------------------------------------------
  // substring

  function Clamp(x: int, len: nat): (r: nat)
    ensures r <= len
    ensures x < 0 ==> r == 0
    ensures 0 <= x <= len ==> r == x
    ensures x > len ==> r == len
  {
    if x < 0 then 0 else if x > len then len else x
  }

  /** `s.substring(start, end)`: both bounds are clamped to `[0, |s|]` and swapped when the
      first exceeds the second. */
  function Substring(s: string, start: int, end: int): (r: string)
    ensures var a, b := Clamp(start, |s|), Clamp(end, |s|);
      r == if a <= b then s[a..b] else s[b..a]
    ensures 0 <= start <= end <= |s| ==> r == s[start..end]
    ensures 0 <= end <= start <= |s| ==> r == s[end..start]
    ensures IsSlice(r, s)
    ensures |r| <= |s|
  {
    var a := Clamp(start, |s|);
    var b := Clamp(end, |s|);
    if a <= b then s[a..b] else s[b..a]
  }

  /** The order of the bounds does not matter. */
  lemma SubstringSwap(s: string, start: int, end: int)
    ensures Substring(s, start, end) == Substring(s, end, start)
  {
  }

  /** `s.substring(0, n)`: the first `n` characters, or all of `s` when it is shorter. */
  function Truncate(s: string, n: nat): (r: string)
    ensures |r| == if |s| <= n then |s| else n
    ensures r == s[..|r|]
    ensures |r| <= n && |r| <= |s|
    ensures |s| <= n ==> r == s
  {
    Substring(s, 0, n)
  }

  // ---------------------------------------------------------------------------
  // the characters outside a class

  /** The characters of `s` that are not in the class `p`, in their order: what a cleaner
      that only removes, inserts or replaces class characters leaves alone. */
  function Without(s: string, p: char -> bool): (r: string)
    ensures |r| <= |s|
    ensures forall i :: 0 <= i < |r| ==> !p(r[i])
    decreases |s|
  {
    if s == [] then [] else (if p(s[0]) then [] else [s[0]]) + Without(s[1..], p)
  }

  lemma WithoutCons(c: char, t: string, p: char -> bool)
    ensures Without([c] + t, p) == (if p(c) then [] else [c]) + Without(t, p)
  {
    assert ([c] + t)[1..] == t;
  }

  lemma {:induction false} WithoutAppend(a: string, b: string, p: char -> bool)
    ensures Without(a + b, p) == Without(a, p) + Without(b, p)
    decreases |a|
  {
    if a == [] {
      assert a + b == b;
    } else {
      assert (a + b)[0] == a[0];
      assert (a + b)[1..] == a[1..] + b;
      WithoutAppend(a[1..], b, p);
    }
  }

  /** A string made of class characters only leaves nothing. */
  lemma {:induction false} WithoutAll(s: string, p: char -> bool)
    requires forall i :: 0 <= i < |s| ==> p(s[i])
    ensures Without(s, p) == []
    decreases |s|
  {
    if s != [] {
      assert forall i :: 0 <= i < |s| - 1 ==> s[1..][i] == s[i + 1];
      WithoutAll(s[1..], p);
    }
  }

  /** A string without class characters is left whole. */
  lemma {:induction false} WithoutNone(s: string, p: char -> bool)
    requires forall i :: 0 <= i < |s| ==> !p(s[i])
    ensures Without(s, p) == s
    decreases |s|
  {
    if s != [] {
      assert forall i :: 0 <= i < |s| - 1 ==> s[1..][i] == s[i + 1];
      WithoutNone(s[1..], p);
      assert s == [s[0]] + s[1..];
    }
  }

  /** Dropping a smaller class first changes nothing about dropping a larger one. */
  lemma {:induction false} WithoutFiner(s: string, p: char -> bool, q: char -> bool)
    requires forall c :: p(c) ==> q(c)
    ensures Without(Without(s, p), q) == Without(s, q)
    decreases |s|
  {
    if s != [] {
      WithoutFiner(s[1..], p, q);
      var head := if p(s[0]) then [] else [s[0]];
      WithoutAppend(head, Without(s[1..], p), q);
      if !p(s[0]) {
        assert Without(head, q) == (if q(s[0]) then [] else [s[0]]) by {
          assert head[1..] == [];
        }
      }
    }
  }

  /** Two strings that agree outside a class agree outside any larger class. */
  lemma SameWithout(a: string, b: string, p: char -> bool, q: char -> bool)
    requires Without(a, p) == Without(b, p)
    requires forall c :: p(c) ==> q(c)
    ensures Without(a, q) == Without(b, q)
  {
    WithoutFiner(a, p, q);
    WithoutFiner(b, p, q);
  }

  /** Strings that agree character by character outside a class, and that have class
      characters at the same places, agree outside it. */
  lemma {:induction false} WithoutPointwise(a: string, b: string, p: char -> bool)
    requires |a| == |b|
    requires forall i :: 0 <= i < |a| ==> (p(a[i]) <==> p(b[i])) && (!p(a[i]) ==> a[i] == b[i])
    ensures Without(a, p) == Without(b, p)
    decreases |a|
  {
    if a != [] {
      assert forall i :: 0 <= i < |a| - 1 ==> a[1..][i] == a[i + 1] && b[1..][i] == b[i + 1];
      WithoutPointwise(a[1..], b[1..], p);
    }
  }

  /** A prefix keeps a prefix of the characters outside a class. */
  lemma PrefixWithout(r: string, n: string, p: char -> bool)
    requires |r| <= |n| && r == n[..|r|]
    ensures Without(r, p) <= Without(n, p)
  {
    assert n == r + n[|r|..];
    WithoutAppend(r, n[|r|..], p);
  }

  /** `trim` removes white space only: the visible characters all survive, in order. */
  lemma TrimKeepsVisible(s: string)
    ensures Without(Trim(s), IsSpace) == Without(s, IsSpace)
  {
    TrimStartKeeps(s);
    TrimEndKeeps(TrimStart(s));
  }

  lemma {:induction false} TrimStartKeeps(s: string)
    ensures Without(TrimStart(s), IsSpace) == Without(s, IsSpace)
    decreases |s|
  {
    if s != [] && IsSpace(s[0]) {
      TrimStartKeeps(s[1..]);
      assert Without(s, IsSpace) == Without(s[1..], IsSpace);
    }
  }

  lemma {:induction false} TrimEndKeeps(s: string)
    ensures Without(TrimEnd(s), IsSpace) == Without(s, IsSpace)
    decreases |s|
  {
    if s != [] && IsSpace(s[|s| - 1]) {
      var init := s[..|s| - 1];
      TrimEndKeeps(init);
      assert s == init + [s[|s| - 1]];
      WithoutAppend(init, [s[|s| - 1]], IsSpace);
      WithoutCons(s[|s| - 1], [], IsSpace);
    }
  }



  // ---------------------------------------------------------------------------
  // split and join

  /** `s.split(sep)` for a one-character separator. */
  function Split(s: string, sep: char): (r: seq<string>)
    ensures |r| >= 1
    ensures forall k :: 0 <= k < |r| ==> sep !in r[k]
    decreases |s|
  {
    var i := IndexOf(s, sep);
    if i < 0 then [s] else [s[..i]] + Split(s[i + 1..], sep)
  }

  /** `parts.join(sep)` */
  function Join(parts: seq<string>, sep: string): string
    decreases |parts|
  {
    if parts == [] then ""
    else if |parts| == 1 then parts[0]
    else parts[0] + sep + Join(parts[1..], sep)
  }

  /** Splitting and re-joining on the same character gives back the string. */
  lemma {:induction false} JoinSplit(s: string, sep: char)
    ensures Join(Split(s, sep), [sep]) == s
    decreases |s|
  {
    var i := IndexOf(s, sep);
    if i >= 0 {
      var h, t := s[..i], s[i + 1..];
      assert s == h + [sep] + t;
      SplitAround(h, t, sep);
      JoinSplit(t, sep);
      JoinCons(h, Split(t, sep), [sep]);
    }
  }

  lemma JoinCons(h: string, rest: seq<string>, sep: string)
    requires |rest| >= 1
    ensures Join([h] + rest, sep) == h + sep + Join(rest, sep)
  {
    assert ([h] + rest)[1..] == rest;
  }

  lemma {:induction false} SplitAround(x: string, y: string, sep: char)
    requires sep !in x
    ensures Split(x + [sep] + y, sep) == [x] + Split(y, sep)
  {
    IndexOfAfterPrefix(x, sep, y);
    var s := x + [sep] + y;
    assert s[..|x|] == x;
    assert s[|x| + 1..] == y;
  }

  lemma SplitAfterHead(h: string, t: string, y: string, sep: char)
    requires sep !in h
    ensures Split(h + [sep] + t + [sep] + y, sep) == [h] + Split(t + [sep] + y, sep)
  {
    assert h + [sep] + t + [sep] + y == h + [sep] + (t + [sep] + y);
    SplitAround(h, t + [sep] + y, sep);
  }

  lemma ConsAssoc(h: string, a: seq<string>, b: seq<string>)
    ensures [h] + (a + b) == ([h] + a) + b
  {
  }

  lemma SplitConcatStep(h: string, t: string, y: string, sep: char)
    requires sep !in h
    requires Split(t + [sep] + y, sep) == Split(t, sep) + Split(y, sep)
    ensures Split(h + [sep] + t + [sep] + y, sep) == Split(h + [sep] + t, sep) + Split(y, sep)
  {
    SplitAround(h, t, sep);
    SplitAfterHead(h, t, y, sep);
    ConsAssoc(h, Split(t, sep), Split(y, sep));
  }

  lemma {:induction false} SplitConcat(x: string, y: string, sep: char)
    ensures Split(x + [sep] + y, sep) == Split(x, sep) + Split(y, sep)
    decreases |x|
  {
    var i := IndexOf(x, sep);
    if i < 0 {
      assert Split(x, sep) == [x];
      SplitAround(x, y, sep);
    } else {
      var h, t := x[..i], x[i + 1..];
      assert x == h + [sep] + t;
      SplitConcat(t, y, sep);
      SplitConcatStep(h, t, y, sep);
    }
  }

  /** Joining pieces free of the separator and splitting again gives back the pieces. */
  lemma {:induction false} SplitJoin(parts: seq<string>, sep: char)
    requires |parts| >= 1
    requires forall k :: 0 <= k < |parts| ==> sep !in parts[k]
    ensures Split(Join(parts, [sep]), sep) == parts
    decreases |parts|
  {
    if |parts| == 1 {
      assert IndexOf(parts[0], sep) == -1;
    } else {
      var s := Join(parts, [sep]);
      var tail := Join(parts[1..], [sep]);
      assert s == parts[0] + [sep] + tail;
      IndexOfAfterPrefix(parts[0], sep, tail);
      assert s[..|parts[0]|] == parts[0];
      assert s[|parts[0]| + 1..] == tail;
      SplitJoin(parts[1..], sep);
    }
  }

  lemma IndexOfAfterPrefix(a: string, c: char, b: string)
    requires c !in a
    ensures IndexOf(a + [c] + b, c) == |a|
    decreases |a|
  {
    if a != [] {
      assert (a + [c] + b)[1..] == a[1..] + [c] + b;
      IndexOfAfterPrefix(a[1..], c, b);
    }
  }

  // ---------------------------------------------------------------------------
  // replace

  /** The replacement text of `String.prototype.replace` for a string pattern
      (GetSubstitution, ECMA-262 section 22.1.3.19.1, with no capture groups):
      `$$` gives `$`, `$&` the match, `` $` `` the text before it, `$'` the text after it;
      every other character, `$n` and `$<` included, is copied literally. */
  function Substitution(repl: string, matched: string, before: string, after: string): string
    decreases |repl|
  {
    if |repl| >= 2 && repl[0] == '$' && repl[1] == '$' then "$" + Substitution(repl[2..], matched, before, after)
    else if |repl| >= 2 && repl[0] == '$' && repl[1] == '&' then matched + Substitution(repl[2..], matched, before, after)
    else if |repl| >= 2 && repl[0] == '$' && repl[1] == '`' then before + Substitution(repl[2..], matched, before, after)
    else if |repl| >= 2 && repl[0] == '$' && repl[1] == '\'' then after + Substitution(repl[2..], matched, before, after)
    else if repl == [] then []
    else [repl[0]] + Substitution(repl[1..], matched, before, after)
  }

  /** A replacement without `$` is inserted as it is. */
  lemma {:induction false} SubstitutionPlain(repl: string, matched: string, before: string, after: string)
    requires '$' !in repl
    ensures Substitution(repl, matched, before, after) == repl
    decreases |repl|
  {
    if repl != [] {
      assert '$' !in repl[1..];
      SubstitutionPlain(repl[1..], matched, before, after);
    }
  }

  /** `s.replace(p, repl)` with a string pattern: only the first occurrence is replaced. */
  function ReplaceFirst(s: string, p: string, repl: string): string {
    var i := IndexOfSeq(s, p);
    if i < 0 then s
    else s[..i] + Substitution(repl, p, s[..i], s[i + |p|..]) + s[i + |p|..]
  }

  /** `s.replace(/p/g, '')` for a pattern without regular-expression metacharacters:
      occurrences are found left to right, without overlap, and deleted. */
  function RemoveAll(s: string, p: string): (r: string)
    requires p != []
    ensures |r| <= |s|
    decreases |s|
  {
    if |s| < |p| then s
    else if s[..|p|] == p then RemoveAll(s[|p|..], p)
    else [s[0]] + RemoveAll(s[1..], p)
  }

  /** Removing a pattern that does not occur changes nothing. */
  lemma {:induction false} RemoveAllAbsent(s: string, p: string)
    requires p != [] && !Contains(s, p)
    ensures RemoveAll(s, p) == s
    decreases |s|
  {
    if |s| >= |p| {
      assert !StartsWith(s, p);
      RemoveAllAbsent(s[1..], p);
      assert s == [s[0]] + s[1..];
    }
  }

  /** A prefix that cannot start an occurrence passes through unchanged. */
  lemma {:induction false} RemoveAllPrefix(a: string, b: string, p: string)
    requires p != [] && p[0] !in a
    ensures RemoveAll(a + b, p) == a + RemoveAll(b, p)
    decreases |a|
  {
    if a != [] {
      var s := a + b;
      assert s[0] == a[0];
      assert a == [a[0]] + a[1..];
      if |s| >= |p| {
        assert s[..|p|][0] == a[0];
        assert s[..|p|] != p;
        assert s[1..] == a[1..] + b;
        RemoveAllPrefix(a[1..], b, p);
        calc {
          RemoveAll(s, p);
          [a[0]] + RemoveAll(a[1..] + b, p);
          [a[0]] + (a[1..] + RemoveAll(b, p));
          a + RemoveAll(b, p);
        }
      } else {
        assert RemoveAll(s, p) == s;
        assert RemoveAll(b, p) == b;
      }
    } else {
      assert a + b == b;
    }
  }

  /** An occurrence at the front is removed first. */
  lemma RemoveAllHead(p: string, x: string)
    requires p != []
    ensures RemoveAll(p + x, p) == RemoveAll(x, p)
  {
    assert (p + x)[..|p|] == p;
    assert (p + x)[|p|..] == x;
  }

  const Fence: string := "```"

  lemma RemoveFenceHead(t: string)
    requires t != [] && t[0] != '`'
    ensures RemoveAll(t, Fence) == [t[0]] + RemoveAll(t[1..], Fence)
  {
    if |t| < 3 {
      assert RemoveAll(t[1..], Fence) == t[1..];
      assert t == [t[0]] + t[1..];
    } else {
      assert t[..3][0] == t[0];
    }
  }

  /** After all fences are removed none is left, even where a removal joins back-ticks. */
  lemma {:induction false} RemoveFenceLeavesNone(s: string)
    ensures !Contains(RemoveAll(s, Fence), Fence)
    decreases |s|
  {
    var r := RemoveAll(s, Fence);
    if |s| < 3 {
      if Contains(r, Fence) { ContainsLength(r, Fence); }
    } else if s[..3] == Fence {
      RemoveFenceLeavesNone(s[3..]);
    } else {
      var rest := RemoveAll(s[1..], Fence);
      RemoveFenceLeavesNone(s[1..]);
      assert r == [s[0]] + rest;
      assert r[1..] == rest;
      if s[0] == '`' {
        if s[1] != '`' {
          RemoveFenceHead(s[1..]);
          assert rest[0] == s[1];
        } else {
          assert s[2] != '`' by { assert s[..3] == [s[0], s[1], s[2]]; }
          var u := s[1..];
          if |u| < 3 {
            assert rest == u;
            assert |rest| < 2 || rest[1] == s[2];
          } else {
            assert u[..3] != Fence by { assert u[..3][1] == s[2]; }
            assert rest == [u[0]] + RemoveAll(u[1..], Fence);
            RemoveFenceHead(u[1..]);
            assert rest[1] == s[2];
          }
        }
      }
      assert !StartsWith(r, Fence);
    }
  }

  // ---------------------------------------------------------------------------
  // case and numbers

  /** `toLowerCase` restricted to ASCII letters; every other character is kept. */
  function LowerChar(c: char): char {
    if 'A' <= c <= 'Z' then (c as int + 32) as char else c
  }

  function LowerAscii(s: string): (r: string)
    ensures |r| == |s|
    ensures forall k :: 0 <= k < |s| ==> r[k] == LowerChar(s[k])
  {
    seq(|s|, k requires 0 <= k < |s| => LowerChar(s[k]))
  }

  function DigitChar(d: nat): (c: char)
    requires d < 10
    ensures '0' <= c <= '9'
  {
    ('0' as int + d) as char
  }

  predicate AllDigits(s: string) {
    forall k :: 0 <= k < |s| ==> '0' <= s[k] <= '9'
  }

  /** The number a string of decimal digits denotes. */
  function DecimalValue(s: string): nat
    requires AllDigits(s)
    decreases |s|
  {
    if s == [] then 0 else DecimalValue(s[..|s| - 1]) * 10 + (s[|s| - 1] as int - '0' as int)
  }

  /** The decimal text of a non-negative integer, as template literals and `textContent`
      render a JavaScript integer. */
  function NatToDecimal(n: nat): (r: string)
    ensures |r| >= 1 && AllDigits(r)
    ensures |r| > 1 ==> r[0] != '0'
    decreases n
  {
    if n < 10 then [DigitChar(n)] else NatToDecimal(n / 10) + [DigitChar(n % 10)]
  }

  /** Reading back the decimal text gives the number. */
  lemma {:induction false} DecimalRoundTrip(n: nat)
    ensures DecimalValue(NatToDecimal(n)) == n
    decreases n
  {
    if n >= 10 {
      var r := NatToDecimal(n);
      DecimalRoundTrip(n / 10);
      assert r[..|r| - 1] == NatToDecimal(n / 10);
    }
  }

  function IntToDecimal(i: int): string {
    if i < 0 then "-" + NatToDecimal(-i) else NatToDecimal(i)
  }
}
