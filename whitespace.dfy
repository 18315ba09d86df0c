/** The string built-ins the generator leans on: the white-space class `\s`,
    `String.prototype.trim`, and global replacement of white-space runs
    (`replace(/\s{2,}/g, " ")` and `replace(/\s+/g, " ")`). */
module Whitespace {

  /** The characters matched by `\s` and removed by `trim()`: ECMAScript's
      WhiteSpace and LineTerminator productions (the two built-ins use the same set). */
  const SpaceChars: set<char> := {
    '\U{0009}', '\U{000A}', '\U{000B}', '\U{000C}', '\U{000D}', ' ', '\U{00A0}', '\U{1680}',
    '\U{2000}', '\U{2001}', '\U{2002}', '\U{2003}', '\U{2004}', '\U{2005}', '\U{2006}',
    '\U{2007}', '\U{2008}', '\U{2009}', '\U{200A}',
    '\U{2028}', '\U{2029}', '\U{202F}', '\U{205F}', '\U{3000}', '\U{FEFF}'
  }

  predicate IsSpace(c: char) {
    c in SpaceChars
  }

  predicate AllSpace(s: string) {
    forall i :: 0 <= i < |s| ==> IsSpace(s[i])
  }

  /** Neither end of `s` is white space (the empty string qualifies). */
  predicate Trimmed(s: string) {
    s == [] || (!IsSpace(s[0]) && !IsSpace(s[|s| - 1]))
  }

  /** No two adjacent characters of `s` are both white space. */
  predicate NoDoubleSpace(s: string) {
    forall i, j :: 0 <= i < |s| && 0 <= j < |s| && j == i + 1 ==> !(IsSpace(s[i]) && IsSpace(s[j]))
  }

  /** The only white-space character in `s` is the plain space. */
  predicate OnlyPlainSpaces(s: string) {
    forall i :: 0 <= i < |s| && IsSpace(s[i]) ==> s[i] == ' '
  }

  /** `q` occurs in `s` starting at index `i`. */
  predicate OccursAt(q: string, s: string, i: nat) {
    i + |q| <= |s| && s[i..i + |q|] == q
  }

  /** `q` occurs in `s` as a contiguous piece. */
  predicate Occurs(q: string, s: string) {
    exists i: nat | i <= |s| :: OccursAt(q, s, i)
  }

  /** The visible (non-white-space) characters of `s`, in order. */
  function Visible(s: string): (r: string)
    ensures |r| <= |s|
  {
    if s == [] then [] else (if IsSpace(s[0]) then [] else [s[0]]) + Visible(s[1..])
  }

  lemma {:induction false} VisibleAppend(a: string, b: string)
    ensures Visible(a + b) == Visible(a) + Visible(b)
  {
    if a == [] {
      assert a + b == b;
    } else {
      assert (a + b)[1..] == a[1..] + b;
      VisibleAppend(a[1..], b);
    }
  }

  lemma {:induction false} VisibleEmpty(s: string)
    ensures Visible(s) == [] <==> AllSpace(s)
  {
    if s != [] {
      VisibleEmpty(s[1..]);
      assert AllSpace(s) <==> IsSpace(s[0]) && AllSpace(s[1..]) by {
        if IsSpace(s[0]) && AllSpace(s[1..]) {
          forall i | 0 <= i < |s| ensures IsSpace(s[i]) {
            if i > 0 { assert s[i] == s[1..][i - 1]; }
          }
        }
      }
    }
  }

  /** The length of the white-space run `s` starts with. */
  function LeadingSpaces(s: string): (n: nat)
    ensures n <= |s|
    ensures forall i :: 0 <= i < n ==> IsSpace(s[i])
    ensures n < |s| ==> !IsSpace(s[n])
  {
    if s == [] || !IsSpace(s[0]) then 0 else 1 + LeadingSpaces(s[1..])
  }

  /** The length of the white-space run `s` ends with. */
  function TrailingSpaces(s: string): (n: nat)
    ensures n <= |s|
    ensures forall i :: |s| - n <= i < |s| ==> IsSpace(s[i])
    ensures n < |s| ==> !IsSpace(s[|s| - 1 - n])
  {
    if s == [] || !IsSpace(s[|s| - 1]) then 0 else 1 + TrailingSpaces(s[..|s| - 1])
  }

  /** `String.prototype.trim`: drops the white space at both ends and nothing else. */
  function Trim(s: string): (r: string)
    ensures Trimmed(r)
    ensures r == [] <==> AllSpace(s)
    ensures LeadingSpaces(s) + |r| <= |s| && r == s[LeadingSpaces(s)..LeadingSpaces(s) + |r|]
    ensures forall i :: LeadingSpaces(s) + |r| <= i < |s| ==> IsSpace(s[i])
  {
    var lo := LeadingSpaces(s);
    var t := s[lo..];
    var r := t[..|t| - TrailingSpaces(t)];
    TrimPieces(s, lo, r);
    r
  }

  /** Trimming removes nothing visible. */
  lemma TrimKeepsVisible(s: string)
    ensures Visible(Trim(s)) == Visible(s)
  {
    var r := Trim(s);
    var lo := LeadingSpaces(s);
    var pre, post := s[..lo], s[lo + |r|..];
    assert AllSpace(post) by {
      forall i | 0 <= i < |post| ensures IsSpace(post[i]) {
        assert post[i] == s[lo + |r| + i];
      }
    }
    assert s == pre + r + post;
    VisibleFrame(pre, r, post);
  }

  lemma TrimPieces(s: string, lo: nat, r: string)
    requires lo == LeadingSpaces(s)
    requires r == s[lo..][..|s[lo..]| - TrailingSpaces(s[lo..])]
    ensures Trimmed(r)
    ensures r == [] <==> AllSpace(s)
    ensures lo + |r| <= |s| && r == s[lo..lo + |r|]
    ensures forall i :: lo + |r| <= i < |s| ==> IsSpace(s[i])
  {
    var t := s[lo..];
    var n := TrailingSpaces(t);
    forall i | lo + |r| <= i < |s| ensures IsSpace(s[i]) {
      assert s[i] == t[i - lo];
    }
    assert Trimmed(r) by {
      if r != [] {
        assert r[0] == t[0] == s[lo];
        assert r[|r| - 1] == t[|t| - 1 - n];
      }
    }
  }

  /** White space around `r` adds nothing visible. */
  lemma VisibleFrame(pre: string, r: string, post: string)
    requires AllSpace(pre) && AllSpace(post)
    ensures Visible(pre + r + post) == Visible(r)
  {
    VisibleAppend(pre + r, post);
    VisibleAppend(pre, r);
    VisibleEmpty(pre);
    VisibleEmpty(post);
  }

  /** Global replacement of every maximal white-space run of length at least `m` by
      one plain space, as `s.replace(/\s{m,}/g, " ")` does; shorter runs stay as
      they are. `m == 1` is `/\s+/g`, `m == 2` is `/\s{2,}/g`. */
  function ReplaceRuns(s: string, m: nat): (r: string)
    requires m >= 1
    ensures r == [] <==> s == []
    ensures r != [] ==> (IsSpace(r[0]) <==> IsSpace(s[0]))
    ensures r != [] ==> (IsSpace(r[|r| - 1]) <==> IsSpace(s[|s| - 1]))
    decreases |s|
  {
    if s == [] then []
    else if !IsSpace(s[0]) then [s[0]] + ReplaceRuns(s[1..], m)
    else
      RunPiece(s, m) + ReplaceRuns(s[LeadingSpaces(s)..], m)
  }

  /** With `m` at most 2 every run in the result is a single character, and with
      `m == 1` that character is the plain space. */
  lemma {:induction false} ReplaceRunsShape(s: string, m: nat)
    requires 1 <= m
    ensures m <= 2 ==> NoDoubleSpace(ReplaceRuns(s, m))
    ensures m == 1 ==> OnlyPlainSpaces(ReplaceRuns(s, m))
    decreases |s|
  {
    if s == [] {
    } else if !IsSpace(s[0]) {
      ReplaceRunsShape(s[1..], m);
      var rest := ReplaceRuns(s[1..], m);
      PrefixVisible([s[0]], rest);
    } else {
      var n := LeadingSpaces(s);
      var run: string := if n >= m then " " else s[..n];
      ReplaceRunsShape(s[n..], m);
      var rest := ReplaceRuns(s[n..], m);
      assert rest != [] ==> !IsSpace(rest[0]);
      if m <= 2 { assert |run| == 1; }
      if m == 1 { assert run == " "; }
      JoinAtVisible(run, rest, m);
    }
  }

  /** A visible character followed by a shaped string keeps the shape. */
  lemma PrefixVisible(c: string, rest: string)
    requires |c| == 1 && !IsSpace(c[0])
    ensures NoDoubleSpace(rest) ==> NoDoubleSpace(c + rest)
    ensures OnlyPlainSpaces(rest) ==> OnlyPlainSpaces(c + rest)
  {
    var t := c + rest;
    if NoDoubleSpace(rest) {
      forall i, j | 0 <= i < |t| && 0 <= j < |t| && j == i + 1 ensures !(IsSpace(t[i]) && IsSpace(t[j])) {
        if i > 0 { assert t[i] == rest[i - 1] && t[j] == rest[j - 1]; }
      }
    }
    if OnlyPlainSpaces(rest) {
      forall i | 0 <= i < |t| && IsSpace(t[i]) ensures t[i] == ' ' {
        assert i > 0 && t[i] == rest[i - 1];
      }
    }
  }

  /** A one-character run followed by a string that starts visibly. */
  lemma JoinAtVisible(run: string, rest: string, m: nat)
    requires 1 <= m
    requires rest != [] ==> !IsSpace(rest[0])
    requires m <= 2 ==> |run| == 1
    requires m == 1 ==> run == " "
    requires m <= 2 ==> NoDoubleSpace(rest)
    requires m == 1 ==> OnlyPlainSpaces(rest)
    ensures m <= 2 ==> NoDoubleSpace(run + rest)
    ensures m == 1 ==> OnlyPlainSpaces(run + rest)
  {
    var t := run + rest;
    if m <= 2 {
      forall i, j | 0 <= i < |t| && 0 <= j < |t| && j == i + 1 ensures !(IsSpace(t[i]) && IsSpace(t[j])) {
        if i > 0 { assert t[i] == rest[i - 1] && t[j] == rest[j - 1]; }
        else { assert t[j] == rest[0]; }
      }
    }
    if m == 1 {
      forall i | 0 <= i < |t| && IsSpace(t[i]) ensures t[i] == ' ' {
        if i > 0 { assert t[i] == rest[i - 1]; }
      }
    }
  }

  /** Replacing white-space runs leaves the visible characters as they were. */
  lemma {:induction false} ReplaceRunsKeepsVisible(s: string, m: nat)
    requires m >= 1
    ensures Visible(ReplaceRuns(s, m)) == Visible(s)
    decreases |s|
  {
    if s == [] {
    } else if !IsSpace(s[0]) {
      ReplaceRunsKeepsVisible(s[1..], m);
      VisibleAppend([s[0]], ReplaceRuns(s[1..], m));
      VisibleAppend([s[0]], s[1..]);
      assert s == [s[0]] + s[1..];
    } else {
      var n := LeadingSpaces(s);
      var run: string := if n >= m then " " else s[..n];
      ReplaceRunsKeepsVisible(s[n..], m);
      assert s == s[..n] + s[n..];
      VisibleAppend(run, ReplaceRuns(s[n..], m));
      VisibleAppend(s[..n], s[n..]);
      VisibleEmpty(run);
      VisibleEmpty(s[..n]);
    }
  }

  /** The clean-up applied to every rendered line: `replace(/\s+/g, " ").trim()`. */
  function CleanLine(s: string): (r: string)
    ensures Trimmed(r) && NoDoubleSpace(r) && OnlyPlainSpaces(r)
  {
    var squashed := ReplaceRuns(s, 1);
    var r := Trim(squashed);
    var lo := LeadingSpaces(squashed);
    ReplaceRunsShape(s, 1);
    NoDoubleSpaceInfix(squashed, lo, lo + |r|);
    OnlyPlainSpacesInfix(squashed, lo, lo + |r|);
    r
  }

  /** The line clean-up only touches white space. */
  lemma CleanLineKeepsVisible(s: string)
    ensures Visible(CleanLine(s)) == Visible(s)
  {
    ReplaceRunsKeepsVisible(s, 1);
    TrimKeepsVisible(ReplaceRuns(s, 1));
  }

  lemma NoDoubleSpaceInfix(s: string, lo: nat, hi: nat)
    requires lo <= hi <= |s| && NoDoubleSpace(s)
    ensures NoDoubleSpace(s[lo..hi])
  {
    var t := s[lo..hi];
    forall i, j | 0 <= i < |t| && 0 <= j < |t| && j == i + 1 ensures !(IsSpace(t[i]) && IsSpace(t[j])) {
      assert t[i] == s[lo + i] && t[j] == s[lo + j];
    }
  }

  lemma OnlyPlainSpacesInfix(s: string, lo: nat, hi: nat)
    requires lo <= hi <= |s| && OnlyPlainSpaces(s)
    ensures OnlyPlainSpaces(s[lo..hi])
  {
    var t := s[lo..hi];
    forall i | 0 <= i < |t| && IsSpace(t[i]) ensures t[i] == ' ' {
      assert t[i] == s[lo + i];
    }
  }

  /** `LeadingSpaces` is determined by its contract. */
  lemma LeadingSpacesIs(s: string, n: nat)
    requires n <= |s| && (forall i :: 0 <= i < n ==> IsSpace(s[i]))
    requires n < |s| ==> !IsSpace(s[n])
    ensures LeadingSpaces(s) == n
  {
  }

  /** A whole white-space run becomes one plain space when it is at least `m` long,
      and is kept as it is when it is shorter. */
  lemma RunValue(s: string, m: nat)
    requires m >= 1 && s != [] && AllSpace(s)
    ensures ReplaceRuns(s, m) == if |s| >= m then " " else s
  {
    LeadingSpacesIs(s, |s|);
  }

  /** Replacing runs distributes over a concatenation whose seam does not fall
      inside a white-space run. */
  lemma {:induction false} ReplaceRunsAppend(a: string, b: string, m: nat)
    requires m >= 1
    requires a == [] || b == [] || !IsSpace(a[|a| - 1]) || !IsSpace(b[0])
    ensures ReplaceRuns(a + b, m) == ReplaceRuns(a, m) + ReplaceRuns(b, m)
    decreases |a|
  {
    if a == [] {
      assert a + b == b;
    } else if b == [] {
      assert a + b == a;
    } else if !IsSpace(a[0]) {
      assert (a + b)[0] == a[0];
      assert (a + b)[1..] == a[1..] + b;
      ReplaceRunsAppend(a[1..], b, m);
    } else if LeadingSpaces(a) < |a| {
      var n := LeadingSpaces(a);
      ReplaceRunsAppend(a[n..], b, m);
      ReplaceRunsAppendRun(a, b, m);
    } else {
      ReplaceRunsAppendAllSpace(a, b, m);
    }
  }

  lemma SliceAppend(a: string, b: string, n: nat)
    requires n <= |a|
    ensures (a + b)[..n] == a[..n] && (a + b)[n..] == a[n..] + b
  {}

  /** The replacement for the white-space run `s` opens with: one plain space when
      the run is at least `m` long, the run itself otherwise. */
  function RunPiece(s: string, m: nat): string
    requires s != [] && IsSpace(s[0])
  {
    if LeadingSpaces(s) >= m then " " else s[..LeadingSpaces(s)]
  }

  lemma UnfoldRun(s: string, m: nat)
    requires m >= 1 && s != [] && IsSpace(s[0])
    ensures ReplaceRuns(s, m) == RunPiece(s, m) + ReplaceRuns(s[LeadingSpaces(s)..], m)
  {}

  lemma RunPieceAppend(a: string, b: string, m: nat)
    requires a != [] && IsSpace(a[0]) && LeadingSpaces(a) < |a|
    ensures LeadingSpaces(a + b) == LeadingSpaces(a)
    ensures RunPiece(a + b, m) == RunPiece(a, m)
    ensures (a + b)[LeadingSpaces(a)..] == a[LeadingSpaces(a)..] + b
  {
    var n := LeadingSpaces(a);
    LeadingSpacesIs(a + b, n);
    SliceAppend(a, b, n);
  }

  /** One step of `ReplaceRunsAppend`: `a` opens with a run that ends inside it. */
  lemma ReplaceRunsAppendRun(a: string, b: string, m: nat)
    requires m >= 1 && a != [] && IsSpace(a[0]) && LeadingSpaces(a) < |a|
    requires ReplaceRuns(a[LeadingSpaces(a)..] + b, m) == ReplaceRuns(a[LeadingSpaces(a)..], m) + ReplaceRuns(b, m)
    ensures ReplaceRuns(a + b, m) == ReplaceRuns(a, m) + ReplaceRuns(b, m)
  {
    var n := LeadingSpaces(a);
    var x, y := ReplaceRuns(a[n..], m), ReplaceRuns(b, m);
    calc {
      ReplaceRuns(a + b, m);
      { UnfoldRun(a + b, m); RunPieceAppend(a, b, m); }
      RunPiece(a, m) + ReplaceRuns(a[n..] + b, m);
      RunPiece(a, m) + (x + y);
      (RunPiece(a, m) + x) + y;
      { UnfoldRun(a, m); }
      ReplaceRuns(a, m) + y;
    }
  }

  /** The other step: `a` is one white-space run and `b` starts visibly. */
  lemma ReplaceRunsAppendAllSpace(a: string, b: string, m: nat)
    requires m >= 1 && a != [] && b != [] && IsSpace(a[0]) && LeadingSpaces(a) == |a|
    requires !IsSpace(a[|a| - 1]) || !IsSpace(b[0])
    ensures ReplaceRuns(a + b, m) == ReplaceRuns(a, m) + ReplaceRuns(b, m)
  {
    var n := |a|;
    LeadingSpacesIs(a + b, n);
    var run: string := if n >= m then " " else a;
    assert (a + b)[..n] == a;
    assert (a + b)[n..] == b;
    assert a[n..] == [];
    assert ReplaceRuns(a + b, m) == run + ReplaceRuns(b, m);
    assert ReplaceRuns(a, m) == run + ReplaceRuns(a[n..], m);
    assert ReplaceRuns(a[n..], m) == [];
    assert run + [] == run;
  }

  /** Trimming keeps every piece of `s` whose ends are visible. */
  lemma TrimKeeps(x: string, q: string, y: string)
    requires q != [] && Trimmed(q)
    ensures Occurs(q, Trim(x + q + y))
  {
    var s := x + q + y;
    var lo := LeadingSpaces(s);
    var r := Trim(s);
    assert s[|x|] == q[0];
    assert lo <= |x|;
    assert s[|x| + |q| - 1] == q[|q| - 1];
    assert |x| + |q| <= lo + |r|;
    assert r[|x| - lo..|x| - lo + |q|] == s[|x|..|x| + |q|] == q;
    assert OccursAt(q, r, |x| - lo);
  }

  /** A piece of a rendered line that starts and ends visibly survives the line
      clean-up, with its own white-space runs squashed. */
  lemma CleanLineKeeps(p: string, s: string)
    requires p != [] && Trimmed(p) && Occurs(p, s)
    ensures Occurs(ReplaceRuns(p, 1), CleanLine(s))
  {
    var i: nat :| i <= |s| && OccursAt(p, s, i);
    var x, y := s[..i], s[i + |p|..];
    assert s == x + p + y;
    ReplaceRunsAround(x, p, y);
    TrimKeeps(ReplaceRuns(x, 1), ReplaceRuns(p, 1), ReplaceRuns(y, 1));
  }

  lemma ReplaceRunsAround(x: string, p: string, y: string)
    requires p != [] && Trimmed(p)
    ensures ReplaceRuns(x + p + y, 1) == ReplaceRuns(x, 1) + ReplaceRuns(p, 1) + ReplaceRuns(y, 1)
  {
    ReplaceRunsAppend(x, p, 1);
    assert (x + p)[|x + p| - 1] == p[|p| - 1];
    ReplaceRunsAppend(x + p, y, 1);
  }

  lemma {:induction false} ReplaceRunsFixpoint(s: string, m: nat)
    requires 1 <= m <= 2 && NoDoubleSpace(s)
    requires m == 1 ==> OnlyPlainSpaces(s)
    ensures ReplaceRuns(s, m) == s
    decreases |s|
  {
    if s != [] {
      NoDoubleSpaceInfix(s, 1, |s|);
      if m == 1 { OnlyPlainSpacesInfix(s, 1, |s|); }
      if IsSpace(s[0]) {
        if |s| > 1 { assert !IsSpace(s[1]); }
        LeadingSpacesIs(s, 1);
      }
      ReplaceRunsFixpoint(s[1..], m);
      assert s == [s[0]] + s[1..];
    }
  }

  lemma TrimFixpoint(s: string)
    requires Trimmed(s)
    ensures Trim(s) == s
  {
    if s != [] {
      LeadingSpacesIs(s, 0);
      var r := Trim(s);
      assert !IsSpace(s[|s| - 1]);
      assert |r| == |s|;
    }
  }

  /** Cleaning a line twice changes nothing more. */
  lemma CleanLineIdempotent(s: string)
    ensures CleanLine(CleanLine(s)) == CleanLine(s)
  {
    var t := CleanLine(s);
    ReplaceRunsFixpoint(t, 1);
    TrimFixpoint(t);
  }
}
