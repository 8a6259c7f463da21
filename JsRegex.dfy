/**
 * The global regular-expression replacements the text cleaners use, written as
 * left-to-right scans: `s.replace(/P+/g, ' ')` for a character class P, and the
 * shape facts about its result that the cleaners' contracts build on.
 */
module JsRegex {
  import opened JsText

  predicate IsNewline(c: char) {
    c == '\n'
  }

  predicate NotLineTerminator(c: char) {
    !IsLineTerminator(c)
  }

  /** The length of the longest prefix of `s` whose characters satisfy `p`: what a greedy `P*` consumes. */
  function RunLen(s: string, p: char -> bool): (k: nat)
    ensures k <= |s|
    ensures forall i :: 0 <= i < k ==> p(s[i])
    ensures k < |s| ==> !p(s[k])
  {
    if s == [] || !p(s[0]) then 0 else 1 + RunLen(s[1..], p)
  }

  /** `s.replace(/P+/g, ' ')`: every maximal run of characters satisfying `p` becomes a single space. */
  function ReplaceRuns(s: string, p: char -> bool): (r: string)
    ensures |r| <= |s|
    ensures r == [] <==> s == []
    ensures s != [] ==> r[0] == if p(s[0]) then ' ' else s[0]
    decreases |s|
  {
    if s == [] then []
    else if p(s[0]) then " " + ReplaceRuns(s[RunLen(s, p)..], p)
    else [s[0]] + ReplaceRuns(s[1..], p)
  }

  predicate NoTwoInRow(r: string, p: char -> bool) {
    forall i :: 0 <= i < |r| - 1 && p(r[i]) ==> !p(r[i + 1])
  }

  /** What the replacement leaves: spaces and the characters of `s` outside the class, never two class characters in a row. */
  lemma {:induction false} ReplaceRunsShape(s: string, p: char -> bool)
    ensures forall c :: c in ReplaceRuns(s, p) ==> c == ' ' || (c in s && !p(c))
    ensures NoTwoInRow(ReplaceRuns(s, p), p)
    decreases |s|
  {
    if s != [] {
      var k := if p(s[0]) then RunLen(s, p) else 1;
      var rest := ReplaceRuns(s[k..], p);
      ReplaceRunsShape(s[k..], p);
      assert forall c :: c in s[k..] ==> c in s;
      var r := ReplaceRuns(s, p);
      if p(s[0]) {
        UnfoldRun(s, p);
        assert rest != [] ==> !p(rest[0]);
      } else {
        UnfoldKeep(s, p);
      }
      assert r == [r[0]] + rest;
      assert forall i :: 0 < i < |r| ==> r[i] == rest[i - 1];
    }
  }

  lemma UnfoldRun(s: string, p: char -> bool)
    requires s != [] && p(s[0])
    ensures ReplaceRuns(s, p) == " " + ReplaceRuns(s[RunLen(s, p)..], p)
  {
  }

  lemma UnfoldKeep(s: string, p: char -> bool)
    requires s != [] && !p(s[0])
    ensures ReplaceRuns(s, p) == [s[0]] + ReplaceRuns(s[1..], p)
  {
  }

  /** `s.replace(/\s+/g, ' ')`. */
  function CollapseWs(s: string): string {
    ReplaceRuns(s, IsSpace)
  }

  /** Every character of `s` is in the class `p`. */
  predicate Every(s: string, p: char -> bool) {
    forall i :: 0 <= i < |s| ==> p(s[i])
  }

  lemma EveryCons(x: char, t: string, p: char -> bool)
    ensures Every([x] + t, p) <==> p(x) && Every(t, p)
  {
    var u := [x] + t;
    assert u[0] == x;
    assert forall i :: 0 <= i < |t| ==> t[i] == u[i + 1];
    assert forall i :: 0 < i < |u| ==> u[i] == t[i - 1];
  }

  lemma EveryConcat(a: string, b: string, p: char -> bool)
    ensures Every(a + b, p) <==> Every(a, p) && Every(b, p)
  {
    var u := a + b;
    assert forall i :: 0 <= i < |a| ==> u[i] == a[i];
    assert forall i :: 0 <= i < |b| ==> u[|a| + i] == b[i];
    if Every(a, p) && Every(b, p) {
      forall i | 0 <= i < |u|
        ensures p(u[i])
      {
        if i >= |a| {
          assert u[i] == b[i - |a|];
        }
      }
    }
  }

  /** A class that contains the space holds every character of a string built from its members and spaces. */
  lemma EveryOfChars(s: string, t: string, p: char -> bool)
    requires Every(s, p) && p(' ')
    requires forall c :: c in t ==> c == ' ' || c in s
    ensures Every(t, p)
  {
    forall i | 0 <= i < |t|
      ensures p(t[i])
    {
      if t[i] != ' ' {
        assert t[i] in s;
        var j :| 0 <= j < |s| && s[j] == t[i];
      }
    }
  }

  /** The only white space in `s` is the plain space. */
  predicate SpacesOnly(s: string) {
    forall i :: 0 <= i < |s| ==> IsSpace(s[i]) ==> s[i] == ' '
  }

  lemma SpacesOnlyNoBreaks(s: string)
    requires SpacesOnly(s)
    ensures forall i :: 0 <= i < |s| ==> s[i] != '\n' && s[i] != '\r' && s[i] != '\t'
  {
    forall i | 0 <= i < |s|
      ensures s[i] != '\n' && s[i] != '\r' && s[i] != '\t'
    {
      if s[i] == '\n' || s[i] == '\r' || s[i] == '\t' {
        assert IsSpace(s[i]);
      }
    }
  }

  /** A string made of characters of a string whose only white space is the space has no other white space either. */
  lemma SpacesOnlyOfChars(s: string, t: string)
    requires SpacesOnly(s) && forall c :: c in t ==> c in s
    ensures SpacesOnly(t)
  {
    forall i | 0 <= i < |t| && IsSpace(t[i])
      ensures t[i] == ' '
    {
      assert t[i] in s;
      var j :| 0 <= j < |s| && s[j] == t[i];
    }
  }

  /** The only white space is the plain space, and no two white-space characters are adjacent. */
  predicate SingleSpaced(s: string) {
    forall i :: 0 <= i < |s| && IsSpace(s[i]) ==> s[i] == ' ' && (i + 1 < |s| ==> !IsSpace(s[i + 1]))
  }

  lemma CollapseWsSingleSpaced(s: string)
    ensures SingleSpaced(CollapseWs(s))
    ensures forall c :: c in CollapseWs(s) ==> c == ' ' || c in s
  {
    ReplaceRunsShape(s, IsSpace);
    var r := ReplaceRuns(s, IsSpace);
    var space: char -> bool := IsSpace;
    forall i | 0 <= i < |r| && IsSpace(r[i])
      ensures r[i] == ' ' && (i + 1 < |r| ==> !IsSpace(r[i + 1]))
    {
      assert r[i] in r;
      if i + 1 < |r| {
        assert space(r[i]) ==> !space(r[i + 1]);
      }
    }
  }

  /** A string without any character of the class is left alone. */
  lemma {:induction false} ReplaceRunsNone(s: string, p: char -> bool)
    requires forall i :: 0 <= i < |s| ==> !p(s[i])
    ensures ReplaceRuns(s, p) == s
    decreases |s|
  {
    if s != [] {
      ReplaceRunsNone(s[1..], p);
    }
  }

  lemma SingleSpacedSlice(s: string, lo: nat, hi: nat)
    requires SingleSpaced(s) && lo <= hi <= |s|
    ensures SingleSpaced(s[lo..hi])
  {
    var t := s[lo..hi];
    assert forall i :: 0 <= i < |t| ==> t[i] == s[lo + i];
  }

  lemma SingleSpacedCons(h: char, rest: string)
    requires SingleSpaced(rest)
    requires IsSpace(h) ==> h == ' ' && (rest == [] || !IsSpace(rest[0]))
    ensures SingleSpaced([h] + rest)
  {
    var r := [h] + rest;
    assert forall i :: 0 < i < |r| ==> r[i] == rest[i - 1];
  }

  /** Trimming a single-spaced string keeps it single-spaced. */
  lemma TrimSingleSpaced(s: string)
    requires SingleSpaced(s)
    ensures SingleSpaced(Trim(s))
  {
    var t := TrimStart(s);
    SingleSpacedSlice(s, |s| - |t|, |s|);
    SingleSpacedSlice(t, 0, |TrimEnd(t)|);
  }

  /** Trimming only removes characters. */
  lemma TrimChars(s: string)
    ensures forall c :: c in Trim(s) ==> c in s
  {
    var t := TrimStart(s);
    assert forall c :: c in t ==> c in s;
    assert forall c :: c in TrimEnd(t) ==> c in t;
  }

  // The lemmas below are stated for an arbitrary class `q` that contains the space, so
  // that the proofs never unfold the many-way definition of `IsSpace`.

  // Two class characters in a row are replaced like one.
  lemma ReplaceTwo(c: char, d: char, y: string, q: char -> bool)
    requires q(c) && q(d)
    ensures ReplaceRuns([c, d] + y, q) == ReplaceRuns([c] + y, q)
  {
    var s2 := [c, d] + y;
    var s1 := [c] + y;
    assert s2[1..] == [d] + y && s2[2..] == y;
    assert s1[1..] == y;
    assert RunLen(s2, q) == 2 + RunLen(y, q) by {
      assert RunLen(s2[1..], q) == 1 + RunLen(y, q);
    }
    assert s2[RunLen(s2, q)..] == y[RunLen(y, q)..];
    assert s1[RunLen(s1, q)..] == y[RunLen(y, q)..];
  }

  // Which class character starts a run does not matter.
  lemma ReplaceAnyOf(c: char, d: char, y: string, q: char -> bool)
    requires q(c) && q(d)
    ensures ReplaceRuns([c] + y, q) == ReplaceRuns([d] + y, q)
  {
    var s1 := [c] + y;
    var s2 := [d] + y;
    assert s1[1..] == y && s2[1..] == y;
    assert s1[RunLen(s1, q)..] == y[RunLen(y, q)..];
    assert s2[RunLen(s2, q)..] == y[RunLen(y, q)..];
  }

  // A run after a class character is absorbed.
  lemma {:induction false} ReplaceAbsorbsRun(c: char, x: string, y: string, q: char -> bool)
    requires q(c) && forall i :: 0 <= i < |x| ==> q(x[i])
    ensures ReplaceRuns([c] + x + y, q) == ReplaceRuns([c] + y, q)
    decreases |x|
  {
    if x == [] {
      assert [c] + x + y == [c] + y;
    } else {
      assert [c] + x + y == [c, x[0]] + (x[1..] + y);
      ReplaceTwo(c, x[0], x[1..] + y, q);
      assert [c] + (x[1..] + y) == [c] + x[1..] + y;
      ReplaceAbsorbsRun(c, x[1..], y, q);
    }
  }

  lemma ReplaceCons(c: char, y: string, q: char -> bool)
    requires !q(c)
    ensures ReplaceRuns([c] + y, q) == [c] + ReplaceRuns(y, q)
  {
    assert ([c] + y)[1..] == y;
  }

  lemma ReplaceBehindWord(c: char, y: string, q: char -> bool)
    requires q(c) && y != [] && !q(y[0])
    ensures ReplaceRuns([c] + y, q) == " " + ReplaceRuns(y, q)
  {
    var t := [c] + y;
    assert RunLen(t[1..], q) == 0 && t[1..] == y;
  }

  /** Replacing the runs of a narrower class `p` first does not change the replacement of the runs of `q`. */
  lemma {:induction false} ReplaceAfterReplace(s: string, p: char -> bool, q: char -> bool)
    requires forall c :: p(c) ==> q(c)
    requires q(' ')
    ensures ReplaceRuns(ReplaceRuns(s, p), q) == ReplaceRuns(s, q)
    decreases |s|, 1
  {
    if s == [] {
    } else if !p(s[0]) && !q(s[0]) {
      var rest := ReplaceRuns(s[1..], p);
      UnfoldKeep(s, p);
      ReplaceCons(s[0], rest, q);
      ReplaceAfterReplace(s[1..], p, q);
      ReplaceCons(s[0], s[1..], q);
      assert [s[0]] + s[1..] == s;
    } else if !p(s[0]) {
      UnfoldKeep(s, p);
      ReplaceAfterReplaceBehind(s[0], s[1..], p, q);
      assert [s[0]] + s[1..] == s;
    } else {
      AfterReplacedRun(s, p, q);
    }
  }

  lemma {:induction false} AfterReplacedRun(s: string, p: char -> bool, q: char -> bool)
    requires forall c :: p(c) ==> q(c)
    requires q(' ')
    requires s != [] && p(s[0])
    ensures ReplaceRuns(ReplaceRuns(s, p), q) == ReplaceRuns(s, q)
    decreases |s|, 0
  {
    var tail := s[RunLen(s, p)..];
    RunAsSpace(s, p, q);
    ReplaceAfterReplaceBehind(' ', tail, p, q);
    ReplaceAnyOf(' ', s[0], tail, q);
    AbsorbOwnRun(s, p, q);
  }

  // A leading `p`-run becomes the single space that the `q`-replacement then sees.
  lemma RunAsSpace(s: string, p: char -> bool, q: char -> bool)
    requires s != [] && p(s[0])
    ensures ReplaceRuns(ReplaceRuns(s, p), q) == ReplaceRuns([' '] + ReplaceRuns(s[RunLen(s, p)..], p), q)
  {
    UnfoldRun(s, p);
    assert " " + ReplaceRuns(s[RunLen(s, p)..], p) == [' '] + ReplaceRuns(s[RunLen(s, p)..], p);
  }

  // The rest of a leading `p`-run is absorbed by its first character's `q`-run.
  lemma AbsorbOwnRun(s: string, p: char -> bool, q: char -> bool)
    requires forall c :: p(c) ==> q(c)
    requires s != [] && p(s[0])
    ensures ReplaceRuns([s[0]] + s[RunLen(s, p)..], q) == ReplaceRuns(s, q)
  {
    var k := RunLen(s, p);
    RunInClass(s, p, q);
    ReplaceAbsorbsRun(s[0], s[1..k], s[k..], q);
    assert [s[0]] + s[1..k] + s[k..] == s;
  }

  /** The characters after the first of a `p`-run all lie in the wider class `q`. */
  lemma RunInClass(s: string, p: char -> bool, q: char -> bool)
    requires forall c :: p(c) ==> q(c)
    requires s != [] && p(s[0])
    ensures forall i :: 0 <= i < |s[1..RunLen(s, p)]| ==> q(s[1..RunLen(s, p)][i])
  {
    var k := RunLen(s, p);
    forall i | 0 <= i < |s[1..k]|
      ensures q(s[1..k][i])
    {
      assert s[1..k][i] == s[i + 1] && p(s[i + 1]);
    }
  }

  /** The same, behind a class character `c`. */
  lemma {:induction false} ReplaceAfterReplaceBehind(c: char, s: string, p: char -> bool, q: char -> bool)
    requires forall c :: p(c) ==> q(c)
    requires q(' ') && q(c)
    ensures ReplaceRuns([c] + ReplaceRuns(s, p), q) == ReplaceRuns([c] + s, q)
    decreases |s|, 2
  {
    if s == [] {
    } else if !p(s[0]) && q(s[0]) {
      BehindKeptClassChar(c, s, p, q);
    } else if !p(s[0]) {
      var rest := ReplaceRuns(s[1..], p);
      UnfoldKeep(s, p);
      ReplaceBehindWord(c, [s[0]] + rest, q);
      ReplaceBehindWord(c, s, q);
      ReplaceAfterReplace(s, p, q);
    } else {
      BehindReplacedRun(c, s, p, q);
    }
  }

  lemma {:induction false} BehindKeptClassChar(c: char, s: string, p: char -> bool, q: char -> bool)
    requires forall c :: p(c) ==> q(c)
    requires q(' ') && q(c) && s != [] && !p(s[0]) && q(s[0])
    ensures ReplaceRuns([c] + ReplaceRuns(s, p), q) == ReplaceRuns([c] + s, q)
    decreases |s|, 0
  {
    KeptBehind(c, s, p, q);
    ReplaceAfterReplaceBehind(c, s[1..], p, q);
    DropBehind(c, s, q);
  }

  // A kept class character behind `c` merges into `c`'s run.
  lemma KeptBehind(c: char, s: string, p: char -> bool, q: char -> bool)
    requires q(c) && s != [] && !p(s[0]) && q(s[0])
    ensures ReplaceRuns([c] + ReplaceRuns(s, p), q) == ReplaceRuns([c] + ReplaceRuns(s[1..], p), q)
  {
    var rest := ReplaceRuns(s[1..], p);
    UnfoldKeep(s, p);
    assert [c] + ([s[0]] + rest) == [c, s[0]] + rest;
    ReplaceTwo(c, s[0], rest, q);
  }

  // The same merge before any replacement.
  lemma DropBehind(c: char, s: string, q: char -> bool)
    requires q(c) && s != [] && q(s[0])
    ensures ReplaceRuns([c] + s[1..], q) == ReplaceRuns([c] + s, q)
  {
    assert [c] + s == [c, s[0]] + s[1..];
    ReplaceTwo(c, s[0], s[1..], q);
  }

  lemma {:induction false} BehindReplacedRun(c: char, s: string, p: char -> bool, q: char -> bool)
    requires forall c :: p(c) ==> q(c)
    requires q(' ') && q(c) && s != [] && p(s[0])
    ensures ReplaceRuns([c] + ReplaceRuns(s, p), q) == ReplaceRuns([c] + s, q)
    decreases |s|, 0
  {
    RunBehind(c, s, p, q);
    ReplaceAfterReplaceBehind(c, s[RunLen(s, p)..], p, q);
    RunPrefixBehind(c, s, p, q);
  }

  // A replaced run behind `c` merges into `c`'s run.
  lemma RunBehind(c: char, s: string, p: char -> bool, q: char -> bool)
    requires q(' ') && q(c) && s != [] && p(s[0])
    ensures ReplaceRuns([c] + ReplaceRuns(s, p), q)
         == ReplaceRuns([c] + ReplaceRuns(s[RunLen(s, p)..], p), q)
  {
    var rest := ReplaceRuns(s[RunLen(s, p)..], p);
    UnfoldRun(s, p);
    assert [c] + (" " + rest) == [c, ' '] + rest;
    ReplaceTwo(c, ' ', rest, q);
  }

  // The `p`-run itself, before any replacement, is absorbed by `c`'s run.
  lemma RunPrefixBehind(c: char, s: string, p: char -> bool, q: char -> bool)
    requires forall c :: p(c) ==> q(c)
    requires q(c)
    ensures ReplaceRuns([c] + s[RunLen(s, p)..], q) == ReplaceRuns([c] + s, q)
  {
    var k := RunLen(s, p);
    forall i | 0 <= i < |s[..k]|
      ensures q(s[..k][i])
    {
      assert p(s[i]);
    }
    ReplaceAbsorbsRun(c, s[..k], s[k..], q);
    assert [c] + s[..k] + s[k..] == [c] + s;
  }

  /** `s.replace(/\n+/g, ' ').replace(/\s+/g, ' ')` is `s.replace(/\s+/g, ' ')`. */
  lemma CollapseAfterNewlines(s: string)
    ensures CollapseWs(ReplaceRuns(s, IsNewline)) == CollapseWs(s)
  {
    ReplaceAfterReplace(s, IsNewline, IsSpace);
  }
}
