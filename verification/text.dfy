/**
  Ordinal text replacement as performed by .NET's `String.Replace(string, string)`:
  the text is scanned from left to right, every non-overlapping occurrence of the
  pattern is replaced, and scanning resumes just after the occurrence that was
  replaced. `Split` and `Join` give an independent description of the same
  operation: cut the text at the occurrences, then glue the pieces back together
  with the replacement.
 */
module Text {

  /** `pat` occurs in `s` starting at index `i`. */
  predicate OccursAt(s: string, pat: string, i: int)
  {
    0 <= i && i + |pat| <= |s| && s[i..i + |pat|] == pat
  }

  /** `pat` occurs somewhere in `s`. */
  predicate Contains(s: string, pat: string)
  {
    exists i | 0 <= i <= |s| :: OccursAt(s, pat, i)
  }

  /** Replace every occurrence of `pat` in `s` by `rep`, scanning left to right. */
  function ReplaceAll(s: string, pat: string, rep: string): string
    requires |pat| > 0
    decreases |s|
  {
    if |s| < |pat| then s
    else if s[..|pat|] == pat then rep + ReplaceAll(s[|pat|..], pat, rep)
    else [s[0]] + ReplaceAll(s[1..], pat, rep)
  }

  /** The pieces of `s` between the occurrences of `pat`, found by the same scan. */
  function Split(s: string, pat: string): (parts: seq<string>)
    requires |pat| > 0
    ensures |parts| > 0
    decreases |s|
  {
    if |s| < |pat| then [s]
    else if s[..|pat|] == pat then [""] + Split(s[|pat|..], pat)
    else
      var rest := Split(s[1..], pat);
      [[s[0]] + rest[0]] + rest[1..]
  }

  /** The pieces glued together, with `sep` between each two neighbours. */
  function Join(parts: seq<string>, sep: string): string
    requires |parts| > 0
    decreases |parts|
  {
    if |parts| == 1 then parts[0] else parts[0] + sep + Join(parts[1..], sep)
  }

  /** Prepending to the first piece prepends to the joined text. */
  lemma {:induction false} JoinConsFirst(c: string, parts: seq<string>, sep: string)
    requires |parts| > 0
    ensures Join([c + parts[0]] + parts[1..], sep) == c + Join(parts, sep)
  {
    var ps := [c + parts[0]] + parts[1..];
    assert ps[1..] == parts[1..];
    if |parts| > 1 {
      assert Join(ps, sep) == (c + parts[0]) + sep + Join(parts[1..], sep);
    }
  }

  /** Replacing is cutting at the occurrences and gluing with the replacement. */
  lemma {:induction false} ReplaceAllIsJoinOfSplit(s: string, pat: string, rep: string)
    requires |pat| > 0
    ensures ReplaceAll(s, pat, rep) == Join(Split(s, pat), rep)
    decreases |s|
  {
    if |s| < |pat| {
    } else if s[..|pat|] == pat {
      var t := s[|pat|..];
      ReplaceAllIsJoinOfSplit(t, pat, rep);
      var ps := Split(s, pat);
      assert ps == [""] + Split(t, pat);
      assert ps[1..] == Split(t, pat);
      assert Join(ps, rep) == "" + rep + Join(Split(t, pat), rep);
      assert ReplaceAll(s, pat, rep) == rep + ReplaceAll(t, pat, rep);
    } else {
      var t := s[1..];
      ReplaceAllIsJoinOfSplit(t, pat, rep);
      var rest := Split(t, pat);
      assert Split(s, pat) == [[s[0]] + rest[0]] + rest[1..];
      JoinConsFirst([s[0]], rest, rep);
      assert ReplaceAll(s, pat, rep) == [s[0]] + ReplaceAll(t, pat, rep);
    }
  }

  /** Gluing the pieces back with the pattern itself gives the original text. */
  lemma {:induction false} JoinSplitRoundTrip(s: string, pat: string)
    requires |pat| > 0
    ensures Join(Split(s, pat), pat) == s
    decreases |s|
  {
    if |s| < |pat| {
    } else if s[..|pat|] == pat {
      var t := s[|pat|..];
      JoinSplitRoundTrip(t, pat);
      var ps := Split(s, pat);
      assert ps == [""] + Split(t, pat);
      assert ps[1..] == Split(t, pat);
      assert Join(ps, pat) == "" + pat + Join(Split(t, pat), pat);
      assert s == pat + t;
    } else {
      var t := s[1..];
      JoinSplitRoundTrip(t, pat);
      var rest := Split(t, pat);
      assert Split(s, pat) == [[s[0]] + rest[0]] + rest[1..];
      JoinConsFirst([s[0]], rest, pat);
      assert s == [s[0]] + t;
    }
  }

  /** Replacing a pattern by itself changes nothing. */
  lemma ReplaceWithItself(s: string, pat: string)
    requires |pat| > 0
    ensures ReplaceAll(s, pat, pat) == s
  {
    ReplaceAllIsJoinOfSplit(s, pat, pat);
    JoinSplitRoundTrip(s, pat);
  }

  /** The first piece is the text up to the first occurrence. */
  lemma {:induction false} SplitFirstIsPrefix(s: string, pat: string)
    requires |pat| > 0
    ensures |Split(s, pat)[0]| <= |s| && Split(s, pat)[0] == s[..|Split(s, pat)[0]|]
    decreases |s|
  {
    if |s| < |pat| {
    } else if s[..|pat|] == pat {
      assert Split(s, pat)[0] == "";
    } else {
      var t := s[1..];
      SplitFirstIsPrefix(t, pat);
      var rest := Split(t, pat);
      var r := rest[0];
      assert Split(s, pat) == [[s[0]] + r] + rest[1..];
      assert r == t[..|r|];
      assert s[..|r| + 1] == [s[0]] + t[..|r|];
    }
  }

  /**
    A piece that does not contain the pattern still does not after one more character
    is put in front of it, as long as the pattern does not start at that character.
   */
  lemma ConsWithoutOccurrence(c: char, r: string, pat: string)
    requires |pat| > 0
    requires !Contains(r, pat)
    requires !OccursAt([c] + r, pat, 0)
    ensures !Contains([c] + r, pat)
  {
    var first := [c] + r;
    forall i | 0 <= i <= |first| && OccursAt(first, pat, i) ensures false {
      assert i > 0;
      assert r[i - 1..i - 1 + |pat|] == first[i..i + |pat|];
      assert OccursAt(r, pat, i - 1);
    }
  }

  /** No piece produced by the scan contains the pattern. */
  lemma {:induction false} SplitPiecesFree(s: string, pat: string)
    requires |pat| > 0
    ensures forall k :: 0 <= k < |Split(s, pat)| ==> !Contains(Split(s, pat)[k], pat)
    decreases |s|
  {
    var ps := Split(s, pat);
    if |s| < |pat| {
      assert ps == [s];
      forall i | 0 <= i <= |s| && OccursAt(s, pat, i) ensures false { }
    } else if s[..|pat|] == pat {
      var t := s[|pat|..];
      SplitPiecesFree(t, pat);
      assert ps == [""] + Split(t, pat);
      forall k | 0 <= k < |ps| ensures !Contains(ps[k], pat) {
        if k > 0 {
          assert ps[k] == Split(t, pat)[k - 1];
        } else {
          assert ps[k] == "";
        }
      }
    } else {
      var t := s[1..];
      SplitPiecesFree(t, pat);
      SplitFirstIsPrefix(t, pat);
      var rest := Split(t, pat);
      assert ps == [[s[0]] + rest[0]] + rest[1..];
      var first := [s[0]] + rest[0];
      assert !Contains(rest[0], pat);
      assert rest[0] == t[..|rest[0]|];
      assert first == s[..|first|];
      if |pat| <= |first| {
        assert first[..|pat|] == s[..|pat|];
      }
      ConsWithoutOccurrence(s[0], rest[0], pat);
      forall k | 0 <= k < |ps| ensures !Contains(ps[k], pat) {
        if k > 0 {
          assert ps[k] == rest[k];
        }
      }
    }
  }

  /** A text that does not contain the pattern is a single piece. */
  lemma {:induction false} SplitAbsent(s: string, pat: string)
    requires |pat| > 0
    requires !Contains(s, pat)
    ensures Split(s, pat) == [s]
    decreases |s|
  {
    if |pat| <= |s| {
      assert !OccursAt(s, pat, 0);
      assert s[..|pat|] != pat;
      forall i | OccursAt(s[1..], pat, i) ensures false {
        assert s[1..][i..i + |pat|] == s[i + 1..i + 1 + |pat|];
        assert OccursAt(s, pat, i + 1);
      }
      SplitAbsent(s[1..], pat);
      assert s == [s[0]] + s[1..];
    }
  }

  /** A text without the pattern passes through a replacement unchanged. */
  lemma ReplaceAbsent(s: string, pat: string, rep: string)
    requires |pat| > 0
    requires !Contains(s, pat)
    ensures ReplaceAll(s, pat, rep) == s
  {
    ReplaceAllIsJoinOfSplit(s, pat, rep);
    SplitAbsent(s, pat);
  }

  /** An occurrence of the pattern at the very start is replaced. */
  lemma ReplaceLeadingOccurrence(pat: string, rest: string, rep: string)
    requires |pat| > 0
    ensures ReplaceAll(pat + rest, pat, rep) == rep + ReplaceAll(rest, pat, rep)
  {
    var s := pat + rest;
    assert s[..|pat|] == pat;
    assert s[|pat|..] == rest;
  }

  /** Cut at a one-character separator, a text that starts with a separator-free line has that line as its first piece. */
  lemma {:induction false} SplitFirstLine(line: string, c: char, rest: string)
    requires c !in line
    ensures Split(line + [c] + rest, [c])[0] == line
    decreases |line|
  {
    var s := line + [c] + rest;
    if line == [] {
      assert s[..1] == [c];
    } else {
      assert s[..1] != [c] by {
        assert s[0] == line[0];
      }
      assert s[1..] == line[1..] + [c] + rest;
      SplitFirstLine(line[1..], c, rest);
      assert line == [line[0]] + line[1..];
    }
  }

  /** Cut at a one-character separator, a text that ends with a separator-free line has that line as its last piece. */
  lemma {:induction false} SplitLastLine(rest: string, c: char, line: string)
    requires c !in line
    ensures var parts := Split(rest + [c] + line, [c]);
      |parts| >= 2 && parts[|parts| - 1] == line
    decreases |rest|
  {
    var s := rest + [c] + line;
    if rest == [] {
      assert s[..1] == [c];
      assert s[1..] == line;
      forall i | 0 <= i <= |line| ensures !OccursAt(line, [c], i) {
        if i < |line| {
          assert line[i..i + 1] == [line[i]];
        }
      }
      SplitAbsent(line, [c]);
    } else if rest[0] == c {
      assert s[..1] == [c];
      assert s[1..] == rest[1..] + [c] + line;
      SplitLastLine(rest[1..], c, line);
    } else {
      assert s[..1] != [c] by {
        assert s[0] == rest[0];
      }
      assert s[1..] == rest[1..] + [c] + line;
      SplitLastLine(rest[1..], c, line);
    }
  }
}
