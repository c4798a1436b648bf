/** String operations with the semantics of Python's `str` methods used by the replayer. */
module Text {
  import opened Base

  /** `pat` occurs in `s` starting at index `i`. */
  predicate OccursAt(s: string, pat: string, i: nat)
  {
    i + |pat| <= |s| && s[i..i + |pat|] == pat
  }

  /** Python's `pat in s`. */
  ghost predicate Contains(s: string, pat: string)
  {
    exists i: nat :: OccursAt(s, pat, i)
  }

  /** An occurrence inside a prefix of `s` is an occurrence in `s`. */
  lemma OccursInPrefix(s: string, n: nat, pat: string, i: nat)
    requires n <= |s| && OccursAt(s[..n], pat, i)
    ensures OccursAt(s, pat, i)
  {
    assert s[..n][i..i + |pat|] == s[i..i + |pat|];
  }

  /** An occurrence inside a suffix of `s` is an occurrence in `s`, shifted. */
  lemma OccursInSuffix(s: string, n: nat, pat: string, i: nat)
    requires n <= |s| && OccursAt(s[n..], pat, i)
    ensures OccursAt(s, pat, n + i)
  {
    assert s[n..][i..i + |pat|] == s[n + i..n + i + |pat|];
  }

  /** Leftmost occurrence of `pat` in `s` at or after `from` (Python's `s.find(pat, from)`). */
  function FindFrom(s: string, pat: string, from: nat): (r: Option<nat>)
    ensures r.Some? ==> from <= r.value && OccursAt(s, pat, r.value)
    ensures r.Some? ==> forall j: nat :: from <= j < r.value ==> !OccursAt(s, pat, j)
    ensures r.None? ==> forall j: nat :: from <= j ==> !OccursAt(s, pat, j)
    decreases |s| - from
  {
    if from + |pat| > |s| then None
    else if OccursAt(s, pat, from) then Some(from)
    else FindFrom(s, pat, from + 1)
  }

  /** Leftmost occurrence of `pat` in `s`; `None` exactly when `pat` does not occur. */
  function IndexOf(s: string, pat: string): (r: Option<nat>)
    ensures r.None? <==> !Contains(s, pat)
    ensures r.Some? ==> OccursAt(s, pat, r.value)
    ensures r.Some? ==> forall j: nat :: j < r.value ==> !OccursAt(s, pat, j)
  {
    FindFrom(s, pat, 0)
  }

  /** Python's `s.split(pat)[0]`: the text before the first occurrence of `pat`, or all of `s`. */
  function PrefixBefore(s: string, pat: string): (r: string)
    requires |pat| > 0
    ensures |r| <= |s| && r == s[..|r|]
    ensures !Contains(r, pat)
    ensures r == s || OccursAt(s, pat, |r|)
    ensures forall j: nat :: j < |r| ==> !OccursAt(s, pat, j)
  {
    match IndexOf(s, pat)
    case None => s
    case Some(j) =>
      assert !Contains(s[..j], pat) by {
        forall k: nat | OccursAt(s[..j], pat, k)
          ensures false
        {
          OccursInPrefix(s, j, pat, k);
        }
      }
      s[..j]
  }

  /** A prefix of a text free of `pat` is free of `pat`. */
  lemma PrefixKeepsAbsence(s: string, n: nat, pat: string)
    requires n <= |s| && !Contains(s, pat)
    ensures !Contains(s[..n], pat)
  {
    forall k: nat | OccursAt(s[..n], pat, k)
      ensures false
    {
      OccursInPrefix(s, n, pat, k);
    }
  }

  /**
   * Python's `s.replace(pat, rep)`: a left-to-right scan that replaces every
   * non-overlapping occurrence of `pat`; the text produced is never rescanned.
   */
  function ReplaceAll(s: string, pat: string, rep: string): (r: string)
    requires |pat| > 0
    ensures |rep| <= |pat| ==> |r| <= |s|
    decreases |s|
  {
    if |s| < |pat| then s
    else if s[..|pat|] == pat then rep + ReplaceAll(s[|pat|..], pat, rep)
    else [s[0]] + ReplaceAll(s[1..], pat, rep)
  }

  /** A text in which the pattern does not occur is left unchanged. */
  lemma {:induction false} ReplaceAllAbsent(s: string, pat: string, rep: string)
    requires |pat| > 0 && !Contains(s, pat)
    ensures ReplaceAll(s, pat, rep) == s
    decreases |s|
  {
    if |s| >= |pat| {
      assert !OccursAt(s, pat, 0);
      assert !Contains(s[1..], pat) by {
        forall k: nat | OccursAt(s[1..], pat, k)
          ensures false
        {
          OccursInSuffix(s, 1, pat, k);
        }
      }
      ReplaceAllAbsent(s[1..], pat, rep);
      assert s == [s[0]] + s[1..];
    }
  }

  /** A character that cannot start an occurrence is copied and the scan moves on. */
  lemma ReplaceAllSkip(c: char, y: string, pat: string, rep: string)
    requires |pat| > 0
    requires c != pat[0] || (|pat| > 1 && (|y| == 0 || y[0] != pat[1]))
    ensures ReplaceAll([c] + y, pat, rep) == [c] + ReplaceAll(y, pat, rep)
  {
    var s := [c] + y;
    assert s[1..] == y;
    if |s| >= |pat| {
      assert s[..|pat|][0] == c;
      if c == pat[0] {
        assert s[..|pat|][1] == y[0];
      }
    } else {
      assert ReplaceAll(y, pat, rep) == y;
    }
  }

  /** A prefix free of the pattern's first character passes through a replacement untouched. */
  lemma {:induction false} ReplaceAllFreePrefix(x: string, y: string, pat: string, rep: string)
    requires |pat| > 0 && forall i :: 0 <= i < |x| ==> x[i] != pat[0]
    ensures ReplaceAll(x + y, pat, rep) == x + ReplaceAll(y, pat, rep)
    decreases |x|
  {
    if |x| > 0 {
      var x' := x[1..];
      assert ReplaceAll(x + y, pat, rep) == [x[0]] + ReplaceAll(x' + y, pat, rep) by {
        assert x + y == [x[0]] + (x' + y);
        ReplaceAllSkip(x[0], x' + y, pat, rep);
      }
      assert ReplaceAll(x' + y, pat, rep) == x' + ReplaceAll(y, pat, rep) by {
        ReplaceAllFreePrefix(x', y, pat, rep);
      }
      assert x == [x[0]] + x';
    } else {
      assert x + y == y;
    }
  }

  /** An occurrence at the front is replaced and the scan resumes after it. */
  lemma ReplaceAllLeadingMatch(y: string, pat: string, rep: string)
    requires |pat| > 0
    ensures ReplaceAll(pat + y, pat, rep) == rep + ReplaceAll(y, pat, rep)
  {
    assert (pat + y)[..|pat|] == pat;
    assert (pat + y)[|pat|..] == y;
  }

  /** Python's `sep.join(parts)`. */
  function JoinWith(parts: seq<string>, sep: string): string
  {
    if |parts| == 0 then ""
    else if |parts| == 1 then parts[0]
    else parts[0] + sep + JoinWith(parts[1..], sep)
  }
}
