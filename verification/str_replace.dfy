/**
 * Python's `str.replace(old, new)` with no count, as called on line 51 of
 * ali_affiliate_forward.py: every non-overlapping occurrence of the pattern,
 * found scanning left to right, is replaced.
 */
module StrReplace {

  /** The pattern occurs in s starting at position i. */
  predicate OccursAt(s: string, pat: string, i: nat)
  {
    i + |pat| <= |s| && s[i..i + |pat|] == pat
  }

  /**
   * Left-to-right, non-overlapping replace-all: at each position either the
   * pattern starts there (emit the replacement, skip past the pattern) or the
   * character is copied unchanged.
   */
  function ReplaceAll(s: string, pat: string, rep: string): string
    requires |pat| > 0
    decreases |s|
  {
    if |s| < |pat| then s
    else if s[..|pat|] == pat then rep + ReplaceAll(s[|pat|..], pat, rep)
    else [s[0]] + ReplaceAll(s[1..], pat, rep)
  }

  /**
   * Text before the first occurrence is copied unchanged: if the pattern
   * occurs nowhere in s[pos..] before position i, replacing in s[pos..] is
   * s[pos..i] followed by replacing in s[i..].
   */
  lemma {:induction false} ReplaceAllSkip(s: string, pat: string, rep: string, pos: nat, i: nat)
    requires |pat| > 0 && pos <= i <= |s|
    requires forall k :: pos <= k < i ==> !OccursAt(s, pat, k)
    ensures ReplaceAll(s[pos..], pat, rep) == s[pos..i] + ReplaceAll(s[i..], pat, rep)
    decreases i - pos
  {
    if pos < i {
      var t := s[pos..];
      if |t| < |pat| {
        ShortUnchanged(s[i..], pat, rep);
        assert t == s[pos..i] + s[i..];
      } else {
        assert t[..|pat|] == s[pos..pos + |pat|];
        assert !OccursAt(s, pat, pos);
        assert t[1..] == s[pos + 1..];
        ReplaceAllSkip(s, pat, rep, pos + 1, i);
        calc {
          ReplaceAll(t, pat, rep);
          { ReplaceAllCopies(t, pat, rep); }
          [t[0]] + ReplaceAll(t[1..], pat, rep);
          [s[pos]] + (s[pos + 1..i] + ReplaceAll(s[i..], pat, rep));
          { assert [s[pos]] + s[pos + 1..i] == s[pos..i]; }
          s[pos..i] + ReplaceAll(s[i..], pat, rep);
        }
      }
    }
  }

  /** Where the pattern does not start, the first character is copied. */
  lemma ReplaceAllCopies(t: string, pat: string, rep: string)
    requires 0 < |pat| <= |t| && t[..|pat|] != pat
    ensures ReplaceAll(t, pat, rep) == [t[0]] + ReplaceAll(t[1..], pat, rep)
  {
  }

  /** Text shorter than the pattern is left unchanged. */
  lemma ShortUnchanged(s: string, pat: string, rep: string)
    requires 0 < |pat| && |s| < |pat|
    ensures ReplaceAll(s, pat, rep) == s
  {
  }

  /**
   * The first occurrence is the one replaced: if the pattern occurs at i and
   * nowhere in s[pos..] before it, replacing in s[pos..] copies s[pos..i],
   * emits the replacement, and goes on after the occurrence.
   */
  lemma ReplaceAllFirst(s: string, pat: string, rep: string, pos: nat, i: nat)
    requires |pat| > 0 && pos <= i && OccursAt(s, pat, i)
    requires forall k :: pos <= k < i ==> !OccursAt(s, pat, k)
    ensures ReplaceAll(s[pos..], pat, rep) == s[pos..i] + rep + ReplaceAll(s[i + |pat|..], pat, rep)
  {
    ReplaceAllSkip(s, pat, rep, pos, i);
    assert s[i..][..|pat|] == pat;
    assert s[i..][|pat|..] == s[i + |pat|..];
  }

  /** Text in which the pattern does not occur is left unchanged. */
  lemma ReplaceAllNoOccurrence(s: string, pat: string, rep: string)
    requires |pat| > 0
    requires forall k :: 0 <= k <= |s| ==> !OccursAt(s, pat, k)
    ensures ReplaceAll(s, pat, rep) == s
  {
    ReplaceAllSkip(s, pat, rep, 0, |s|);
    assert s[0..] == s;
  }

  /** Occurrences in a suffix s[e..] are occurrences in s, shifted by e. */
  lemma NoOccurrenceInSuffix(s: string, pat: string, e: nat)
    requires e <= |s|
    requires forall k :: e <= k <= |s| ==> !OccursAt(s, pat, k)
    ensures forall k :: 0 <= k <= |s[e..]| ==> !OccursAt(s[e..], pat, k)
  {
    forall k | 0 <= k <= |s[e..]| ensures !OccursAt(s[e..], pat, k) {
      assert !OccursAt(s, pat, e + k);
      if k + |pat| <= |s[e..]| {
        assert s[e..][k..k + |pat|] == s[e + k..e + k + |pat|];
      }
    }
  }

  /** Replacing a pattern by itself changes nothing. */
  lemma {:induction false} ReplaceAllByItself(s: string, pat: string)
    requires |pat| > 0
    ensures ReplaceAll(s, pat, pat) == s
    decreases |s|
  {
    if |s| >= |pat| {
      if s[..|pat|] == pat {
        ReplaceAllByItself(s[|pat|..], pat);
        assert s == s[..|pat|] + s[|pat|..];
      } else {
        ReplaceAllByItself(s[1..], pat);
        assert s == [s[0]] + s[1..];
      }
    }
  }

  /** One step of `Replace`: the text up to and including the next occurrence is done. */
  lemma ReplaceAllAdvance(s: string, pat: string, rep: string, done: string, pos: nat, i: nat)
    requires |pat| > 0 && pos <= i && OccursAt(s, pat, i)
    requires forall k :: pos <= k < i ==> !OccursAt(s, pat, k)
    ensures done + ReplaceAll(s[pos..], pat, rep) == (done + s[pos..i] + rep) + ReplaceAll(s[i + |pat|..], pat, rep)
  {
    ReplaceAllFirst(s, pat, rep, pos, i);
  }

  /** The last step of `Replace`: a tail without occurrences is copied. */
  lemma ReplaceAllRest(s: string, pat: string, rep: string, pos: nat)
    requires |pat| > 0 && pos <= |s|
    requires forall k :: pos <= k < |s| ==> !OccursAt(s, pat, k)
    ensures ReplaceAll(s[pos..], pat, rep) == s[pos..]
  {
    ReplaceAllSkip(s, pat, rep, pos, |s|);
    ShortUnchanged(s[|s|..], pat, rep);
  }

  /**
   * `s.replace(pat, rep)` as Python computes it: find the next occurrence at
   * or after the current position, copy the text before it and the
   * replacement, and resume after the occurrence; copy the tail when no
   * occurrence is left.
   */
  method Replace(s: string, pat: string, rep: string) returns (out: string)
    requires |pat| > 0
    ensures out == ReplaceAll(s, pat, rep)
  {
    out := "";
    var pos: nat, i: nat := 0, 0;
    while i + |pat| <= |s|
      invariant pos <= i <= |s|
      invariant forall k :: pos <= k < i ==> !OccursAt(s, pat, k)
      invariant out + ReplaceAll(s[pos..], pat, rep) == ReplaceAll(s, pat, rep)
      decreases |s| - i
    {
      if OccursAt(s, pat, i) {
        ReplaceAllAdvance(s, pat, rep, out, pos, i);
        out := out + s[pos..i] + rep;
        i := i + |pat|;
        pos := i;
      } else {
        i := i + 1;
      }
    }
    ReplaceAllRest(s, pat, rep, pos);
    out := out + s[pos..];
  }
}
