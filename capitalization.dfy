/**
 * The sentence-capitalization pass of the formalizer (script.js:224):
 * `text.replace(/(^\w|[.!?]\s+\w)/g, m => m.toUpperCase())`.
 *
 * `Capitalize` follows the regular-expression engine: it scans left to
 * right, tries `^\w` and then `[.!?]\s+\w` at each position, upper-cases a
 * whole match and resumes after it. `CapitalizedAt` says independently,
 * character by character, which characters end up upper-cased, and
 * `CapitalizeCharacterized` proves the two agree.
 */
module Capitalization {
  import opened Ascii

  /**
   * `toUpperCase` of a whole match: only case changes, no lower-case letter
   * is left, and a match without lower-case letters is returned as it was.
   */
  function UpperAll(m: string): (r: string)
    ensures |r| == |m| && forall k :: 0 <= k < |m| ==> r[k] == ToUpper(m[k])
    ensures forall k :: 0 <= k < |r| ==> ToLower(r[k]) == ToLower(m[k]) && !IsLowerLetter(r[k])
    ensures (forall k :: 0 <= k < |m| ==> !IsLowerLetter(m[k])) ==> r == m
  {
    seq(|m|, k requires 0 <= k < |m| => ToUpper(m[k]))
  }

  /** The end of the run of `\s` characters that starts at index `i`. */
  function SpaceRunEnd(s: string, i: nat): (q: nat)
    requires i <= |s|
    ensures i <= q <= |s|
    ensures forall k :: i <= k < q ==> IsSpace(s[k])
    ensures q == |s| || !IsSpace(s[q])
    decreases |s| - i
  {
    if i < |s| && IsSpace(s[i]) then SpaceRunEnd(s, i + 1) else i
  }

  /**
   * The alternative `[.!?]\s+\w` matches at index `p`. Since `\w` and `\s`
   * are disjoint, backtracking in `\s+` never helps: the match is the whole
   * white-space run followed by the word character after it.
   */
  predicate SentenceBreakAt(s: string, p: nat)
    requires p < |s|
  {
    IsSentenceEnd(s[p]) &&
    var q := SpaceRunEnd(s, p + 1); p + 1 < q < |s| && IsWordChar(s[q])
  }

  /** The global replace, from scan position `p` on. */
  function CapitalizeFrom(s: string, p: nat): string
    requires p <= |s|
    decreases |s| - p
  {
    if p == |s| then []
    else if p == 0 && IsWordChar(s[0]) then UpperAll(s[..1]) + CapitalizeFrom(s, 1)
    else if SentenceBreakAt(s, p) then
      var q := SpaceRunEnd(s, p + 1);
      UpperAll(s[p..q + 1]) + CapitalizeFrom(s, q + 1)
    else [s[p]] + CapitalizeFrom(s, p + 1)
  }

  function Capitalize(s: string): string
  {
    CapitalizeFrom(s, 0)
  }

  /** `s[..i]` ends with one of `.`, `!`, `?` followed by at least one white-space character. */
  ghost predicate AfterSentenceBreak(s: string, i: nat)
    requires i <= |s|
  {
    i >= 2 && IsSpace(s[i - 1]) && (IsSentenceEnd(s[i - 2]) || AfterSentenceBreak(s, i - 1))
  }

  /** The character at `i` is a word character that starts the text or a sentence. */
  ghost predicate CapitalizedAt(s: string, i: nat)
    requires i < |s|
  {
    IsWordChar(s[i]) && (i == 0 || AfterSentenceBreak(s, i))
  }

  ghost function Expected(s: string, i: nat): char
    requires i < |s|
  {
    if CapitalizedAt(s, i) then ToUpper(s[i]) else s[i]
  }

  /**
   * The scan can be at position `p`: no match of the second alternative
   * straddles `p`, because the scan already passed every sentence end
   * before `p` without matching there.
   */
  ghost predicate ScanPosition(s: string, p: nat)
    requires p <= |s|
  {
    (p >= 1 ==> !SentenceBreakAt(s, p - 1)) &&
    (AfterSentenceBreak(s, p) ==> var q := SpaceRunEnd(s, p); q == |s| || !IsWordChar(s[q]))
  }

  /** `out` is what the scan produces for `s[p..q]`. */
  ghost predicate Segment(s: string, p: nat, q: nat, out: string)
    requires p <= q <= |s|
  {
    |out| == q - p && forall i :: p <= i < q ==> out[i - p] == Expected(s, i)
  }

  lemma {:induction false} RunAfterSentenceEnd(s: string, p: nat, k: nat)
    requires p < |s| && IsSentenceEnd(s[p])
    requires p + 2 <= k <= SpaceRunEnd(s, p + 1)
    ensures AfterSentenceBreak(s, k)
    decreases k
  {
    if k > p + 2 {
      RunAfterSentenceEnd(s, p, k - 1);
    }
  }

  /** A match of `[.!?]\s+\w` at `p` upper-cases exactly the characters it should. */
  lemma SentenceBreakStep(s: string, p: nat)
    requires p < |s| && SentenceBreakAt(s, p)
    ensures var q := SpaceRunEnd(s, p + 1);
      ScanPosition(s, q + 1) && Segment(s, p, q + 1, UpperAll(s[p..q + 1]))
  {
    var q := SpaceRunEnd(s, p + 1);
    assert !AfterSentenceBreak(s, q + 1);
    RunAfterSentenceEnd(s, p, q);
    forall i | p <= i < q + 1
      ensures UpperAll(s[p..q + 1])[i - p] == Expected(s, i)
    {
      assert UpperAll(s[p..q + 1])[i - p] == ToUpper(s[i]);
      if p < i < q {
        assert IsSpace(s[i]);
      }
    }
  }

  /** Where neither alternative matches, the character is kept and the scan moves on. */
  lemma CopyStep(s: string, p: nat)
    requires p < |s| && ScanPosition(s, p)
    requires !(p == 0 && IsWordChar(s[0])) && !SentenceBreakAt(s, p)
    ensures Expected(s, p) == s[p] && ScanPosition(s, p + 1)
  {
    if IsSpace(s[p]) {
      assert SpaceRunEnd(s, p + 1) == SpaceRunEnd(s, p);
    }
  }

  /** Output for `s[p..q]` followed by output for `s[q..]` is output for `s[p..]`. */
  lemma Glue(s: string, p: nat, q: nat, head: string, tail: string)
    requires p <= q <= |s| && Segment(s, p, q, head) && Segment(s, q, |s|, tail)
    ensures Segment(s, p, |s|, head + tail)
  {
    forall i | p <= i < |s| ensures (head + tail)[i - p] == Expected(s, i) {
      if i >= q {
        assert (head + tail)[i - p] == tail[i - q];
      }
    }
  }

  /** One step of the scan at a match of `[.!?]\s+\w`. */
  lemma CapitalizeFromAtBreak(s: string, p: nat)
    requires p < |s| && !(p == 0 && IsWordChar(s[0])) && SentenceBreakAt(s, p)
    ensures var q := SpaceRunEnd(s, p + 1);
      CapitalizeFrom(s, p) == UpperAll(s[p..q + 1]) + CapitalizeFrom(s, q + 1)
  {
  }

  /** The scan at a match of `^\w`. */
  lemma {:induction false} FirstWordCase(s: string)
    requires |s| > 0 && IsWordChar(s[0])
    ensures Segment(s, 0, |s|, CapitalizeFrom(s, 0))
    decreases |s|, 0
  {
    CapitalizeFromCharacterized(s, 1);
    assert Segment(s, 0, 1, UpperAll(s[..1]));
    Glue(s, 0, 1, UpperAll(s[..1]), CapitalizeFrom(s, 1));
  }

  /** The scan at a match of `[.!?]\s+\w`. */
  lemma {:induction false} BreakCase(s: string, p: nat)
    requires p < |s| && !(p == 0 && IsWordChar(s[0])) && SentenceBreakAt(s, p)
    ensures Segment(s, p, |s|, CapitalizeFrom(s, p))
    decreases |s| - p, 0
  {
    var q := SpaceRunEnd(s, p + 1);
    SentenceBreakStep(s, p);
    CapitalizeFromCharacterized(s, q + 1);
    Glue(s, p, q + 1, UpperAll(s[p..q + 1]), CapitalizeFrom(s, q + 1));
    CapitalizeFromAtBreak(s, p);
  }

  /** The scan where neither alternative matches. */
  lemma {:induction false} CopyCase(s: string, p: nat)
    requires p < |s| && ScanPosition(s, p)
    requires !(p == 0 && IsWordChar(s[0])) && !SentenceBreakAt(s, p)
    ensures Segment(s, p, |s|, CapitalizeFrom(s, p))
    decreases |s| - p, 0
  {
    CopyStep(s, p);
    CapitalizeFromCharacterized(s, p + 1);
    assert Segment(s, p, p + 1, [s[p]]);
    Glue(s, p, p + 1, [s[p]], CapitalizeFrom(s, p + 1));
  }

  /** From any scan position, the output agrees with `Expected` character by character. */
  lemma {:induction false} CapitalizeFromCharacterized(s: string, p: nat)
    requires p <= |s| && ScanPosition(s, p)
    ensures Segment(s, p, |s|, CapitalizeFrom(s, p))
    decreases |s| - p, 1
  {
    if p == |s| {
    } else if p == 0 && IsWordChar(s[0]) {
      FirstWordCase(s);
    } else if SentenceBreakAt(s, p) {
      BreakCase(s, p);
    } else {
      CopyCase(s, p);
    }
  }

  /**
   * The capitalization pass keeps the length and changes exactly the word
   * characters that start the text or follow `.`, `!` or `?` and at least
   * one white-space character; those are upper-cased.
   */
  lemma CapitalizeCharacterized(s: string)
    ensures |Capitalize(s)| == |s|
    ensures forall i :: 0 <= i < |s| ==>
      Capitalize(s)[i] == if CapitalizedAt(s, i) then ToUpper(s[i]) else s[i]
  {
    CapitalizeFromCharacterized(s, 0);
    forall i | 0 <= i < |s| ensures Capitalize(s)[i] == Expected(s, i) {
      assert CapitalizeFrom(s, 0)[i - 0] == Expected(s, i);
    }
  }

  /** Texts whose characters have the same classes break sentences at the same places. */
  lemma {:induction false} SameBreaks(s: string, t: string, i: nat)
    requires |s| == |t| && i <= |s|
    requires forall k :: 0 <= k < |s| ==>
      IsSpace(s[k]) == IsSpace(t[k]) && IsSentenceEnd(s[k]) == IsSentenceEnd(t[k])
    ensures AfterSentenceBreak(s, i) == AfterSentenceBreak(t, i)
  {
    if i >= 2 {
      SameBreaks(s, t, i - 1);
    }
  }

  /** Capitalizing twice is the same as capitalizing once. */
  lemma CapitalizeIdempotent(s: string)
    ensures Capitalize(Capitalize(s)) == Capitalize(s)
  {
    var c := Capitalize(s);
    CapitalizeCharacterized(s);
    CapitalizeCharacterized(c);
    forall k | 0 <= k < |s| ensures IsSpace(c[k]) == IsSpace(s[k]) && IsSentenceEnd(c[k]) == IsSentenceEnd(s[k]) {
      ToUpperKeepsClass(s[k]);
    }
    forall i | 0 <= i < |s| ensures Capitalize(c)[i] == c[i] {
      SameBreaks(s, c, i);
      ToUpperKeepsClass(s[i]);
    }
  }

  /**
   * A line break that does not follow a sentence end starts no sentence:
   * the word after it keeps its case.
   */
  lemma NewlineAloneKeepsCase(s: string, i: nat)
    requires 2 <= i < |s| && s[i - 1] == '\n'
    requires !IsSpace(s[i - 2]) && !IsSentenceEnd(s[i - 2])
    ensures |Capitalize(s)| == |s| && Capitalize(s)[i] == s[i]
  {
    assert !AfterSentenceBreak(s, i - 1);
    CapitalizeCharacterized(s);
  }
}
