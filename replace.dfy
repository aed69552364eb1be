/**
 * `String.prototype.replace` with a global, case-insensitive regular
 * expression whose source is a plain literal (script.js:213-220): the
 * text is scanned left to right, every non-overlapping occurrence is
 * replaced, and after a match the scan resumes just past it.
 */
module Replace {
  import opened Ascii

  /** `s` begins with `pat`, ASCII letters compared without regard to case. */
  predicate StartsWithFolded(s: string, pat: string)
  {
    |pat| <= |s| &&
    (pat == [] || (ToLower(s[0]) == ToLower(pat[0]) && StartsWithFolded(s[1..], pat[1..])))
  }

  /** `pat` occurs somewhere in `s`, case-insensitively. */
  predicate Occurs(s: string, pat: string)
  {
    StartsWithFolded(s, pat) || (s != [] && Occurs(s[1..], pat))
  }

  /** The two strings are equal up to ASCII case. */
  predicate SameFolded(s: string, t: string)
  {
    |s| == |t| && forall k :: 0 <= k < |s| ==> ToLower(s[k]) == ToLower(t[k])
  }

  lemma {:induction false} StartsWithFoldedIff(s: string, pat: string)
    ensures StartsWithFolded(s, pat) <==> |pat| <= |s| && SameFolded(s[..|pat|], pat)
  {
    if pat != [] && |pat| <= |s| {
      StartsWithFoldedIff(s[1..], pat[1..]);
      assert s[1..][..|pat| - 1] == s[..|pat|][1..];
      if SameFolded(s[..|pat|], pat) {
        assert forall k :: 0 <= k < |pat| - 1 ==> s[..|pat|][1..][k] == s[..|pat|][k + 1];
      }
    }
  }

  /** An occurrence is a case-insensitive match at some position. */
  lemma {:induction false} OccursIff(s: string, pat: string)
    ensures Occurs(s, pat) <==> exists i :: 0 <= i <= |s| && StartsWithFolded(s[i..], pat)
  {
    if Occurs(s, pat) {
      if StartsWithFolded(s, pat) {
        assert s[0..] == s;
      } else {
        OccursIff(s[1..], pat);
        var i :| 0 <= i <= |s| - 1 && StartsWithFolded(s[1..][i..], pat);
        assert s[1..][i..] == s[i + 1..];
      }
    }
    if exists i :: 0 <= i <= |s| && StartsWithFolded(s[i..], pat) {
      var i :| 0 <= i <= |s| && StartsWithFolded(s[i..], pat);
      if i == 0 {
        assert s[i..] == s;
      } else {
        assert s[1..][i - 1..] == s[i..];
        OccursIff(s[1..], pat);
      }
    }
  }

  /** A pattern holding a character that folds only to itself occurs only where that character does. */
  lemma CaselessCharNeeded(s: string, pat: string, c: char)
    requires c in pat && !IsUpperLetter(c) && !IsLowerLetter(c)
    ensures c !in s ==> !Occurs(s, pat)
  {
    if Occurs(s, pat) {
      OccursIff(s, pat);
      var i :| 0 <= i <= |s| && StartsWithFolded(s[i..], pat);
      StartsWithFoldedIff(s[i..], pat);
      var k :| 0 <= k < |pat| && pat[k] == c;
      assert ToLower(s[i..][..|pat|][k]) == ToLower(pat[k]);
      assert s[i + k] == c;
    }
  }

  /** The text holds two spaces. */
  predicate TwoSpaces(s: string)
  {
    exists i, j :: 0 <= i < j < |s| && s[i] == ' ' && s[j] == ' '
  }

  /** A pattern that begins and ends with a space occurs only in a text with two spaces. */
  lemma PaddedNeedsTwoSpaces(s: string, pat: string)
    requires |pat| >= 2 && pat[0] == ' ' && pat[|pat| - 1] == ' '
    ensures !TwoSpaces(s) ==> !Occurs(s, pat)
  {
    if Occurs(s, pat) {
      OccursIff(s, pat);
      var i :| 0 <= i <= |s| && StartsWithFolded(s[i..], pat);
      StartsWithFoldedIff(s[i..], pat);
      assert ToLower(s[i..][..|pat|][0]) == ToLower(pat[0]);
      assert ToLower(s[i..][..|pat|][|pat| - 1]) == ToLower(pat[|pat| - 1]);
      assert s[i] == ' ' && s[i + |pat| - 1] == ' ';
    }
  }

  /**
   * The replacement produced for one match whose first character is
   * `first`: when that character equals its own upper-case form, the first
   * character of the replacement is upper-cased; otherwise the replacement
   * is used as authored (script.js:214-219).
   */
  function CaseLike(first: char, rep: string): (r: string)
    ensures |r| == |rep|
    ensures |rep| > 0 ==> r[1..] == rep[1..]
    ensures IsLowerLetter(first) ==> r == rep
    ensures !IsLowerLetter(first) && |rep| > 0 ==> r[0] == ToUpper(rep[0])
    ensures |rep| > 0 && !IsLowerLetter(rep[0]) ==> r == rep
  {
    if first == ToUpper(first) && rep != [] then [ToUpper(rep[0])] + rep[1..] else rep
  }

  /**
   * `s.replace(new RegExp(pat, 'gi'), m => CaseLike(m[0], rep))`. Every
   * match is exactly as long as the pattern, so a replacement no shorter
   * (no longer) than the pattern never shortens (lengthens) the text.
   */
  function ReplaceAll(s: string, pat: string, rep: string): (r: string)
    requires pat != []
    ensures |rep| >= |pat| ==> |r| >= |s|
    ensures |rep| <= |pat| ==> |r| <= |s|
    decreases |s|
  {
    if |s| < |pat| then s
    else if StartsWithFolded(s, pat) then CaseLike(s[0], rep) + ReplaceAll(s[|pat|..], pat, rep)
    else [s[0]] + ReplaceAll(s[1..], pat, rep)
  }

  /** A pattern that does not occur leaves the text as it was. */
  lemma {:induction false} ReplaceAllWithoutOccurrence(s: string, pat: string, rep: string)
    requires pat != [] && !Occurs(s, pat)
    ensures ReplaceAll(s, pat, rep) == s
  {
    if |s| >= |pat| {
      ReplaceAllWithoutOccurrence(s[1..], pat, rep);
    }
  }

  /** Only the case-folded form of the pattern matters. */
  lemma {:induction false} ReplaceAllFoldsPattern(s: string, p: string, q: string, rep: string)
    requires p != [] && SameFolded(p, q)
    ensures ReplaceAll(s, p, rep) == ReplaceAll(s, q, rep)
  {
    if |s| >= |p| {
      StartsWithFoldedIff(s, p);
      StartsWithFoldedIff(s, q);
      assert StartsWithFolded(s, p) == StartsWithFolded(s, q);
      if StartsWithFolded(s, p) {
        ReplaceAllFoldsPattern(s[|p|..], p, q, rep);
      } else {
        ReplaceAllFoldsPattern(s[1..], p, q, rep);
      }
    }
  }

  /** Whether a pattern occurs does not depend on the case of the text. */
  lemma {:induction false} OccursIgnoresCase(s: string, t: string, pat: string)
    requires SameFolded(s, t)
    ensures Occurs(s, pat) == Occurs(t, pat)
  {
    StartsWithFoldedIff(s, pat);
    StartsWithFoldedIff(t, pat);
    if |pat| <= |s| {
      assert SameFolded(s[..|pat|], pat) == SameFolded(t[..|pat|], pat) by {
        assert forall k :: 0 <= k < |pat| ==> s[..|pat|][k] == s[k] && t[..|pat|][k] == t[k];
      }
    }
    if s != [] {
      OccursIgnoresCase(s[1..], t[1..], pat);
    }
  }

  /**
   * A pattern that starts with a space cannot match inside a leading run
   * of characters that holds no space: a word at the very start of the
   * text is copied and the scan goes on after it.
   */
  lemma {:induction false} PaddedRuleSkipsLeadingWord(a: string, b: string, pat: string, rep: string)
    requires pat != [] && pat[0] == ' ' && ' ' !in a
    ensures ReplaceAll(a + b, pat, rep) == a + ReplaceAll(b, pat, rep)
  {
    if a != [] {
      if |a + b| < |pat| {
        assert |b| < |pat|;
      } else {
        assert !StartsWithFolded(a + b, pat) by {
          assert (a + b)[0] == a[0];
        }
        assert (a + b)[1..] == a[1..] + b;
        PaddedRuleSkipsLeadingWord(a[1..], b, pat, rep);
      }
    } else {
      assert a + b == b;
    }
  }

  /** The last character of a match of a pattern ending in a space is a space. */
  lemma MatchEndsLikePattern(s: string, pat: string)
    requires pat != [] && StartsWithFolded(s, pat) && pat[|pat| - 1] == ' '
    ensures |pat| <= |s| && s[|pat| - 1] == ' '
  {
    StartsWithFoldedIff(s, pat);
    assert ToLower(s[..|pat|][|pat| - 1]) == ToLower(pat[|pat| - 1]);
  }

  /** On a text with enough characters, only its first `|pat|` characters decide a match. */
  lemma StartsWithFoldedPrefix(a: string, b: string, pat: string)
    requires |pat| <= |a|
    ensures StartsWithFolded(a + b, pat) == StartsWithFolded(a, pat)
  {
    StartsWithFoldedIff(a + b, pat);
    StartsWithFoldedIff(a, pat);
    assert (a + b)[..|pat|] == a[..|pat|];
  }

  /**
   * A pattern that ends with a space cannot match inside a trailing run of
   * characters that holds no space: a word at the very end of the text is
   * copied unchanged.
   */
  lemma {:induction false} PaddedRuleSkipsTrailingWord(a: string, b: string, pat: string, rep: string)
    requires pat != [] && pat[|pat| - 1] == ' ' && ' ' !in b
    ensures ReplaceAll(a + b, pat, rep) == ReplaceAll(a, pat, rep) + b
    decreases |a|
  {
    if a == [] {
      assert a + b == b;
      CaselessCharNeeded(b, pat, ' ');
      ReplaceAllWithoutOccurrence(b, pat, rep);
    } else if |a + b| < |pat| {
    } else if StartsWithFolded(a + b, pat) {
      MatchEndsLikePattern(a + b, pat);
      assert |pat| <= |a|;
      StartsWithFoldedPrefix(a, b, pat);
      assert (a + b)[|pat|..] == a[|pat|..] + b;
      PaddedRuleSkipsTrailingWord(a[|pat|..], b, pat, rep);
    } else {
      if |pat| <= |a| {
        StartsWithFoldedPrefix(a, b, pat);
      }
      assert (a + b)[1..] == a[1..] + b;
      PaddedRuleSkipsTrailingWord(a[1..], b, pat, rep);
      if |a| < |pat| {
        assert ReplaceAll(a[1..], pat, rep) == a[1..];
        assert [a[0]] + a[1..] == a;
      }
    }
  }
}
