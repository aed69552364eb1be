/**
 * `enhanceTranslation` (script.js:171-227): the ordered table of informal
 * to formal rewrites, the loop that applies them one after the other, and
 * the final sentence-capitalization pass.
 */
module Formalizer {
  import opened Ascii
  import opened Replace
  import opened Capitalization

  type Pattern = p: string | p != [] witness " "

  /** One (informal -> formal) entry of the table. */
  datatype Rule = Rule(pattern: Pattern, replacement: string)

  /**
   * The table in the order `Object.entries` yields it, which is the order
   * it is written in (script.js:176-209): 15 contractions, then 17
   * space-padded casual words.
   */
  const Rules: seq<Rule> := [
    Rule("don't", "do not"),
    Rule("can't", "cannot"),
    Rule("won't", "will not"),
    Rule("shouldn't", "should not"),
    Rule("wouldn't", "would not"),
    Rule("couldn't", "could not"),
    Rule("isn't", "is not"),
    Rule("aren't", "are not"),
    Rule("wasn't", "was not"),
    Rule("weren't", "were not"),
    Rule("hasn't", "has not"),
    Rule("haven't", "have not"),
    Rule("hadn't", "had not"),
    Rule("doesn't", "does not"),
    Rule("didn't", "did not"),
    Rule(" ok ", " acceptable "),
    Rule(" OK ", " acceptable "),
    Rule(" gonna ", " going to "),
    Rule(" wanna ", " want to "),
    Rule(" gotta ", " have to "),
    Rule(" yeah ", " yes "),
    Rule(" yep ", " yes "),
    Rule(" nope ", " no "),
    Rule(" stuff ", " items "),
    Rule(" things ", " matters "),
    Rule(" get ", " obtain "),
    Rule(" got ", " obtained "),
    Rule(" kids ", " children "),
    Rule(" guys ", " individuals "),
    Rule(" hi ", " hello "),
    Rule(" hey ", " hello "),
    Rule(" bye ", " goodbye ")
  ]

  /** One pass of the loop body: every occurrence of the rule's pattern is replaced. */
  function ApplyRule(rule: Rule, s: string): string
  {
    ReplaceAll(s, rule.pattern, rule.replacement)
  }

  /** The rules applied in order, each to the text the previous ones produced. */
  function ApplyRules(rules: seq<Rule>, s: string): string
    decreases |rules|
  {
    if rules == [] then s else ApplyRules(rules[1..], ApplyRule(rules[0], s))
  }

  /** What `enhanceTranslation` returns for a string argument. */
  function Formalize(s: string): string
  {
    Capitalize(ApplyRules(Rules, s))
  }

  /** Applying one more rule continues from where the earlier rules left the text. */
  lemma {:induction false} ApplyRulesSnoc(rules: seq<Rule>, rule: Rule, s: string)
    ensures ApplyRules(rules + [rule], s) == ApplyRule(rule, ApplyRules(rules, s))
    decreases |rules|
  {
    if rules != [] {
      assert (rules + [rule])[1..] == rules[1..] + [rule];
      ApplyRulesSnoc(rules[1..], rule, ApplyRule(rules[0], s));
    }
  }

  /**
   * The body of `enhanceTranslation`: `enhanced` is reassigned once per
   * table entry, in table order, and once more by the capitalization pass.
   */
  method Enhance(translation: string) returns (enhanced: string)
    ensures enhanced == Formalize(translation)
  {
    enhanced := translation;
    var i := 0;
    while i < |Rules|
      invariant 0 <= i <= |Rules|
      invariant enhanced == ApplyRules(Rules[..i], translation)
    {
      var rule := Rules[i];
      enhanced := ReplaceAll(enhanced, rule.pattern, rule.replacement);
      ApplyRulesSnoc(Rules[..i], rule, translation);
      assert Rules[..i + 1] == Rules[..i] + [rule];
      i := i + 1;
    }
    assert Rules[..|Rules|] == Rules;
    enhanced := Capitalize(enhanced);
  }

  /** No pattern of `rules` occurs in `s`, in any case. */
  predicate NoneOccurs(rules: seq<Rule>, s: string)
  {
    forall i :: 0 <= i < |rules| ==> !Occurs(s, rules[i].pattern)
  }

  /** Dropping the first rule keeps the others absent. */
  lemma NoneOccursTail(rules: seq<Rule>, s: string)
    requires rules != [] && NoneOccurs(rules, s)
    ensures NoneOccurs(rules[1..], s)
  {
    forall i | 0 <= i < |rules| - 1 ensures !Occurs(s, rules[1..][i].pattern) {
      assert rules[1..][i] == rules[i + 1];
    }
  }

  /** Rules none of whose patterns occur leave the text unchanged. */
  lemma {:induction false} ApplyRulesWithoutOccurrence(rules: seq<Rule>, s: string)
    requires NoneOccurs(rules, s)
    ensures ApplyRules(rules, s) == s
    decreases |rules|
  {
    if rules != [] {
      ReplaceAllWithoutOccurrence(s, rules[0].pattern, rules[0].replacement);
      NoneOccursTail(rules, s);
      ApplyRulesWithoutOccurrence(rules[1..], s);
    }
  }

  /** When no pattern occurs, the formalizer only capitalizes sentence starts. */
  lemma FormalizeWithoutOccurrence(s: string)
    requires NoneOccurs(Rules, s)
    ensures Formalize(s) == Capitalize(s)
  {
    ApplyRulesWithoutOccurrence(Rules, s);
  }

  /** Capitalization changes case only. */
  lemma CapitalizeKeepsFolding(s: string)
    ensures SameFolded(Capitalize(s), s)
  {
    CapitalizeCharacterized(s);
    forall k | 0 <= k < |s| ensures ToLower(Capitalize(s)[k]) == ToLower(s[k]) {
      ToUpperKeepsClass(s[k]);
    }
  }

  /** Formalizing a text in which no pattern occurs a second time changes nothing more. */
  lemma FormalizeIdempotentWithoutOccurrence(s: string)
    requires NoneOccurs(Rules, s)
    ensures Formalize(Formalize(s)) == Formalize(s)
  {
    FormalizeWithoutOccurrence(s);
    var c := Capitalize(s);
    CapitalizeKeepsFolding(s);
    forall i | 0 <= i < |Rules| ensures !Occurs(c, Rules[i].pattern) {
      OccursIgnoresCase(c, s, Rules[i].pattern);
    }
    FormalizeWithoutOccurrence(c);
    CapitalizeIdempotent(s);
  }

  /** The first 15 patterns are contractions: each holds an apostrophe and starts, like its replacement, with a lower-case letter. */
  lemma ContractionShapes()
    ensures |Rules| == 32
    ensures forall i :: 0 <= i < 15 ==>
      '\'' in Rules[i].pattern && IsLowerLetter(Rules[i].pattern[0]) &&
      Rules[i].replacement != [] && IsLowerLetter(Rules[i].replacement[0])
  {
  }

  /** The other 17 patterns begin and end with a space, and so do their replacements. */
  lemma PaddedShapes()
    ensures |Rules| == 32
    ensures forall i :: 15 <= i < 32 ==>
      |Rules[i].pattern| >= 2 && Rules[i].pattern[0] == ' ' && Rules[i].pattern[|Rules[i].pattern| - 1] == ' ' &&
      |Rules[i].replacement| >= 2 && Rules[i].replacement[0] == ' ' &&
      Rules[i].replacement[|Rules[i].replacement| - 1] == ' '
  {
  }

  /**
   * A text without an apostrophe and with at most one space triggers no
   * rule, so the formalizer only capitalizes it.
   */
  lemma NoRuleWithoutApostropheOrTwoSpaces(s: string)
    requires '\'' !in s && !TwoSpaces(s)
    ensures NoneOccurs(Rules, s)
    ensures Formalize(s) == Capitalize(s)
  {
    ContractionShapes();
    PaddedShapes();
    forall i | 0 <= i < |Rules| ensures !Occurs(s, Rules[i].pattern) {
      if i < 15 {
        CaselessCharNeeded(s, Rules[i].pattern, '\'');
      } else {
        PaddedNeedsTwoSpaces(s, Rules[i].pattern);
      }
    }
    FormalizeWithoutOccurrence(s);
  }

  /**
   * The `" OK "` entry differs from the `" ok "` entry before it only in
   * case, so it runs the same case-insensitive rewrite a second time over
   * the first one's output.
   */
  lemma OkRuleRunsTwice(s: string)
    ensures ApplyRule(Rules[16], ApplyRule(Rules[15], s))
         == ApplyRule(Rules[15], ApplyRule(Rules[15], s))
  {
    ReplaceAllFoldsPattern(ApplyRule(Rules[15], s), " OK ", " ok ", " acceptable ");
  }
}
