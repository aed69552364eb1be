/**
 * Worked cases of the formalizer, each proved from the definitions.
 */
module FormalizerExamples {
  import opened Ascii
  import opened Replace
  import opened Capitalization
  import opened Formalizer

  /**
   * The scan resumes after a match, so two padded words that share a
   * space are not both replaced: the second `hi` lost its leading space to
   * the first match.
   */
  lemma AdjacentMatchesShareSpace()
    ensures Rules[29] == Rule(" hi ", " hello ")
    ensures ApplyRule(Rules[29], " hi hi ") == " hello hi "
  {
    assert ReplaceAll("hi ", " hi ", " hello ") == "hi ";
  }

  /** A contraction's replacement follows the case of the match's first letter only. */
  lemma ContractionCase()
    ensures Rules[0] == Rule("don't", "do not")
    ensures ApplyRule(Rules[0], "Don't") == "Do not"
    ensures ApplyRule(Rules[0], "DON'T") == "Do not"
    ensures ApplyRule(Rules[0], "don't") == "do not"
  {
  }

  /** The first entry rewrites the lower-case contraction to lower-case words. */
  lemma DontRewritten()
    ensures ApplyRule(Rules[0], "don't") == "do not"
  {
  }

  /** The entries after the first leave `"do not"` alone. */
  lemma RestOfTableIdle()
    ensures ApplyRules(Rules[1..], "do not") == "do not"
  {
    var t := "do not";
    OneSpace();
    NoRuleWithoutApostropheOrTwoSpaces(t);
    NoneOccursTail(Rules, t);
    ApplyRulesWithoutOccurrence(Rules[1..], t);
  }

  /** A padded rule's match starts with a space, so its replacement is used as written. */
  lemma PaddedRuleKeepsReplacement()
    ensures Rules[30] == Rule(" hey ", " hello ")
    ensures ApplyRule(Rules[30], " Hey ") == " hello "
    ensures ApplyRule(Rules[30], " HEY ") == " hello "
  {
  }

  /** `" OK "` matches `" ok "` whole; a match starting with a space keeps the replacement as written. */
  lemma OkMatchesWholeWord()
    ensures ReplaceAll(" ok ", " OK ", " acceptable ") == " acceptable "
  {
  }

  /** `" OK "` does not match at the start of `" acceptable ok "`. */
  lemma NoOkAtStart()
    ensures ReplaceAll(" acceptable ok ", " OK ", " acceptable ")
         == [' '] + ReplaceAll("acceptable ok ", " OK ", " acceptable ")
  {
  }

  /** Nor anywhere inside the word `acceptable`. */
  lemma NoOkInWord()
    ensures ReplaceAll("acceptable ok ", " OK ", " acceptable ")
         == "acceptable" + ReplaceAll(" ok ", " OK ", " acceptable ")
  {
    assert "acceptable ok " == "acceptable" + " ok ";
    PaddedRuleSkipsLeadingWord("acceptable", " ok ", " OK ", " acceptable ");
  }

  /** Scanning `" acceptable ok "` for `" OK "` finds the last four characters. */
  lemma SecondOkFound()
    ensures ReplaceAll(" acceptable ok ", " OK ", " acceptable ") == [' '] + ("acceptable" + " acceptable ")
  {
    NoOkAtStart();
    NoOkInWord();
    OkMatchesWholeWord();
  }

  /** The two `ok` entries of the table. */
  lemma OkEntries()
    ensures Rules[15] == Rule(" ok ", " acceptable ") && Rules[16] == Rule(" OK ", " acceptable ")
  {
  }

  /** Scanning `" ok ok "` for `" ok "` replaces only the first word. */
  lemma FirstOkReplaced()
    ensures ReplaceAll(" ok ok ", " ok ", " acceptable ") == " acceptable ok "
  {
    assert ReplaceAll("ok ", " ok ", " acceptable ") == "ok ";
  }

  /**
   * The `" OK "` entry is not dead: on `" ok ok "` the `" ok "` entry
   * replaces only the first word, and the `" OK "` entry then finds the
   * second one, whose leading space is now the last character of the
   * inserted `" acceptable "`.
   */
  lemma OkRuleFiresAfterOkRule()
    ensures Rules[15] == Rule(" ok ", " acceptable ") && Rules[16] == Rule(" OK ", " acceptable ")
    ensures ApplyRule(Rules[15], " ok ok ") == " acceptable ok "
    ensures ApplyRule(Rules[16], " acceptable ok ") == [' '] + ("acceptable" + " acceptable ")
  {
    OkEntries();
    FirstOkReplaced();
    SecondOkFound();
  }

  /** `"hi. hi"` holds one space only. */
  lemma OneSpace()
    ensures !TwoSpaces("hi. hi") && !TwoSpaces("do not")
  {
    forall i | 0 <= i < 6 && i != 3 ensures "hi. hi"[i] != ' ' {
      assert i == 0 || i == 1 || i == 2 || i == 4 || i == 5;
    }
    forall i | 0 <= i < 6 && i != 2 ensures "do not"[i] != ' ' {
      assert i == 0 || i == 1 || i == 3 || i == 4 || i == 5;
    }
  }

  lemma CapitalizeTwoSentences()
    ensures Capitalize("hi. hi") == "Hi. Hi"
  {
  }

  lemma CapitalizeFirstWord()
    ensures Capitalize("do not") == "Do not"
  {
  }

  /**
   * A padded pattern never matches at the edges of the text: `"hi. hi"`
   * only has its sentences capitalized.
   */
  lemma EdgeWordsOnlyCapitalized()
    ensures Formalize("hi. hi") == "Hi. Hi"
  {
    OneSpace();
    NoRuleWithoutApostropheOrTwoSpaces("hi. hi");
    CapitalizeTwoSentences();
  }

  /** The capitalization pass also upper-cases the start of the whole text. */
  lemma LowerCaseContraction()
    ensures Formalize("don't") == "Do not"
  {
    DontRewritten();
    RestOfTableIdle();
    assert ApplyRules(Rules, "don't") == ApplyRules(Rules[1..], ApplyRule(Rules[0], "don't"));
    CapitalizeFirstWord();
  }

  /** A line break alone does not start a sentence. */
  lemma NewlineExample()
    ensures Capitalize("ok\nno") == "Ok\nno"
  {
  }
}
