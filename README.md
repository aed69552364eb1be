# Formal-English translation pipeline, in Dafny

This project models the translation pipeline of a small browser application.
The application translates Spanish text into formal English.

- `performTranslation` asks LibreTranslate first and MyMemory second.
- If both fail, it falls back to a demonstration stub, `basicTranslate`.
- Whatever string it obtains goes through the formalizer, `enhanceTranslation`.

The formalizer works in two passes:

1. It walks an ordered table of 32 informal-to-formal rewrites. Each rewrite is a global, case-insensitive regular-expression replace. The first letter of each replacement is adjusted to the case of the match.
2. It upper-cases the first character of the text when that character is a word character. It also upper-cases the word character immediately after `.`, `!` or `?` and a run of white space.

Files:

- `ascii.dfy`: the character classes the regular expressions use and ASCII case mapping. `\w` and `[.!?]` are ASCII; `\s` is the full ECMAScript white-space and line-terminator set, which includes non-ASCII code points such as U+00A0 and U+3000.
- `replace.dfy`: `String.prototype.replace` with a `gi` regular expression whose source is a plain literal, modelled as `ReplaceAll`. It also holds the matching predicates and the case-adjusting callback.
- `capitalization.dfy`: the sentence-capitalization pass.
  - `Capitalize` follows the regular-expression scan.
  - `CapitalizedAt` is an independent, per-character description.
  - `CapitalizeCharacterized` proves the two agree.
- `formalizer.dfy`: the rule table, `Enhance` (the loop of `enhanceTranslation`) and the properties of the whole formalizer.
- `formalizer_examples.dfy`: concrete inputs, each proved from the definitions.
- `providers.dfy`: the acceptance rules of the two services and the stub.
- `orchestrator.dfy`: the fallback order, `SelectProvider` and `PerformTranslation`.
- `orchestrator_examples.dfy`: concrete fallback runs.

Behaviour of the code worth knowing, each proved in the model:

- The table has 32 entries (script.js:176-209), in the order they are written.
- Every rule for a casual word is padded with spaces on both sides, so it cannot match a word at either edge of the text. `"hi. hi"` becomes `"Hi. Hi"` (`EdgeWordsOnlyCapitalized`).
- The contraction rule turns `"don't"` into `"do not"`, and the capitalization pass then upper-cases the start of the text. `"don't"` becomes `"Do not"` (`LowerCaseContraction`).
- It is tempting to think the `" OK "` entry can never fire, because the case-insensitive `" ok "` entry before it has already removed every match. It can fire:
  - On `" ok ok "`, the `" ok "` entry replaces only the first word. The two words share a space, and the scan resumes after the first match.
  - The `" OK "` entry then finds the second word. The space before it is now the last character of the inserted `" acceptable "`.
  - `OkRuleFiresAfterOkRule` proves this run, and `OkRuleRunsTwice` states the general fact.

## Model

| member | source | states |
|---|---|---|
| Ascii.IsWordChar | script.js:224 | definition of `\w` (ASCII letters, digits, `_`); `ToUpperKeepsClass` and `SameBreaks` are stated in terms of it |
| Ascii.IsSpace | script.js:224 | definition of `\s` (the ECMAScript white-space and line-terminator code points); `SpaceRunEnd` is characterized in terms of it |
| Ascii.IsSentenceEnd | script.js:224 | definition of `[.!?]`; `CapitalizeCharacterized` is stated in terms of it |
| Ascii.ToUpper | script.js:216-217 | `toUpperCase` on the characters a match can start with: lower-case ASCII letters become upper-case, everything else is unchanged |
| Ascii.ToLower | script.js:213 | the case folding of the `i` flag: upper-case ASCII letters fold to lower case, everything else is unchanged |
| Ascii.ToUpperKeepsClass | script.js:224 | upper-casing a character keeps it in or out of `\w`, `\s` and `[.!?]`, keeps its folded form, and is idempotent |
| Replace.StartsWithFolded | script.js:213 | definition of a case-insensitive match at the start of the text; characterized by `StartsWithFoldedIff` and `StartsWithFoldedPrefix` |
| Replace.Occurs | script.js:213 | definition of "the `gi` regular expression finds a match"; characterized by `OccursIff` and `OccursIgnoresCase` |
| Replace.StartsWithFoldedIff | script.js:213 | a match at the start of the text is exactly a case-insensitive equality between the pattern and the text's prefix of the same length |
| Replace.OccursIff | script.js:213 | the pattern occurs iff it matches case-insensitively at some position |
| Replace.CaselessCharNeeded | script.js:177-191 | a pattern holding a character without case, such as an apostrophe, cannot occur in a text that lacks that character |
| Replace.PaddedNeedsTwoSpaces | script.js:192-208 | a pattern that begins and ends with a space can occur only in a text holding two spaces |
| Replace.CaseLike | script.js:214-219 | the callback's replacement has the authored length and tail; its first character is upper-cased unless the match starts with a lower-case letter, and it is the authored text when that first character has no case |
| Replace.ReplaceAll | script.js:213-220 | the global replace: a replacement at least as long as the pattern never shortens the text, one at most as long never lengthens it; `ReplaceAllWithoutOccurrence`, `ReplaceAllFoldsPattern` and the padded-rule lemmas characterize it further |
| Replace.ReplaceAllWithoutOccurrence | script.js:212-221 | a replace whose pattern does not occur leaves the text unchanged |
| Replace.ReplaceAllFoldsPattern | script.js:213 | two patterns equal up to ASCII case give the same replace |
| Replace.OccursIgnoresCase | script.js:213 | whether a pattern occurs does not depend on the case of the text |
| Replace.PaddedRuleSkipsLeadingWord | script.js:192-208 | with a pattern that starts with a space, a leading run without spaces is copied and the replace continues on the rest |
| Replace.MatchEndsLikePattern | script.js:213 | a match of a pattern that ends with a space ends with a space |
| Replace.StartsWithFoldedPrefix | script.js:213 | whether the pattern matches at the start depends only on as many characters as the pattern has |
| Replace.PaddedRuleSkipsTrailingWord | script.js:192-208 | with a pattern that ends with a space, a trailing run without spaces is never touched |
| Capitalization.UpperAll | script.js:224 | `toUpperCase` of a whole match keeps the length and the case-folded text, leaves no lower-case letter, and returns a match without lower-case letters unchanged |
| Capitalization.SentenceBreakAt | script.js:224 | definition of "`[.!?]\s+\w` matches at this index"; used by `SentenceBreakStep` and `BreakCase` |
| Capitalization.CapitalizeFrom | script.js:224 | definition of the global replace's scan from a position; characterized by `CapitalizeFromCharacterized` |
| Capitalization.Capitalize | script.js:224 | definition of the capitalization pass; characterized by `CapitalizeCharacterized` and `CapitalizeIdempotent` |
| Capitalization.SpaceRunEnd | script.js:224 | the `\s+` part of a match: the maximal run of white space from a position |
| Capitalization.RunAfterSentenceEnd | script.js:224 | every position inside the white-space run after `.`, `!` or `?` follows a sentence end |
| Capitalization.SentenceBreakStep | script.js:224 | a `[.!?]\s+\w` match upper-cases exactly the characters the per-character description says, and the scan may resume after it |
| Capitalization.CopyStep | script.js:224 | where neither alternative matches, the character is one that stays unchanged |
| Capitalization.Glue | script.js:224 | output for two consecutive parts of the text together is output for both |
| Capitalization.FirstWordCase | script.js:224 | the scan at a `^\w` match agrees with the per-character description |
| Capitalization.BreakCase | script.js:224 | the scan at a `[.!?]\s+\w` match agrees with the per-character description |
| Capitalization.CopyCase | script.js:224 | the scan where nothing matches agrees with the per-character description |
| Capitalization.CapitalizeFromCharacterized | script.js:224 | from any position the scan can reach, its output agrees with the per-character description |
| Capitalization.CapitalizeCharacterized | script.js:224 | the pass keeps the length and changes exactly the word characters that start the text or follow `.`, `!` or `?` and at least one white-space character, which it upper-cases |
| Capitalization.SameBreaks | script.js:224 | texts whose characters have the same classes have their sentence breaks in the same places |
| Capitalization.CapitalizeIdempotent | script.js:224 | capitalizing twice is the same as capitalizing once |
| Capitalization.NewlineAloneKeepsCase | script.js:224 | a word after a line break that does not follow a sentence end keeps its case |
| Formalizer.ApplyRule | script.js:212-220 | definition of one loop iteration, the global replace of one table entry; see `ReplaceAll` |
| Formalizer.ApplyRules | script.js:212-221 | definition of the loop over a list of entries, in order; characterized by `ApplyRulesSnoc` and `ApplyRulesWithoutOccurrence` |
| Formalizer.Formalize | script.js:171-227 | definition of `enhanceTranslation`'s result; `Enhance` computes it, `FormalizeWithoutOccurrence` and `FormalizeIdempotentWithoutOccurrence` characterize it |
| Formalizer.ApplyRulesSnoc | script.js:212-221 | applying one more rule continues from the text the earlier rules produced |
| Formalizer.Enhance | script.js:171-227 | the loop reassigns the text once per table entry, in table order, then capitalizes: the result is `Formalize` of the input |
| Formalizer.NoneOccursTail | script.js:212 | dropping the first rule keeps the remaining patterns absent |
| Formalizer.ApplyRulesWithoutOccurrence | script.js:212-221 | rules none of whose patterns occur leave the text unchanged |
| Formalizer.FormalizeWithoutOccurrence | script.js:171-227 | when no pattern occurs, the formalizer only capitalizes |
| Formalizer.CapitalizeKeepsFolding | script.js:224 | capitalization changes only case |
| Formalizer.FormalizeIdempotentWithoutOccurrence | script.js:171-227 | on a text in which no pattern occurs, formalizing twice equals formalizing once |
| Formalizer.ContractionShapes | script.js:176-191 | the table `Rules` has 32 entries; the first 15 patterns hold an apostrophe and start, like their replacements, with a lower-case letter |
| Formalizer.PaddedShapes | script.js:192-208 | the last 17 patterns begin and end with a space, and so do their replacements |
| Formalizer.NoRuleWithoutApostropheOrTwoSpaces | script.js:176-221 | a text with no apostrophe and at most one space triggers no rule, so it is only capitalized |
| Formalizer.OkRuleRunsTwice | script.js:192-193 | the `" OK "` entry performs the same rewrite as the `" ok "` entry, applied to that entry's output |
| FormalizerExamples.AdjacentMatchesShareSpace | script.js:212-221 | `" hi hi "` becomes `" hello hi "` because the scan resumes after the first match |
| FormalizerExamples.ContractionCase | script.js:214-219 | `"Don't"` and `"DON'T"` become `"Do not"`; `"don't"` becomes `"do not"` |
| FormalizerExamples.DontRewritten | script.js:177 | the first entry rewrites `"don't"` to `"do not"` |
| FormalizerExamples.RestOfTableIdle | script.js:178-208 | no later entry changes `"do not"` |
| FormalizerExamples.PaddedRuleKeepsReplacement | script.js:214-219 | `" Hey "` and `" HEY "` both become `" hello "` |
| FormalizerExamples.OkMatchesWholeWord | script.js:193 | the `" OK "` pattern matches `" ok "` and emits `" acceptable "` |
| FormalizerExamples.NoOkAtStart | script.js:212-221 | `" OK "` does not match at the start of `" acceptable ok "` |
| FormalizerExamples.NoOkInWord | script.js:212-221 | nor inside the word `acceptable` |
| FormalizerExamples.SecondOkFound | script.js:212-221 | on `" acceptable ok "`, the `" OK "` pattern replaces the trailing word |
| FormalizerExamples.OkEntries | script.js:192-193 | entries 15 and 16 are the `" ok "` and `" OK "` rules |
| FormalizerExamples.FirstOkReplaced | script.js:212-221 | on `" ok ok "`, the `" ok "` entry replaces only the first word |
| FormalizerExamples.OkRuleFiresAfterOkRule | script.js:192-193 | the `" OK "` entry fires on the output the `" ok "` entry produces from `" ok ok "` |
| FormalizerExamples.CapitalizeTwoSentences | script.js:224 | `"hi. hi"` is capitalized to `"Hi. Hi"` |
| FormalizerExamples.CapitalizeFirstWord | script.js:224 | `"do not"` is capitalized to `"Do not"` |
| FormalizerExamples.EdgeWordsOnlyCapitalized | script.js:171-227 | `"hi. hi"` is formalized to `"Hi. Hi"`: padded rules never match at the edges |
| FormalizerExamples.LowerCaseContraction | script.js:171-227 | `"don't"` is formalized to `"Do not"` |
| FormalizerExamples.NewlineExample | script.js:224 | in `"ok\nno"` only the first word is capitalized: a line break alone starts no sentence |
| Providers.IsOk | script.js:135 | definition of `response.ok`, a status from 200 to 299; both outcome functions are stated in terms of it |
| Providers.LibreTranslateOutcome | script.js:121-140 | a reply without an ok status fails whatever its body; an ok reply with a string `translatedText` yields that string; any success had an ok status and exactly that body |
| Providers.MyMemoryOutcome | script.js:143-161 | a reply fails without an ok HTTP status, and fails whenever the body's `responseStatus` is not 200; with both, a string `translatedText` is yielded; any success had both |
| Providers.LibreIgnoresOkStatus | script.js:135-140 | which ok status LibreTranslate answered with does not change the outcome |
| Providers.MyMemoryBodyStatusDecides | script.js:150-160 | an ok reply whose body reports 403 fails whatever text it carries; with 200 instead, the text is yielded |
| Providers.BasicTranslate | script.js:164-168 | the stub text is the fixed banner, then the input verbatim, then the fixed note |
| Providers.BasicTranslateInjective | script.js:167 | different inputs give different stub texts |
| Orchestrator.Attempt | script.js:99-118 | the stub provider always yields a string |
| Orchestrator.FirstSuccess | script.js:99-118 | definition of "exactly the first `n` providers are asked": all before the last fail and the last succeeds; `SelectProvider` and `PerformTranslation` establish it, `FirstSuccessUnique` shows it determines `n` |
| Orchestrator.FirstSuccessUnique | script.js:99-118 | at most one number of providers asked fits the fallback rule, so the replies determine it |
| Orchestrator.SelectProvider | script.js:99-118 | providers are asked in priority order until one yields a string: none after a success is asked, and each case (LibreTranslate succeeds; it fails and MyMemory succeeds; both fail) ends as stated |
| Orchestrator.PerformTranslation | script.js:99-118 | the result is the formalized output of the first provider that yields a string, and exactly the providers up to that one are asked |
| OrchestratorExamples.FallbackToMyMemory | script.js:99-114 | with LibreTranslate unreachable and MyMemory answering `"don't"`, two providers are asked and MyMemory's text is used |
| OrchestratorExamples.FallbackAnswerFormalized | script.js:171-227 | that answer is returned as `"Do not"` |
| OrchestratorExamples.BodyStatusForcesDemoMode | script.js:99-118 | LibreTranslate answering 500 and MyMemory answering 200 with body status 403 both fail, and the stub is used |

## Left out

- The page: DOM elements, event listeners, the character counter, the clear and copy buttons, the clipboard, keyboard shortcuts and textarea resizing (script.js:1-52, 229-252). They hold no logic beyond updating elements.
- `translateText` (script.js:55-96): the busy state, CSS classes, timers and error message. Its guard trims the input and rejects an empty one. `PerformTranslation` works for any text, so it does not require that guard.
- `fetch`, HTTP, JSON parsing, `encodeURIComponent` and the asynchronous machinery. Each provider is represented by the reply it gave:
  - a network failure;
  - a body that is not JSON;
  - a missing or non-string field, which makes the provider function or `enhanceTranslation` throw inside the same `try`. A `null` body or a missing `responseData` throws in the provider function itself (script.js:140, 160); a missing or non-string `translatedText` throws in `enhanceTranslation`.
  
  Each of these is a failed outcome.
- The request payloads and URLs, the `console.log` messages and the text of thrown errors. They do not affect the result.
- Ascii.ToUpper: only ASCII letters are case-mapped. The model is exact wherever the code upper-cases:
  - The callback upper-cases the first character of a match and of an ASCII replacement.
  - The capitalization pass upper-cases matches made of `[.!?]`, white space and `\w`.
  
  Only ASCII characters are ever changed in these places.
- Characters are Unicode scalar values, while JavaScript strings are UTF-16 code units. The two differ for astral characters, and for unpaired surrogates, which a Dafny string cannot hold (`response.json()` can produce one from a JSON `"\ud800"`). No pattern and no character class (`\w`, `\s`, `[.!?]`) matches either, so they only ever pass through unchanged.
- Replace.ReplaceAll: requires a non-empty pattern. Every table pattern is non-empty; an empty regular expression would also match between characters, and that case is not modelled.
- Orchestrator.PerformTranslation: formalizes the first string obtained, after the selection. The code calls `enhanceTranslation` for each provider's string. For a string, that call throws only when a rewrite would make the text longer than the engine's maximum string length, and `replace` then raises a `RangeError`. For the two services the call is inside a `try`, so the code moves on to the next provider. For the stub (script.js:117) it is outside any `try`, so `performTranslation` rejects, and `translateText` shows its error message (script.js:83-85). The model has unbounded strings, so it captures neither the fall-through nor the rejection: its `PerformTranslation` always returns.
- Orchestrator.PerformTranslation: always returns, because each service is represented by a reply it already gave. The code sets no timeout, so a `fetch` or `response.json()` that never settles leaves `performTranslation` pending forever. The model does not capture that.
