/**
 * `performTranslation` (script.js:99-118): LibreTranslate first, MyMemory
 * second, the demonstration stub last; the first one that yields a
 * string is formalized and returned, and nothing after it is asked.
 */
module Orchestrator {
  import opened Providers
  import opened Formalizer

  datatype Provider = LibreTranslate | MyMemory | DemoMode

  /** The order in which `performTranslation` tries the providers. */
  const Priority: seq<Provider> := [LibreTranslate, MyMemory, DemoMode]

  /** What asking provider `p` gives, given the replies the two services would send. */
  function Attempt(p: Provider, text: string, libre: Reply<LibreBody>, myMemory: Reply<MyMemoryBody>): (o: Outcome)
    ensures p == DemoMode ==> o.Translated?
  {
    match p
    case LibreTranslate => LibreTranslateOutcome(libre)
    case MyMemory => MyMemoryOutcome(myMemory)
    case DemoMode => Translated(BasicTranslate(text))
  }

  /**
   * Asking the first `n` providers of the priority order is what happens:
   * each of them but the last failed and the last one succeeded.
   */
  ghost predicate FirstSuccess(n: nat, text: string, libre: Reply<LibreBody>, myMemory: Reply<MyMemoryBody>)
  {
    1 <= n <= |Priority| &&
    (forall k :: 0 <= k < n - 1 ==> Attempt(Priority[k], text, libre, myMemory) == Failed) &&
    Attempt(Priority[n - 1], text, libre, myMemory).Translated?
  }

  /** At most one count fits: the provider that answers is determined by the replies. */
  lemma FirstSuccessUnique(n1: nat, n2: nat, text: string,
                           libre: Reply<LibreBody>, myMemory: Reply<MyMemoryBody>)
    requires FirstSuccess(n1, text, libre, myMemory) && FirstSuccess(n2, text, libre, myMemory)
    ensures n1 == n2
  {
  }

  /**
   * The control flow of `performTranslation`: the providers are asked in
   * priority order and the first string obtained is kept. `asked` counts
   * the providers asked; the stub always succeeds, so at most three are.
   * A provider whose reply makes `enhanceTranslation` throw has already
   * been counted as failed by its outcome function.
   */
  method SelectProvider(text: string, libre: Reply<LibreBody>, myMemory: Reply<MyMemoryBody>)
    returns (raw: string, asked: nat)
    ensures FirstSuccess(asked, text, libre, myMemory)
    ensures raw == Attempt(Priority[asked - 1], text, libre, myMemory).text
    ensures LibreTranslateOutcome(libre).Translated? ==>
      asked == 1 && raw == LibreTranslateOutcome(libre).text
    ensures LibreTranslateOutcome(libre) == Failed && MyMemoryOutcome(myMemory).Translated? ==>
      asked == 2 && raw == MyMemoryOutcome(myMemory).text
    ensures LibreTranslateOutcome(libre) == Failed && MyMemoryOutcome(myMemory) == Failed ==>
      asked == 3 && raw == BasicTranslate(text)
  {
    asked := 1;
    var first := LibreTranslateOutcome(libre);
    if first.Translated? {
      raw := first.text;
      return;
    }
    asked := asked + 1;
    var second := MyMemoryOutcome(myMemory);
    if second.Translated? {
      raw := second.text;
      return;
    }
    asked := asked + 1;
    raw := BasicTranslate(text);
  }

  /**
   * `performTranslation`: the result is the formalized text of the first
   * provider, in priority order, that yields one. Since `enhanceTranslation`
   * on a string never throws short of the engine's maximum string length,
   * formalizing inside each `try` is the same as formalizing the string the
   * first successful provider returned.
   */
  method PerformTranslation(text: string, libre: Reply<LibreBody>, myMemory: Reply<MyMemoryBody>)
    returns (translation: string, asked: nat)
    ensures FirstSuccess(asked, text, libre, myMemory)
    ensures translation == Formalize(Attempt(Priority[asked - 1], text, libre, myMemory).text)
  {
    var raw;
    raw, asked := SelectProvider(text, libre, myMemory);
    translation := Enhance(raw);
  }
}
