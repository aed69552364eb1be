/**
 * Worked runs of the provider fallback, each proved from the definitions.
 */
module OrchestratorExamples {
  import opened Providers
  import opened Formalizer
  import opened FormalizerExamples
  import opened Orchestrator

  /** LibreTranslate is unreachable and MyMemory answers `"don't"`: two providers are asked. */
  lemma FallbackToMyMemory(text: string)
    ensures var myMemory := Response(200, Some(MyMemoryBody(Some(200), Some("don't"))));
      FirstSuccess(2, text, NetworkError, myMemory) &&
      Attempt(Priority[1], text, NetworkError, myMemory).text == "don't"
  {
  }

  /** In that run the answer is formalized to `"Do not"`. */
  lemma FallbackAnswerFormalized(text: string)
    ensures var myMemory := Response(200, Some(MyMemoryBody(Some(200), Some("don't"))));
      Formalize(Attempt(Priority[1], text, NetworkError, myMemory).text) == "Do not"
  {
    FallbackToMyMemory(text);
    LowerCaseContraction();
  }

  /**
   * LibreTranslate answers 500 and MyMemory answers HTTP 200 with a body
   * reporting 403: both count as failures and the stub is used.
   */
  lemma BodyStatusForcesDemoMode(text: string, t: Option<string>)
    ensures var myMemory := Response(200, Some(MyMemoryBody(Some(403), t)));
      FirstSuccess(3, text, Response(500, Some(LibreBody(Some("hola")))), myMemory) &&
      Attempt(Priority[2], text, Response(500, Some(LibreBody(Some("hola")))), myMemory).text == BasicTranslate(text)
  {
  }
}
