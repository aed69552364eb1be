/**
 * The two remote translation services and the demonstration stub
 * (script.js:121-168). The network exchange itself is not modelled: each
 * service is represented by the reply it gave, and each function says
 * whether `performTranslation` gets a translated string out of that reply
 * or an exception.
 */
module Providers {

  datatype Option<T> = None | Some(value: T)

  /**
   * What `fetch` produced: either it rejected (no connection, CORS, ...),
   * or it resolved with an HTTP status and a body that `response.json()`
   * either parsed (`Some`) or rejected (`None`).
   */
  datatype Reply<Body> = NetworkError | Response(status: int, body: Option<Body>)

  /**
   * The parsed LibreTranslate body. `translatedText` is `None` when the
   * field is missing or is not a string; `enhanceTranslation` then throws
   * on `translatedText.replace`, inside the same `try`.
   */
  datatype LibreBody = LibreBody(translatedText: Option<string>)

  /**
   * The parsed MyMemory body. `responseStatus` is `None` when it is not a
   * number; `translatedText` is `None` when `responseData` or its
   * `translatedText` is missing or is not a string.
   */
  datatype MyMemoryBody = MyMemoryBody(responseStatus: Option<int>, translatedText: Option<string>)

  /** A provider either yields a string for the formalizer or throws. */
  datatype Outcome = Translated(text: string) | Failed

  /** `response.ok`: the Fetch Standard's ok status, 200 to 299. */
  predicate IsOk(status: int)
  {
    200 <= status <= 299
  }

  /**
   * `translateWithLibreTranslate` (script.js:121-140): a reply whose status
   * is not ok throws; otherwise `translatedText` is what is handed on.
   */
  function LibreTranslateOutcome(reply: Reply<LibreBody>): (o: Outcome)
    ensures !(reply.Response? && IsOk(reply.status)) ==> o == Failed
    ensures reply.Response? && IsOk(reply.status) && reply.body.Some? && reply.body.value.translatedText.Some?
      ==> o == Translated(reply.body.value.translatedText.value)
    ensures o.Translated? ==>
      reply.Response? && IsOk(reply.status) && reply.body == Some(LibreBody(Some(o.text)))
  {
    match reply
    case NetworkError => Failed
    case Response(status, body) =>
      if !IsOk(status) then Failed
      else match body
        case None => Failed
        case Some(LibreBody(None)) => Failed
        case Some(LibreBody(Some(t))) => Translated(t)
  }

  /**
   * `translateWithMyMemory` (script.js:143-161): besides an ok HTTP status,
   * the body's own `responseStatus` must be exactly the number 200.
   */
  function MyMemoryOutcome(reply: Reply<MyMemoryBody>): (o: Outcome)
    ensures !(reply.Response? && IsOk(reply.status)) ==> o == Failed
    ensures reply.Response? && reply.body.Some? && reply.body.value.responseStatus != Some(200) ==> o == Failed
    ensures reply.Response? && IsOk(reply.status) && reply.body.Some?
      && reply.body.value.responseStatus == Some(200) && reply.body.value.translatedText.Some?
      ==> o == Translated(reply.body.value.translatedText.value)
    ensures o.Translated? ==>
      reply.Response? && IsOk(reply.status) && reply.body == Some(MyMemoryBody(Some(200), Some(o.text)))
  {
    match reply
    case NetworkError => Failed
    case Response(status, body) =>
      if !IsOk(status) then Failed
      else match body
        case None => Failed
        case Some(MyMemoryBody(responseStatus, translatedText)) =>
          if responseStatus != Some(200) then Failed
          else match translatedText
            case None => Failed
            case Some(t) => Translated(t)
  }

  /** Among ok statuses, the exact one does not matter to LibreTranslate. */
  lemma LibreIgnoresOkStatus(s1: int, s2: int, body: Option<LibreBody>)
    requires IsOk(s1) && IsOk(s2)
    ensures LibreTranslateOutcome(Response(s1, body)) == LibreTranslateOutcome(Response(s2, body))
  {
  }

  /** An ok HTTP reply whose body reports 403 is still a failure, whatever text it carries. */
  lemma MyMemoryBodyStatusDecides(status: int, t: Option<string>)
    requires IsOk(status)
    ensures MyMemoryOutcome(Response(status, Some(MyMemoryBody(Some(403), t)))) == Failed
    ensures t.Some? ==>
      MyMemoryOutcome(Response(status, Some(MyMemoryBody(Some(200), t)))) == Translated(t.value)
  {
  }

  const DemoPrefix: string := "[Demo Mode] Translation: "

  const DemoNote: string :=
    "\n\nNote: Please configure a translation API key for full functionality. "
    + "This application is designed to provide formal, elegant English translations "
    + "with appropriate synonyms and natural language."

  /**
   * `basicTranslate` (script.js:164-168): the input, verbatim, between a
   * fixed banner and a fixed note.
   */
  function BasicTranslate(text: string): (r: string)
    ensures |r| == |DemoPrefix| + |text| + |DemoNote|
    ensures r[..|DemoPrefix|] == DemoPrefix
    ensures r[|DemoPrefix|..|DemoPrefix| + |text|] == text
    ensures r[|DemoPrefix| + |text|..] == DemoNote
  {
    DemoPrefix + text + DemoNote
  }

  /** Different inputs give different stub texts: the input can be read back. */
  lemma BasicTranslateInjective(a: string, b: string)
    requires BasicTranslate(a) == BasicTranslate(b)
    ensures a == b
  {
    var r := BasicTranslate(a);
    assert a == r[|DemoPrefix|..|DemoPrefix| + |a|];
  }
}
