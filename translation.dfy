/**
 * What the two translate-and-cache handlers share: the request they send to
 * the translation provider and how they read a cached translation.
 */
module Translation {
  import opened Js
  import opened Store
  import opened Http

  /** The error both handlers report for any failure after the parameter check. */
  const Failed := "Translation failed"

  /** A 500 response carrying the failure's message as its details. */
  function Failure(message: string): Response
  {
    Reply(500, ErrorDetails(Failed, message))
  }

  /** The source language both handlers send. */
  const SourceLanguage := "en"

  /** A TranslateTextCommand: the text as stored, the source and the target language. */
  datatype TranslateRequest = TranslateRequest(text: Value, sourceLanguageCode: string, targetLanguageCode: string)

  /** The translation provider: each request yields translated text or throws. */
  type Translator = TranslateRequest -> Result<string>

  /**
   * The cached translation a handler serves: `translations` is truthy and
   * holds a truthy entry for `lang`.
   */
  function Cached(item: Record, lang: string): (c: Option<Value>)
    ensures c.Some? <==> "translations" in item && Truthy(Prop(item["translations"], lang))
    ensures c.Some? ==> Some(c.value) == Prop(item["translations"], lang)
  {
    var t := Field(item, "translations");
    if Truthy(t) && Truthy(Prop(t.value, lang)) then Prop(t.value, lang) else None
  }
}
