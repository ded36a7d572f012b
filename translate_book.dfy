/**
 * lambdas/translateBook.ts: translate a book's description into the requested
 * language, serving a cached translation when the book has one and caching a
 * fresh one otherwise. The checks over the fetched book are a pure decision;
 * the cache write-back updates the table.
 */
module TranslateBook {
  import opened Js
  import opened Store
  import opened Books
  import opened Http
  import opened Translation

  /** The TypeError `description.trim()` throws when the description is truthy but not a string. */
  const TrimNotAFunction := "data.Item.description.trim is not a function"

  /** Where the checks over the fetched book lead. */
  datatype Step =
    | NotFound
    | NoDescription
    | DescriptionNotString
    | Hit(cached: Value)
    | Miss(description: string)

  /** A description the handler will translate: a string with a non-whitespace character. */
  predicate Translatable(item: Record)
  {
    "description" in item && item["description"].Str? && !Blank(item["description"].s)
  }

  /** The lookup, description and cache checks, in this order. */
  function Decide(item: Option<Record>, lang: string): (d: Step)
    ensures d.NotFound? <==> item.None?
    ensures d.DescriptionNotString? <==>
      item.Some? && Truthy(Field(item.value, "description")) && !item.value["description"].Str?
    ensures d.NoDescription? <==>
      && item.Some?
      && (!Truthy(Field(item.value, "description")) || (item.value["description"].Str? && Blank(item.value["description"].s)))
    ensures d.Hit? <==> item.Some? && Translatable(item.value) && Cached(item.value, lang).Some?
    ensures d.Hit? ==> d.cached == Cached(item.value, lang).value
    ensures d.Miss? <==> item.Some? && Translatable(item.value) && Cached(item.value, lang).None?
    ensures d.Miss? ==> Str(d.description) == item.value["description"]
  {
    if item.None? then NotFound
    else
      var description := Field(item.value, "description");
      if !Truthy(description) then NoDescription
      else if !description.value.Str? then DescriptionNotString
      else if Trim(description.value.s) == "" then NoDescription
      else
        var translations := Field(item.value, "translations");
        if Truthy(translations) && Truthy(Prop(translations.value, lang)) then
          Hit(Prop(translations.value, lang).value)
        else Miss(description.value.s)
  }

  /** One invocation: the response, the table afterwards and the provider calls made. */
  datatype Effect = Effect(response: Response, books: map<string, Record>, calls: seq<TranslateRequest>)

  /** What one invocation of the handler does. */
  function Invoke(books: map<string, Record>, event: Event, translate: Translator, getFault: Fault, updateFault: Fault): (e: Effect)
    ensures |e.calls| <= 1
    ensures e.response.statusCode in {200, 400, 404, 500}
    ensures e.books.Keys == books.Keys
    ensures e.books != books ==> e.response.statusCode == 200 && |e.calls| == 1
    ensures e.calls != [] ==> e.calls[0].sourceLanguageCode == SourceLanguage
  {
    var isbn := Param(event.pathParameters, "isbn");
    var lang := Param(event.queryStringParameters, "language");
    if !Truthy(isbn) || !Truthy(lang) then
      Effect(Reply(400, Error("Missing ISBN or target language")), books, [])
    else
      match Get(books, isbn.value.s, getFault)
      case Err(m) => Effect(Failure(m), books, [])
      case Ok(item) =>
        match Decide(item, lang.value.s)
        case NotFound => Effect(Reply(404, Error("Book not found")), books, [])
        case NoDescription => Effect(Reply(400, Error("Book description is missing or empty")), books, [])
        case DescriptionNotString => Effect(Failure(TrimNotAFunction), books, [])
        case Hit(cached) => Effect(Reply(200, Translation(cached)), books, [])
        case Miss(description) =>
          var request := TranslateRequest(Str(description), SourceLanguage, lang.value.s);
          match translate(request)
          case Err(m) => Effect(Failure(m), books, [request])
          case Ok(text) =>
            match CacheOutcome(books, isbn.value.s, lang.value.s, text, updateFault)
            case Fail(m) => Effect(Failure(m), books, [request])
            case Pass =>
              var updated := WithTranslation(books[isbn.value.s], lang.value.s, text, true).value;
              Effect(Reply(200, Translation(Str(text))), books[isbn.value.s := updated], [request])
  }

  /** The handler: validate, fetch, decide, translate on a miss and cache the result. */
  method Handler(table: BookTable, event: Event, translate: Translator, getFault: Fault, updateFault: Fault)
    returns (response: Response, calls: seq<TranslateRequest>)
    requires table.Valid()
    modifies table
    ensures table.Valid()
    ensures var e := Invoke(old(table.books), event, translate, getFault, updateFault);
      response == e.response && table.books == e.books && calls == e.calls
  {
    calls := [];
    var isbn := Param(event.pathParameters, "isbn");
    var lang := Param(event.queryStringParameters, "language");
    if !Truthy(isbn) || !Truthy(lang) {
      response := Reply(400, Error("Missing ISBN or target language"));
      return;
    }
    var got := Get(table.books, isbn.value.s, getFault);
    if got.Err? {
      response := Failure(got.message);
      return;
    }
    var step := Decide(got.value, lang.value.s);
    if step.NotFound? {
      response := Reply(404, Error("Book not found"));
    } else if step.NoDescription? {
      response := Reply(400, Error("Book description is missing or empty"));
    } else if step.DescriptionNotString? {
      response := Failure(TrimNotAFunction);
    } else if step.Hit? {
      response := Reply(200, Translation(step.cached));
    } else {
      var request := TranslateRequest(Str(step.description), SourceLanguage, lang.value.s);
      calls := calls + [request];
      var translated := translate(request);
      if translated.Err? {
        response := Failure(translated.message);
        return;
      }
      var written := table.CacheTranslation(isbn.value.s, lang.value.s, translated.value, updateFault);
      if written.Fail? {
        response := Failure(written.message);
        return;
      }
      response := Reply(200, Translation(Str(translated.value)));
    }
  }

  /** The event asks for the `lang` translation of book `isbn`. */
  predicate Asks(event: Event, isbn: string, lang: string)
  {
    && isbn != "" && lang != ""
    && Param(event.pathParameters, "isbn") == Some(Str(isbn))
    && Param(event.queryStringParameters, "language") == Some(Str(lang))
  }

  /** Without an isbn or a language the request is refused before any call. */
  lemma MissingParameters(books: map<string, Record>, event: Event, translate: Translator, getFault: Fault, updateFault: Fault)
    requires !Truthy(Param(event.pathParameters, "isbn")) || !Truthy(Param(event.queryStringParameters, "language"))
    ensures Invoke(books, event, translate, getFault, updateFault)
      == Effect(Reply(400, Error("Missing ISBN or target language")), books, [])
  {
  }

  /** An absent book is reported before any provider call or write. */
  lemma AbsentBookNotFound(books: map<string, Record>, event: Event, isbn: string, lang: string, translate: Translator, updateFault: Fault)
    requires Asks(event, isbn, lang) && isbn !in books
    ensures Invoke(books, event, translate, NoFault, updateFault) == Effect(Reply(404, Error("Book not found")), books, [])
  {
  }

  /**
   * A missing, falsy or whitespace-only description refuses the request
   * without a provider call, even when a translation is cached.
   */
  lemma UntranslatableDescription(books: map<string, Record>, event: Event, isbn: string, lang: string, translate: Translator, updateFault: Fault)
    requires Asks(event, isbn, lang) && isbn in books
    requires var d := Field(books[isbn], "description"); !Truthy(d) || (d.value.Str? && Blank(d.value.s))
    ensures Invoke(books, event, translate, NoFault, updateFault)
      == Effect(Reply(400, Error("Book description is missing or empty")), books, [])
  {
  }

  /** A truthy description that is not a string makes `trim` throw: a 500 with no provider call. */
  lemma DescriptionNotStringFails(books: map<string, Record>, event: Event, isbn: string, lang: string, translate: Translator, updateFault: Fault)
    requires Asks(event, isbn, lang) && isbn in books
    requires Truthy(Field(books[isbn], "description")) && !books[isbn]["description"].Str?
    ensures Invoke(books, event, translate, NoFault, updateFault)
      == Effect(Reply(500, ErrorDetails(Failed, TrimNotAFunction)), books, [])
  {
  }

  /** A cache hit serves the cached text: no provider call, table unchanged. */
  lemma CacheHitServesCached(books: map<string, Record>, event: Event, isbn: string, lang: string, translate: Translator, updateFault: Fault)
    requires Asks(event, isbn, lang) && isbn in books && Translatable(books[isbn])
    requires Cached(books[isbn], lang).Some?
    ensures Invoke(books, event, translate, NoFault, updateFault)
      == Effect(Reply(200, Translation(Cached(books[isbn], lang).value)), books, [])
  {
  }

  /** On a miss the provider is called exactly once: the description, from "en" into `lang`. */
  lemma MissCallsProviderOnce(books: map<string, Record>, event: Event, isbn: string, lang: string, translate: Translator, updateFault: Fault)
    requires Asks(event, isbn, lang) && isbn in books && Translatable(books[isbn])
    requires Cached(books[isbn], lang).None?
    ensures Invoke(books, event, translate, NoFault, updateFault).calls
      == [TranslateRequest(books[isbn]["description"], "en", lang)]
  {
  }

  /** A provider failure is a 500 with its message, and nothing is written. */
  lemma ProviderFailureWritesNothing(books: map<string, Record>, event: Event, isbn: string, lang: string, translate: Translator, updateFault: Fault)
    requires Asks(event, isbn, lang) && isbn in books && Translatable(books[isbn])
    requires Cached(books[isbn], lang).None?
    requires translate(TranslateRequest(books[isbn]["description"], "en", lang)).Err?
    ensures var m := translate(TranslateRequest(books[isbn]["description"], "en", lang)).message;
      Invoke(books, event, translate, NoFault, updateFault)
      == Effect(Reply(500, ErrorDetails(Failed, m)), books, [TranslateRequest(books[isbn]["description"], "en", lang)])
  {
  }

  /** A store failure on the lookup is a 500 with its message: no call, no write. */
  lemma LookupFailure(books: map<string, Record>, event: Event, isbn: string, lang: string, translate: Translator, message: string, updateFault: Fault)
    requires Asks(event, isbn, lang)
    ensures Invoke(books, event, translate, Throws(message), updateFault)
      == Effect(Reply(500, ErrorDetails(Failed, message)), books, [])
  {
  }

  /**
   * After a miss whose write-back succeeds, the book's `translations` map
   * (created if absent) holds the new text for `lang`; every other language,
   * every other attribute and every other book are unchanged.
   */
  lemma MissCachesTranslation(books: map<string, Record>, event: Event, isbn: string, lang: string, translate: Translator, text: string)
    requires Asks(event, isbn, lang) && isbn in books && Translatable(books[isbn])
    requires Cached(books[isbn], lang).None?
    requires translate(TranslateRequest(books[isbn]["description"], "en", lang)) == Ok(text)
    requires "translations" in books[isbn] ==> books[isbn]["translations"].Obj?
    ensures var e := Invoke(books, event, translate, NoFault, NoFault);
      && e.response == Reply(200, Translation(Str(text)))
      && e.books.Keys == books.Keys
      && (forall other | other in books && other != isbn :: e.books[other] == books[other])
      && e.books[isbn].Keys == books[isbn].Keys + {"translations"}
      && (forall a | a in books[isbn] && a != "translations" :: e.books[isbn][a] == books[isbn][a])
      && Prop(e.books[isbn]["translations"], lang) == Some(Str(text))
      && (forall l | l != lang :: Prop(e.books[isbn]["translations"], l)
            == if "translations" in books[isbn] then Prop(books[isbn]["translations"], l) else None)
  {
  }

  /** A cache write-back that throws after the provider succeeds is a 500 with its message, and nothing is written. */
  lemma WriteBackFailure(books: map<string, Record>, event: Event, isbn: string, lang: string, translate: Translator, text: string, message: string)
    requires Asks(event, isbn, lang) && isbn in books && Translatable(books[isbn])
    requires Cached(books[isbn], lang).None?
    requires translate(TranslateRequest(books[isbn]["description"], "en", lang)) == Ok(text)
    ensures Invoke(books, event, translate, NoFault, Throws(message))
      == Effect(Failure(message), books, [TranslateRequest(books[isbn]["description"], "en", lang)])
  {
  }

  /** A `translations` attribute that is not a map makes the write-back fail: a 500, nothing written. */
  lemma NonMapTranslationsFails(books: map<string, Record>, event: Event, isbn: string, lang: string, translate: Translator, text: string)
    requires Asks(event, isbn, lang) && isbn in books && Translatable(books[isbn])
    requires "translations" in books[isbn] && !books[isbn]["translations"].Obj?
    requires translate(TranslateRequest(books[isbn]["description"], "en", lang)) == Ok(text)
    ensures Invoke(books, event, translate, NoFault, NoFault)
      == Effect(Reply(500, ErrorDetails(Failed, InvalidDocumentPath)), books, [TranslateRequest(books[isbn]["description"], "en", lang)])
  {
  }

  /**
   * Repeating a request after a successful miss returns the same text with no
   * provider call and no write, whatever the provider would now say.
   */
  lemma {:induction false} RepeatServedFromCache(
    books: map<string, Record>, event: Event, isbn: string, lang: string,
    translate: Translator, again: Translator, updateFault: Fault, updateFaultAgain: Fault)
    requires Asks(event, isbn, lang)
    requires var e := Invoke(books, event, translate, NoFault, updateFault);
      e.response.statusCode == 200 && e.calls != [] && e.response.body != Translation(Str(""))
    ensures var e := Invoke(books, event, translate, NoFault, updateFault);
      Invoke(e.books, event, again, NoFault, updateFaultAgain) == Effect(e.response, e.books, [])
  {
    var e := Invoke(books, event, translate, NoFault, updateFault);
    var item := books[isbn];
    var text := translate(TranslateRequest(item["description"], "en", lang)).value;
    var updated := WithTranslation(item, lang, text, true).value;
    assert e.books == books[isbn := updated];
    assert Field(updated, "description") == Field(item, "description");
    assert Cached(updated, lang) == Some(Str(text));
  }

  /**
   * An empty translated text is written but is not truthy, so a repeat is a
   * miss again and calls the provider once more.
   */
  lemma {:induction false} EmptyTranslationNotServed(
    books: map<string, Record>, event: Event, isbn: string, lang: string,
    translate: Translator, again: Translator, updateFaultAgain: Fault)
    requires Asks(event, isbn, lang)
    requires var e := Invoke(books, event, translate, NoFault, NoFault);
      e.response == Reply(200, Translation(Str(""))) && e.calls != []
    ensures var e := Invoke(books, event, translate, NoFault, NoFault);
      Invoke(e.books, event, again, NoFault, updateFaultAgain).calls == e.calls
  {
    var e := Invoke(books, event, translate, NoFault, NoFault);
    var item := books[isbn];
    var updated := WithTranslation(item, lang, "", true).value;
    assert e.books == books[isbn := updated];
    assert Field(updated, "description") == Field(item, "description");
    assert Cached(updated, lang).None?;
  }
}
