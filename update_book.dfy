/**
 * lambdas/updateBook.ts: the translate-and-cache flow for composite-key items.
 * Unlike translateBook it checks the cache before the description, does not
 * trim the description, and its write-back does not create the `translations`
 * map.
 */
module UpdateBook {
  import opened Js
  import opened Store
  import opened Items
  import opened Http
  import opened Translation

  /** Where the checks over the fetched item lead. */
  datatype Step =
    | NotFound
    | Hit(cached: Value)
    | NoDescription
    | Miss(description: Value)

  /** The lookup, cache and description checks, in this order. */
  function Decide(item: Option<Record>, lang: string): (d: Step)
    ensures d.NotFound? <==> item.None?
    ensures d.Hit? <==> item.Some? && Cached(item.value, lang).Some?
    ensures d.Hit? ==> d.cached == Cached(item.value, lang).value
    ensures d.NoDescription? <==>
      item.Some? && Cached(item.value, lang).None? && !Truthy(Field(item.value, "description"))
    ensures d.Miss? <==>
      item.Some? && Cached(item.value, lang).None? && Truthy(Field(item.value, "description"))
    ensures d.Miss? ==> d.description == item.value["description"]
  {
    if item.None? then NotFound
    else
      var stored := Field(item.value, "translations");
      var translations := if Truthy(stored) then stored.value else Obj(map[]);
      if Truthy(Prop(translations, lang)) then Hit(Prop(translations, lang).value)
      else
        var text := Field(item.value, "description");
        if !Truthy(text) then NoDescription else Miss(text.value)
  }

  /** One invocation: the response, the table afterwards and the provider calls made. */
  datatype Effect = Effect(response: Response, items: map<ItemKey, Record>, calls: seq<TranslateRequest>)

  /** What one invocation of the handler does. */
  function Invoke(items: map<ItemKey, Record>, event: Event, translate: Translator, getFault: Fault, updateFault: Fault): (e: Effect)
    ensures |e.calls| <= 1
    ensures e.response.statusCode in {200, 400, 404, 500}
    ensures e.items.Keys == items.Keys
    ensures e.items != items ==> e.response.statusCode == 200 && |e.calls| == 1
    ensures e.calls != [] ==> e.calls[0].sourceLanguageCode == SourceLanguage
  {
    var key := KeyParam(event);
    var lang := Param(event.queryStringParameters, "language");
    if key.None? || !Truthy(lang) then
      Effect(Reply(400, Error("Missing required parameters")), items, [])
    else
      match Get(items, key.value, getFault)
      case Err(m) => Effect(Failure(m), items, [])
      case Ok(item) =>
        match Decide(item, lang.value.s)
        case NotFound => Effect(Reply(404, Error("Item not found")), items, [])
        case Hit(cached) => Effect(Reply(200, Translation(cached)), items, [])
        case NoDescription => Effect(Reply(400, Error("description is missing or empty")), items, [])
        case Miss(description) =>
          var request := TranslateRequest(description, SourceLanguage, lang.value.s);
          match translate(request)
          case Err(m) => Effect(Failure(m), items, [request])
          case Ok(text) =>
            match CacheOutcome(items, key.value, lang.value.s, text, updateFault)
            case Fail(m) => Effect(Failure(m), items, [request])
            case Pass =>
              var updated := WithTranslation(items[key.value], lang.value.s, text, false).value;
              Effect(Reply(200, Translation(Str(text))), items[key.value := updated], [request])
  }

  /** The handler: validate, fetch, serve the cache, else translate and write back. */
  method Handler(table: ItemTable, event: Event, translate: Translator, getFault: Fault, updateFault: Fault)
    returns (response: Response, calls: seq<TranslateRequest>)
    requires table.Valid()
    modifies table
    ensures table.Valid()
    ensures var e := Invoke(old(table.items), event, translate, getFault, updateFault);
      response == e.response && table.items == e.items && calls == e.calls
  {
    calls := [];
    var key := KeyParam(event);
    var lang := Param(event.queryStringParameters, "language");
    if key.None? || !Truthy(lang) {
      response := Reply(400, Error("Missing required parameters"));
      return;
    }
    var got := Get(table.items, key.value, getFault);
    if got.Err? {
      response := Failure(got.message);
      return;
    }
    var step := Decide(got.value, lang.value.s);
    if step.NotFound? {
      response := Reply(404, Error("Item not found"));
    } else if step.Hit? {
      response := Reply(200, Translation(step.cached));
    } else if step.NoDescription? {
      response := Reply(400, Error("description is missing or empty"));
    } else {
      var request := TranslateRequest(step.description, SourceLanguage, lang.value.s);
      calls := calls + [request];
      var translated := translate(request);
      if translated.Err? {
        response := Failure(translated.message);
        return;
      }
      var written := table.CacheTranslation(key.value, lang.value.s, translated.value, updateFault);
      if written.Fail? {
        response := Failure(written.message);
        return;
      }
      response := Reply(200, Translation(Str(translated.value)));
    }
  }

  /** The event asks for the `lang` translation of the item under `key`. */
  predicate Asks(event: Event, key: ItemKey, lang: string)
  {
    && ValidKey(key) && lang != ""
    && KeyParam(event) == Some(key)
    && Param(event.queryStringParameters, "language") == Some(Str(lang))
  }

  /** Without both key parts and a language the request is refused before any call. */
  lemma MissingParameters(items: map<ItemKey, Record>, event: Event, translate: Translator, getFault: Fault, updateFault: Fault)
    requires KeyParam(event).None? || !Truthy(Param(event.queryStringParameters, "language"))
    ensures Invoke(items, event, translate, getFault, updateFault)
      == Effect(Reply(400, Error("Missing required parameters")), items, [])
  {
  }

  /** An absent item is reported before any provider call or write. */
  lemma AbsentItemNotFound(items: map<ItemKey, Record>, event: Event, key: ItemKey, lang: string, translate: Translator, updateFault: Fault)
    requires Asks(event, key, lang) && key !in items
    ensures Invoke(items, event, translate, NoFault, updateFault) == Effect(Reply(404, Error("Item not found")), items, [])
  {
  }

  /** The cache is checked first: a cached translation is served even without a description. */
  lemma CacheHitBeforeDescription(items: map<ItemKey, Record>, event: Event, key: ItemKey, lang: string, translate: Translator, updateFault: Fault)
    requires Asks(event, key, lang) && key in items && Cached(items[key], lang).Some?
    ensures Invoke(items, event, translate, NoFault, updateFault)
      == Effect(Reply(200, Translation(Cached(items[key], lang).value)), items, [])
  {
  }

  /** On a miss a falsy description refuses the request without a provider call. */
  lemma MissingDescription(items: map<ItemKey, Record>, event: Event, key: ItemKey, lang: string, translate: Translator, updateFault: Fault)
    requires Asks(event, key, lang) && key in items && Cached(items[key], lang).None?
    requires !Truthy(Field(items[key], "description"))
    ensures Invoke(items, event, translate, NoFault, updateFault)
      == Effect(Reply(400, Error("description is missing or empty")), items, [])
  {
  }

  /**
   * On a miss any truthy description, a whitespace-only one included, is sent
   * to the provider as it is, from "en" into `lang`.
   */
  lemma MissCallsProvider(items: map<ItemKey, Record>, event: Event, key: ItemKey, lang: string, translate: Translator, updateFault: Fault)
    requires Asks(event, key, lang) && key in items && Cached(items[key], lang).None?
    requires Truthy(Field(items[key], "description"))
    ensures Invoke(items, event, translate, NoFault, updateFault).calls
      == [TranslateRequest(items[key]["description"], "en", lang)]
  {
  }

  /** A provider failure is a 500 with its message, and nothing is written. */
  lemma ProviderFailureWritesNothing(items: map<ItemKey, Record>, event: Event, key: ItemKey, lang: string, translate: Translator, updateFault: Fault)
    requires Asks(event, key, lang) && key in items && Cached(items[key], lang).None?
    requires Truthy(Field(items[key], "description"))
    requires translate(TranslateRequest(items[key]["description"], "en", lang)).Err?
    ensures var m := translate(TranslateRequest(items[key]["description"], "en", lang)).message;
      Invoke(items, event, translate, NoFault, updateFault)
      == Effect(Reply(500, ErrorDetails(Failed, m)), items, [TranslateRequest(items[key]["description"], "en", lang)])
  {
  }

  /** A cache write-back that throws after the provider succeeds is a 500 with its message, and nothing is written. */
  lemma WriteBackFailure(items: map<ItemKey, Record>, event: Event, key: ItemKey, lang: string, translate: Translator, text: string, message: string)
    requires Asks(event, key, lang) && key in items && Cached(items[key], lang).None?
    requires Truthy(Field(items[key], "description"))
    requires translate(TranslateRequest(items[key]["description"], "en", lang)) == Ok(text)
    ensures Invoke(items, event, translate, NoFault, Throws(message))
      == Effect(Failure(message), items, [TranslateRequest(items[key]["description"], "en", lang)])
  {
  }

  /**
   * The write-back does not create the `translations` map: an item without
   * one (or with a non-map one) gets a 500 after the provider call, and
   * nothing is written.
   */
  lemma NoContainerFails(items: map<ItemKey, Record>, event: Event, key: ItemKey, lang: string, translate: Translator, text: string)
    requires Asks(event, key, lang) && key in items
    requires "translations" !in items[key] || !items[key]["translations"].Obj?
    requires Truthy(Field(items[key], "description"))
    requires translate(TranslateRequest(items[key]["description"], "en", lang)) == Ok(text)
    ensures Invoke(items, event, translate, NoFault, NoFault)
      == Effect(Reply(500, ErrorDetails(Failed, InvalidDocumentPath)), items,
                [TranslateRequest(items[key]["description"], "en", lang)])
  {
  }

  /**
   * A miss on an item that has a `translations` map returns 200 with the new
   * text and sets only `translations[lang]`.
   */
  lemma MissCachesTranslation(items: map<ItemKey, Record>, event: Event, key: ItemKey, lang: string, translate: Translator, text: string)
    requires Asks(event, key, lang) && key in items && Cached(items[key], lang).None?
    requires "translations" in items[key] && items[key]["translations"].Obj?
    requires Truthy(Field(items[key], "description"))
    requires translate(TranslateRequest(items[key]["description"], "en", lang)) == Ok(text)
    ensures var e := Invoke(items, event, translate, NoFault, NoFault);
      && e.response == Reply(200, Translation(Str(text)))
      && e.items.Keys == items.Keys
      && (forall other | other in items && other != key :: e.items[other] == items[other])
      && e.items[key].Keys == items[key].Keys
      && (forall a | a in items[key] && a != "translations" :: e.items[key][a] == items[key][a])
      && Prop(e.items[key]["translations"], lang) == Some(Str(text))
      && (forall l | l != lang :: Prop(e.items[key]["translations"], l) == Prop(items[key]["translations"], l))
  {
  }

  /**
   * Repeating a request after a successful miss with non-empty text returns
   * the same text with no provider call and no write.
   */
  lemma {:induction false} RepeatServedFromCache(
    items: map<ItemKey, Record>, event: Event, key: ItemKey, lang: string,
    translate: Translator, again: Translator, updateFaultAgain: Fault)
    requires Asks(event, key, lang)
    requires var e := Invoke(items, event, translate, NoFault, NoFault);
      e.response.statusCode == 200 && e.calls != [] && e.response.body != Translation(Str(""))
    ensures var e := Invoke(items, event, translate, NoFault, NoFault);
      Invoke(e.items, event, again, NoFault, updateFaultAgain) == Effect(e.response, e.items, [])
  {
    var e := Invoke(items, event, translate, NoFault, NoFault);
    var item := items[key];
    var text := translate(TranslateRequest(item["description"], "en", lang)).value;
    var updated := WithTranslation(item, lang, text, false).value;
    assert e.items == items[key := updated];
    assert Cached(updated, lang) == Some(Str(text));
  }
}
