/**
 * The gateway side of a handler: the inbound event (path and query
 * parameters, raw body) and the response (status code, headers, body).
 */
module Http {
  import opened Js
  import opened Store

  /** A raw request body and what `JSON.parse` makes of it (None: it throws a SyntaxError). */
  datatype RawBody = RawBody(text: string, json: Option<Value>)

  /** The parts of an API Gateway event the handlers read; a null parameter map is an empty one. */
  datatype Event = Event(
    pathParameters: map<string, string>,
    queryStringParameters: map<string, string>,
    body: Option<RawBody>)

  /** `params?.name` as a value. */
  function Param(params: map<string, string>, name: string): (p: Option<Value>)
    ensures p.Some? <==> name in params
    ensures p.Some? ==> p.value == Str(params[name])
    ensures Truthy(p) <==> name in params && params[name] != ""
  {
    if name in params then Some(Str(params[name])) else None
  }

  /** `event.body` is truthy: present and not the empty string. */
  predicate HasBody(e: Event)
  {
    e.body.Some? && e.body.value.text != ""
  }

  /** `JSON.parse(event.body || "{}")`: an absent or empty body reads as `{}`. */
  function ParsedOrEmpty(e: Event): (v: Option<Value>)
    ensures !HasBody(e) ==> v == Some(Obj(map[]))
    ensures HasBody(e) ==> v == e.body.value.json
  {
    if HasBody(e) then e.body.value.json else Some(Obj(map[]))
  }

  /** The JSON bodies the handlers send. */
  datatype Body =
    | Message(message: string)
    | Error(error: string)
    | ErrorDetails(error: string, details: string)
    | Book(item: Record)
    | Books(books: map<string, Record>)
    | Items(items: map<ItemKey, Record>)
    | Translation(translation: Value)

  datatype Response = Response(statusCode: int, headers: map<string, string>, body: Body)

  /** A response without headers. */
  function Reply(statusCode: int, body: Body): Response
  {
    Response(statusCode, map[], body)
  }

  const JsonContentType: map<string, string> := map["Content-Type" := "application/json"]
}
