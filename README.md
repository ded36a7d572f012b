# Book and item API handlers, modelled in Dafny

This project models the request handlers of a small serverless book API. The
API has two kinds of records:

- books, keyed by `isbn`, which can be created, fetched, listed with an
  optional author/year filter, deleted and translated;
- generic items, keyed by the pair (`partitionKey`, `sortKey`), which can be
  created, updated, listed by partition and translated.

Each handler reads an API Gateway event and answers with a status code and a
JSON body. Its effect is modelled over an in-memory table:

- A book table is a `map<string, Record>`.
- An item table is a `map<ItemKey, Record>`.
- A record is a map from attribute name to a JSON-like `Value`.

The translation provider is a function parameter that either returns text or
fails. Each store call takes a `Fault` parameter that says whether the call
throws.

The handlers that write to a table are methods on a table object
(`BookTable`, `ItemTable`). Each such method is proved equal to a pure `Invoke`
function that returns the response, the table afterwards and the provider
calls made. The handler's properties are lemmas about `Invoke`. The read-only
handlers (`getBook`, `getItems`) are plain functions over the map.

JavaScript's semantics are written out where the handlers rely on them:

- truthiness (`Js.Truthy`): `""`, `0`, `false`, `null` and an absent property
  are falsy;
- property lookup;
- destructuring `null` throws;
- `String.prototype.trim`, with the ECMA-262 white-space set;
- `Array.prototype.join`;
- `event.body || "{}"`.

`JSON.parse` and `Number()` are abstracted:

- the event carries the parse result of its body;
- the year parser is a parameter.

The store's own rejections that the handlers can hit are modelled:

- A put whose key attribute is missing, not a string or empty is rejected.
  The books table declares its `isbn` key as STRING. No items table is
  defined, and the model assumes its key pair is STRING as well.
- A nested `SET translations.<lang>` under an attribute that is not a map is
  rejected as an invalid document path.

Files:

- `js.dfy`: JavaScript values and built-ins.
- `store.dfy`: records, faults, get and the translation write.
- `books.dfy`: the book table and the filtered scan.
- `items.dfy`: the item table, its key parameters and the partition query.
- `http.dfy`: events and responses.
- `translation.dfy`: the provider request, the cache lookup and the shared failure response.
- One file per handler.
- `scenarios.dfy`: handlers run in sequence.

## Model

| member | source | states |
|---|---|---|
| Js.Prop | lambdas/createBook.ts:17 | A property is found exactly when the value is an object that has it, and then it is that property's value |
| Js.Trim | lambdas/translateBook.ts:33 | `trim` yields the piece of the string between its leading and trailing white space: empty iff the string is all white space, otherwise it starts and ends with a non-white-space character, and what was cut off is white space |
| Js.TrimEmptyIffBlank | lambdas/translateBook.ts:33 | Trimming leaves nothing exactly when every character is white space (the `trim() === ""` test) |
| Store.Field | lambdas/translateBook.ts:33 | `item.attr` is present iff the attribute is, and is its value |
| Store.KeyString | lib/book-api-construct.ts:14-17 | A key attribute is accepted iff it is a non-empty string, and the key is that string |
| Store.Get | lambdas/getBook.ts:18-19 | A get fails iff the call throws, with its message; otherwise it finds an item iff the key is stored, and returns the stored item |
| Store.WithTranslation | lambdas/translateBook.ts:56-72 | The translation write fails iff `translations` is not a map (or is absent and not created); otherwise only `translations[lang]` changes, every other attribute and language is kept |
| Books.PutOutcome | lambdas/createBook.ts:23-28 | A book put succeeds iff the call does not throw and the `isbn` is a non-empty string |
| Books.Addressed | lambdas/translateBook.ts:56-58 | An update addresses the stored book, or a new one holding only its isbn |
| Books.CacheOutcome | lambdas/translateBook.ts:56-72 | The book cache write succeeds iff the call does not throw and the translation write is valid, the map being created when absent |
| Books.BookTable.constructor | lib/book-api-construct.ts:14-17 | A new table is empty and keyed by isbn |
| Books.BookTable.Put | lambdas/createBook.ts:23-28 | A put stores the item under its isbn, replacing any book there, or changes nothing when it fails; every book stays under its own isbn |
| Books.BookTable.Delete | lambdas/deleteBook.ts:18-23 | A delete removes exactly that isbn, present or not, or changes nothing when it throws |
| Books.BookTable.CacheTranslation | lambdas/translateBook.ts:56-72 | The cache write replaces the book by its translated form when it succeeds and changes nothing otherwise |
| Books.Scan | lambdas/getAllBooks.ts:31-38 | A scan fails iff the call throws; otherwise it returns exactly the stored books that match every clause, unchanged |
| Items.KeyOf | lambdas/createItem.ts:22-28 | An item has a key iff both key attributes are non-empty strings, and the key is those strings |
| Items.KeyParam | lambdas/updateItem.ts:12-28 | The key named by the path parameters (read the same way by updateBook) is present iff both snake_case parameters are non-empty, and it is the pair (`partition_key`, `sort_key`) |
| Items.PutOutcome | lambdas/createItem.ts:22-31 | An item put succeeds iff the call does not throw and both key attributes are non-empty strings |
| Items.Addressed | lambdas/updateItem.ts:23-29 | An update addresses the stored item, or a new one holding only its key pair |
| Items.CacheOutcome | lambdas/updateBook.ts:58-66 | The item cache write succeeds iff the call does not throw and the item has a `translations` map; the map is not created |
| Items.ItemTable.Put | lambdas/createItem.ts:22-31 | A put stores the item under its key pair, replacing any item there, or changes nothing when it fails |
| Items.ItemTable.SetData | lambdas/updateItem.ts:23-35 | `SET data = :data` sets only `data` on the addressed item, creating it when absent, or changes nothing when it throws |
| Items.ItemTable.CacheTranslation | lambdas/updateBook.ts:58-66 | The cache write replaces the item by its translated form when it succeeds and changes nothing otherwise |
| Items.Query | lambdas/getItems.ts:22-32 | A query fails iff the call throws; otherwise it returns exactly the stored items of the partition, unchanged, which in a table keyed by its items' own key attributes are the items whose `partitionKey` attribute is the parameter |
| Http.Param | lambdas/translateBook.ts:14-17 | A path or query parameter is present iff it was sent, is that string, and is truthy iff it is non-empty |
| Http.ParsedOrEmpty | lambdas/createItem.ts:12 | An absent or empty body parses as `{}`, otherwise as the body's own parse |
| Translation.Cached | lambdas/translateBook.ts:38 | A translation is cached iff `translations` exists and holds a truthy entry for the language, and it is that entry |
| TranslateBook.Decide | lambdas/translateBook.ts:28-43 | Over the fetched book, the checks run in order (found, description truthy, a string, non-blank, cached): each outcome is characterised iff; a miss carries the stored description |
| TranslateBook.Invoke | lambdas/translateBook.ts:12-86 | At most one provider call, always from "en"; the status is 200, 400, 404 or 500; no book is added or removed; the table changes only on a 200 after a provider call |
| TranslateBook.Handler | lambdas/translateBook.ts:12-86 | The handler's response, calls and new table are those of `Invoke` |
| TranslateBook.MissingParameters | lambdas/translateBook.ts:17-19 | A missing isbn or language is a 400, with no call and no change |
| TranslateBook.AbsentBookNotFound | lambdas/translateBook.ts:27-30 | An absent book is a 404, with no call and no change |
| TranslateBook.UntranslatableDescription | lambdas/translateBook.ts:33-35 | A falsy or all-white-space description is a 400 even when a translation is cached |
| TranslateBook.DescriptionNotStringFails | lambdas/translateBook.ts:33 | A truthy description that is not a string makes `trim` throw: a 500, no call, no change |
| TranslateBook.CacheHitServesCached | lambdas/translateBook.ts:38-43 | A cached translation is served as it is, with no call and no change |
| TranslateBook.MissCallsProviderOnce | lambdas/translateBook.ts:46-52 | A miss calls the provider once, with the description, from "en" into the language |
| TranslateBook.ProviderFailureWritesNothing | lambdas/translateBook.ts:75-85 | A provider failure is a 500 carrying its message, and nothing is written |
| TranslateBook.LookupFailure | lambdas/translateBook.ts:27 | A failed lookup is a 500 carrying its message, with no call and no change |
| TranslateBook.MissCachesTranslation | lambdas/translateBook.ts:56-74 | After a miss the book's `translations` map, created if absent, holds the new text for the language; every other language, attribute and book is unchanged; the response is the text |
| TranslateBook.WriteBackFailure | lambdas/translateBook.ts:72-85 | A cache write that throws after the provider succeeds is a 500 carrying its message, after one call, and nothing is written |
| TranslateBook.NonMapTranslationsFails | lambdas/translateBook.ts:56-72 | A `translations` attribute that is not a map makes the write fail: a 500 and nothing written |
| TranslateBook.RepeatServedFromCache | lambdas/translateBook.ts:38-74 | Repeating a request after a successful non-empty miss returns the same response with no call and no change, whatever the provider would now say |
| TranslateBook.EmptyTranslationNotServed | lambdas/translateBook.ts:38-74 | An empty translation is stored but is falsy, so a repeat calls the provider again |
| UpdateBook.Decide | lambdas/updateBook.ts:30-47 | Over the fetched item, the checks run in order (found, cached, description): each outcome is characterised iff; a miss carries the stored description |
| UpdateBook.Invoke | lambdas/updateBook.ts:13-79 | At most one provider call, always from "en"; the status is 200, 400, 404 or 500; no item is added or removed; the table changes only on a 200 after a provider call |
| UpdateBook.Handler | lambdas/updateBook.ts:13-79 | The handler's response, calls and new table are those of `Invoke` |
| UpdateBook.MissingParameters | lambdas/updateBook.ts:19-21 | A missing key part or language is a 400, with no call and no change |
| UpdateBook.AbsentItemNotFound | lambdas/updateBook.ts:30-32 | An absent item is a 404, with no call and no change |
| UpdateBook.CacheHitBeforeDescription | lambdas/updateBook.ts:35-41 | A cached translation is served before the description is looked at |
| UpdateBook.MissingDescription | lambdas/updateBook.ts:44-47 | On a miss a falsy description is a 400, with no call and no change |
| UpdateBook.MissCallsProvider | lambdas/updateBook.ts:49-55 | On a miss the stored description, untrimmed, is sent once from "en" into the language |
| UpdateBook.ProviderFailureWritesNothing | lambdas/updateBook.ts:73-79 | A provider failure is a 500 carrying its message, and nothing is written |
| UpdateBook.WriteBackFailure | lambdas/updateBook.ts:66-79 | A cache write that throws after the provider succeeds is a 500 carrying its message, after one call, and nothing is written |
| UpdateBook.NoContainerFails | lambdas/updateBook.ts:58-66 | An item without a `translations` map gets a 500 after the provider call, and nothing is written |
| UpdateBook.MissCachesTranslation | lambdas/updateBook.ts:58-72 | After a miss on an item with a `translations` map only `translations[lang]` changes; every other language, attribute and item is unchanged; the response is the text |
| UpdateBook.RepeatServedFromCache | lambdas/updateBook.ts:35-72 | Repeating a request after a successful non-empty miss returns the same response with no call and no change |
| GetAllBooks.BuildScan | lambdas/getAllBooks.ts:12-36 | An unparsable year is refused with "Invalid year format"; otherwise the filter text is the given clauses joined by " AND ", the values are present iff a filter is, the `#year` alias is present iff a year is given, and a book matches the request iff its author and year equal the given ones |
| GetAllBooks.RenderedFilter | lambdas/getAllBooks.ts:29 | The filter text for each clause combination the builder can produce |
| GetAllBooks.Handler | lambdas/getAllBooks.ts:10-51 | A bad year is a 400 before any scan; a scan failure is a 500 with its message; otherwise a 200 with exactly the stored books whose author and year equal the given ones, and all books when neither is given |
| CreateBook.BookItem | lambdas/createBook.ts:25 | The stored book has exactly the attributes `isbn`, `title`, `author` and `year` |
| CreateBook.Invoke | lambdas/createBook.ts:10-41 | The status is 201, 400 or 500; the table changes only on a 201, which requires a parsed body with all four fields and a string isbn |
| CreateBook.Handler | lambdas/createBook.ts:10-41 | The handler's response and new table are those of `Invoke` |
| CreateBook.MissingBody | lambdas/createBook.ts:12-14 | A missing or empty body is a 400 and nothing is written |
| CreateBook.UnparsableBody | lambdas/createBook.ts:16-17 | A body that is not JSON, or is `null`, is a 500 and nothing is written |
| CreateBook.MissingFields | lambdas/createBook.ts:19-21 | Any falsy field is a 400 and nothing is written |
| CreateBook.StoresFourFields | lambdas/createBook.ts:23-33 | A complete body with a string isbn stores exactly the four fields under that isbn, replacing any book there; the response is 201 |
| CreateBook.NonStringIsbn | lambdas/createBook.ts:28 | A truthy isbn that is not a string is rejected by the store: a 500 and nothing written |
| CreateBook.StoreFailure | lambdas/createBook.ts:34-40 | A store failure is a 500 without details and nothing is written |
| GetBook.Handler | lambdas/getBook.ts:12-32 | A missing isbn is a 400; a store failure is a 500; otherwise a 200 with the stored book, or a 404 when there is none |
| DeleteBook.Invoke | lambdas/deleteBook.ts:10-36 | The status is 200, 400 or 500; only a 200 changes the table, and it only removes books |
| DeleteBook.Handler | lambdas/deleteBook.ts:10-36 | The handler's response and new table are those of `Invoke` |
| DeleteBook.MissingIsbn | lambdas/deleteBook.ts:14-16 | A missing isbn is a 400 and nothing changes |
| DeleteBook.RemovesExactlyIsbn | lambdas/deleteBook.ts:18-28 | A delete removes exactly that isbn and answers 200 naming it, even when no book was there |
| DeleteBook.Idempotent | lambdas/deleteBook.ts:18-28 | Deleting twice gives the same response and table as deleting once |
| DeleteBook.StoreFailure | lambdas/deleteBook.ts:29-34 | A store failure is a 500 carrying its message and nothing is removed |
| CreateItem.ItemOf | lambdas/createItem.ts:24-28 | The stored item has exactly the attributes `partitionKey`, `sortKey` and `data` |
| CreateItem.Invoke | lambdas/createItem.ts:10-44 | The status is 201, 400 or 500; the table changes only on a 201, which stores the submitted three attributes under their key pair and removes nothing |
| CreateItem.Handler | lambdas/createItem.ts:10-44 | The handler's response and new table are those of `Invoke` |
| CreateItem.EmptyBodyMissingFields | lambdas/createItem.ts:12-21 | A missing body reads as `{}` and so is a 400, not a 500 |
| CreateItem.UnparsableBody | lambdas/createItem.ts:12-13 | A body that is not JSON, or is `null`, is a 500 and nothing is written |
| CreateItem.MissingFields | lambdas/createItem.ts:15-21 | Any falsy key part or `data` is a 400 and nothing is written |
| CreateItem.StoresThreeFields | lambdas/createItem.ts:22-36 | String keys store exactly `{partitionKey, sortKey, data}` under the pair, replacing any item there; the response is 201 and the table stays keyed by its items' key attributes |
| CreateItem.NonStringKey | lambdas/createItem.ts:31 | A truthy key part that is not a string is rejected by the store: a 500 and nothing written |
| CreateItem.StoreFailure | lambdas/createItem.ts:37-43 | A store failure is a 500 and nothing is written |
| UpdateItem.DataOf | lambdas/updateItem.ts:13-14 | Reading `data` throws iff the body does not parse or is `null`; otherwise it is the body's `data` property |
| UpdateItem.Invoke | lambdas/updateItem.ts:10-48 | The status is 200, 400 or 500; the table changes only on a 200, which sets the item's `data` to the body's and removes nothing |
| UpdateItem.Handler | lambdas/updateItem.ts:10-48 | The handler's response and new table are those of `Invoke` |
| UpdateItem.BadBodyBeforeValidation | lambdas/updateItem.ts:12-14 | A body that is not JSON, or is `null`, is a 500 even when the path parameters are missing |
| UpdateItem.MissingFields | lambdas/updateItem.ts:16-21 | A missing key part or a falsy `data` is a 400 and nothing is written |
| UpdateItem.NoBodyMissingFields | lambdas/updateItem.ts:13-21 | A missing body reads as `{}` and so is a 400 |
| UpdateItem.SetsOnlyData | lambdas/updateItem.ts:23-40 | Only `data` of the named item is set; every other attribute and item is unchanged; an absent item is created with its key pair and `data`; the response is 200 |
| UpdateItem.Idempotent | lambdas/updateItem.ts:23-40 | Repeating a successful update gives the same response and table |
| UpdateItem.StoreFailure | lambdas/updateItem.ts:41-47 | A store failure is a 500 and nothing is written |
| GetItems.Handler | lambdas/getItems.ts:13-46 | A missing partition key is a 400; a store failure is a 500; otherwise a 200 with the JSON content type and exactly the stored items of that partition |
| GetItems.EmptyPartition | lambdas/getItems.ts:34-39 | An empty partition is a 200 with no items, not a 404 |
| GetItems.SelectsByAttribute | lambdas/getItems.ts:22-32 | In a table keyed by its items' key attributes, the items listed are exactly those whose `partitionKey` attribute is the parameter |
| Scenarios.CreatedBookIsServed | lambdas/getBook.ts:18-28 | A book created with a string isbn is then served by getBook with exactly the four stored fields |
| Scenarios.DeletedBookIsGone | lambdas/deleteBook.ts:18-28 | After a delete goes through, getBook on that isbn is a 404 |
| Scenarios.CreatedItemIsListed | lambdas/getItems.ts:22-39 | An item created with string keys is listed in its partition with exactly its three attributes |
| Scenarios.UpdatedDataIsListed | lambdas/getItems.ts:22-39 | After an update goes through, the partition listing shows the new `data` |

## Left out

- Infrastructure (the CDK stacks, API routes, IAM roles) is not modelled. The two stack definitions differ on one point that matters to a handler. In lib/book-management-api-stack.ts:76 the translate handler is granted read access only, so its cache write would be refused there. In lib/book-api-construct.ts every function runs under one role with full table access (lines 21-34), so the write is allowed. The model treats a refusal as one possible value of the write's `Fault`.
- The deployed table is keyed by `isbn` alone. The item handlers and updateBook assume a table keyed by (`partitionKey`, `sortKey`), and the model gives them one. No such table is defined in the infrastructure files.
- STRING item keys are an assumption. No infrastructure file defines the items table, so its key types are not given by the source. `Items.PutOutcome` rejects a key part that is not a non-empty string, and `CreateItem.NonStringKey` answers 500 for one, only because the model assumes both key attributes are declared STRING.
- The AWS SDK clients, `async`/`await` and `console` logging are not modelled. Store and provider calls are values chosen by parameters (`Fault`, `Translator`).
- Response bodies are a datatype, not the exact JSON strings `JSON.stringify` produces. The same goes for the `Content-Type` header value, which is a map entry.
- `JSON.parse` is abstracted. The event carries the parse result of its body (`RawBody.json`), with `None` for a SyntaxError. Numbers are reals, so a literal that overflows to `Infinity` (such as `1e400`) is not modelled.
- `Number()` is abstracted as a parameter (`GetAllBooks.NumberParser`), with `None` for NaN. Its exact grammar (hex, exponents, `Infinity`, surrounding white space) is not modelled. Numbers are reals, so integer/float precision is not modelled.
- Property lookup is modelled on objects only. Looking up a property of a string or an array, or an inherited property such as `toString`, yields nothing in the model.
- The DynamoDB expression grammar and reserved-word checks are not modelled. The model records the intended effect of three expressions that the service may reject:
  - `SET data = :data` leaves `data` unaliased (lambdas/updateItem.ts:29).
  - translateBook's `SET #translations = if_not_exists(...), #translations.#lang = :text` names overlapping paths (lambdas/translateBook.ts:59).
  - updateBook's `SET translations.#lang` is modelled as failing when the map is absent (lambdas/updateBook.ts:61).
- Scan and query pagination (1 MB pages, `LastEvaluatedKey`) and result order are not modelled. A scan or query returns every matching record at once, as a map.
- Concurrency between invocations is not modelled. That includes two translations racing on the same record: each invocation runs alone against a table value.
- The `ReturnValues: "UPDATED_NEW"` result of the translation writes is not modelled, because the handlers ignore it.
