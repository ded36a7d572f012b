/**
 * lambdas/createBook.ts: parse the body, require the four book fields and put
 * exactly those four under the isbn.
 */
module CreateBook {
  import opened Js
  import opened Store
  import opened Books
  import opened Http

  const CouldNotAdd := "Could not add book"

  /** The item written: exactly `{isbn, title, author, year}`. */
  function BookItem(isbn: Value, title: Value, author: Value, year: Value): (item: Record)
    ensures item.Keys == {"isbn", "title", "author", "year"}
  {
    map["isbn" := isbn, "title" := title, "author" := author, "year" := year]
  }

  /** The request body holds all four fields and each is truthy. */
  predicate Complete(body: Value)
  {
    Truthy(Prop(body, "isbn")) && Truthy(Prop(body, "title"))
    && Truthy(Prop(body, "author")) && Truthy(Prop(body, "year"))
  }

  /** The four submitted fields as stored. */
  function Submitted(body: Value): Record
    requires Complete(body)
  {
    BookItem(body.props["isbn"], body.props["title"], body.props["author"], body.props["year"])
  }

  /** One invocation: the response and the table afterwards. */
  datatype Effect = Effect(response: Response, books: map<string, Record>)

  /** What one invocation of the handler does. */
  function Invoke(books: map<string, Record>, event: Event, putFault: Fault): (e: Effect)
    ensures e.response.statusCode in {201, 400, 500}
    ensures e.response.statusCode != 201 ==> e.books == books
    ensures e.response.statusCode == 201 ==>
      && HasBody(event) && event.body.value.json.Some? && Complete(event.body.value.json.value)
      && KeyString(Submitted(event.body.value.json.value), "isbn").Some?
  {
    if !HasBody(event) then Effect(Reply(400, Error("Missing request body")), books)
    else
      var parsed := event.body.value.json;
      if parsed.None? || !Destructurable(parsed.value) then Effect(Reply(500, Error(CouldNotAdd)), books)
      else
        var body := parsed.value;
        var isbn := Prop(body, "isbn");
        var title := Prop(body, "title");
        var author := Prop(body, "author");
        var year := Prop(body, "year");
        if !Truthy(isbn) || !Truthy(title) || !Truthy(author) || !Truthy(year) then
          Effect(Reply(400, Error("Missing required fields")), books)
        else
          var item := BookItem(isbn.value, title.value, author.value, year.value);
          match PutOutcome(item, putFault)
          case Fail(_) => Effect(Reply(500, Error(CouldNotAdd)), books)
          case Pass => Effect(Reply(201, Message("Book added successfully")), books[isbn.value.s := item])
  }

  /** The handler: validate the body, then put the book. */
  method Handler(table: BookTable, event: Event, putFault: Fault) returns (response: Response)
    requires table.Valid()
    modifies table
    ensures table.Valid()
    ensures var e := Invoke(old(table.books), event, putFault);
      response == e.response && table.books == e.books
  {
    if !HasBody(event) {
      return Reply(400, Error("Missing request body"));
    }
    var parsed := event.body.value.json;
    if parsed.None? || !Destructurable(parsed.value) {
      return Reply(500, Error(CouldNotAdd));
    }
    var body := parsed.value;
    var isbn := Prop(body, "isbn");
    var title := Prop(body, "title");
    var author := Prop(body, "author");
    var year := Prop(body, "year");
    if !Truthy(isbn) || !Truthy(title) || !Truthy(author) || !Truthy(year) {
      return Reply(400, Error("Missing required fields"));
    }
    var put := table.Put(BookItem(isbn.value, title.value, author.value, year.value), putFault);
    if put.Fail? {
      return Reply(500, Error(CouldNotAdd));
    }
    response := Reply(201, Message("Book added successfully"));
  }

  /** A missing or empty body is refused and the table is unchanged. */
  lemma MissingBody(books: map<string, Record>, event: Event, putFault: Fault)
    requires !HasBody(event)
    ensures Invoke(books, event, putFault) == Effect(Reply(400, Error("Missing request body")), books)
  {
  }

  /** A body that is not JSON, or is JSON null, is a 500 without details. */
  lemma UnparsableBody(books: map<string, Record>, event: Event, putFault: Fault)
    requires HasBody(event)
    requires event.body.value.json.None? || event.body.value.json == Some(Null)
    ensures Invoke(books, event, putFault) == Effect(Reply(500, Error(CouldNotAdd)), books)
  {
  }

  /** Any falsy field (absent, "", 0, false, null) is refused and the table is unchanged. */
  lemma MissingFields(books: map<string, Record>, event: Event, body: Value, putFault: Fault)
    requires HasBody(event) && event.body.value.json == Some(body) && body != Null
    requires !Complete(body)
    ensures Invoke(books, event, putFault) == Effect(Reply(400, Error("Missing required fields")), books)
  {
  }

  /**
   * A complete body with a string isbn stores exactly the four fields under
   * that isbn, replacing any book there; other books are unchanged and other
   * body fields are dropped.
   */
  lemma StoresFourFields(books: map<string, Record>, event: Event, body: Value, isbn: string)
    requires HasBody(event) && event.body.value.json == Some(body)
    requires Complete(body) && body.props["isbn"] == Str(isbn)
    ensures var e := Invoke(books, event, NoFault);
      && e.response == Reply(201, Message("Book added successfully"))
      && e.books == books[isbn := Submitted(body)]
      && e.books[isbn].Keys == {"isbn", "title", "author", "year"}
  {
  }

  /** An isbn that is not a string does not fit the table's key: a 500, nothing written. */
  lemma NonStringIsbn(books: map<string, Record>, event: Event, body: Value)
    requires HasBody(event) && event.body.value.json == Some(body)
    requires Complete(body) && !body.props["isbn"].Str?
    ensures Invoke(books, event, NoFault) == Effect(Reply(500, Error(CouldNotAdd)), books)
  {
  }

  /** A store failure is a 500 without details, and nothing is written. */
  lemma StoreFailure(books: map<string, Record>, event: Event, body: Value, message: string)
    requires HasBody(event) && event.body.value.json == Some(body) && Complete(body)
    ensures Invoke(books, event, Throws(message)) == Effect(Reply(500, Error(CouldNotAdd)), books)
  {
  }
}
