/**
 * lambdas/deleteBook.ts: delete a book by isbn, without checking first that
 * it exists.
 */
module DeleteBook {
  import opened Js
  import opened Store
  import opened Books
  import opened Http

  /** One invocation: the response and the table afterwards. */
  datatype Effect = Effect(response: Response, books: map<string, Record>)

  /** The success message names the isbn. */
  function Deleted(isbn: string): Response
  {
    Reply(200, Message("Book with ISBN " + isbn + " deleted successfully"))
  }

  /** What one invocation of the handler does. */
  function Invoke(books: map<string, Record>, event: Event, deleteFault: Fault): (e: Effect)
    ensures e.response.statusCode in {200, 400, 500}
    ensures e.response.statusCode != 200 ==> e.books == books
    ensures e.books.Keys <= books.Keys
    ensures forall isbn | isbn in e.books :: e.books[isbn] == books[isbn]
  {
    var isbn := Param(event.pathParameters, "isbn");
    if !Truthy(isbn) then Effect(Reply(400, Error("ISBN is required")), books)
    else if deleteFault.Throws? then
      Effect(Reply(500, ErrorDetails("Could not delete book", deleteFault.message)), books)
    else Effect(Deleted(isbn.value.s), books - {isbn.value.s})
  }

  /** The handler: validate the isbn, then delete. */
  method Handler(table: BookTable, event: Event, deleteFault: Fault) returns (response: Response)
    requires table.Valid()
    modifies table
    ensures table.Valid()
    ensures var e := Invoke(old(table.books), event, deleteFault);
      response == e.response && table.books == e.books
  {
    var isbn := Param(event.pathParameters, "isbn");
    if !Truthy(isbn) {
      return Reply(400, Error("ISBN is required"));
    }
    var deleted := table.Delete(isbn.value.s, deleteFault);
    if deleted.Fail? {
      return Reply(500, ErrorDetails("Could not delete book", deleted.message));
    }
    response := Deleted(isbn.value.s);
  }

  /** A missing isbn is refused and the table is unchanged. */
  lemma MissingIsbn(books: map<string, Record>, event: Event, deleteFault: Fault)
    requires !Truthy(Param(event.pathParameters, "isbn"))
    ensures Invoke(books, event, deleteFault) == Effect(Reply(400, Error("ISBN is required")), books)
  {
  }

  /**
   * A delete that goes through removes exactly that isbn, whether or not a
   * book was there: an absent isbn still gets 200 and the table is unchanged.
   */
  lemma RemovesExactlyIsbn(books: map<string, Record>, event: Event, isbn: string)
    requires Param(event.pathParameters, "isbn") == Some(Str(isbn)) && isbn != ""
    ensures var e := Invoke(books, event, NoFault);
      && e.response == Deleted(isbn)
      && isbn !in e.books
      && (forall other | other != isbn :: (other in e.books <==> other in books))
      && (isbn !in books ==> e.books == books)
  {
  }

  /** Deleting twice answers the same and leaves the same table. */
  lemma {:induction false} Idempotent(books: map<string, Record>, event: Event)
    ensures var e := Invoke(books, event, NoFault);
      Invoke(e.books, event, NoFault) == e
  {
    var e := Invoke(books, event, NoFault);
    var isbn := Param(event.pathParameters, "isbn");
    if Truthy(isbn) {
      assert e.books - {isbn.value.s} == e.books;
    }
  }

  /** A store failure is a 500 with its message, and nothing is removed. */
  lemma StoreFailure(books: map<string, Record>, event: Event, message: string)
    requires Truthy(Param(event.pathParameters, "isbn"))
    ensures Invoke(books, event, Throws(message))
      == Effect(Reply(500, ErrorDetails("Could not delete book", message)), books)
  {
  }
}
