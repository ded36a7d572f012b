/**
 * lambdas/getBook.ts: fetch one book by isbn. A read: it never changes the table.
 */
module GetBook {
  import opened Js
  import opened Store
  import opened Http

  /** The handler's response to `event` over the table's books. */
  function Handler(books: map<string, Record>, event: Event, getFault: Fault): (r: Response)
    ensures !Truthy(Param(event.pathParameters, "isbn")) ==> r == Reply(400, Error("ISBN is required"))
    ensures Truthy(Param(event.pathParameters, "isbn")) && getFault.Throws? ==>
      r == Reply(500, Error("Could not retrieve book"))
    ensures Truthy(Param(event.pathParameters, "isbn")) && getFault.NoFault? ==>
      var isbn := event.pathParameters["isbn"];
      r == if isbn in books then Reply(200, Book(books[isbn])) else Reply(404, Error("Book not found"))
  {
    var isbn := Param(event.pathParameters, "isbn");
    if !Truthy(isbn) then Reply(400, Error("ISBN is required"))
    else
      match Get(books, isbn.value.s, getFault)
      case Err(_) => Reply(500, Error("Could not retrieve book"))
      case Ok(None) => Reply(404, Error("Book not found"))
      case Ok(Some(item)) => Reply(200, Book(item))
  }
}
