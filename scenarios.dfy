/**
 * Requests in sequence against the same table: what one handler writes,
 * another reads back.
 */
module Scenarios {
  import opened Js
  import opened Store
  import opened Items
  import opened Http
  import CreateBook
  import GetBook
  import DeleteBook
  import CreateItem
  import UpdateItem
  import GetItems

  /** A book created with a string isbn is then served by getBook, exactly as stored. */
  lemma {:induction false} CreatedBookIsServed(
    books: map<string, Record>, create: Event, body: Value, isbn: string, get: Event)
    requires HasBody(create) && create.body.value.json == Some(body)
    requires CreateBook.Complete(body) && body.props["isbn"] == Str(isbn)
    requires Param(get.pathParameters, "isbn") == Some(Str(isbn))
    ensures var e := CreateBook.Invoke(books, create, NoFault);
      GetBook.Handler(e.books, get, NoFault) == Reply(200, Book(CreateBook.Submitted(body)))
  {
    CreateBook.StoresFourFields(books, create, body, isbn);
  }

  /** After a delete goes through, getBook on the same isbn is a 404. */
  lemma {:induction false} DeletedBookIsGone(books: map<string, Record>, event: Event)
    requires Truthy(Param(event.pathParameters, "isbn"))
    ensures var e := DeleteBook.Invoke(books, event, NoFault);
      GetBook.Handler(e.books, event, NoFault) == Reply(404, Error("Book not found"))
  {
    var isbn := event.pathParameters["isbn"];
    DeleteBook.RemovesExactlyIsbn(books, event, isbn);
  }

  /** An item created with string keys is listed in its partition, and only there. */
  lemma {:induction false} CreatedItemIsListed(
    items: map<ItemKey, Record>, create: Event, body: Value, key: ItemKey, get: Event)
    requires KeyedByPair(items)
    requires ParsedOrEmpty(create) == Some(body) && CreateItem.Complete(body)
    requires body.props["partitionKey"] == Str(key.partitionKey) && body.props["sortKey"] == Str(key.sortKey)
    requires Param(get.pathParameters, "partition_key") == Some(Str(key.partitionKey))
    ensures var e := CreateItem.Invoke(items, create, NoFault);
      var r := GetItems.Handler(e.items, get, NoFault);
      && r.statusCode == 200 && r.body.Items?
      && key in r.body.items && r.body.items[key] == CreateItem.Submitted(body)
  {
    CreateItem.StoresThreeFields(items, create, body, key);
  }

  /** After an update goes through, the partition listing shows the new `data`. */
  lemma {:induction false} UpdatedDataIsListed(
    items: map<ItemKey, Record>, update: Event, key: ItemKey, data: Value, get: Event)
    requires KeyedByPair(items)
    requires Param(update.pathParameters, "partition_key") == Some(Str(key.partitionKey))
    requires Param(update.pathParameters, "sort_key") == Some(Str(key.sortKey))
    requires ValidKey(key)
    requires UpdateItem.DataOf(update) == Some(Some(data)) && Truthy(Some(data))
    requires Param(get.pathParameters, "partition_key") == Some(Str(key.partitionKey))
    ensures var e := UpdateItem.Invoke(items, update, NoFault);
      var r := GetItems.Handler(e.items, get, NoFault);
      && r.statusCode == 200 && r.body.Items?
      && key in r.body.items && "data" in r.body.items[key] && r.body.items[key]["data"] == data
  {
    UpdateItem.SetsOnlyData(items, update, key, data);
  }
}
