/**
 * lambdas/createItem.ts: parse the body (an absent body reads as `{}`),
 * require the key pair and `data`, and put exactly those three attributes.
 */
module CreateItem {
  import opened Js
  import opened Store
  import opened Items
  import opened Http

  const CouldNotAdd := "Could not add item"

  /** The item written: exactly `{partitionKey, sortKey, data}`. */
  function ItemOf(partitionKey: Value, sortKey: Value, data: Value): (item: Record)
    ensures item.Keys == {"partitionKey", "sortKey", "data"}
  {
    map["partitionKey" := partitionKey, "sortKey" := sortKey, "data" := data]
  }

  /** The body holds the key pair and `data`, each truthy. */
  predicate Complete(body: Value)
  {
    Truthy(Prop(body, "partitionKey")) && Truthy(Prop(body, "sortKey")) && Truthy(Prop(body, "data"))
  }

  /** The three submitted attributes as stored. */
  function Submitted(body: Value): Record
    requires Complete(body)
  {
    ItemOf(body.props["partitionKey"], body.props["sortKey"], body.props["data"])
  }

  /** One invocation: the response and the table afterwards. */
  datatype Effect = Effect(response: Response, items: map<ItemKey, Record>)

  /** What one invocation of the handler does. */
  function Invoke(items: map<ItemKey, Record>, event: Event, putFault: Fault): (e: Effect)
    ensures e.response.statusCode in {201, 400, 500}
    ensures e.response.statusCode != 201 ==> e.items == items
    ensures items.Keys <= e.items.Keys
    ensures e.response.statusCode == 201 ==>
      && ParsedOrEmpty(event).Some? && Complete(ParsedOrEmpty(event).value)
      && KeyOf(Submitted(ParsedOrEmpty(event).value)).Some?
      && e.items == items[KeyOf(Submitted(ParsedOrEmpty(event).value)).value := Submitted(ParsedOrEmpty(event).value)]
  {
    var parsed := ParsedOrEmpty(event);
    if parsed.None? || !Destructurable(parsed.value) then Effect(Reply(500, Error(CouldNotAdd)), items)
    else
      var body := parsed.value;
      var partitionKey := Prop(body, "partitionKey");
      var sortKey := Prop(body, "sortKey");
      var data := Prop(body, "data");
      if !Truthy(partitionKey) || !Truthy(sortKey) || !Truthy(data) then
        Effect(Reply(400, Error("Missing required fields")), items)
      else
        var item := ItemOf(partitionKey.value, sortKey.value, data.value);
        match PutOutcome(item, putFault)
        case Fail(_) => Effect(Reply(500, Error(CouldNotAdd)), items)
        case Pass => Effect(Reply(201, Message("Item added successfully")), items[KeyOf(item).value := item])
  }

  /** The handler: parse and validate the body, then put the item. */
  method Handler(table: ItemTable, event: Event, putFault: Fault) returns (response: Response)
    requires table.Valid()
    modifies table
    ensures table.Valid()
    ensures var e := Invoke(old(table.items), event, putFault);
      response == e.response && table.items == e.items
  {
    var parsed := ParsedOrEmpty(event);
    if parsed.None? || !Destructurable(parsed.value) {
      return Reply(500, Error(CouldNotAdd));
    }
    var body := parsed.value;
    var partitionKey := Prop(body, "partitionKey");
    var sortKey := Prop(body, "sortKey");
    var data := Prop(body, "data");
    if !Truthy(partitionKey) || !Truthy(sortKey) || !Truthy(data) {
      return Reply(400, Error("Missing required fields"));
    }
    var put := table.Put(ItemOf(partitionKey.value, sortKey.value, data.value), putFault);
    if put.Fail? {
      return Reply(500, Error(CouldNotAdd));
    }
    response := Reply(201, Message("Item added successfully"));
  }

  /** A missing or empty body reads as `{}`, which lacks every field: a 400, not a 500. */
  lemma EmptyBodyMissingFields(items: map<ItemKey, Record>, event: Event, putFault: Fault)
    requires !HasBody(event)
    ensures Invoke(items, event, putFault) == Effect(Reply(400, Error("Missing required fields")), items)
  {
  }

  /** A body that is not JSON, or is JSON null, is a 500 and nothing is written. */
  lemma UnparsableBody(items: map<ItemKey, Record>, event: Event, putFault: Fault)
    requires HasBody(event)
    requires event.body.value.json.None? || event.body.value.json == Some(Null)
    ensures Invoke(items, event, putFault) == Effect(Reply(500, Error(CouldNotAdd)), items)
  {
  }

  /** Any falsy key part or `data` (absent, "", 0, false, null) is refused and nothing is written. */
  lemma MissingFields(items: map<ItemKey, Record>, event: Event, body: Value, putFault: Fault)
    requires ParsedOrEmpty(event) == Some(body) && body != Null
    requires !Complete(body)
    ensures Invoke(items, event, putFault) == Effect(Reply(400, Error("Missing required fields")), items)
  {
  }

  /**
   * Non-empty string keys store exactly the three attributes under the pair,
   * replacing any item there; other items are unchanged, other body fields
   * dropped, and the table stays keyed by its items' own key attributes.
   */
  lemma StoresThreeFields(items: map<ItemKey, Record>, event: Event, body: Value, key: ItemKey)
    requires ParsedOrEmpty(event) == Some(body) && Complete(body)
    requires body.props["partitionKey"] == Str(key.partitionKey) && body.props["sortKey"] == Str(key.sortKey)
    requires KeyedByPair(items)
    ensures var e := Invoke(items, event, NoFault);
      && e.response == Reply(201, Message("Item added successfully"))
      && e.items == items[key := Submitted(body)]
      && e.items[key] == map["partitionKey" := Str(key.partitionKey), "sortKey" := Str(key.sortKey), "data" := body.props["data"]]
      && KeyedByPair(e.items)
  {
  }

  /** A key part that is not a string does not fit the STRING key: a 500, nothing written. */
  lemma NonStringKey(items: map<ItemKey, Record>, event: Event, body: Value)
    requires ParsedOrEmpty(event) == Some(body) && Complete(body)
    requires !body.props["partitionKey"].Str? || !body.props["sortKey"].Str?
    ensures Invoke(items, event, NoFault) == Effect(Reply(500, Error(CouldNotAdd)), items)
  {
  }

  /** A store failure is a 500 without details, and nothing is written. */
  lemma StoreFailure(items: map<ItemKey, Record>, event: Event, body: Value, message: string)
    requires ParsedOrEmpty(event) == Some(body) && Complete(body)
    ensures Invoke(items, event, Throws(message)) == Effect(Reply(500, Error(CouldNotAdd)), items)
  {
  }
}
