/**
 * lambdas/updateItem.ts: set the `data` attribute of the item named by the
 * path parameters. The body is parsed before anything is validated, and the
 * update creates the item when it is absent.
 */
module UpdateItem {
  import opened Js
  import opened Store
  import opened Items
  import opened Http

  const CouldNotUpdate := "Could not update item"

  /** One invocation: the response and the table afterwards. */
  datatype Effect = Effect(response: Response, items: map<ItemKey, Record>)

  /** `const { data } = body`: None when the body does not parse or is null (the destructuring throws). */
  function DataOf(event: Event): (d: Option<Option<Value>>)
    ensures d.None? <==> ParsedOrEmpty(event).None? || ParsedOrEmpty(event) == Some(Null)
    ensures d.Some? ==> d.value == Prop(ParsedOrEmpty(event).value, "data")
  {
    var parsed := ParsedOrEmpty(event);
    if parsed.None? || !Destructurable(parsed.value) then None else Some(Prop(parsed.value, "data"))
  }

  /** What one invocation of the handler does. */
  function Invoke(items: map<ItemKey, Record>, event: Event, updateFault: Fault): (e: Effect)
    ensures e.response.statusCode in {200, 400, 500}
    ensures e.response.statusCode != 200 ==> e.items == items
    ensures items.Keys <= e.items.Keys
    ensures e.response.statusCode == 200 ==>
      && KeyParam(event).Some? && DataOf(event).Some? && Truthy(DataOf(event).value)
      && e.items.Keys == items.Keys + {KeyParam(event).value}
      && "data" in e.items[KeyParam(event).value]
      && e.items[KeyParam(event).value]["data"] == DataOf(event).value.value
  {
    var data := DataOf(event);
    if data.None? then Effect(Reply(500, Error(CouldNotUpdate)), items)
    else
      var key := KeyParam(event);
      if key.None? || !Truthy(data.value) then Effect(Reply(400, Error("Missing required fields")), items)
      else if updateFault.Throws? then Effect(Reply(500, Error(CouldNotUpdate)), items)
      else
        var updated := Addressed(items, key.value)["data" := data.value.value];
        Effect(Reply(200, Message("Item updated successfully")), items[key.value := updated])
  }

  /** The handler: read the path parameters, parse the body, validate, then update. */
  method Handler(table: ItemTable, event: Event, updateFault: Fault) returns (response: Response)
    requires table.Valid()
    modifies table
    ensures table.Valid()
    ensures var e := Invoke(old(table.items), event, updateFault);
      response == e.response && table.items == e.items
  {
    var key := KeyParam(event);
    var data := DataOf(event);
    if data.None? {
      return Reply(500, Error(CouldNotUpdate));
    }
    if key.None? || !Truthy(data.value) {
      return Reply(400, Error("Missing required fields"));
    }
    var written := table.SetData(key.value, data.value.value, updateFault);
    if written.Fail? {
      return Reply(500, Error(CouldNotUpdate));
    }
    response := Reply(200, Message("Item updated successfully"));
  }

  /** A body that does not parse, or is null, is a 500 even when the path parameters are missing. */
  lemma BadBodyBeforeValidation(items: map<ItemKey, Record>, event: Event, updateFault: Fault)
    requires HasBody(event)
    requires event.body.value.json.None? || event.body.value.json == Some(Null)
    ensures Invoke(items, event, updateFault) == Effect(Reply(500, Error(CouldNotUpdate)), items)
  {
  }

  /** A missing key part or a falsy `data` (an absent body included) is a 400 and nothing is written. */
  lemma MissingFields(items: map<ItemKey, Record>, event: Event, updateFault: Fault)
    requires DataOf(event).Some?
    requires KeyParam(event).None? || !Truthy(DataOf(event).value)
    ensures Invoke(items, event, updateFault) == Effect(Reply(400, Error("Missing required fields")), items)
  {
  }

  /** With no body at all the request always lacks `data`. */
  lemma NoBodyMissingFields(items: map<ItemKey, Record>, event: Event, updateFault: Fault)
    requires !HasBody(event)
    ensures Invoke(items, event, updateFault) == Effect(Reply(400, Error("Missing required fields")), items)
  {
  }

  /**
   * The snake_case path parameters name the item; only its `data` attribute is
   * set, every other attribute and every other item is unchanged, and an
   * absent item is created holding its key pair and `data`.
   */
  lemma SetsOnlyData(items: map<ItemKey, Record>, event: Event, key: ItemKey, data: Value)
    requires KeyedByPair(items)
    requires Param(event.pathParameters, "partition_key") == Some(Str(key.partitionKey))
    requires Param(event.pathParameters, "sort_key") == Some(Str(key.sortKey))
    requires ValidKey(key)
    requires DataOf(event) == Some(Some(data)) && Truthy(Some(data))
    ensures var e := Invoke(items, event, NoFault);
      && e.response == Reply(200, Message("Item updated successfully"))
      && e.items.Keys == items.Keys + {key}
      && (forall other | other in items && other != key :: e.items[other] == items[other])
      && e.items[key]["data"] == data
      && (key in items ==> e.items[key].Keys == items[key].Keys + {"data"})
      && (key in items ==> forall a | a in items[key] && a != "data" :: e.items[key][a] == items[key][a])
      && (key !in items ==>
            e.items[key] == map["partitionKey" := Str(key.partitionKey), "sortKey" := Str(key.sortKey), "data" := data])
      && KeyedByPair(e.items)
  {
  }

  /** Repeating a successful update answers the same and leaves the same table. */
  lemma {:induction false} Idempotent(items: map<ItemKey, Record>, event: Event)
    requires Invoke(items, event, NoFault).response.statusCode == 200
    ensures var e := Invoke(items, event, NoFault);
      Invoke(e.items, event, NoFault) == e
  {
    var e := Invoke(items, event, NoFault);
    var key := KeyParam(event).value;
    var data := DataOf(event).value.value;
    var updated := Addressed(items, key)["data" := data];
    assert e.items == items[key := updated];
    assert Addressed(e.items, key)["data" := data] == updated;
    assert e.items[key := updated] == e.items;
  }

  /** A store failure is a 500 without details, and nothing is written. */
  lemma StoreFailure(items: map<ItemKey, Record>, event: Event, message: string)
    requires KeyParam(event).Some? && DataOf(event).Some? && Truthy(DataOf(event).value)
    ensures Invoke(items, event, Throws(message)) == Effect(Reply(500, Error(CouldNotUpdate)), items)
  {
  }
}
