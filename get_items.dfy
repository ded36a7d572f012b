/**
 * lambdas/getItems.ts: every item of one partition. A read: it never changes
 * the table.
 */
module GetItems {
  import opened Js
  import opened Store
  import opened Items
  import opened Http

  /** The handler's response to `event` over the table's items. */
  function Handler(items: map<ItemKey, Record>, event: Event, queryFault: Fault): (r: Response)
    ensures !Truthy(Param(event.pathParameters, "partition_key")) ==>
      r == Reply(400, Error("Missing partition_key in request"))
    ensures Truthy(Param(event.pathParameters, "partition_key")) && queryFault.Throws? ==>
      r == Reply(500, Error("Could not retrieve items"))
    ensures Truthy(Param(event.pathParameters, "partition_key")) && queryFault.NoFault? ==>
      && r.statusCode == 200 && r.headers == JsonContentType && r.body.Items?
      && (forall key :: key in r.body.items <==>
            key in items && key.partitionKey == event.pathParameters["partition_key"])
      && (forall key | key in r.body.items :: r.body.items[key] == items[key])
  {
    var partitionKey := Param(event.pathParameters, "partition_key");
    if !Truthy(partitionKey) then Reply(400, Error("Missing partition_key in request"))
    else
      match Query(items, partitionKey.value.s, queryFault)
      case Err(_) => Reply(500, Error("Could not retrieve items"))
      case Ok(found) => Response(200, JsonContentType, Items(found))
  }

  /** An empty partition is a 200 with no items, not a 404. */
  lemma EmptyPartition(items: map<ItemKey, Record>, event: Event, pk: string)
    requires Param(event.pathParameters, "partition_key") == Some(Str(pk)) && pk != ""
    requires forall key | key in items :: key.partitionKey != pk
    ensures Handler(items, event, NoFault) == Response(200, JsonContentType, Items(map[]))
  {
    var r := Handler(items, event, NoFault);
    assert r.body.items == map[] by {
      forall key | key in r.body.items
        ensures false
      {
      }
    }
  }

  /**
   * Over a table whose items carry their keys, the items returned are exactly
   * those whose `partitionKey` attribute is the path parameter.
   */
  lemma SelectsByAttribute(items: map<ItemKey, Record>, event: Event, pk: string)
    requires KeyedByPair(items)
    requires Param(event.pathParameters, "partition_key") == Some(Str(pk)) && pk != ""
    ensures var r := Handler(items, event, NoFault);
      && r.body.Items?
      && (forall key | key in items :: key in r.body.items <==> items[key]["partitionKey"] == Str(pk))
      && KeyedByPair(r.body.items)
  {
  }
}
