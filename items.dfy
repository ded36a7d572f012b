/**
 * The generic items table, keyed by the pair (`partitionKey`, `sortKey`): put,
 * the two single-attribute updates and the partition query.
 */
module Items {
  import opened Js
  import opened Store
  import opened Http

  /** The key an item carries, when both key attributes are non-empty strings. */
  function KeyOf(item: Record): (k: Option<ItemKey>)
    ensures k.Some? <==> KeyString(item, "partitionKey").Some? && KeyString(item, "sortKey").Some?
    ensures k.Some? ==> item["partitionKey"] == Str(k.value.partitionKey) && item["sortKey"] == Str(k.value.sortKey)
  {
    match (KeyString(item, "partitionKey"), KeyString(item, "sortKey"))
    case (Some(pk), Some(sk)) => Some(ItemKey(pk, sk))
    case _ => None
  }

  /** Both parts of the key are non-empty, as a STRING key attribute demands. */
  predicate ValidKey(key: ItemKey)
  {
    key.partitionKey != "" && key.sortKey != ""
  }

  /**
   * The item key named by the snake_case path parameters `partition_key` and
   * `sort_key`, when both are given.
   */
  function KeyParam(event: Event): (key: Option<ItemKey>)
    ensures key.Some? <==>
      Truthy(Param(event.pathParameters, "partition_key")) && Truthy(Param(event.pathParameters, "sort_key"))
    ensures key.Some? ==> ValidKey(key.value)
    ensures key.Some? ==> key.value == ItemKey(event.pathParameters["partition_key"], event.pathParameters["sort_key"])
  {
    var pk := Param(event.pathParameters, "partition_key");
    var sk := Param(event.pathParameters, "sort_key");
    if Truthy(pk) && Truthy(sk) then Some(ItemKey(pk.value.s, sk.value.s)) else None
  }

  /** Every item is stored under the key it carries. */
  predicate KeyedByPair(items: map<ItemKey, Record>)
  {
    forall key | key in items :: KeyOf(items[key]) == Some(key)
  }

  /** What a put of `item` returns: the call's own failure, or the key check. */
  function PutOutcome(item: Record, fault: Fault): (r: Outcome)
    ensures r.Pass? <==> fault.NoFault? && KeyOf(item).Some?
  {
    if fault.Throws? then Fail(fault.message)
    else if KeyOf(item).None? then Fail(KeyTypeMismatch)
    else Pass
  }

  /** The item an update addresses: the stored one, or a new one holding only its key. */
  function Addressed(items: map<ItemKey, Record>, key: ItemKey): (item: Record)
    requires ValidKey(key)
    ensures KeyOf(item) == Some(key) || key in items
    ensures key in items ==> item == items[key]
    ensures key !in items ==> item == map["partitionKey" := Str(key.partitionKey), "sortKey" := Str(key.sortKey)]
  {
    if key in items then items[key]
    else map["partitionKey" := Str(key.partitionKey), "sortKey" := Str(key.sortKey)]
  }

  /**
   * What the translation cache update returns: the call's own failure, or the
   * rejection of a path under a `translations` map that does not exist.
   */
  function CacheOutcome(items: map<ItemKey, Record>, key: ItemKey, lang: string, text: string, fault: Fault): (r: Outcome)
    requires ValidKey(key)
    ensures r.Pass? <==> fault.NoFault? && WithTranslation(Addressed(items, key), lang, text, false).Some?
  {
    if fault.Throws? then Fail(fault.message)
    else if WithTranslation(Addressed(items, key), lang, text, false).None? then Fail(InvalidDocumentPath)
    else Pass
  }

  class ItemTable {
    var items: map<ItemKey, Record>

    ghost predicate Valid()
      reads this
    {
      KeyedByPair(items)
    }

    constructor ()
      ensures Valid() && items == map[]
    {
      items := map[];
    }

    /** PutCommand: store `item` under its key pair, replacing any item there. */
    method Put(item: Record, fault: Fault) returns (r: Outcome)
      requires Valid()
      modifies this
      ensures Valid()
      ensures r == PutOutcome(item, fault)
      ensures items == if r.Pass? then old(items)[KeyOf(item).value := item] else old(items)
    {
      r := PutOutcome(item, fault);
      if r.Pass? {
        items := items[KeyOf(item).value := item];
      }
    }

    /**
     * UpdateCommand `SET data = :data`: set one attribute, creating the item
     * (with its key) when it does not exist.
     */
    method SetData(key: ItemKey, data: Value, fault: Fault) returns (r: Outcome)
      requires Valid() && ValidKey(key)
      modifies this
      ensures Valid()
      ensures r == if fault.Throws? then Fail(fault.message) else Pass
      ensures items == if r.Pass? then old(items)[key := Addressed(old(items), key)["data" := data]] else old(items)
    {
      if fault.Throws? {
        return Fail(fault.message);
      }
      items := items[key := Addressed(items, key)["data" := data]];
      r := Pass;
    }

    /**
     * UpdateCommand `SET translations.#lang = :text`: record `text` as the
     * `lang` translation inside an existing `translations` map.
     */
    method CacheTranslation(key: ItemKey, lang: string, text: string, fault: Fault) returns (r: Outcome)
      requires Valid() && ValidKey(key)
      modifies this
      ensures Valid()
      ensures r == CacheOutcome(old(items), key, lang, text, fault)
      ensures items == if r.Pass?
        then old(items)[key := WithTranslation(Addressed(old(items), key), lang, text, false).value]
        else old(items)
    {
      r := CacheOutcome(items, key, lang, text, fault);
      if r.Pass? {
        var updated := WithTranslation(Addressed(items, key), lang, text, false).value;
        items := items[key := updated];
      }
    }
  }

  /**
   * QueryCommand `partitionKey = :pk`: every item of the partition. In a table
   * whose items carry their keys these are exactly the items whose
   * `partitionKey` attribute is `pk`.
   */
  function Query(items: map<ItemKey, Record>, pk: string, fault: Fault): (r: Result<map<ItemKey, Record>>)
    ensures r.Err? <==> fault.Throws?
    ensures r.Ok? ==> forall key :: key in r.value <==> key in items && key.partitionKey == pk
    ensures r.Ok? ==> forall key | key in r.value :: r.value[key] == items[key]
    ensures r.Ok? && KeyedByPair(items) ==> forall key | key in items ::
      key in r.value <==> items[key]["partitionKey"] == Str(pk)
  {
    match fault
    case Throws(m) => Err(m)
    case NoFault => Ok(map key | key in items && key.partitionKey == pk :: items[key])
  }
}
