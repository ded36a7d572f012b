/**
 * The document store as the handlers use it: items are maps from attribute
 * name to value, every call may throw, and key attributes are non-empty
 * strings. The books table declares its `isbn` key as STRING; no items table
 * is defined, and its key pair is assumed to be STRING as well.
 */
module Store {
  import opened Js

  /** One stored item: attribute name to value. */
  type Record = map<string, Value>

  /** The composite key of a generic item. */
  datatype ItemKey = ItemKey(partitionKey: string, sortKey: string)

  /** What the environment does to one store call: it goes through, or it throws. */
  datatype Fault = NoFault | Throws(message: string)

  /** The completion of a write: success, or the error the call threw. */
  datatype Outcome = Pass | Fail(message: string)

  /** The service's rejection of a key attribute that is missing, not a string, or empty. */
  const KeyTypeMismatch := "One or more parameter values were invalid: Type mismatch for key"

  /** The service's rejection of a nested update under an attribute that is not a map. */
  const InvalidDocumentPath := "The document path provided in the update expression is invalid for update"

  /** `item.attr`, None when the attribute is absent. */
  function Field(item: Record, attr: string): (v: Option<Value>)
    ensures v.Some? <==> attr in item
    ensures v.Some? ==> v.value == item[attr]
  {
    if attr in item then Some(item[attr]) else None
  }

  /** The value of key attribute `attr`, when it is one a STRING key accepts. */
  function KeyString(item: Record, attr: string): (k: Option<string>)
    ensures k.Some? <==> attr in item && item[attr].Str? && item[attr].s != ""
    ensures k.Some? ==> item[attr] == Str(k.value) && k.value != ""
  {
    if attr in item && item[attr].Str? && item[attr].s != "" then Some(item[attr].s) else None
  }

  /** GetCommand: the item stored under `key`, if any, unless the call throws. */
  function Get<K>(table: map<K, Record>, key: K, fault: Fault): (r: Result<Option<Record>>)
    ensures r.Err? <==> fault.Throws?
    ensures r.Err? ==> r.message == fault.message
    ensures r.Ok? ==> (r.value.Some? <==> key in table)
    ensures r.Ok? && r.value.Some? ==> r.value.value == table[key]
  {
    match fault
    case Throws(m) => Err(m)
    case NoFault => Ok(if key in table then Some(table[key]) else None)
  }

  /**
   * The item after `SET translations.#lang = :text`: the `translations` map
   * gains (or replaces) the entry for `lang`. When the map is absent it is
   * created only if `createContainer` (an `if_not_exists` initialiser);
   * otherwise, and when `translations` is not a map, the document path is
   * invalid and the update is rejected.
   */
  function WithTranslation(item: Record, lang: string, text: string, createContainer: bool): (r: Option<Record>)
    ensures r.None? <==> if "translations" in item then !item["translations"].Obj? else !createContainer
    ensures r.Some? ==> r.value.Keys == item.Keys + {"translations"}
    ensures r.Some? ==> forall a | a in item && a != "translations" :: r.value[a] == item[a]
    ensures r.Some? ==> Prop(r.value["translations"], lang) == Some(Str(text))
    ensures r.Some? ==> forall l | l != lang ::
      Prop(r.value["translations"], l) == (if "translations" in item then Prop(item["translations"], l) else None)
  {
    if "translations" in item then
      if item["translations"].Obj? then
        Some(item["translations" := Obj(item["translations"].props[lang := Str(text)])])
      else None
    else if createContainer then Some(item["translations" := Obj(map[lang := Str(text)])])
    else None
  }
}
