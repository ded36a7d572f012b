/**
 * The books table, keyed by `isbn` (a STRING partition key): the writes the
 * handlers issue against it (put, delete, the translation cache update) and
 * the filtered scan.
 */
module Books {
  import opened Js
  import opened Store

  /** Every book is stored under the isbn it carries. */
  predicate KeyedByIsbn(books: map<string, Record>)
  {
    forall isbn | isbn in books :: KeyString(books[isbn], "isbn") == Some(isbn)
  }

  /** What a put of `item` returns: the call's own failure, or the key check. */
  function PutOutcome(item: Record, fault: Fault): (r: Outcome)
    ensures r.Pass? <==> fault.NoFault? && KeyString(item, "isbn").Some?
  {
    if fault.Throws? then Fail(fault.message)
    else if KeyString(item, "isbn").None? then Fail(KeyTypeMismatch)
    else Pass
  }

  /** The item an update addresses: the stored book, or a new one holding only its key. */
  function Addressed(books: map<string, Record>, isbn: string): (item: Record)
    requires isbn != ""
    ensures KeyString(item, "isbn") == Some(isbn) || isbn in books
    ensures isbn in books ==> item == books[isbn]
    ensures isbn !in books ==> item == map["isbn" := Str(isbn)]
  {
    if isbn in books then books[isbn] else map["isbn" := Str(isbn)]
  }

  /**
   * What the translation cache update returns: the call's own failure, or the
   * rejection of a `translations` attribute that is not a map.
   */
  function CacheOutcome(books: map<string, Record>, isbn: string, lang: string, text: string, fault: Fault): (r: Outcome)
    requires isbn != ""
    ensures r.Pass? <==> fault.NoFault? && WithTranslation(Addressed(books, isbn), lang, text, true).Some?
  {
    if fault.Throws? then Fail(fault.message)
    else if WithTranslation(Addressed(books, isbn), lang, text, true).None? then Fail(InvalidDocumentPath)
    else Pass
  }

  class BookTable {
    var books: map<string, Record>

    ghost predicate Valid()
      reads this
    {
      KeyedByIsbn(books)
    }

    constructor ()
      ensures Valid() && books == map[]
    {
      books := map[];
    }

    /** PutCommand: store `item` under its isbn, replacing any book there. */
    method Put(item: Record, fault: Fault) returns (r: Outcome)
      requires Valid()
      modifies this
      ensures Valid()
      ensures r == PutOutcome(item, fault)
      ensures books == if r.Pass? then old(books)[KeyString(item, "isbn").value := item] else old(books)
    {
      r := PutOutcome(item, fault);
      if r.Pass? {
        books := books[KeyString(item, "isbn").value := item];
      }
    }

    /** DeleteCommand: remove the book under `isbn`; an absent book is not an error. */
    method Delete(isbn: string, fault: Fault) returns (r: Outcome)
      requires Valid() && isbn != ""
      modifies this
      ensures Valid()
      ensures r == if fault.Throws? then Fail(fault.message) else Pass
      ensures books == if r.Pass? then old(books) - {isbn} else old(books)
    {
      if fault.Throws? {
        return Fail(fault.message);
      }
      books := books - {isbn};
      r := Pass;
    }

    /**
     * UpdateCommand `SET #translations = if_not_exists(#translations, :emptyMap),
     * #translations.#lang = :text`: record `text` as the `lang` translation,
     * creating the map when the book has none.
     */
    method CacheTranslation(isbn: string, lang: string, text: string, fault: Fault) returns (r: Outcome)
      requires Valid() && isbn != ""
      modifies this
      ensures Valid()
      ensures r == CacheOutcome(old(books), isbn, lang, text, fault)
      ensures books == if r.Pass?
        then old(books)[isbn := WithTranslation(Addressed(old(books), isbn), lang, text, true).value]
        else old(books)
    {
      r := CacheOutcome(books, isbn, lang, text, fault);
      if r.Pass? {
        var updated := WithTranslation(Addressed(books, isbn), lang, text, true).value;
        books := books[isbn := updated];
      }
    }
  }

  /**
   * One equality condition of a filter expression, `path = placeholder`. A
   * path starting with `#` is an alias resolved through the names map.
   */
  datatype Clause = Equals(path: string, placeholder: string)

  /** The parameters of a ScanCommand besides the table name. */
  datatype ScanRequest = ScanRequest(
    clauses: seq<Clause>,
    values: Option<map<string, Value>>,
    names: Option<map<string, string>>)

  /** The text of one clause. */
  function RenderClause(c: Clause): string
  {
    c.path + " = " + c.placeholder
  }

  /** The FilterExpression sent: the clauses joined with " AND ", or none at all. */
  function FilterExpression(req: ScanRequest): Option<string>
  {
    if req.clauses == [] then None
    else Some(Join(seq(|req.clauses|, i requires 0 <= i < |req.clauses| => RenderClause(req.clauses[i])), " AND "))
  }

  /** The attribute a clause path names, if an alias resolves. */
  function Attribute(path: string, names: Option<map<string, string>>): Option<string>
  {
    if |path| > 0 && path[0] == '#' then
      if names.Some? && path in names.value then Some(names.value[path]) else None
    else Some(path)
  }

  /** Every alias and placeholder of the request resolves. */
  predicate WellFormed(req: ScanRequest)
  {
    forall c | c in req.clauses ::
      Attribute(c.path, req.names).Some? && req.values.Some? && c.placeholder in req.values.value
  }

  /** A book passes a clause when its attribute exists and equals the placeholder's value. */
  predicate Holds(c: Clause, req: ScanRequest, book: Record)
  {
    var attr := Attribute(c.path, req.names);
    && attr.Some? && attr.value in book
    && req.values.Some? && c.placeholder in req.values.value
    && book[attr.value] == req.values.value[c.placeholder]
  }

  /** A book passes the filter when it passes every clause. */
  predicate Matches(req: ScanRequest, book: Record)
  {
    forall c | c in req.clauses :: Holds(c, req, book)
  }

  /** ScanCommand: every book that passes the filter, in one response. */
  function Scan(books: map<string, Record>, req: ScanRequest, fault: Fault): (r: Result<map<string, Record>>)
    ensures r.Err? <==> fault.Throws?
    ensures r.Ok? ==> forall isbn :: isbn in r.value <==> isbn in books && Matches(req, books[isbn])
    ensures r.Ok? ==> forall isbn | isbn in r.value :: r.value[isbn] == books[isbn]
  {
    match fault
    case Throws(m) => Err(m)
    case NoFault => Ok(map isbn | isbn in books && Matches(req, books[isbn]) :: books[isbn])
  }
}
