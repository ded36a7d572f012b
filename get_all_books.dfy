/**
 * lambdas/getAllBooks.ts: list the books, optionally only those of one author
 * and/or one year. The scan request is built step by step; the scan itself is
 * a read of the table.
 */
module GetAllBooks {
  import opened Js
  import opened Store
  import opened Books
  import opened Http

  /** `Number(s)`: None stands for NaN. */
  type NumberParser = string -> Option<real>

  const InvalidYear := "Invalid year format"

  const AuthorClause := Equals("author", ":author")
  const YearClause := Equals("#year", ":year")

  /** The `author` query parameter is truthy. */
  predicate ByAuthor(query: map<string, string>)
  {
    Truthy(Param(query, "author"))
  }

  /** The `year` query parameter is truthy. */
  predicate ByYear(query: map<string, string>)
  {
    Truthy(Param(query, "year"))
  }

  /**
   * The books the query asks for, stated without the request: the author
   * equals the `author` parameter and the year equals the parsed `year`
   * parameter, each only when given.
   */
  predicate Wanted(query: map<string, string>, toNumber: NumberParser, book: Record)
  {
    && (ByAuthor(query) ==> "author" in book && book["author"] == Str(query["author"]))
    && (ByYear(query) ==>
          toNumber(query["year"]).Some? && "year" in book && book["year"] == Num(toNumber(query["year"]).value))
  }

  /**
   * The filter construction: push a clause and bind its value for each given
   * parameter, alias `year` (a reserved word) as `#year`, and omit the values
   * and names maps when they would be empty or unused.
   */
  method BuildScan(query: map<string, string>, toNumber: NumberParser) returns (r: Result<ScanRequest>)
    ensures r.Err? <==> ByYear(query) && toNumber(query["year"]).None?
    ensures r.Err? ==> r.message == InvalidYear
    ensures r.Ok? ==> WellFormed(r.value)
    ensures r.Ok? ==> (FilterExpression(r.value) ==
      if ByAuthor(query) && ByYear(query) then Some("author = :author AND #year = :year")
      else if ByAuthor(query) then Some("author = :author")
      else if ByYear(query) then Some("#year = :year")
      else None)
    ensures r.Ok? ==> (r.value.values.None? <==> !ByAuthor(query) && !ByYear(query))
    ensures r.Ok? ==> (r.value.names.Some? <==> ByYear(query))
    ensures r.Ok? && ByYear(query) ==> r.value.names == Some(map["#year" := "year"])
    ensures r.Ok? ==> forall book :: Matches(r.value, book) <==> Wanted(query, toNumber, book)
  {
    var filterExpressions: seq<Clause> := [];
    var expressionAttributeValues: map<string, Value> := map[];
    var author := Param(query, "author");
    if Truthy(author) {
      filterExpressions := filterExpressions + [AuthorClause];
      expressionAttributeValues := expressionAttributeValues[":author" := author.value];
    }
    var year := Param(query, "year");
    if Truthy(year) {
      var yearValue := toNumber(year.value.s);
      if yearValue.None? {
        return Err(InvalidYear);
      }
      filterExpressions := filterExpressions + [YearClause];
      expressionAttributeValues := expressionAttributeValues[":year" := Num(yearValue.value)];
    }
    var values := if |expressionAttributeValues| > 0 then Some(expressionAttributeValues) else None;
    var names := if Truthy(year) then Some(map["#year" := "year"]) else None;
    var req := ScanRequest(filterExpressions, values, names);
    RenderedFilter(req);
    forall book
      ensures Matches(req, book) <==> Wanted(query, toNumber, book)
    {
      ClauseMeaning(req, book);
    }
    r := Ok(req);
  }

  /** What the clause texts join to, for the requests BuildScan makes. */
  lemma RenderedFilter(req: ScanRequest)
    requires || req.clauses == [] || req.clauses == [AuthorClause] || req.clauses == [YearClause]
             || req.clauses == [AuthorClause, YearClause]
    ensures FilterExpression(req) ==
      if req.clauses == [] then None
      else if req.clauses == [AuthorClause] then Some("author = :author")
      else if req.clauses == [YearClause] then Some("#year = :year")
      else Some("author = :author AND #year = :year")
  {
    var parts := seq(|req.clauses|, i requires 0 <= i < |req.clauses| => RenderClause(req.clauses[i]));
    if req.clauses == [AuthorClause, YearClause] {
      assert parts == [RenderClause(AuthorClause), RenderClause(YearClause)];
      BothClauses();
    } else if req.clauses == [AuthorClause] {
      assert parts == [RenderClause(AuthorClause)];
      assert RenderClause(AuthorClause) == "author = :author";
    } else if req.clauses == [YearClause] {
      assert parts == [RenderClause(YearClause)];
      assert RenderClause(YearClause) == "#year = :year";
    }
  }

  /** The two clause texts joined. */
  lemma BothClauses()
    ensures Join([RenderClause(AuthorClause), RenderClause(YearClause)], " AND ")
      == "author = :author AND #year = :year"
  {
    var parts := [RenderClause(AuthorClause), RenderClause(YearClause)];
    assert parts[1..] == [RenderClause(YearClause)];
    assert RenderClause(AuthorClause) == "author = :author";
    assert RenderClause(YearClause) == "#year = :year";
  }

  /** What the two clauses test, given the names map. */
  lemma ClauseMeaning(req: ScanRequest, book: Record)
    ensures Holds(AuthorClause, req, book) <==>
      "author" in book && req.values.Some? && ":author" in req.values.value
      && book["author"] == req.values.value[":author"]
    ensures Holds(YearClause, req, book) <==>
      && req.names.Some? && "#year" in req.names.value
      && req.names.value["#year"] in book && req.values.Some? && ":year" in req.values.value
      && book[req.names.value["#year"]] == req.values.value[":year"]
  {
    assert "author"[0] != '#' && "#year"[0] == '#';
  }

  /** The handler: build the request, refuse an unparsable year, then scan. */
  method Handler(books: map<string, Record>, event: Event, toNumber: NumberParser, scanFault: Fault)
    returns (response: Response)
    ensures var query := event.queryStringParameters;
      ByYear(query) && toNumber(query["year"]).None? ==> response == Reply(400, Error(InvalidYear))
    ensures var query := event.queryStringParameters;
      !(ByYear(query) && toNumber(query["year"]).None?) && scanFault.Throws? ==>
        response == Reply(500, ErrorDetails("Could not retrieve books", scanFault.message))
    ensures var query := event.queryStringParameters;
      !(ByYear(query) && toNumber(query["year"]).None?) && scanFault.NoFault? ==>
        response == Reply(200, Books(map isbn | isbn in books && Wanted(query, toNumber, books[isbn]) :: books[isbn]))
    ensures var query := event.queryStringParameters;
      !ByAuthor(query) && !ByYear(query) && scanFault.NoFault? ==> response == Reply(200, Books(books))
  {
    var query := event.queryStringParameters;
    var req := BuildScan(query, toNumber);
    if req.Err? {
      return Reply(400, Error(req.message));
    }
    var data := Scan(books, req.value, scanFault);
    if data.Err? {
      return Reply(500, ErrorDetails("Could not retrieve books", data.message));
    }
    ghost var wanted := map isbn | isbn in books && Wanted(query, toNumber, books[isbn]) :: books[isbn];
    assert data.value == wanted;
    if !ByAuthor(query) && !ByYear(query) {
      assert wanted == books;
    }
    response := Reply(200, Books(data.value));
  }
}
