/** The library agent's search tool: the queries are combined into one Boolean
    query, the library is searched with the university login, and the found
    papers are reported with their count. */
module Library {
  import opened Text
  import opened ComputerUse
  import opened RunContext

  datatype LibrarySearchResults = LibrarySearchResults(
    query: string,
    results: seq<SearchResult>,
    totalFound: int)

  const Conjunction := " AND "

  /** A query in parentheses. */
  function Parenthesized(q: string): (r: string)
    ensures |r| == |q| + 2 && r[0] == '(' && r[|r| - 1] == ')' && r[1..|r| - 1] == q
  {
    "(" + q + ")"
  }

  /** The Boolean conjunction of the queries, each in parentheses. */
  function CombineQueries(queries: seq<string>): string
  {
    Join(Conjunction, seq(|queries|, i requires 0 <= i < |queries| => Parenthesized(queries[i])))
  }

  /** The total length of the queries. */
  function TotalLength(queries: seq<string>): nat
    decreases |queries|
  {
    if queries == [] then 0 else TotalLength(queries[..|queries| - 1]) + |queries[|queries| - 1]|
  }

  /** No query gives the empty string, and a single query is just put in
      parentheses. */
  lemma CombineFewQueries(q: string)
    ensures CombineQueries([]) == ""
    ensures CombineQueries([q]) == "(" + q + ")"
  {
  }

  /** One more query appends " AND " and that query in parentheses. */
  lemma CombineQueriesSnoc(queries: seq<string>, q: string)
    requires |queries| > 0
    ensures CombineQueries(queries + [q]) == CombineQueries(queries) + " AND (" + q + ")"
  {
    var parts := seq(|queries|, i requires 0 <= i < |queries| => Parenthesized(queries[i]));
    var more := queries + [q];
    var parts' := seq(|more|, i requires 0 <= i < |more| => Parenthesized(more[i]));
    assert parts' == parts + [Parenthesized(q)];
    JoinSnoc(Conjunction, parts, Parenthesized(q));
  }

  /** The combined query is as long as the queries, two parentheses each and
      one conjunction between neighbours. */
  lemma {:induction false} CombineQueriesLength(queries: seq<string>)
    requires |queries| > 0
    ensures |CombineQueries(queries)| == TotalLength(queries) + 2 * |queries| + |Conjunction| * (|queries| - 1)
    decreases |queries|
  {
    if |queries| > 1 {
      var init := queries[..|queries| - 1];
      var q := queries[|queries| - 1];
      assert init + [q] == queries;
      CombineQueriesLength(init);
      CombineQueriesSnoc(init, q);
    }
  }

  /** `search_ucalgary_library`: runs the library search with the combined
      query and the university credentials, and passes the results on with
      their count. */
  method SearchUcalgaryLibrary(ctx: Context, queries: seq<string>) returns (r: LibrarySearchResults)
    modifies ctx.session
    ensures ctx.session.tasks == old(ctx.session.tasks) +
      [LibrarySearch(ctx.credentials.ucalgaryUsername, ctx.credentials.ucalgaryPassword, CombineQueries(queries))]
    ensures r.query == CombineQueries(queries)
    ensures r.results == MockLibraryResults && r.totalFound == |r.results|
  {
    var combinedQuery := CombineQueries(queries);
    var searchResults := UcalgaryLibrarySearch(ctx.session, ctx.credentials.ucalgaryUsername,
                                               ctx.credentials.ucalgaryPassword, combinedQuery);
    r := LibrarySearchResults(combinedQuery, searchResults, |searchResults|);
  }
}
