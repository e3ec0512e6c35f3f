/** The paginated fetch of the news crawler (`get_news`): one query per
    compiled term, page 1 first, then pages 2..N where N is
    ceil(totalResults / 100), every article tagged with its term. The
    search provider is an oracle from query parameters to a response, so
    the stream of articles is a function of the oracle. The query
    parameters are one record shared by all terms, as in the source: the
    page number set for one term is still there when the next term's first
    request goes out. */
module Crawler {
  import opened Results
  import opened Terms

  datatype Source = Source(id: Option<string>, name: Option<string>)

  /** One article as the provider returns it; `details` carries every other
      field (description, url, content, ...) unread. */
  datatype RawArticle = RawArticle(
    source: Source,
    author: Option<string>,
    title: string,
    publishedAt: string,
    details: map<string, string>)

  /** An article with the `search_term` the crawler adds to it. */
  datatype Article = Article(raw: RawArticle, searchTerm: string)

  /** The `query_params` dictionary; `page` is absent until a second page is
      requested. */
  datatype Query = Query(
    q: string,
    from: string,
    to: string,
    language: string,
    sortBy: string,
    apiKey: Option<string>,
    page: Option<int>)

  /** What one request yields: a page of results; a non-200 status (which
      `_make_api_request` turns into a `ConnectionError`); or any other
      failure of the HTTP client, which no handler in the crawler catches. */
  datatype Response =
    | Page(totalResults: int, articles: seq<RawArticle>)
    | ErrorStatus
    | Unreachable

  type Api = Query -> Response

  /** The articles the crawler has yielded, the requests it made in order,
      the shared parameters as it left them, and whether an exception ended
      the stream. */
  datatype Stream = Stream(articles: seq<Article>, requests: seq<Query>, params: Query, aborted: bool)

  const PageSize := 100

  function Max(a: int, b: int): int {
    if a < b then b else a
  }

  /** `ceil(total_results / 100)`. */
  function TotalPages(totalResults: int): (n: int)
    ensures PageSize * (n - 1) < totalResults <= PageSize * n
  {
    (totalResults + PageSize - 1) / PageSize
  }

  /** `article["search_term"] = term` on every article of a page. */
  function Tag(raws: seq<RawArticle>, term: string): (r: seq<Article>)
    ensures |r| == |raws|
    ensures forall i :: 0 <= i < |raws| ==> r[i] == Article(raws[i], term)
  {
    seq(|raws|, i requires 0 <= i < |raws| => Article(raws[i], term))
  }

  function ArticlesOf(r: Response): seq<RawArticle> {
    if r.Page? then r.articles else []
  }

  /** Reference definition: the articles the provider returned to the given
      requests, concatenated in request order. */
  function Collected(api: Api, requests: seq<Query>): seq<RawArticle> {
    if requests == [] then [] else ArticlesOf(api(requests[0])) + Collected(api, requests[1..])
  }

  /** Pages `page..last` of one term, each requested with `page` set in the
      shared parameters. A failed request raises: the stream ends there. */
  function FetchPages(api: Api, params: Query, term: string, page: int, last: int): Stream
    decreases last - page + 1
  {
    if page > last then Stream([], [], params, false)
    else
      var p := params.(page := Some(page));
      match api(p)
      case Page(_, raws) =>
        var rest := FetchPages(api, p, term, page + 1, last);
        Stream(Tag(raws, term) + rest.articles, [p] + rest.requests, rest.params, rest.aborted)
      case _ => Stream([], [p], p, true)
  }

  /** The total the first response reports; a non-200 status counts as an
      empty result. */
  function FirstTotal(r: Response): int {
    if r.Page? then r.totalResults else 0
  }

  /** One iteration of the term loop in `get_news`. */
  function FetchTerm(api: Api, params: Query, term: string): Stream {
    var p := params.(q := term);
    var first := api(p);
    if first.Unreachable? then Stream([], [p], p, true)
    else
      var pages := TotalPages(FirstTotal(first));
      if pages < 1 then Stream([], [p], p, false)
      else
        var rest := FetchPages(api, p, term, 2, pages);
        Stream(Tag(ArticlesOf(first), term) + rest.articles, [p] + rest.requests, rest.params, rest.aborted)
  }

  /** The term loop of `get_news`, threading the shared parameters. */
  function FetchTerms(api: Api, params: Query, terms: seq<string>): Stream
    decreases |terms|
  {
    if terms == [] then Stream([], [], params, false)
    else
      var first := FetchTerm(api, params, terms[0]);
      if first.aborted then first
      else
        var rest := FetchTerms(api, first.params, terms[1..]);
        Stream(first.articles + rest.articles, first.requests + rest.requests, rest.params, rest.aborted)
  }

  /** The parameters `get_news` starts from: an empty `q` and no `page`. */
  function InitialQuery(from: string, to: string, language: string, apiKey: Option<string>): Query {
    Query("", from, to, language, "publishedAt", apiKey, None)
  }

  /** `req` differs from `params` at most in `q` and `page`. */
  predicate SameWindow(req: Query, params: Query) {
    req.from == params.from && req.to == params.to && req.language == params.language
    && req.sortBy == params.sortBy && req.apiKey == params.apiKey
  }

  // ---------------------------------------------------------------------
  // One term, pages after the first

  lemma {:induction false} FetchPagesRequests(api: Api, params: Query, term: string, page: int, last: int)
    ensures var s := FetchPages(api, params, term, page, last);
      && (forall k :: 0 <= k < |s.requests| ==> s.requests[k] == params.(page := Some(page + k)))
      && (!s.aborted ==> |s.requests| == Max(0, last - page + 1))
      && (s.aborted ==> 1 <= |s.requests| <= last - page + 1 && !api(s.requests[|s.requests| - 1]).Page?)
      && (forall k :: 0 <= k < |s.requests| && (k < |s.requests| - 1 || !s.aborted) ==> api(s.requests[k]).Page?)
    decreases last - page + 1
  {
    var s := FetchPages(api, params, term, page, last);
    if page <= last {
      var p := params.(page := Some(page));
      if api(p).Page? {
        FetchPagesRequests(api, p, term, page + 1, last);
        var rest := FetchPages(api, p, term, page + 1, last);
        assert s.requests == [p] + rest.requests;
        forall k | 1 <= k < |s.requests|
          ensures s.requests[k] == params.(page := Some(page + k))
        {
          assert s.requests[k] == rest.requests[k - 1];
        }
      }
    }
  }

  lemma {:induction false} FetchPagesParams(api: Api, params: Query, term: string, page: int, last: int)
    ensures var s := FetchPages(api, params, term, page, last);
      && SameWindow(s.params, params) && s.params.q == params.q
      && (!s.aborted ==> s.params == if page <= last then params.(page := Some(last)) else params)
    decreases last - page + 1
  {
    if page <= last {
      var p := params.(page := Some(page));
      if api(p).Page? {
        FetchPagesParams(api, p, term, page + 1, last);
      }
    }
  }

  lemma {:induction false} CollectedAppend(api: Api, a: seq<Query>, b: seq<Query>)
    ensures Collected(api, a + b) == Collected(api, a) + Collected(api, b)
    decreases |a|
  {
    if a == [] {
      assert a + b == b;
    } else {
      assert (a + b)[1..] == a[1..] + b;
      CollectedAppend(api, a[1..], b);
    }
  }

  lemma TagAppend(a: seq<RawArticle>, b: seq<RawArticle>, term: string)
    ensures Tag(a + b, term) == Tag(a, term) + Tag(b, term)
  {
  }

  lemma {:induction false} FetchPagesArticles(api: Api, params: Query, term: string, page: int, last: int)
    ensures var s := FetchPages(api, params, term, page, last);
      s.articles == Tag(Collected(api, s.requests), term)
    decreases last - page + 1
  {
    var s := FetchPages(api, params, term, page, last);
    if page <= last {
      var p := params.(page := Some(page));
      match api(p)
      case Page(_, raws) =>
        FetchPagesArticles(api, p, term, page + 1, last);
        var rest := FetchPages(api, p, term, page + 1, last);
        assert ([p] + rest.requests)[1..] == rest.requests;
        TagAppend(raws, Collected(api, rest.requests), term);
      case _ =>
        assert [p][1..] == [];
    }
  }

  // ---------------------------------------------------------------------
  // One term

  /** The first request for a term carries the term and whatever `page` the
      shared parameters hold; the later ones ask for pages 2, 3, ... in
      order. */
  lemma FetchTermRequests(api: Api, params: Query, term: string)
    ensures var s := FetchTerm(api, params, term);
      && |s.requests| >= 1
      && s.requests[0] == params.(q := term)
      && (forall k :: 1 <= k < |s.requests| ==> s.requests[k] == params.(q := term).(page := Some(k + 1)))
  {
    var p := params.(q := term);
    var first := api(p);
    var s := FetchTerm(api, params, term);
    if !first.Unreachable? {
      var pages := TotalPages(FirstTotal(first));
      if pages >= 1 {
        FetchPagesRequests(api, p, term, 2, pages);
        var rest := FetchPages(api, p, term, 2, pages);
        assert forall k :: 1 <= k < |s.requests| ==> s.requests[k] == rest.requests[k - 1];
      }
    }
  }

  /** A term costs max(1, ceil(total/100)) requests unless a request raises;
      a request after the first raises only when the provider fails it, and
      the stream stops at the first such failure. */
  lemma FetchTermCost(api: Api, params: Query, term: string)
    ensures var p := params.(q := term);
      var s := FetchTerm(api, params, term);
      var pages := TotalPages(FirstTotal(api(p)));
      && (!s.aborted ==> |s.requests| == Max(1, pages))
      && (s.aborted ==> |s.requests| <= Max(1, pages) && !api(s.requests[|s.requests| - 1]).Page?)
      && (forall k :: 1 <= k < |s.requests| && (k < |s.requests| - 1 || !s.aborted) ==> api(s.requests[k]).Page?)
  {
    var p := params.(q := term);
    var first := api(p);
    var s := FetchTerm(api, params, term);
    if !first.Unreachable? {
      var pages := TotalPages(FirstTotal(first));
      if pages >= 1 {
        FetchPagesRequests(api, p, term, 2, pages);
        var rest := FetchPages(api, p, term, 2, pages);
        assert forall k :: 1 <= k < |s.requests| ==> s.requests[k] == rest.requests[k - 1];
      }
    }
  }

  /** A non-200 first response is isolated to its term: no articles, no
      further request, no exception. */
  lemma FetchTermErrorStatus(api: Api, params: Query, term: string)
    requires api(params.(q := term)).ErrorStatus?
    ensures FetchTerm(api, params, term) == Stream([], [params.(q := term)], params.(q := term), false)
  {
  }

  /** A total of zero (or less) yields nothing and costs one request. */
  lemma FetchTermNoResults(api: Api, params: Query, term: string)
    requires api(params.(q := term)).Page? && api(params.(q := term)).totalResults <= 0
    ensures FetchTerm(api, params, term) == Stream([], [params.(q := term)], params.(q := term), false)
  {
  }

  /** A failure of the HTTP client on the first request is not caught. */
  lemma FetchTermUnreachable(api: Api, params: Query, term: string)
    requires api(params.(q := term)).Unreachable?
    ensures FetchTerm(api, params, term).aborted && FetchTerm(api, params, term).articles == []
  {
  }

  /** The articles of a term are the pages' articles in request order, each
      tagged with the term; none when the first response reports no
      results. */
  lemma FetchTermArticles(api: Api, params: Query, term: string)
    ensures var p := params.(q := term);
      var s := FetchTerm(api, params, term);
      s.articles == if api(p).Page? && TotalPages(api(p).totalResults) >= 1 then Tag(Collected(api, s.requests), term) else []
  {
    var p := params.(q := term);
    var first := api(p);
    var s := FetchTerm(api, params, term);
    if first.Page? {
      var pages := TotalPages(FirstTotal(first));
      if pages >= 1 {
        var rest := FetchPages(api, p, term, 2, pages);
        FetchPagesArticles(api, p, term, 2, pages);
        assert s.requests == [p] + rest.requests;
        CollectedAppend(api, [p], rest.requests);
        assert [p][1..] == [];
        TagAppend(first.articles, Collected(api, rest.requests), term);
      }
    }
  }

  /** What a completed term leaves in the shared parameters: its `q`, and
      its last page number if it had more than one page. */
  lemma FetchTermParams(api: Api, params: Query, term: string)
    ensures var p := params.(q := term);
      var s := FetchTerm(api, params, term);
      var pages := TotalPages(FirstTotal(api(p)));
      !s.aborted ==> s.params == if pages >= 2 then p.(page := Some(pages)) else p
  {
    var p := params.(q := term);
    var first := api(p);
    if !first.Unreachable? {
      var pages := TotalPages(FirstTotal(first));
      if pages >= 1 {
        FetchPagesParams(api, p, term, 2, pages);
      }
    }
  }

  // ---------------------------------------------------------------------
  // All terms

  function IndexOf(terms: seq<string>, t: string): (i: nat)
    requires t in terms
    ensures i < |terms| && terms[i] == t
    ensures forall j :: 0 <= j < i ==> terms[j] != t
  {
    if terms[0] == t then 0 else 1 + IndexOf(terms[1..], t)
  }

  /** Every article carries one of the terms, and every request keeps the
      window, language, sort order and key of the starting parameters. */
  lemma {:induction false} FetchTermsTagged(api: Api, params: Query, terms: seq<string>)
    ensures var s := FetchTerms(api, params, terms);
      && (forall i :: 0 <= i < |s.articles| ==> s.articles[i].searchTerm in terms)
      && (forall i :: 0 <= i < |s.requests| ==> SameWindow(s.requests[i], params))
      && SameWindow(s.params, params)
    decreases |terms|
  {
    if terms != [] {
      var first := FetchTerm(api, params, terms[0]);
      FetchTermArticles(api, params, terms[0]);
      FetchTermRequests(api, params, terms[0]);
      assert forall i :: 0 <= i < |first.articles| ==> first.articles[i].searchTerm == terms[0];
      FetchTermParams(api, params, terms[0]);
      FetchTermWindow(api, params, terms[0]);
      if !first.aborted {
        FetchTermsTagged(api, first.params, terms[1..]);
        var rest := FetchTerms(api, first.params, terms[1..]);
        assert forall i :: 0 <= i < |rest.articles| ==> rest.articles[i].searchTerm in terms;
      }
    }
  }

  lemma FetchTermWindow(api: Api, params: Query, term: string)
    ensures var s := FetchTerm(api, params, term);
      (forall i :: 0 <= i < |s.requests| ==> SameWindow(s.requests[i], params)) && SameWindow(s.params, params)
  {
    FetchTermRequests(api, params, term);
    var p := params.(q := term);
    var first := api(p);
    if !first.Unreachable? {
      var pages := TotalPages(FirstTotal(first));
      if pages >= 1 {
        FetchPagesParams(api, p, term, 2, pages);
        FetchPagesRequests(api, p, term, 2, pages);
      }
    }
  }

  lemma IndexOfTail(terms: seq<string>, t: string)
    requires NoDuplicates(terms) && terms != [] && t in terms[1..]
    ensures IndexOf(terms, t) == 1 + IndexOf(terms[1..], t)
  {
    var k := IndexOf(terms[1..], t);
    assert terms[k + 1] == t;
  }

  lemma TailHasNoDuplicates(terms: seq<string>)
    requires NoDuplicates(terms) && terms != []
    ensures NoDuplicates(terms[1..])
  {
    var tail := terms[1..];
    assert forall i :: 0 <= i < |tail| ==> tail[i] == terms[i + 1];
  }

  /** Every article carries one of `terms`, and an article of a later term
      never precedes one of an earlier term. */
  predicate InTermOrder(articles: seq<Article>, terms: seq<string>) {
    && (forall i :: 0 <= i < |articles| ==> articles[i].searchTerm in terms)
    && (forall i, j :: 0 <= i < j < |articles| ==>
          IndexOf(terms, articles[i].searchTerm) <= IndexOf(terms, articles[j].searchTerm))
  }

  lemma InTermOrderCons(head: seq<Article>, rest: seq<Article>, terms: seq<string>)
    requires NoDuplicates(terms) && terms != []
    requires forall i :: 0 <= i < |head| ==> head[i].searchTerm == terms[0]
    requires InTermOrder(rest, terms[1..])
    ensures InTermOrder(head + rest, terms)
  {
    var all := head + rest;
    var n := |head|;
    forall i | 0 <= i < n ensures all[i].searchTerm in terms && IndexOf(terms, all[i].searchTerm) == 0 {
      assert all[i] == head[i];
    }
    forall i | n <= i < |all| ensures all[i].searchTerm in terms && IndexOf(terms, all[i].searchTerm) >= 1 {
      assert all[i] == rest[i - n];
      IndexOfTail(terms, rest[i - n].searchTerm);
    }
    forall i, j | n <= i < j < |all|
      ensures IndexOf(terms, all[i].searchTerm) <= IndexOf(terms, all[j].searchTerm)
    {
      assert all[i] == rest[i - n] && all[j] == rest[j - n];
      IndexOfTail(terms, rest[i - n].searchTerm);
      IndexOfTail(terms, rest[j - n].searchTerm);
    }
  }

  /** Articles come out in term order. */
  lemma {:induction false} FetchTermsOrdered(api: Api, params: Query, terms: seq<string>)
    requires NoDuplicates(terms)
    ensures InTermOrder(FetchTerms(api, params, terms).articles, terms)
    decreases |terms|
  {
    if terms != [] {
      var first := FetchTerm(api, params, terms[0]);
      FetchTermArticles(api, params, terms[0]);
      assert forall i :: 0 <= i < |first.articles| ==> first.articles[i].searchTerm == terms[0];
      if first.aborted {
        InTermOrderCons(first.articles, [], terms);
        assert first.articles + [] == first.articles;
      } else {
        TailHasNoDuplicates(terms);
        FetchTermsOrdered(api, first.params, terms[1..]);
        InTermOrderCons(first.articles, FetchTerms(api, first.params, terms[1..]).articles, terms);
      }
    }
  }

  /** The shared parameters leak from one term to the next: when a term
      completed with N >= 2 pages, the next term's first request asks for
      page N. */
  lemma StalePage(api: Api, params: Query, terms: seq<string>)
    requires |terms| >= 2
    requires !FetchTerm(api, params, terms[0]).aborted
    ensures var first := FetchTerm(api, params, terms[0]);
      var pages := TotalPages(FirstTotal(api(params.(q := terms[0]))));
      var s := FetchTerms(api, params, terms);
      && |s.requests| > |first.requests|
      && s.requests[|first.requests|] == first.params.(q := terms[1])
      && s.requests[|first.requests|].page == if pages >= 2 then Some(pages) else params.page
  {
    var first := FetchTerm(api, params, terms[0]);
    FetchTermParams(api, params, terms[0]);
    FetchTermRequests(api, first.params, terms[1]);
    var rest := FetchTerms(api, first.params, terms[1..]);
    assert terms[1..][0] == terms[1];
    assert rest.requests[0] == first.params.(q := terms[1]) by {
      var t := FetchTerm(api, first.params, terms[1]);
      if !t.aborted {
        assert rest.requests == t.requests + FetchTerms(api, t.params, terms[2..]).requests;
      }
    }
  }

  /** `get_news`: the compiled terms in the order the set yields them, each
      fetched to completion from the starting parameters. */
  function GetNews(api: Api, searchTerms: seq<string>, order: seq<string>, from: string, to: string,
                   language: string, apiKey: Option<string>): Stream
    requires IsListing(order, CompileTerms(searchTerms))
  {
    FetchTerms(api, InitialQuery(from, to, language, apiKey), order)
  }

  /** Every article `get_news` yields is tagged with one of the compiled
      terms; every request keeps the window, language, sort and key and asks
      for one of the compiled terms; the first request is the first term's
      first page. */
  lemma GetNewsStream(api: Api, searchTerms: seq<string>, order: seq<string>, from: string, to: string,
                      language: string, apiKey: Option<string>)
    requires IsListing(order, CompileTerms(searchTerms))
    ensures var s := GetNews(api, searchTerms, order, from, to, language, apiKey);
      && (forall i :: 0 <= i < |s.articles| ==> s.articles[i].searchTerm in CompileTerms(searchTerms))
      && (forall i :: 0 <= i < |s.requests| ==>
            SameWindow(s.requests[i], InitialQuery(from, to, language, apiKey)) && s.requests[i].q in order)
      && (order != [] ==> s.requests != [] && s.requests[0] == InitialQuery(from, to, language, apiKey).(q := order[0]))
  {
    var params := InitialQuery(from, to, language, apiKey);
    FetchTermsTagged(api, params, order);
    FetchTermsQueries(api, params, order);
    FetchTermsFirstRequest(api, params, order);
  }

  lemma FetchTermsFirstRequest(api: Api, params: Query, terms: seq<string>)
    ensures var s := FetchTerms(api, params, terms);
      terms != [] ==> s.requests != [] && s.requests[0] == params.(q := terms[0])
  {
    if terms != [] {
      FetchTermRequests(api, params, terms[0]);
    }
  }

  predicate QueriesIn(requests: seq<Query>, terms: seq<string>) {
    forall i :: 0 <= i < |requests| ==> requests[i].q in terms
  }

  lemma {:induction false} FetchTermsQueries(api: Api, params: Query, terms: seq<string>)
    ensures QueriesIn(FetchTerms(api, params, terms).requests, terms)
    decreases |terms|
  {
    if terms != [] {
      var first := FetchTerm(api, params, terms[0]);
      FetchTermRequests(api, params, terms[0]);
      if !first.aborted {
        FetchTermsQueries(api, first.params, terms[1..]);
        var rest := FetchTerms(api, first.params, terms[1..]);
        var s := FetchTerms(api, params, terms);
        assert s.requests == first.requests + rest.requests;
        forall i | 0 <= i < |s.requests| ensures s.requests[i].q in terms {
          if i < |first.requests| {
            assert s.requests[i] == first.requests[i];
          } else {
            var k := i - |first.requests|;
            assert s.requests[i] == rest.requests[k];
            assert rest.requests[k].q in terms[1..];
          }
        }
      }
    }
  }
}
