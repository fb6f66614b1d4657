/** The paginated fetcher of both protocol versions. The HTTP layer is an
    abstract total function from a request to a response; following the
    continuation links is a recursion bounded by `fuel`, the largest number
    of requests the model may send. */
module Pagination {
  import opened Wrappers
  import opened Values

  datatype Request = Request(url: string, params: Params)

  /** A decoded body, or the status that made `raise_for_status` throw. */
  datatype Response = Ok(body: Value) | Failed(status: int)

  type Server = Request -> Response

  /** One page as the fetch loop sees it: its rows and the link it follows next. */
  datatype Page = Page(rows: seq<Value>, next: Option<string>)

  /** How a protocol version reads a page out of a response body. */
  type PageView = Value -> Result<Page, Error>

  /** The version-3 envelope `{"value": [...], "odata.nextLink"?: url}` as the
      loop in `_download_metadata` reads it: a link that is JSON null ends the
      loop just like an absent one. */
  function V3Page(body: Value): (r: Result<Page, Error>)
    ensures r.Success? ==> body.Obj? && "value" in body.fields && body.fields["value"] == Arr(r.value.rows)
    ensures r.Success? ==>
              (r.value.next.Some? <==> "odata.nextLink" in body.fields && body.fields["odata.nextLink"] != Null)
    ensures r.Success? && r.value.next.Some? ==> body.fields["odata.nextLink"] == Str(r.value.next.value)
    ensures body.Obj? && "value" !in body.fields ==> r == Failure(KeyError("value"))
  {
    match body
    case Obj(m) =>
      if "value" !in m then Failure(KeyError("value"))
      else if !m["value"].Arr? then Failure(TypeError)
      else if "odata.nextLink" !in m then Success(Page(m["value"].items, None))
      else (
        match m["odata.nextLink"]
        case Null => Success(Page(m["value"].items, None))
        case Str(u) => Success(Page(m["value"].items, Some(u)))
        case other => Failure(InvalidLink(other))
      )
    case _ => Failure(TypeError)
  }

  /** Send one request and read the page out of the answer. */
  function Fetch(server: Server, req: Request, view: PageView): Result<Page, Error> {
    match server(req)
    case Failed(status) => Failure(RemoteFetchError(req.url, status))
    case Ok(body) => view(body)
  }

  /** The outcome of a paginated download and the requests it sent, in order. */
  datatype Run = Run(result: Result<seq<Value>, Error>, sent: seq<Request>)

  /** The `while url is not None` loop of `_download_metadata`: every page's
      `value` is appended, and each continuation link is requested with the
      parameters `later` (empty in the version-3 client, which clears them;
      the first request's own parameters in the legacy clients). */
  function Paginate(server: Server, first: Request, later: Params, fuel: nat): (r: Run)
    ensures |r.sent| <= fuel
    ensures fuel > 0 ==> |r.sent| >= 1 && r.sent[0] == first
    ensures forall i | 1 <= i < |r.sent| :: r.sent[i].params == later
    ensures r.result.Success? ==> |r.sent| >= 1 && r.sent[0] == first
    decreases fuel
  {
    if fuel == 0 then Run(Failure(LinkChainTooLong), [])
    else
      match Fetch(server, first, V3Page)
      case Failure(e) => Run(Failure(e), [first])
      case Success(page) =>
        if page.next.None? then Run(Success(page.rows), [first])
        else
          var rest := Paginate(server, Request(page.next.value, later), later, fuel - 1);
          var result := if rest.result.Success? then Success(page.rows + rest.result.value) else rest.result;
          Run(result, [first] + rest.sent)
  }

  /** The rows of a sequence of pages, in page order. */
  function Rows(pages: seq<Page>): seq<Value> {
    if pages == [] then [] else pages[0].rows + Rows(pages[1..])
  }

  /** The request that fetches page `i` of a chain. */
  function ChainRequest(first: Request, later: Params, pages: seq<Page>, i: nat): Request
    requires i < |pages|
  {
    if i == 0 || pages[i - 1].next.None? then first
    else Request(pages[i - 1].next.value, later)
  }

  /** `pages` is the whole, finite chain the server answers starting from
      `first`: every page but the last links to the next, the last has no link. */
  ghost predicate IsChain(server: Server, view: PageView, first: Request, later: Params, pages: seq<Page>) {
    && |pages| > 0
    && (forall i | 0 <= i < |pages| - 1 :: pages[i].next.Some?)
    && pages[|pages| - 1].next.None?
    && (forall i | 0 <= i < |pages| :: Fetch(server, ChainRequest(first, later, pages, i), view) == Success(pages[i]))
  }

  /** The first page of a chain answers the first request. */
  lemma ChainHead(server: Server, view: PageView, first: Request, later: Params, pages: seq<Page>)
    requires IsChain(server, view, first, later, pages)
    ensures Fetch(server, first, view) == Success(pages[0])
  {
    assert ChainRequest(first, later, pages, 0) == first;
  }

  /** The tail of a chain is the chain that starts at the first link. */
  lemma ChainTail(server: Server, view: PageView, first: Request, later: Params, pages: seq<Page>)
    requires IsChain(server, view, first, later, pages)
    requires |pages| > 1
    ensures IsChain(server, view, Request(pages[0].next.value, later), later, pages[1..])
  {
    var next := Request(pages[0].next.value, later);
    forall i | 0 <= i < |pages| - 1
      ensures ChainRequest(next, later, pages[1..], i) == ChainRequest(first, later, pages, i + 1)
    {
    }
  }

  /** For a finite link chain, the download is the in-order concatenation of
      every page's rows, and it sends exactly the chain's requests. */
  lemma {:induction false} PaginateFollowsChain(server: Server, first: Request, later: Params, pages: seq<Page>, fuel: nat)
    requires IsChain(server, V3Page, first, later, pages)
    requires |pages| <= fuel
    ensures Paginate(server, first, later, fuel).result == Success(Rows(pages))
    ensures Paginate(server, first, later, fuel).sent == ChainRequests(first, later, pages)
    decreases |pages|
  {
    assert Fetch(server, first, V3Page) == Success(pages[0]) by {
      assert ChainRequest(first, later, pages, 0) == first;
    }
    PaginatePage(server, first, later, pages[0], fuel);
    if |pages| == 1 {
      assert Rows(pages[1..]) == [];
      assert Rows(pages) == pages[0].rows;
    } else {
      var next := Request(pages[0].next.value, later);
      ChainTail(server, V3Page, first, later, pages);
      PaginateFollowsChain(server, next, later, pages[1..], fuel - 1);
      ChainRequestsTail(first, later, pages);
    }
  }

  /** One page of the loop: without a link it is the whole download; with
      one, its rows come before those of the rest of the chain, and its
      request before the rest's requests. */
  lemma PaginatePage(server: Server, first: Request, later: Params, page: Page, fuel: nat)
    requires fuel > 0 && Fetch(server, first, V3Page) == Success(page)
    ensures page.next.None? ==> Paginate(server, first, later, fuel) == Run(Success(page.rows), [first])
    ensures page.next.Some? ==>
              var rest := Paginate(server, Request(page.next.value, later), later, fuel - 1);
              && Paginate(server, first, later, fuel).sent == [first] + rest.sent
              && (rest.result.Success? ==> Paginate(server, first, later, fuel).result == Success(page.rows + rest.result.value))
  {
  }

  /** The requests of a whole chain, in order. */
  function ChainRequests(first: Request, later: Params, pages: seq<Page>): seq<Request> {
    seq(|pages|, i requires 0 <= i < |pages| => ChainRequest(first, later, pages, i))
  }

  lemma ChainRequestsTail(first: Request, later: Params, pages: seq<Page>)
    requires |pages| > 1
    requires forall j | 0 <= j < |pages| - 1 :: pages[j].next.Some?
    ensures ChainRequests(first, later, pages)
         == [first] + ChainRequests(Request(pages[0].next.value, later), later, pages[1..])
  {
    var next := Request(pages[0].next.value, later);
    var tail := ChainRequests(next, later, pages[1..]);
    var all := ChainRequests(first, later, pages);
    assert |all| == 1 + |tail|;
    forall i | 0 <= i < |all|
      ensures all[i] == ([first] + tail)[i]
    {
      if i == 0 {
        assert all[0] == ChainRequest(first, later, pages, 0) == first;
      } else {
        assert all[i] == ChainRequest(first, later, pages, i);
        assert tail[i - 1] == ChainRequest(next, later, pages[1..], i - 1);
        if i == 1 {
          assert ChainRequest(next, later, pages[1..], 0) == next;
        } else {
          assert pages[1..][i - 2] == pages[i - 1];
        }
      }
    }
  }

  /** All or nothing: a download that succeeds got a successful answer to
      every request it sent. */
  lemma {:induction false} SuccessMeansEveryPageAnswered(server: Server, first: Request, later: Params, fuel: nat)
    requires Paginate(server, first, later, fuel).result.Success?
    ensures forall req <- Paginate(server, first, later, fuel).sent :: server(req).Ok?
    decreases fuel
  {
    var page := Fetch(server, first, V3Page);
    if page.Success? && page.value.next.Some? {
      SuccessMeansEveryPageAnswered(server, Request(page.value.next.value, later), later, fuel - 1);
    }
  }

  // ---------------------------------------------------------------------
  // Version 4

  /** `_parse_odata4_request`: a Singleton is the object without its
      `@odata.context`; an EntitySet is its `value` and the raw
      `@odata.nextLink`, if present; any other kind is an error. */
  function ParseOData4(body: Value, kind: Value): (r: Result<(Value, Option<Value>), Error>)
    ensures kind == Str("Singleton") ==> (r.Success? <==> body.Obj? && "@odata.context" in body.fields)
    ensures kind == Str("Singleton") && r.Success? ==>
              r.value == (Obj(body.fields - {"@odata.context"}), None)
    ensures kind == Str("EntitySet") ==> (r.Success? <==> body.Obj? && "value" in body.fields)
    ensures kind == Str("EntitySet") && r.Success? ==>
              && r.value.0 == body.fields["value"]
              && (r.value.1.Some? <==> "@odata.nextLink" in body.fields)
              && (r.value.1.Some? ==> r.value.1.value == body.fields["@odata.nextLink"])
    ensures kind != Str("Singleton") && kind != Str("EntitySet") ==> r == Failure(UnknownKind(kind))
  {
    if kind == Str("Singleton") then
      match body
      case Obj(m) =>
        if "@odata.context" in m then Success((Obj(m - {"@odata.context"}), None))
        else Failure(KeyError("@odata.context"))
      case _ => Failure(TypeError)
    else if kind == Str("EntitySet") then
      match body
      case Obj(m) =>
        if "value" !in m then Failure(KeyError("value"))
        else if "@odata.nextLink" in m then Success((m["value"], Some(m["@odata.nextLink"])))
        else Success((m["value"], None))
      case _ => Failure(TypeError)
    else Failure(UnknownKind(kind))
  }

  /** The `and next_link` test of `_odata4_request`: a falsy link (absent,
      null, empty) ends the download; a truthy one must be a URL. */
  function LinkTarget(link: Option<Value>): (r: Result<Option<string>, Error>)
    ensures r == Success(None) <==> link.None? || !Truthy(link.value)
    ensures (exists u :: r == Success(Some(u))) <==> link.Some? && link.value.Str? && link.value.s != ""
  {
    match link
    case None => Success(None)
    case Some(v) =>
      if !Truthy(v) then Success(None)
      else if v.Str? then Success(Some(v.s))
      else Failure(InvalidLink(v))
  }

  /** `_odata4_request`: download one resource of the given kind; an
      EntitySet follows its links (re-sending the same parameters) when
      `follow` is set, and appends each next page to the current one. */
  function Request4(server: Server, url: string, kind: Value, params: Params, follow: bool, fuel: nat)
    : (r: Result<Value, Error>)
    ensures r.Success? && kind == Str("Singleton") ==> r.value.Obj? && "@odata.context" !in r.value.fields
    decreases fuel
  {
    if fuel == 0 then Failure(LinkChainTooLong)
    else
      match server(Request(url, params))
      case Failed(status) => Failure(RemoteFetchError(url, status))
      case Ok(body) =>
        var parsed :- ParseOData4(body, kind);
        var data := parsed.0;
        if kind == Str("EntitySet") && follow then
          var target :- LinkTarget(parsed.1);
          if target.None? then Success(data)
          else
            var rest :- Request4(server, target.value, kind, params, true, fuel - 1);
            if data.Arr? && rest.Arr? then Success(Arr(data.items + rest.items)) else Failure(TypeError)
        else Success(data)
  }

  /** How the version-4 fetch reads one EntitySet page. */
  function EntitySetPage(body: Value): Result<Page, Error> {
    var parsed :- ParseOData4(body, Str("EntitySet"));
    if !parsed.0.Arr? then Failure(TypeError)
    else
      var target :- LinkTarget(parsed.1);
      Success(Page(parsed.0.items, target))
  }

  /** For a finite EntitySet chain whose every request re-sends the first
      request's parameters, the result is the array of every page's rows in
      page order. */
  lemma {:induction false} Request4FollowsChain(server: Server, url: string, params: Params, pages: seq<Page>, fuel: nat)
    requires IsChain(server, EntitySetPage, Request(url, params), params, pages)
    requires |pages| <= fuel
    ensures Request4(server, url, Str("EntitySet"), params, true, fuel) == Success(Arr(Rows(pages)))
    decreases |pages|
  {
    if |pages| == 1 {
      Request4Last(server, url, params, pages, fuel);
    } else {
      var next := pages[0].next.value;
      assert IsChain(server, EntitySetPage, Request(next, params), params, pages[1..]) by {
        ChainTail(server, EntitySetPage, Request(url, params), params, pages);
      }
      Request4FollowsChain(server, next, params, pages[1..], fuel - 1);
      Request4Link(server, url, params, pages, fuel);
    }
  }

  /** A one-page EntitySet chain is the whole answer. */
  lemma Request4Last(server: Server, url: string, params: Params, pages: seq<Page>, fuel: nat)
    requires IsChain(server, EntitySetPage, Request(url, params), params, pages)
    requires |pages| == 1 <= fuel
    ensures Request4(server, url, Str("EntitySet"), params, true, fuel) == Success(Arr(Rows(pages)))
  {
    ChainHead(server, EntitySetPage, Request(url, params), params, pages);
    assert Rows(pages[1..]) == [];
    assert Rows(pages) == pages[0].rows;
    Request4Page(server, url, params, pages[0], Rows(pages), fuel);
  }

  /** The first page of a longer chain puts its rows before those of the
      rest of the chain. */
  lemma Request4Link(server: Server, url: string, params: Params, pages: seq<Page>, fuel: nat)
    requires IsChain(server, EntitySetPage, Request(url, params), params, pages)
    requires 1 < |pages| <= fuel
    requires Request4(server, pages[0].next.value, Str("EntitySet"), params, true, fuel - 1) == Success(Arr(Rows(pages[1..])))
    ensures Request4(server, url, Str("EntitySet"), params, true, fuel) == Success(Arr(Rows(pages)))
  {
    ChainHead(server, EntitySetPage, Request(url, params), params, pages);
    assert Rows(pages) == pages[0].rows + Rows(pages[1..]);
    Request4Page(server, url, params, pages[0], Rows(pages[1..]), fuel);
  }

  /** One EntitySet page: without a link its rows are the whole answer;
      with one, they come before the rows of the rest of the chain. */
  lemma Request4Page(server: Server, url: string, params: Params, page: Page, rest: seq<Value>, fuel: nat)
    requires fuel > 0 && Fetch(server, Request(url, params), EntitySetPage) == Success(page)
    ensures page.next.None? ==> Request4(server, url, Str("EntitySet"), params, true, fuel) == Success(Arr(page.rows))
    ensures page.next.Some? && Request4(server, page.next.value, Str("EntitySet"), params, true, fuel - 1) == Success(Arr(rest))
            ==> Request4(server, url, Str("EntitySet"), params, true, fuel) == Success(Arr(page.rows + rest))
  {
  }

  /** A Singleton never follows a link: only the answer to its one request matters. */
  lemma SingletonSinglePage(s1: Server, s2: Server, url: string, params: Params, follow: bool, fuel: nat)
    requires s1(Request(url, params)) == s2(Request(url, params))
    ensures Request4(s1, url, Str("Singleton"), params, follow, fuel)
         == Request4(s2, url, Str("Singleton"), params, follow, fuel)
  {
  }
}
