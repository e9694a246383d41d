/** The paginated list walk (src/api/client.ts): every page request first
    validates (or refreshes) the access token and then sends the GET; the
    walk requests pages 0, 1, 2, ... of 50 items, threads the newest token
    set through the pages, and stops at the server's count or after 100
    pages. The list endpoint is the oracle `get`, the clock is `clock(p)`,
    the instant at which page `p` is handled. */
module Client {
  import opened Types
  import opened Http
  import opened Auth

  const PageSize: nat := 50
  const MaxPages: nat := 100
  const ApiFailedPrefix: string := "API request failed: "

  /** What one authenticated request yields: the page, and the new token set if the token was refreshed. */
  datatype PageResult = PageResult(data: ApiResponse, updatedTokens: Option<AuthTokens>)

  /** What the walk yields: every fetched item, and the token set of the last refresh, if any. */
  datatype LinksResult = LinksResult(links: seq<RaindropLink>, updatedTokens: Option<AuthTokens>)

  /** The access token in force after the requests `calls`, `initial` being the one in force before. */
  function AccessAfter(initial: string, calls: seq<Call>, post: TokenEndpoint): string
  {
    match LastGrant(calls, post)
    case None => initial
    case Some(grant) => grant.accessToken
  }

  /** The refresh token in force after the requests `calls`. */
  function RefreshAfter(initial: string, calls: seq<Call>, post: TokenEndpoint): string
  {
    match LastGrant(calls, post)
    case None => initial
    case Some(grant) => grant.refreshToken
  }

  /** Request `c`, sent after `before`, uses the token set in force at that
      moment: a page request carries the newest access token, a refresh
      request the newest refresh token. */
  predicate UsesTokensInForce(c: Call, before: seq<Call>, creds: Credentials, access0: string, refresh0: string, post: TokenEndpoint)
  {
    match c
    case PageGet(_, bearer) => bearer == AccessAfter(access0, before, post)
    case TokenPost(form) => form == RefreshForm(creds, RefreshAfter(refresh0, before, post))
  }

  /** Every request of the trace uses the token set in force when it is sent. */
  ghost predicate Threaded(calls: seq<Call>, creds: Credentials, access0: string, refresh0: string, post: TokenEndpoint)
  {
    forall j :: 0 <= j < |calls| ==> UsesTokensInForce(calls[j], calls[..j], creds, access0, refresh0, post)
  }

  lemma {:induction false} ThreadedAppend(a: seq<Call>, b: seq<Call>, creds: Credentials, access0: string, refresh0: string, post: TokenEndpoint)
    requires Threaded(a, creds, access0, refresh0, post)
    requires Threaded(b, creds, AccessAfter(access0, a, post), RefreshAfter(refresh0, a, post), post)
    ensures Threaded(a + b, creds, access0, refresh0, post)
  {
    var ab := a + b;
    forall j | 0 <= j < |ab| ensures UsesTokensInForce(ab[j], ab[..j], creds, access0, refresh0, post) {
      if j < |a| {
        assert ab[..j] == a[..j] && ab[j] == a[j];
      } else {
        var k := j - |a|;
        assert ab[..j] == a + b[..k] && ab[j] == b[k];
        LastGrantAppend(a, b[..k], post);
        assert UsesTokensInForce(b[k], b[..k], creds, AccessAfter(access0, a, post), RefreshAfter(refresh0, a, post), post);
      }
    }
  }

  /** The message of the Error that a failed request of the walk ends in. */
  function FailureMessage(c: Call, post: TokenEndpoint, get: ListEndpoint): string
    requires !Succeeded(c, post, get)
  {
    match c
    case TokenPost(form) => WrapError(RefreshFailedPrefix, post(form).error)
    case PageGet(page, bearer) => WrapError(ApiFailedPrefix, get(page, bearer).error)
  }

  /** One page request: validate or refresh the token, then GET the page with it. */
  function MakeAuthenticatedRequest(creds: Credentials, tokens: AuthTokens, now: int,
                                    post: TokenEndpoint, get: ListEndpoint, page: nat): (r: Traced<PageResult>)
  {
    var validation := GetValidAccessToken(creds, tokens, now, post);
    match validation.result
    case Err(m) => Traced(Err(m), validation.calls)
    case Ok(grant) =>
      var calls := validation.calls + [PageGet(page, grant.accessToken)];
      match get(page, grant.accessToken)
      case Response(data) => Traced(Ok(PageResult(data, grant.updatedTokens)), calls)
      case Thrown(e) => Traced(Err(WrapError(ApiFailedPrefix, e)), calls)
  }

  /** A page request sends at most one request to the token endpoint (a
      refresh with the stored refresh token, exactly when the token set is
      expired) and it comes before the GET, which is for `page`. */
  lemma AuthenticatedRequestValidatesFirst(creds: Credentials, tokens: AuthTokens, now: int,
                                           post: TokenEndpoint, get: ListEndpoint, page: nat)
    ensures var r := MakeAuthenticatedRequest(creds, tokens, now, post, get, page);
      var last := r.calls[|r.calls| - 1];
      && 1 <= |r.calls| <= 2
      && (forall i :: 0 <= i < |r.calls| - 1 ==> r.calls[i].TokenPost? && Succeeded(r.calls[i], post, get))
      && (!IsTokenExpired(tokens, now) ==> r.calls == [PageGet(page, tokens.accessToken)])
      && (IsTokenExpired(tokens, now) ==> r.calls[0] == TokenPost(RefreshForm(creds, tokens.refreshToken)))
      && PageGets(r.calls) == (if last.PageGet? then [last] else [])
      && (last.PageGet? ==> last.page == page)
  {
  }

  /** A page request fails exactly when its last request fails, with that
      request's error; when it succeeds its last request is the GET of
      `page` and the page is what the endpoint answered. */
  lemma AuthenticatedRequestOutcome(creds: Credentials, tokens: AuthTokens, now: int,
                                    post: TokenEndpoint, get: ListEndpoint, page: nat)
    ensures var r := MakeAuthenticatedRequest(creds, tokens, now, post, get, page);
      var last := r.calls[|r.calls| - 1];
      && |r.calls| >= 1
      && (r.result.Err? <==> !Succeeded(last, post, get))
      && (r.result.Err? ==> r.result.message == FailureMessage(last, post, get))
      && (r.result.Ok? ==> last.PageGet? && last.page == page && get(page, last.bearer) == Response(r.result.value.data))
  {
  }

  /** The GET of a page request carries the token in force after its
      validation, and the request reports a new token set exactly when a
      refresh was granted, namely the set that refresh grants. */
  lemma AuthenticatedRequestTokens(creds: Credentials, tokens: AuthTokens, now: int,
                                   post: TokenEndpoint, get: ListEndpoint, page: nat)
    ensures var r := MakeAuthenticatedRequest(creds, tokens, now, post, get, page);
      r.result.Ok? ==>
        var grant := LastGrant(r.calls, post);
        && r.calls[|r.calls| - 1] == PageGet(page, AccessAfter(tokens.accessToken, r.calls, post))
        && (grant.None? <==> r.result.value.updatedTokens.None?)
        && (grant.Some? ==> r.result.value.updatedTokens == Some(TokensFromResponse(grant.value, now)))
    ensures Threaded(MakeAuthenticatedRequest(creds, tokens, now, post, get, page).calls,
                     creds, tokens.accessToken, tokens.refreshToken, post)
  {
    var validation := GetValidAccessToken(creds, tokens, now, post);
    if validation.result.Ok? {
      var calls := validation.calls + [PageGet(page, validation.result.value.accessToken)];
      assert calls[..|calls| - 1] == validation.calls;
      assert IsTokenExpired(tokens, now) ==> calls[..1] == validation.calls;
      assert LastGrant(calls, post) == LastGrant(validation.calls, post);
      assert IsTokenExpired(tokens, now) ==> LastGrant(validation.calls, post) == Some(post(validation.calls[0].form).body);
    }
  }

  /** How the walk fetches one page: the page request for page `p` made
      with the token set `t` in force. */
  type PageFetch = (AuthTokens, nat) -> Traced<PageResult>

  /** The page request of getAllLinks: makeAuthenticatedRequest for page `p`
      at the instant `clock(p)`. */
  function PageFetcher(creds: Credentials, clock: nat -> int, post: TokenEndpoint, get: ListEndpoint): PageFetch
  {
    (t: AuthTokens, p: nat) => MakeAuthenticatedRequest(creds, t, clock(p), post, get, p)
  }

  /** The token set in force after a page request made with `tokens`. */
  function TokensAfter(tokens: AuthTokens, result: PageResult): AuthTokens
  {
    if result.updatedTokens.Some? then result.updatedTokens.value else tokens
  }

  /** The last refreshed token set after a page request, `final` being the one before. */
  function FinalAfter(final: Option<AuthTokens>, result: PageResult): Option<AuthTokens>
  {
    if result.updatedTokens.Some? then result.updatedTokens else final
  }

  /** The walk from page `page` on, with `tokens` in force, `final` the last
      refreshed token set so far and `links` the items collected so far. */
  function Walk(fetch: PageFetch, page: nat, tokens: AuthTokens, final: Option<AuthTokens>, links: seq<RaindropLink>): Traced<LinksResult>
    decreases MaxPages - page
  {
    if page >= MaxPages then Traced(Ok(LinksResult(links, final)), [])
    else
      var step := fetch(tokens, page);
      match step.result
      case Err(m) => Traced(Err(m), step.calls)
      case Ok(result) =>
        var links' := links + result.data.items;
        if (page + 1) * PageSize < result.data.count then
          var rest := Walk(fetch, page + 1, TokensAfter(tokens, result), FinalAfter(final, result), links');
          Traced(rest.result, step.calls + rest.calls)
        else
          Traced(Ok(LinksResult(links', FinalAfter(final, result))), step.calls)
  }

  /** What the walk's page facts rest on: a page request for `page` sends at
      least one request and at most one GET; when it succeeds, that GET is
      its last request, is for `page` and was answered with the page. */
  predicate FetchesPage(r: Traced<PageResult>, page: nat, get: ListEndpoint)
  {
    && |r.calls| >= 1
    && |PageGets(r.calls)| <= 1
    && ConsecutiveFrom(PageGets(r.calls), page)
    && (r.result.Ok? ==>
          var last := r.calls[|r.calls| - 1];
          && last.PageGet? && last.page == page
          && PageGets(r.calls) == [last]
          && get(page, last.bearer) == Response(r.result.value.data))
  }

  /** A page request whose requests all succeeded but the last, and which
      fails exactly when the last fails, with that request's error. */
  predicate FailsOnLastCall(r: Traced<PageResult>, post: TokenEndpoint, get: ListEndpoint)
  {
    && |r.calls| >= 1
    && (forall i :: 0 <= i < |r.calls| - 1 ==> Succeeded(r.calls[i], post, get))
    && (r.result.Err? <==> !Succeeded(r.calls[|r.calls| - 1], post, get))
    && (r.result.Err? ==> r.result.message == FailureMessage(r.calls[|r.calls| - 1], post, get))
  }

  /** A page request made with `tokens` in force whose requests use the
      tokens in force, and which reports a new token set exactly when a
      refresh was granted, with the tokens that refresh granted. */
  ghost predicate KeepsTokensInForce(r: Traced<PageResult>, tokens: AuthTokens, creds: Credentials, post: TokenEndpoint)
  {
    && Threaded(r.calls, creds, tokens.accessToken, tokens.refreshToken, post)
    && (r.result.Ok? ==>
          var grant := LastGrant(r.calls, post);
          var updated := r.result.value.updatedTokens;
          && (grant.None? <==> updated.None?)
          && (grant.Some? ==> updated.value.accessToken == grant.value.accessToken
                              && updated.value.refreshToken == grant.value.refreshToken))
  }

  /** makeAuthenticatedRequest, as getAllLinks calls it, requests the page
      it is asked for, for every token set and every page. */
  lemma PageFetcherFetchesPage(creds: Credentials, clock: nat -> int, post: TokenEndpoint, get: ListEndpoint)
    ensures forall t: AuthTokens, p: nat :: FetchesPage(PageFetcher(creds, clock, post, get)(t, p), p, get)
  {
    forall t: AuthTokens, p: nat ensures FetchesPage(PageFetcher(creds, clock, post, get)(t, p), p, get) {
      AuthenticatedRequestValidatesFirst(creds, t, clock(p), post, get, p);
      AuthenticatedRequestOutcome(creds, t, clock(p), post, get, p);
    }
  }

  /** makeAuthenticatedRequest, as getAllLinks calls it, fails only on its last request. */
  lemma PageFetcherFailsOnLastCall(creds: Credentials, clock: nat -> int, post: TokenEndpoint, get: ListEndpoint)
    ensures forall t: AuthTokens, p: nat :: FailsOnLastCall(PageFetcher(creds, clock, post, get)(t, p), post, get)
  {
    forall t: AuthTokens, p: nat ensures FailsOnLastCall(PageFetcher(creds, clock, post, get)(t, p), post, get) {
      AuthenticatedRequestValidatesFirst(creds, t, clock(p), post, get, p);
      AuthenticatedRequestOutcome(creds, t, clock(p), post, get, p);
    }
  }

  /** makeAuthenticatedRequest, as getAllLinks calls it, uses and reports the tokens in force. */
  lemma PageFetcherKeepsTokens(creds: Credentials, clock: nat -> int, post: TokenEndpoint, get: ListEndpoint)
    ensures forall t: AuthTokens, p: nat :: KeepsTokensInForce(PageFetcher(creds, clock, post, get)(t, p), t, creds, post)
  {
    forall t: AuthTokens, p: nat ensures KeepsTokensInForce(PageFetcher(creds, clock, post, get)(t, p), t, creds, post) {
      AuthenticatedRequestTokens(creds, t, clock(p), post, get, p);
    }
  }

  /** The items of the pages answered to the page requests `gs`, in order. */
  function PageItems(gs: seq<Call>, get: ListEndpoint): seq<RaindropLink>
  {
    if gs == [] then []
    else
      var items := match gs[0]
        case PageGet(page, bearer) => (if get(page, bearer).Response? then get(page, bearer).body.items else [])
        case TokenPost(_) => [];
      items + PageItems(gs[1..], get)
  }

  /** `gs` are GETs of the consecutive pages `from`, `from + 1`, ... */
  predicate ConsecutiveFrom(gs: seq<Call>, from: nat)
  {
    forall i :: 0 <= i < |gs| ==> gs[i].PageGet? && gs[i].page == from + i
  }

  /** Every GET of `gs` but the last was answered with a count that leaves items after its page. */
  predicate MoreAfterAllButLast(gs: seq<Call>, get: ListEndpoint)
  {
    forall i :: 0 <= i < |gs| - 1 ==>
      && gs[i].PageGet?
      && get(gs[i].page, gs[i].bearer).Response?
      && (gs[i].page + 1) * PageSize < get(gs[i].page, gs[i].bearer).body.count
  }

  /** The last GET of `gs` was answered, and it was for the hundredth page or
      its count leaves no item after it. */
  predicate EndsAtLastPage(gs: seq<Call>, get: ListEndpoint)
  {
    && |gs| >= 1
    && gs[|gs| - 1].PageGet?
    && var last := gs[|gs| - 1];
       && get(last.page, last.bearer).Response?
       && (last.page + 1 == MaxPages || (last.page + 1) * PageSize >= get(last.page, last.bearer).body.count)
  }

  lemma ConsecutiveCons(g: Call, gs: seq<Call>, from: nat)
    requires g.PageGet? && g.page == from && ConsecutiveFrom(gs, from + 1)
    ensures ConsecutiveFrom([g] + gs, from)
  {
    var all := [g] + gs;
    forall i | 0 < i < |all| ensures all[i] == gs[i - 1] {
    }
  }

  lemma MoreAfterCons(g: Call, gs: seq<Call>, get: ListEndpoint)
    requires g.PageGet? && get(g.page, g.bearer).Response? && (g.page + 1) * PageSize < get(g.page, g.bearer).body.count
    requires MoreAfterAllButLast(gs, get)
    ensures MoreAfterAllButLast([g] + gs, get)
  {
    var all := [g] + gs;
    forall i | 0 < i < |all| ensures all[i] == gs[i - 1] {
    }
  }

  lemma EndsAtLastPageCons(g: Call, gs: seq<Call>, get: ListEndpoint)
    requires EndsAtLastPage(gs, get)
    ensures EndsAtLastPage([g] + gs, get)
  {
    assert ([g] + gs)[|gs|] == gs[|gs| - 1];
  }

  lemma PageItemsCons(g: Call, gs: seq<Call>, get: ListEndpoint)
    requires g.PageGet? && get(g.page, g.bearer).Response?
    ensures PageItems([g] + gs, get) == get(g.page, g.bearer).body.items + PageItems(gs, get)
  {
    assert ([g] + gs)[1..] == gs;
  }

  lemma ConcatAssoc<T>(a: seq<T>, b: seq<T>, c: seq<T>)
    ensures (a + b) + c == a + (b + c)
  {
  }

  /** The walk requests consecutive pages starting at `page`, and never more than the cap allows. */
  lemma {:induction false} WalkRequestsConsecutivePages(fetch: PageFetch, get: ListEndpoint, page: nat,
                                                        tokens: AuthTokens, final: Option<AuthTokens>, links: seq<RaindropLink>)
    requires page <= MaxPages
    requires forall t: AuthTokens, p: nat {:trigger FetchesPage(fetch(t, p), p, get)} :: FetchesPage(fetch(t, p), p, get)
    ensures var gs := PageGets(Walk(fetch, page, tokens, final, links).calls);
      |gs| <= MaxPages - page && ConsecutiveFrom(gs, page)
    decreases MaxPages - page
  {
    var w := Walk(fetch, page, tokens, final, links);
    if page < MaxPages {
      var step := fetch(tokens, page);
      assert FetchesPage(step, page, get);
      var last := step.calls[|step.calls| - 1];
      if step.result.Ok? && (page + 1) * PageSize < step.result.value.data.count {
        var result := step.result.value;
        var next := TokensAfter(tokens, result);
        var final' := FinalAfter(final, result);
        var links' := links + result.data.items;
        var rest := Walk(fetch, page + 1, next, final', links');
        assert w.calls == step.calls + rest.calls;
        WalkRequestsConsecutivePages(fetch, get, page + 1, next, final', links');
        PageGetsAppend(step.calls, rest.calls);
        ConsecutiveCons(last, PageGets(rest.calls), page);
      } else {
        assert w.calls == step.calls;
      }
    } else {
      assert w.calls == [];
    }
  }

  /** The walk goes past a page only when that page was answered and its
      reported count says that items remain after it. */
  lemma {:induction false} WalkContinuesOnlyWhileMore(fetch: PageFetch, get: ListEndpoint, page: nat,
                                                      tokens: AuthTokens, final: Option<AuthTokens>, links: seq<RaindropLink>)
    requires forall t: AuthTokens, p: nat {:trigger FetchesPage(fetch(t, p), p, get)} :: FetchesPage(fetch(t, p), p, get)
    ensures MoreAfterAllButLast(PageGets(Walk(fetch, page, tokens, final, links).calls), get)
    decreases MaxPages - page
  {
    var w := Walk(fetch, page, tokens, final, links);
    if page < MaxPages {
      var step := fetch(tokens, page);
      assert FetchesPage(step, page, get);
      var last := step.calls[|step.calls| - 1];
      if step.result.Ok? && (page + 1) * PageSize < step.result.value.data.count {
        var result := step.result.value;
        var next := TokensAfter(tokens, result);
        var final' := FinalAfter(final, result);
        var links' := links + result.data.items;
        var rest := Walk(fetch, page + 1, next, final', links');
        assert w.calls == step.calls + rest.calls;
        WalkContinuesOnlyWhileMore(fetch, get, page + 1, next, final', links');
        PageGetsAppend(step.calls, rest.calls);
        MoreAfterCons(last, PageGets(rest.calls), get);
      } else {
        assert w.calls == step.calls;
      }
    } else {
      assert w.calls == [];
    }
  }

  lemma EndsAfterStep(step: Traced<PageResult>, page: nat, get: ListEndpoint, rest: Traced<LinksResult>)
    requires page < MaxPages && FetchesPage(step, page, get) && step.result.Ok?
    requires page + 1 < MaxPages ==> (rest.result.Ok? ==> EndsAtLastPage(PageGets(rest.calls), get))
    requires page + 1 >= MaxPages ==> rest.calls == []
    ensures rest.result.Ok? ==> EndsAtLastPage(PageGets(step.calls + rest.calls), get)
  {
    var last := step.calls[|step.calls| - 1];
    PageGetsAppend(step.calls, rest.calls);
    if page + 1 < MaxPages {
      if rest.result.Ok? {
        EndsAtLastPageCons(last, PageGets(rest.calls), get);
      }
    } else {
      assert PageGets(rest.calls) == [];
      assert [last] + [] == [last];
      assert EndsAtLastPage([last], get);
    }
  }

  /** A walk that succeeds requested at least one page, and its last page
      either was the hundredth or had no items left after it by its count. */
  lemma {:induction false} WalkStopsAtLastPage(fetch: PageFetch, get: ListEndpoint, page: nat,
                                               tokens: AuthTokens, final: Option<AuthTokens>, links: seq<RaindropLink>)
    requires page < MaxPages
    requires forall t: AuthTokens, p: nat {:trigger FetchesPage(fetch(t, p), p, get)} :: FetchesPage(fetch(t, p), p, get)
    ensures var w := Walk(fetch, page, tokens, final, links);
      w.result.Ok? ==> EndsAtLastPage(PageGets(w.calls), get)
    decreases MaxPages - page
  {
    var w := Walk(fetch, page, tokens, final, links);
    var step := fetch(tokens, page);
    if step.result.Ok? {
      assert FetchesPage(step, page, get);
      var last := step.calls[|step.calls| - 1];
      var result := step.result.value;
      var next := TokensAfter(tokens, result);
      var final' := FinalAfter(final, result);
      var links' := links + result.data.items;
      if (page + 1) * PageSize < result.data.count {
        var rest := Walk(fetch, page + 1, next, final', links');
        assert w == Traced(rest.result, step.calls + rest.calls);
        if page + 1 < MaxPages {
          WalkStopsAtLastPage(fetch, get, page + 1, next, final', links');
        } else {
          assert rest.calls == [];
        }
        EndsAfterStep(step, page, get, rest);
      } else {
        assert w.calls == step.calls;
        assert EndsAtLastPage([last], get);
      }
    }
  }

  lemma CollectedAfterStep(step: Traced<PageResult>, page: nat, get: ListEndpoint, links: seq<RaindropLink>, rest: Traced<LinksResult>)
    requires FetchesPage(step, page, get) && step.result.Ok?
    requires rest.result.Ok? ==>
      rest.result.value.links == (links + step.result.value.data.items) + PageItems(PageGets(rest.calls), get)
    ensures rest.result.Ok? ==>
      rest.result.value.links == links + PageItems(PageGets(step.calls + rest.calls), get)
  {
    var last := step.calls[|step.calls| - 1];
    PageGetsAppend(step.calls, rest.calls);
    var gr := PageGets(rest.calls);
    assert PageGets(step.calls + rest.calls) == [last] + gr;
    PageItemsCons(last, gr, get);
    ConcatAssoc(links, step.result.value.data.items, PageItems(gr, get));
  }

  /** A walk that succeeds returns the items collected before it followed by
      every requested page's items, in request order: nothing is dropped,
      filtered or reordered. */
  lemma {:induction false} WalkCollectsAllItems(fetch: PageFetch, get: ListEndpoint, page: nat,
                                                tokens: AuthTokens, final: Option<AuthTokens>, links: seq<RaindropLink>)
    requires forall t: AuthTokens, p: nat {:trigger FetchesPage(fetch(t, p), p, get)} :: FetchesPage(fetch(t, p), p, get)
    ensures var w := Walk(fetch, page, tokens, final, links);
      w.result.Ok? ==> w.result.value.links == links + PageItems(PageGets(w.calls), get)
    decreases MaxPages - page
  {
    var w := Walk(fetch, page, tokens, final, links);
    if page < MaxPages {
      var step := fetch(tokens, page);
      if step.result.Ok? {
        assert FetchesPage(step, page, get);
        var last := step.calls[|step.calls| - 1];
        var result := step.result.value;
        var next := TokensAfter(tokens, result);
        var final' := FinalAfter(final, result);
        var links' := links + result.data.items;
        if (page + 1) * PageSize < result.data.count {
          var rest := Walk(fetch, page + 1, next, final', links');
          assert w == Traced(rest.result, step.calls + rest.calls);
          WalkCollectsAllItems(fetch, get, page + 1, next, final', links');
          CollectedAfterStep(step, page, get, links, rest);
        } else {
          assert w == Traced(Ok(LinksResult(links', final')), step.calls);
          PageItemsCons(last, [], get);
          assert [last] + [] == [last];
          assert PageItems([], get) == [];
          assert result.data.items + [] == result.data.items;
        }
      } else {
        assert w.result.Err?;
      }
    } else {
      assert w == Traced(Ok(LinksResult(links, final)), []);
      assert links + PageItems(PageGets([]), get) == links;
    }
  }

  /** Every request but the last one succeeded, and the walk fails exactly
      when its last request failed, with that request's error: a failure
      aborts the whole walk and no partial list is returned. */
  lemma {:induction false} WalkFailsOnlyOnFailedRequest(fetch: PageFetch, post: TokenEndpoint, get: ListEndpoint, page: nat,
                                                        tokens: AuthTokens, final: Option<AuthTokens>, links: seq<RaindropLink>)
    requires forall t: AuthTokens, p: nat {:trigger FailsOnLastCall(fetch(t, p), post, get)} :: FailsOnLastCall(fetch(t, p), post, get)
    ensures var w := Walk(fetch, page, tokens, final, links);
      && (forall i :: 0 <= i < |w.calls| - 1 ==> Succeeded(w.calls[i], post, get))
      && (w.result.Err? <==> |w.calls| > 0 && !Succeeded(w.calls[|w.calls| - 1], post, get))
      && (w.result.Err? ==> w.result.message == FailureMessage(w.calls[|w.calls| - 1], post, get))
    decreases MaxPages - page
  {
    var w := Walk(fetch, page, tokens, final, links);
    if page < MaxPages {
      var step := fetch(tokens, page);
      assert FailsOnLastCall(step, post, get);
      if step.result.Ok? && (page + 1) * PageSize < step.result.value.data.count {
        var result := step.result.value;
        var next := TokensAfter(tokens, result);
        var final' := FinalAfter(final, result);
        var links' := links + result.data.items;
        var rest := Walk(fetch, page + 1, next, final', links');
        assert w == Traced(rest.result, step.calls + rest.calls);
        WalkFailsOnlyOnFailedRequest(fetch, post, get, page + 1, next, final', links');
        var all := step.calls + rest.calls;
        forall i | 0 <= i < |all| - 1 ensures Succeeded(all[i], post, get) {
          if i < |step.calls| - 1 {
            assert all[i] == step.calls[i];
          } else if i == |step.calls| - 1 {
            assert all[i] == step.calls[|step.calls| - 1];
          } else {
            assert all[i] == rest.calls[i - |step.calls|];
          }
        }
        if rest.calls != [] {
          assert all[|all| - 1] == rest.calls[|rest.calls| - 1];
        } else {
          assert rest.result.Ok?;
          assert all == step.calls;
        }
      } else {
        assert w.calls == step.calls;
        assert step.result.Ok? ==> w.result.Ok?;
        assert step.result.Err? ==> w.result == Err(step.result.message);
      }
    } else {
      assert w == Traced(Ok(LinksResult(links, final)), []);
    }
  }

  lemma ThreadedAfterStep(step: Traced<PageResult>, tokens: AuthTokens, creds: Credentials, post: TokenEndpoint, rest: seq<Call>)
    requires KeepsTokensInForce(step, tokens, creds, post) && step.result.Ok?
    requires var next := TokensAfter(tokens, step.result.value);
      Threaded(rest, creds, next.accessToken, next.refreshToken, post)
    ensures Threaded(step.calls + rest, creds, tokens.accessToken, tokens.refreshToken, post)
  {
    var next := TokensAfter(tokens, step.result.value);
    if LastGrant(step.calls, post).Some? {
      assert next == step.result.value.updatedTokens.value;
    } else {
      assert next == tokens;
    }
    ThreadedAppend(step.calls, rest, creds, tokens.accessToken, tokens.refreshToken, post);
  }

  /** Every request of the walk uses the token set in force when it is sent:
      once a page's validation has refreshed the tokens, all later requests
      use the new set. */
  lemma {:induction false} WalkThreadsTokens(fetch: PageFetch, creds: Credentials, post: TokenEndpoint, page: nat,
                                             tokens: AuthTokens, final: Option<AuthTokens>, links: seq<RaindropLink>)
    requires forall t: AuthTokens, p: nat {:trigger KeepsTokensInForce(fetch(t, p), t, creds, post)} :: KeepsTokensInForce(fetch(t, p), t, creds, post)
    ensures Threaded(Walk(fetch, page, tokens, final, links).calls, creds, tokens.accessToken, tokens.refreshToken, post)
    decreases MaxPages - page
  {
    var w := Walk(fetch, page, tokens, final, links);
    if page < MaxPages {
      var step := fetch(tokens, page);
      assert KeepsTokensInForce(step, tokens, creds, post);
      if step.result.Ok? && (page + 1) * PageSize < step.result.value.data.count {
        var result := step.result.value;
        var next := TokensAfter(tokens, result);
        var final' := FinalAfter(final, result);
        var links' := links + result.data.items;
        var rest := Walk(fetch, page + 1, next, final', links');
        assert w.calls == step.calls + rest.calls;
        WalkThreadsTokens(fetch, creds, post, page + 1, next, final', links');
        ThreadedAfterStep(step, tokens, creds, post, rest.calls);
      } else {
        assert w.calls == step.calls;
      }
    } else {
      assert w.calls == [];
    }
  }

  /** A walk that succeeds reports the token set of the last granted
      refresh, or what it started with (nothing, for a whole walk) when no
      refresh was granted. */
  lemma {:induction false} WalkReportsLastRefresh(fetch: PageFetch, creds: Credentials, post: TokenEndpoint, page: nat,
                                                  tokens: AuthTokens, final: Option<AuthTokens>, links: seq<RaindropLink>)
    requires forall t: AuthTokens, p: nat {:trigger KeepsTokensInForce(fetch(t, p), t, creds, post)} :: KeepsTokensInForce(fetch(t, p), t, creds, post)
    ensures var w := Walk(fetch, page, tokens, final, links);
      w.result.Ok? ==>
        match LastGrant(w.calls, post)
        case None => w.result.value.updatedTokens == final
        case Some(grant) =>
          && w.result.value.updatedTokens.Some?
          && w.result.value.updatedTokens.value.accessToken == grant.accessToken
          && w.result.value.updatedTokens.value.refreshToken == grant.refreshToken
    decreases MaxPages - page
  {
    var w := Walk(fetch, page, tokens, final, links);
    if page < MaxPages {
      var step := fetch(tokens, page);
      assert KeepsTokensInForce(step, tokens, creds, post);
      if step.result.Ok? && (page + 1) * PageSize < step.result.value.data.count {
        var result := step.result.value;
        var next := TokensAfter(tokens, result);
        var final' := FinalAfter(final, result);
        var links' := links + result.data.items;
        var rest := Walk(fetch, page + 1, next, final', links');
        assert w == Traced(rest.result, step.calls + rest.calls);
        WalkReportsLastRefresh(fetch, creds, post, page + 1, next, final', links');
        LastGrantAppend(step.calls, rest.calls, post);
      } else if step.result.Ok? {
        assert w == Traced(Ok(LinksResult(links + step.result.value.data.items, FinalAfter(final, step.result.value))), step.calls);
      }
    } else {
      assert w == Traced(Ok(LinksResult(links, final)), []);
      assert LastGrant([], post) == None;
    }
  }

  /** The whole walk of getAllLinks, from page 0 with the stored token set:
      it requests pages 0, 1, 2, ... (at most 100), goes on only while the
      reported count says that items remain, fails exactly when its last
      request failed, collects every page's items in order, uses the tokens
      in force for every request, and reports a refreshed token set only
      when a refresh was granted. */
  lemma WholeWalk(creds: Credentials, tokens: AuthTokens, clock: nat -> int, post: TokenEndpoint, get: ListEndpoint)
    ensures var w := Walk(PageFetcher(creds, clock, post, get), 0, tokens, None, []);
      var gs := PageGets(w.calls);
      && |gs| <= MaxPages && ConsecutiveFrom(gs, 0)
      && MoreAfterAllButLast(gs, get)
      && (w.result.Ok? ==> EndsAtLastPage(gs, get) && w.result.value.links == PageItems(gs, get))
      && (forall i :: 0 <= i < |w.calls| - 1 ==> Succeeded(w.calls[i], post, get))
      && (w.result.Err? <==> |w.calls| > 0 && !Succeeded(w.calls[|w.calls| - 1], post, get))
      && (w.result.Err? ==> w.result.message == FailureMessage(w.calls[|w.calls| - 1], post, get))
      && Threaded(w.calls, creds, tokens.accessToken, tokens.refreshToken, post)
      && (w.result.Ok? ==>
            match LastGrant(w.calls, post)
            case None => w.result.value.updatedTokens == None
            case Some(grant) =>
              && w.result.value.updatedTokens.Some?
              && w.result.value.updatedTokens.value.accessToken == grant.accessToken
              && w.result.value.updatedTokens.value.refreshToken == grant.refreshToken)
  {
    var fetch := PageFetcher(creds, clock, post, get);
    var w := Walk(fetch, 0, tokens, None, []);
    PageFetcherFetchesPage(creds, clock, post, get);
    PageFetcherFailsOnLastCall(creds, clock, post, get);
    PageFetcherKeepsTokens(creds, clock, post, get);
    WalkRequestsConsecutivePages(fetch, get, 0, tokens, None, []);
    WalkContinuesOnlyWhileMore(fetch, get, 0, tokens, None, []);
    WalkStopsAtLastPage(fetch, get, 0, tokens, None, []);
    WalkCollectsAllItems(fetch, get, 0, tokens, None, []);
    assert [] + PageItems(PageGets(w.calls), get) == PageItems(PageGets(w.calls), get);
    WalkFailsOnlyOnFailedRequest(fetch, post, get, 0, tokens, None, []);
    WalkThreadsTokens(fetch, creds, post, 0, tokens, None, []);
    WalkReportsLastRefresh(fetch, creds, post, 0, tokens, None, []);
  }

  /** A collection that fits in one page, read with a token set that is not
      about to expire, takes exactly one request: the GET of page 0 with the
      stored access token. */
  lemma SmallCollectionIsOneRequest(creds: Credentials, tokens: AuthTokens, clock: nat -> int, post: TokenEndpoint, get: ListEndpoint)
    requires !IsTokenExpired(tokens, clock(0))
    requires get(0, tokens.accessToken).Response? && get(0, tokens.accessToken).body.count <= PageSize
    ensures Walk(PageFetcher(creds, clock, post, get), 0, tokens, None, [])
            == Traced(Ok(LinksResult(get(0, tokens.accessToken).body.items, None)), [PageGet(0, tokens.accessToken)])
  {
    var items := get(0, tokens.accessToken).body.items;
    assert [] + items == items;
    assert [] + [PageGet(0, tokens.accessToken)] == [PageGet(0, tokens.accessToken)];
  }

  /** getAllLinks: walks the pages from 0 with the stored token set, and
      reports every item and the token set of the last refresh; what it
      sends and returns is the walk of WholeWalk. */
  method GetAllLinks(creds: Credentials, tokens: AuthTokens, clock: nat -> int, post: TokenEndpoint, get: ListEndpoint)
    returns (r: Result<LinksResult>, calls: seq<Call>)
    ensures Traced(r, calls) == Walk(PageFetcher(creds, clock, post, get), 0, tokens, None, [])
  {
    ghost var fetch := PageFetcher(creds, clock, post, get);
    ghost var target := Walk(fetch, 0, tokens, None, []);
    var allLinks: seq<RaindropLink> := [];
    var page: nat := 0;
    var hasMore := true;
    var currentTokens := tokens;
    var finalUpdatedTokens: Option<AuthTokens> := None;
    calls := [];
    while hasMore && page < MaxPages
      invariant page <= MaxPages
      invariant hasMore ==>
        var rest := Walk(fetch, page, currentTokens, finalUpdatedTokens, allLinks);
        target == Traced(rest.result, calls + rest.calls)
      invariant !hasMore ==> target == Traced(Ok(LinksResult(allLinks, finalUpdatedTokens)), calls)
      decreases MaxPages - page
    {
      ghost var walked := Walk(fetch, page, currentTokens, finalUpdatedTokens, allLinks);
      var step := MakeAuthenticatedRequest(creds, currentTokens, clock(page), post, get, page);
      assert step == fetch(currentTokens, page);
      ghost var before := calls;
      ghost var tokensBefore := currentTokens;
      ghost var finalBefore := finalUpdatedTokens;
      calls := calls + step.calls;
      if step.result.Err? {
        assert walked == Traced(Err(step.result.message), step.calls);
        return Err(step.result.message), calls;
      }
      var result := step.result.value;
      if result.updatedTokens.Some? {
        currentTokens := result.updatedTokens.value;
        finalUpdatedTokens := result.updatedTokens;
      }
      assert currentTokens == TokensAfter(tokensBefore, result);
      assert finalUpdatedTokens == FinalAfter(finalBefore, result);
      allLinks := allLinks + result.data.items;
      hasMore := (page + 1) * PageSize < result.data.count;
      page := page + 1;
      if hasMore {
        var rest := Walk(fetch, page, currentTokens, finalUpdatedTokens, allLinks);
        assert walked == Traced(rest.result, step.calls + rest.calls);
        assert before + (step.calls + rest.calls) == calls + rest.calls;
      } else {
        assert walked == Traced(Ok(LinksResult(allLinks, finalUpdatedTokens)), step.calls);
      }
    }
    if hasMore {
      assert calls + [] == calls;
    }
    r := Ok(LinksResult(allLinks, finalUpdatedTokens));
  }
}
