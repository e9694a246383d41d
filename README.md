# raindrop-bookmarks-fetcher: the synchronisation path in Dafny

This project models the part of raindrop-bookmarks-fetcher that synchronises a
user's raindrop.io bookmarks into the local bookmark database, and proves what
that part promises.

- **Auth** (`auth.dfy`, from `src/auth/auth.ts`) covers the OAuth 2.0 client.
  - It builds the authorize URL (section 4.1.1 of RFC 6749).
  - It builds the authorization-code and refresh-token grants (sections 4.1.3 and 6 of RFC 6749).
  - It maps a token response to a stored token set.
  - It tests expiry with a five-minute safety margin.
  - It decides whether a page request may use the stored access token or must first refresh it.
  - All of it is pure functions. The clock is a parameter `now` in epoch milliseconds, and the token endpoint is an oracle.
- **Http** (`http.dfy`) treats the HTTP transport (axios) as two oracles, one for the token endpoint and one for the list endpoint.
  - Every request sent is recorded, in order, as a `Call`.
  - This lets the model state how many requests are made, in which order, and with which token.
  - It also holds the error wrapping shared by all callers: an axios error becomes `prefix + (server text || transport message)`, and any other exception is rethrown unchanged.
- **Client** (`client.dfy`, from `src/api/client.ts`) holds the page walk.
  - `MakeAuthenticatedRequest` validates or refreshes the token, then sends the GET.
  - `Walk` is the reference definition of the page walk.
  - `GetAllLinks` is the `while` loop of the source, proved to send and return exactly what `Walk` does.
  - The clock is read once per page, as `clock(page)`.
  - The lemmas about `Walk` state the walk's properties:
    - consecutive pages from 0, and never more than 100;
    - it continues only while the reported count leaves items;
    - it collects every item, in order;
    - it aborts on the first failed request, with that request's error;
    - it uses the newest token set for every request;
    - it reports the last refresh.
- **FetchLinks** (`fetch_links.dfy`, from `src/fetch-links.ts`) models the whole run.
  - The run reads the configuration, loads the stored token set, opens the database and fetches every link.
  - It persists a refreshed token set, then saves the links in batches of ten, with a pause between batches. It adds up the counts of every batch whose save answered.
  - Every effect on the outside world is recorded, in order, as an `Effect`.
  - The outcomes of the calls into storage are parameters: `stored` (what loadTokens yields), `dbInit` and `persisted`. `saveBookmarksBatch` is an oracle `save`.
  - `SaveInBatches` is the batch `for` loop as a method, proved equal to the reference functions `Schedule` and `Totals`.
  - `FetchLinks` is the run as a method, proved equal to the reference function `FetchLinksRun`.
- **Types** (`types.dfy`) holds the record shapes of `src/types/auth.ts` and `src/types/raindrop.ts`.

## Model

| member | source | states |
|---|---|---|
| Auth.AuthorizeParams | src/auth/auth.ts:10-18 | The authorize parameters are `client_id`, `redirect_uri`, `response_type` in that order, plus `state` last exactly when a non-empty state is given. Each value is the credential's, `code`, or the given state. |
| Auth.CreateAuthUrl | src/auth/auth.ts:6-21 | The URL is `https://raindrop.io/oauth/authorize?` followed by `client_id=…&redirect_uri=…&response_type=code`, with `&state=…` appended only for a non-empty state. |
| Auth.CodeExchangeForm | src/auth/auth.ts:29-35 | The code-exchange body carries `grant_type=authorization_code`, the code, the client id and secret, and the redirect URI. |
| Auth.RefreshForm | src/auth/auth.ts:67-72 | The refresh body carries `grant_type=refresh_token`, the given refresh token, and the client id and secret. It carries no `redirect_uri`. |
| Auth.ExchangeCodeForTokens | src/auth/auth.ts:23-59 | Sends exactly one request, the POST of the code-exchange body, and no retry after a failure. Succeeds exactly when that POST is answered. The tokens are then `access_token`, `refresh_token` and `now + expires_in*1000`. An axios failure gives a message starting "OAuth token exchange failed: "; any other failure keeps its own message. |
| Auth.RefreshAccessToken | src/auth/auth.ts:61-94 | The same for the one POST of the refresh body, with the prefix "Token refresh failed: ". |
| Auth.GetValidAccessToken | src/auth/auth.ts:100-116 | A token set that is not expired gives its own access token, no new set, and no request. An expired one gives exactly one refresh request with the stored refresh token. It succeeds exactly when that refresh does, and then hands back the new access token and the whole new set; otherwise it fails with the refresh's error. |
| Auth.IsTokenExpired | src/auth/auth.ts:96-98 | The expiry test; its properties are stated by `Auth.ExpiryMarginBoundary` and `Auth.ExpiryIsMonotone`. |
| Auth.ExpiryMarginBoundary | src/auth/auth.ts:96-98 | A token set counts as expired at exactly five minutes before `expiresAt`, and not one millisecond earlier. |
| Auth.ExpiryIsMonotone | src/auth/auth.ts:96-98 | Once expired, a token set stays expired as the clock advances. |
| Auth.FreshTokensExpiry | src/auth/auth.ts:44-48 | A granted set expires after `now` exactly when `expires_in > 0`. It is usable at once exactly when `expires_in > 300`. |
| Auth.RefreshedTokensNeedNoSecondRefresh | src/auth/auth.ts:100-116 | After a refresh that grants more than five minutes, validating the new set at the same instant uses it unchanged with no request. |
| Http.WrapError | src/api/client.ts:27-36 | An axios error gives a message starting with the caller's prefix; any other error is rethrown with its own message. |
| Client.MakeAuthenticatedRequest | src/api/client.ts:8-37 | One page request; what it sends and yields is stated by `Client.AuthenticatedRequestValidatesFirst`, `Client.AuthenticatedRequestOutcome` and `Client.AuthenticatedRequestTokens`. |
| Client.AuthenticatedRequestValidatesFirst | src/api/client.ts:13-21 | A page request sends one or two requests. Any token request comes first: it is the refresh with the stored refresh token, sent exactly when the set is expired, and it was answered. At most one GET is sent, it is the last request, and it is for the requested page. A token set that is not expired gives exactly `GET page` with the stored token. |
| Client.AuthenticatedRequestOutcome | src/api/client.ts:23-36 | A page request fails exactly when its last request fails, with that request's wrapped error ("Token refresh failed: " or "API request failed: "). On success its last request is the GET of the page, and the data is that GET's answer. |
| Client.AuthenticatedRequestTokens | src/api/client.ts:13-26 | The GET carries the access token in force after validation. The request reports a new token set exactly when a refresh was granted, namely the set built from that grant at `now`. Every request uses the tokens in force. |
| Client.PageFetcherFetchesPage | src/api/client.ts:50-56 | The page request getAllLinks makes for page `p` requests page `p`, for every token set and page. |
| Client.PageFetcherFailsOnLastCall | src/api/client.ts:50-56 | That page request fails only on its last request, and with its error. |
| Client.PageFetcherKeepsTokens | src/api/client.ts:50-56 | That page request uses the token set in force and reports exactly the tokens a granted refresh gave. |
| Client.Walk | src/api/client.ts:39-72 | The reference definition of the page walk; its properties are stated by the `Client.Walk…` lemmas below and gathered in `Client.WholeWalk`. |
| Client.WalkRequestsConsecutivePages | src/api/client.ts:44-65 | The walk's GETs are for pages `page`, `page+1`, … consecutively, and there are at most `100 - page` of them. |
| Client.WalkContinuesOnlyWhileMore | src/api/client.ts:64 | Every GET but the last was answered with a count such that `(p+1)*50 < count`. |
| Client.WalkStopsAtLastPage | src/api/client.ts:49-65 | A successful walk requested at least one page. Its last page was answered and was either page 99 or had `(p+1)*50 >= count`. |
| Client.WalkCollectsAllItems | src/api/client.ts:63-70 | A successful walk returns the items already collected, followed by every requested page's items in request order. |
| Client.WalkFailsOnlyOnFailedRequest | src/api/client.ts:49-66 | Every request but the last succeeded. The walk fails exactly when its last request failed, with that request's error, and returns no list. |
| Client.WalkThreadsTokens | src/api/client.ts:58-60 | Every request uses the token set in force when it is sent: after a refresh, all later GETs and refreshes use the new set. |
| Client.WalkReportsLastRefresh | src/api/client.ts:58-71 | A successful walk reports nothing new when no refresh was granted. Otherwise it reports the access and refresh tokens of the last granted refresh. |
| Client.WholeWalk | src/api/client.ts:39-72 | All of the above for the walk of getAllLinks from page 0 with the stored token set: consecutive pages from 0 (at most 100), continuing only while items remain, every page's items in order, failure exactly on a failed last request with its error, the tokens in force for every request, and no new token set unless a refresh was granted, in which case the access and refresh tokens of the last granted one. |
| Client.SmallCollectionIsOneRequest | src/api/client.ts:64 | With a valid token and a page 0 whose count is at most 50, the walk is exactly one GET of page 0 with the stored token. It returns that page's items and no new tokens. |
| Client.GetAllLinks | src/api/client.ts:39-72 | The loop sends exactly the requests of the walk from page 0 and returns exactly its result. |
| FetchLinks.CredentialsFromEnv | src/fetch-links.ts:15-20 | The credentials read from the environment; stated by `FetchLinks.MissingConfigDefaults`. |
| FetchLinks.MissingConfigDefaults | src/fetch-links.ts:15-20 | A set, non-empty variable is used as it is. A missing or empty one gives an empty client id or secret, and `http://localhost:3000/callback` as the redirect URI. |
| FetchLinks.ToBookmarks | src/fetch-links.ts:50-52 | One bookmark per link: the same length, and bookmark `i` wraps link `i`. |
| FetchLinks.BookmarksRoundTrip | src/fetch-links.ts:50-52 | Unwrapping the bookmarks gives the links back. |
| FetchLinks.BatchesCover | src/fetch-links.ts:59-60 | The batches, concatenated, are the bookmark list: each bookmark exactly once, in order. |
| FetchLinks.BatchesCount | src/fetch-links.ts:59-64 | There are `ceil(n/10)` batches. |
| FetchLinks.BatchAt | src/fetch-links.ts:59-60 | Batch `k` is the slice `[10k, min(10k+10, n))`. It holds 1 to 10 bookmarks, and every batch but the last holds 10. |
| FetchLinks.BatchesFromStep | src/fetch-links.ts:59-60 | At index `i`, the batches left are the slice `i..i+10` (cut at the end) followed by the batches left at `i+10`. None are left after it exactly when `i+10 >= n`. |
| FetchLinks.BatchLoopStep | src/fetch-links.ts:59-85 | One turn of the loop at `i`: the schedule left is the save of the slice at `i`, then a pause exactly when `i+10 < n`, then the schedule left at `i+10`. The totals left are what that slice's save counts plus the totals left at `i+10`. |
| FetchLinks.ScheduleSavesEveryBatch | src/fetch-links.ts:59-86 | The batch loop saves every batch once, in order, whatever each save answers. |
| FetchLinks.SchedulePauses | src/fetch-links.ts:83-85 | `k` batches give `max(0, k-1)` pauses. |
| FetchLinks.PausesOnlyBetweenBatches | src/fetch-links.ts:83-85 | Every pause is preceded and followed by a batch save. |
| FetchLinks.FailedBatchCountsNothing | src/fetch-links.ts:67-80 | A batch whose save throws adds nothing to either total. |
| FetchLinks.SavedBatchCountsItsCounts | src/fetch-links.ts:67-70 | A batch whose save answers adds exactly its `saved` and `skipped` counts. |
| FetchLinks.SaveInBatches | src/fetch-links.ts:55-86 | The loop's effects are the schedule of the batches. Its totals are the sums over the batches whose save answered. |
| FetchLinks.FetchLinksRun | src/fetch-links.ts:13-116 | The reference definition of the run; its properties are stated by `FetchLinks.NoTokensNoWork`, `FetchLinks.InitDbBeforeFetch`, `FetchLinks.TokensPersistedBeforeSaves`, `FetchLinks.CompletedRunSavesEveryLink` and `FetchLinks.RunPersistsThenSavesEveryLink`. |
| FetchLinks.FetchLinks | src/fetch-links.ts:13-116 | The run's outcome and its effects are exactly those of `FetchLinksRun`. |
| FetchLinks.NoTokensNoWork | src/fetch-links.ts:22-30 | With no stored token set, or a failed load, the run exits with no database work and no request. With no token file the message is the "No authentication tokens found" one. |
| FetchLinks.InitDbBeforeFetch | src/fetch-links.ts:34-37 | The database is opened first. A failed open ends the run there. Otherwise the fetch's requests follow, in the order sent. |
| FetchLinks.TokensPersistedBeforeSaves | src/fetch-links.ts:39-42 | A token set is persisted exactly when the fetch succeeded and reported a refreshed set, and it is that set. It is persisted before any batch is saved. |
| FetchLinks.CompletedRunSavesEveryLink | src/fetch-links.ts:50-108 | A completed run returns the fetch result and saves the batches of its links, which cover them once and in order. It reports the totals over the batches whose save answered. |
| FetchLinks.RunPersistsThenSavesEveryLink | src/fetch-links.ts:37-86 | The two properties above, for the whole run once the database is open. |

## Left out

- URLSearchParams percent-encoding: `QueryString` joins the raw `key=value` pairs. The model states the parameter list and its order, not the encoded bytes.
- `Date.now()`: it is a parameter. `getValidAccessToken` reads the clock twice (expiry test, then `expiresAt` of the refreshed set), but the model uses one reading per page request, `clock(page)`.
- Console output, the emoji message prefixes, the per-batch progress line and the sample-links listing of the run are not modelled. Neither is the "Run the auth flow manually" hint.
- The 500 ms `setTimeout` between batches is the effect `Pause`, with no time attached.
- `dotenv` is not modelled; the environment is a map.
- `process.exit(1)` is the outcome `Exited(message)`. Any error outside the batch loop ends the run this way; an error of `saveBookmarksBatch` is caught inside the loop and the run goes on. The message is the error's own text, without the console prefix.
- `getAllLinks` takes no "since" cursor and never stops early on modification dates, and the run handles one account; the model has neither an incremental mode nor a loop over accounts.
- JavaScript numbers are IEEE doubles; the model uses unbounded integers for `expires_in`, `expiresAt`, the page number, `count` and the saved and skipped counts. It does not capture a missing `expires_in` or `expiresAt` (NaN, for which the expiry test of `isTokenExpired` is false, so such a token set is never refreshed), a fractional `expires_in` (a fractional `expiresAt`), or loss of precision above 2^53.
- The oracles answer from the request alone: `post` from the form, `get` from the page and bearer token, `save` from the batch's contents. A repeated refresh form, or two batches with the same bookmarks, therefore always get the same answer; a server with state of its own, or the first-write-wins database, answering differently the second time is not captured.
- Token file I/O (`src/storage/storage.ts`) is not part of this model. What `loadTokens` yields (an error, no file, or a token set), and whether `saveTokens` and `initializeBookmarkDb` complete, are given outcomes. The JSON parsing of the file is not modelled.
- The bookmark database functions (`saveBookmarksBatch`, the first-write-wins insert, schema migration) have no source here. `saveBookmarksBatch` is an oracle that answers with counts or throws.
- `src/complete-auth.ts` is not part of this model. It is the interactive callback server that calls `exchangeCodeForTokens` then `saveTokens`.
- The unused declarations `AuthConfig`, `RaindropAccount` and `MultiAccountConfig` are not modelled, nor is `src/types/duckdb.d.ts`.
- The types `RaindropCollection`, `RaindropUserInfo`, `FetchLinksOptions` and `PaginationInfo` are not modelled, because the synchronisation path does not use them.
- Client.WholeWalk: like `Client.WalkReportsLastRefresh`, does not state the `expiresAt` of the reported token set.
- Client.WalkReportsLastRefresh: states only the access and refresh tokens of the reported set, not its `expiresAt`. The lemma is proved for any page request that reports a granted refresh's tokens, which abstracts from the clock reading. `Client.AuthenticatedRequestTokens` states the full set for one page request.
- The source only prints the save totals. The model returns them from the batch loop and the run so that they can be stated.
