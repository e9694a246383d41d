/** The HTTP transport (axios) seen from the synchronisation path: the two
    remote endpoints become oracles, and every request that is sent is
    recorded, in order, as a `Call`, so that how many requests an operation
    makes, and in which order, can be stated and proved. */
module Http {
  import opened Types

  /** What axios throws. `isAxiosError` tells transport and HTTP failures
      (which the callers wrap in a message of their own) from any other
      exception (which they rethrow unchanged); `serverMessage` is the error
      text of the response body, if the server sent one. */
  datatype HttpError = HttpError(isAxiosError: bool, message: string, serverMessage: Option<string>)

  datatype HttpOutcome<+T> = Response(body: T) | Thrown(error: HttpError)

  /** POST https://raindrop.io/oauth/access_token with a form-encoded body. */
  type TokenEndpoint = seq<Param> -> HttpOutcome<TokenResponse>

  /** GET https://api.raindrop.io/rest/v1/raindrops/0?page=<page>&perpage=50&sort=-created with
      `Authorization: Bearer <bearer>`. */
  type ListEndpoint = (nat, string) -> HttpOutcome<ApiResponse>

  /** A request put on the wire. */
  datatype Call = TokenPost(form: seq<Param>) | PageGet(page: nat, bearer: string)

  /** The result of an operation together with the requests it sent. */
  datatype Traced<+T> = Traced(result: Result<T>, calls: seq<Call>)

  /** `error.response?.data?.<field> || error.message`: the server's text
      when it is present and non-empty, the transport message otherwise. */
  function ErrorDetail(e: HttpError): string
  {
    if e.serverMessage.Some? && e.serverMessage.value != "" then e.serverMessage.value else e.message
  }

  /** The message of the Error a caller throws for `e`: an axios error is
      wrapped behind `prefix`, anything else is rethrown as it is. */
  function WrapError(prefix: string, e: HttpError): (m: string)
    ensures e.isAxiosError ==> prefix <= m
    ensures !e.isAxiosError ==> m == e.message
  {
    if e.isAxiosError then prefix + ErrorDetail(e) else e.message
  }

  /** Whether the endpoint answered `c` without throwing. */
  predicate Succeeded(c: Call, post: TokenEndpoint, get: ListEndpoint)
  {
    match c
    case TokenPost(form) => post(form).Response?
    case PageGet(page, bearer) => get(page, bearer).Response?
  }

  /** The page requests of a trace, in order. */
  function PageGets(calls: seq<Call>): (gs: seq<Call>)
    ensures |gs| <= |calls|
    ensures forall i :: 0 <= i < |gs| ==> gs[i].PageGet?
  {
    if calls == [] then []
    else (if calls[0].PageGet? then [calls[0]] else []) + PageGets(calls[1..])
  }

  lemma {:induction false} PageGetsAppend(a: seq<Call>, b: seq<Call>)
    ensures PageGets(a + b) == PageGets(a) + PageGets(b)
  {
    if a == [] {
      assert a + b == b;
    } else {
      assert (a + b)[1..] == a[1..] + b;
      PageGetsAppend(a[1..], b);
    }
  }

  /** The body of the last token request of the trace that was answered,
      if there is one: the token set in force after the trace. */
  function LastGrant(calls: seq<Call>, post: TokenEndpoint): Option<TokenResponse>
  {
    if calls == [] then None
    else
      var c := calls[|calls| - 1];
      if c.TokenPost? && post(c.form).Response? then Some(post(c.form).body)
      else LastGrant(calls[..|calls| - 1], post)
  }

  lemma {:induction false} LastGrantAppend(a: seq<Call>, b: seq<Call>, post: TokenEndpoint)
    ensures LastGrant(a + b, post) == if LastGrant(b, post).Some? then LastGrant(b, post) else LastGrant(a, post)
  {
    if b == [] {
      assert a + b == a;
    } else {
      assert (a + b)[|a + b| - 1] == b[|b| - 1];
      assert (a + b)[..|a + b| - 1] == a + b[..|b| - 1];
      LastGrantAppend(a, b[..|b| - 1], post);
    }
  }
}
