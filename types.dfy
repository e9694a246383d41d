/** Record shapes shared by the synchronisation path (src/types/auth.ts and
    src/types/raindrop.ts), plus the small wrappers the model uses for
    optional values, thrown errors and form/query parameters. */
module Types {

  datatype Option<+T> = None | Some(value: T)

  /** A computation that either yields a value or throws an Error carrying `message`. */
  datatype Result<+T> = Ok(value: T) | Err(message: string)

  /** An effect with no value that either completes or throws. */
  datatype Outcome = Pass | Fail(message: string)

  /** OAuth client registration: RaindropCredentials. */
  datatype Credentials = Credentials(clientId: string, clientSecret: string, redirectUri: string)

  /** A stored token set: AuthTokens. `expiresAt` is epoch milliseconds. */
  datatype AuthTokens = AuthTokens(accessToken: string, refreshToken: string, expiresAt: int)

  /** The JSON body of the token endpoint: TokenResponse
      (`access_token`, `refresh_token`, `expires_in` in seconds, `token_type`). */
  datatype TokenResponse = TokenResponse(accessToken: string, refreshToken: string, expiresIn: int, tokenType: string)

  datatype ItemType = LinkItem | ArticleItem | ImageItem | VideoItem | DocumentItem | AudioItem

  datatype Media = Media(link: string, mediaType: string)

  /** One bookmark as the list endpoint returns it: RaindropLink. */
  datatype RaindropLink = RaindropLink(
    id: int,
    title: string,
    link: string,
    excerpt: string,
    note: string,
    itemType: ItemType,
    userId: int,
    cover: string,
    media: seq<Media>,
    tags: seq<string>,
    important: bool,
    reminder: Option<string>,
    removed: bool,
    created: string,
    lastUpdate: string,
    domain: string,
    creatorRef: string,
    sort: int,
    collectionId: int)

  /** One page of the list endpoint: RaindropApiResponse<RaindropLink>.
      `count` is the total number of items the server reports. */
  datatype ApiResponse = ApiResponse(result: bool, items: seq<RaindropLink>, count: int, collectionId: Option<int>)

  /** One key/value pair of a URLSearchParams list, in insertion order. */
  datatype Param = Param(key: string, value: string)

  function Keys(ps: seq<Param>): (ks: seq<string>)
    ensures |ks| == |ps|
    ensures forall i :: 0 <= i < |ps| ==> ks[i] == ps[i].key
  {
    if ps == [] then [] else [ps[0].key] + Keys(ps[1..])
  }

  /** The value of the first pair with the given key, as URLSearchParams.get does. */
  function ValueOf(ps: seq<Param>, key: string): Option<string>
  {
    if ps == [] then None
    else if ps[0].key == key then Some(ps[0].value)
    else ValueOf(ps[1..], key)
  }

  /** One step of the lookup, for every key at once. */
  lemma ValueOfStep(ps: seq<Param>)
    requires ps != []
    ensures forall key {:trigger ValueOf(ps, key)} ::
      ValueOf(ps, key) == if ps[0].key == key then Some(ps[0].value) else ValueOf(ps[1..], key)
  {
  }
}
