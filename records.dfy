/**
 * Records and request/response shapes of the JSON API handlers in
 * lib/handlers.js: the three stored record kinds (users, tokens, media),
 * the parsed request the transport hands to a handler, the response a
 * handler reports, and the environment a handler consults (clock, hashing,
 * random ids, DNS, persistence failures).
 */
module Records {

  /** A JSON value as far as the handlers inspect it with `typeof`. */
  datatype Value = Str(s: string) | Bool(b: bool) | Other

  datatype Option<T> = None | Some(value: T)

  /** The request as parsed by the transport: HTTP method (lower case), body, query string, headers. */
  datatype Request = Request(
    verb: string,
    payload: map<string, Value>,
    query: map<string, Value>,
    headers: map<string, Value>)

  /** Looks up a field of a request object; an absent field is JavaScript's `undefined`. */
  function Field(m: map<string, Value>, key: string): (r: Option<Value>)
    ensures r.Some? <==> key in m
    ensures r.Some? ==> r.value == m[key]
  {
    if key in m then Some(m[key]) else None
  }

  /** Identifiers made by the random-string helper are exactly 20 characters long. */
  type Id = s: string | |s| == 20 witness "00000000000000000000"

  /** One hour in milliseconds: the lifetime of a token. */
  const TokenLifetime: int := 1000 * 60 * 60

  /**
   * A stored user, keyed by phone. `hashedPassword` is `None` where the hash
   * helper returned `false`; `mediaLinks` is `None` until the first media
   * record is attached (a freshly created user has no such field).
   */
  datatype User = User(
    firstName: string,
    lastName: string,
    phone: string,
    hashedPassword: Option<string>,
    tosAgreement: bool,
    mediaLinks: Option<seq<string>>)

  /** Every reader of `mediaLinks` treats a missing list as the empty list. */
  function Links(u: User): (ids: seq<string>)
    ensures u.mediaLinks.Some? ==> ids == u.mediaLinks.value
    ensures u.mediaLinks.None? ==> ids == []
  {
    match u.mediaLinks
    case Some(l) => l
    case None => []
  }

  /** A user as returned to a client: the stored record without its hashed password. */
  datatype UserView = UserView(
    firstName: string,
    lastName: string,
    phone: string,
    tosAgreement: bool,
    mediaLinks: Option<seq<string>>)

  function View(u: User): (v: UserView)
    ensures v.firstName == u.firstName && v.lastName == u.lastName && v.phone == u.phone
    ensures v.tosAgreement == u.tosAgreement && v.mediaLinks == u.mediaLinks
  {
    UserView(u.firstName, u.lastName, u.phone, u.tosAgreement, u.mediaLinks)
  }

  /** A stored session token, keyed by its id. */
  datatype Token = Token(phone: string, id: string, expires: int, firstName: string)

  /** A stored media link, keyed by its id; `name` is the owner's first name at creation. */
  datatype Media = Media(id: string, userPhone: string, url: string, dis: string, name: string)

  /** The body a handler passes to its callback next to the status code. */
  datatype Body =
    | NoBody
    | ErrorBody
    | UserBody(user: UserView)
    | TokenBody(token: Token)
    | MediaBody(media: Media)
    | MediaListBody(list: map<string, Media>)

  datatype Response = Response(code: int, body: Body)

  /**
   * Persistence failures for one request. A handler calls each of
   * create/update/delete at most once except for the cascade of a user
   * delete (`cascadeFails` holds the positions whose delete fails) and the
   * reads of a media listing (`readFails` holds the ids whose read fails).
   */
  datatype Faults = Faults(
    createFails: bool,
    updateFails: bool,
    deleteFails: bool,
    cascadeFails: set<nat>,
    readFails: set<string>)

  const NoFaults: Faults := Faults(false, false, false, {}, {})

  /**
   * What a handler consults besides the store: the clock, the password hash
   * helper (`None` where it returns `false`), the next random id, whether the
   * host of a submitted URL resolves in DNS, and the persistence failures.
   */
  datatype Env = Env(
    now: int,
    hash: string -> Option<string>,
    freshId: Id,
    hostResolves: bool,
    faults: Faults)
}
