/**
 * What each handler of lib/handlers.js does, as a function from the store
 * (the `users`, `tokens` and `media` collections) and the request to the new
 * store and the response. The class in module Handlers performs the same
 * steps one persistence call at a time and is proved to agree with these:
 * each function `Spec.X` here is the postcondition of the method
 * `Handlers.Server.X` of the same name (`Spec.MediaRoute` and
 * `Spec.CascadeDelete` are those of `Handlers.Server.MediaRoute` and
 * `Handlers.DeleteEach`).
 */
module Spec {
  import opened Records
  import opened Validate
  import opened Coercion

  /** The three collections of the file store, each a map from record key to record. */
  datatype State = State(
    users: map<string, User>,
    tokens: map<string, Token>,
    media: map<string, Media>)

  /** The store after a handler has run, and what it reported. */
  datatype Outcome = Outcome(state: State, response: Response)

  function Reply(s: State, code: int, body: Body): Outcome {
    Outcome(s, Response(code, body))
  }

  // ---------------------------------------------------------------------
  // Tokens
  // ---------------------------------------------------------------------

  /**
   * `_tokens.verifyToken(id, phone)`: a stored token with that id, issued
   * for that phone and expiring strictly after `now`.
   */
  predicate VerifyToken(tokens: map<string, Token>, id: string, phone: string, now: int) {
    id in tokens && tokens[id].phone == phone && tokens[id].expires > now
  }

  /**
   * `_tokens.post`: exchange a phone and password for a token valid for one
   * hour. The hash is compared with JavaScript's `==` (`LooseEquals`).
   */
  function TokensPost(s: State, req: Request, env: Env): Outcome {
    var phone := FixedLengthText(Field(req.payload, "phone"), 10);
    var password := NonEmptyText(Field(req.payload, "password"));
    if phone.None? || password.None? then Reply(s, 400, ErrorBody)
    else if phone.value !in s.users then Reply(s, 400, ErrorBody)
    else if !LooseEquals(env.hash(password.value), s.users[phone.value].hashedPassword) then Reply(s, 400, ErrorBody)
    else
      var token := Token(phone.value, env.freshId, env.now + TokenLifetime, s.users[phone.value].firstName);
      if env.faults.createFails || env.freshId in s.tokens then Reply(s, 500, ErrorBody)
      else Reply(s.(tokens := s.tokens[env.freshId := token]), 200, TokenBody(token))
  }

  /** `_tokens.get`: the stored token with the id in the query string. */
  function TokensGet(s: State, req: Request): Response {
    var id := FixedLengthText(Field(req.query, "id"), 20);
    if id.None? then Response(400, ErrorBody)
    else if id.value !in s.tokens then Response(404, NoBody)
    else Response(200, TokenBody(s.tokens[id.value]))
  }

  /** `_tokens.put`: push the expiry of a still-valid token to one hour from now. */
  function TokensPut(s: State, req: Request, env: Env): Outcome {
    var id := FixedLengthText(Field(req.payload, "id"), 20);
    if id.None? || !IsTrue(Field(req.payload, "extend")) then Reply(s, 400, ErrorBody)
    else if id.value !in s.tokens then Reply(s, 400, ErrorBody)
    else if s.tokens[id.value].expires <= env.now then Reply(s, 400, ErrorBody)
    else if env.faults.updateFails then Reply(s, 500, ErrorBody)
    else
      var extended := s.tokens[id.value].(expires := env.now + TokenLifetime);
      Reply(s.(tokens := s.tokens[id.value := extended]), 200, NoBody)
  }

  /** `_tokens.delete`: remove the token with the id in the query string. */
  function TokensDelete(s: State, req: Request, env: Env): Outcome {
    var id := FixedLengthText(Field(req.query, "id"), 20);
    if id.None? then Reply(s, 400, ErrorBody)
    else if id.value !in s.tokens then Reply(s, 400, ErrorBody)
    else if env.faults.deleteFails then Reply(s, 500, ErrorBody)
    else Reply(s.(tokens := s.tokens - {id.value}), 200, NoBody)
  }

  // ---------------------------------------------------------------------
  // Users
  // ---------------------------------------------------------------------

  /** `_users.post`: register a new user keyed by phone, with no `mediaLinks` field. */
  function UsersPost(s: State, req: Request, env: Env): Outcome {
    var firstName := NonEmptyText(Field(req.payload, "firstName"));
    var lastName := NonEmptyText(Field(req.payload, "lastName"));
    var phone := FixedLengthText(Field(req.payload, "phone"), 10);
    var password := NonEmptyText(Field(req.payload, "password"));
    var tosAgreement := IsTrue(Field(req.payload, "tosAgreement"));
    if !(firstName.Some? && lastName.Some? && phone.Some? && password.Some? && tosAgreement) then
      Reply(s, 400, ErrorBody)
    else if phone.value in s.users then Reply(s, 400, ErrorBody)
    else
      var hashed := env.hash(password.value);
      // the hash helper's result is used only when truthy: a non-empty string
      if hashed.None? || hashed.value == [] then Reply(s, 500, ErrorBody)
      else if env.faults.createFails then Reply(s, 500, ErrorBody)
      else
        var user := User(firstName.value, lastName.value, phone.value, hashed, true, None);
        Reply(s.(users := s.users[phone.value := user]), 200, NoBody)
  }

  /** `_users.get`: the caller's own user record, without its hashed password. */
  function UsersGet(s: State, req: Request, env: Env): Response {
    var phone := FixedLengthText(Field(req.query, "phone"), 10);
    if phone.None? then Response(400, ErrorBody)
    else if !VerifyToken(s.tokens, HeaderToken(req.headers), phone.value, env.now) then Response(403, ErrorBody)
    else if phone.value !in s.users then Response(404, NoBody)
    else Response(200, UserBody(View(s.users[phone.value])))
  }

  /** The user record after `_users.put` applied the supplied names and password. */
  function Amend(u: User, firstName: Option<string>, lastName: Option<string>,
                 password: Option<string>, hash: string -> Option<string>): User
  {
    u.(firstName := if firstName.Some? then firstName.value else u.firstName,
       lastName := if lastName.Some? then lastName.value else u.lastName,
       hashedPassword := if password.Some? then hash(password.value) else u.hashedPassword)
  }

  /** `_users.put`: change the caller's names and/or password. */
  function UsersPut(s: State, req: Request, env: Env): Outcome {
    var phone := FixedLengthText(Field(req.payload, "phone"), 10);
    var firstName := NonEmptyText(Field(req.payload, "firstName"));
    var lastName := NonEmptyText(Field(req.payload, "lastName"));
    var password := NonEmptyText(Field(req.payload, "password"));
    if phone.None? then Reply(s, 400, ErrorBody)
    else if firstName.None? && lastName.None? && password.None? then Reply(s, 400, ErrorBody)
    else if !VerifyToken(s.tokens, HeaderToken(req.headers), phone.value, env.now) then Reply(s, 403, ErrorBody)
    else if phone.value !in s.users then Reply(s, 400, ErrorBody)
    else if env.faults.updateFails then Reply(s, 500, ErrorBody)
    else
      var user := Amend(s.users[phone.value], firstName, lastName, password, env.hash);
      Reply(s.(users := s.users[phone.value := user]), 200, NoBody)
  }

  /**
   * The result of one pass of per-id deletions over a collection: what is
   * left of it and how many of the deletions failed.
   */
  datatype Sweep = Sweep(rest: map<string, Media>, failures: nat)

  /**
   * The cascade of `_users.delete`: one delete per id, in list order, from
   * the collection `coll`. The delete at position i fails when i is in
   * `failAt` or the record is not (or no longer) there; a failure is
   * counted and the pass goes on.
   */
  function CascadeDelete(ids: seq<string>, coll: map<string, Media>, failAt: set<nat>): (r: Sweep)
    ensures r.failures <= |ids|
    ensures r.rest.Keys <= coll.Keys
    ensures forall k | k in r.rest :: r.rest[k] == coll[k]
    decreases |ids|
  {
    if ids == [] then Sweep(coll, 0)
    else
      var last := |ids| - 1;
      var prev := CascadeDelete(ids[..last], coll, failAt);
      if last !in failAt && ids[last] in prev.rest then Sweep(prev.rest - {ids[last]}, prev.failures)
      else Sweep(prev.rest, prev.failures + 1)
  }

  /** The collection the cascade of `_users.delete` deletes from, 'mediaLinks', to which no handler writes. */
  const MediaLinksCollection: map<string, Media> := map[]

  /**
   * `_users.delete` as written: the user row is deleted first, then one
   * delete per linked id is issued against the 'mediaLinks' collection;
   * the media records themselves are left in place.
   */
  function UsersDelete(s: State, req: Request, env: Env): Outcome {
    var phone := FixedLengthText(Field(req.query, "phone"), 10);
    if phone.None? then Reply(s, 400, ErrorBody)
    else if !VerifyToken(s.tokens, HeaderToken(req.headers), phone.value, env.now) then Reply(s, 403, ErrorBody)
    else if phone.value !in s.users then Reply(s, 400, ErrorBody)
    else if env.faults.deleteFails then Reply(s, 500, ErrorBody)
    else
      var links := Links(s.users[phone.value]);
      var s' := s.(users := s.users - {phone.value});
      if |links| == 0 then Reply(s', 200, NoBody)
      else
        var sweep := CascadeDelete(links, MediaLinksCollection, env.faults.cascadeFails);
        if sweep.failures == 0 then Reply(s', 200, NoBody) else Reply(s', 500, ErrorBody)
  }

  /**
   * `_users.delete` with the cascade aimed at the 'media' collection, where
   * the media records are stored: the linked records are deleted too.
   */
  function UsersDeleteCascadingMedia(s: State, req: Request, env: Env): Outcome {
    var phone := FixedLengthText(Field(req.query, "phone"), 10);
    if phone.None? then Reply(s, 400, ErrorBody)
    else if !VerifyToken(s.tokens, HeaderToken(req.headers), phone.value, env.now) then Reply(s, 403, ErrorBody)
    else if phone.value !in s.users then Reply(s, 400, ErrorBody)
    else if env.faults.deleteFails then Reply(s, 500, ErrorBody)
    else
      var links := Links(s.users[phone.value]);
      var s' := s.(users := s.users - {phone.value});
      if |links| == 0 then Reply(s', 200, NoBody)
      else
        var sweep := CascadeDelete(links, s.media, env.faults.cascadeFails);
        var s'' := s'.(media := sweep.rest);
        if sweep.failures == 0 then Reply(s'', 200, NoBody) else Reply(s'', 500, ErrorBody)
  }

  // ---------------------------------------------------------------------
  // Media
  // ---------------------------------------------------------------------

  /**
   * `Array.prototype.indexOf`: the position of the first occurrence of `x`
   * in `s`, or -1 when there is none.
   */
  function IndexOf(s: seq<string>, x: string): (i: int)
    ensures -1 <= i < |s|
    ensures i == -1 <==> x !in s
    ensures 0 <= i ==> s[i] == x && x !in s[..i]
  {
    if s == [] then -1
    else if s[0] == x then 0
    else
      var j := IndexOf(s[1..], x);
      if j == -1 then -1
      else
        assert s[..j + 1] == [s[0]] + s[1..][..j];
        j + 1
  }

  /** A list of ids in which no id occurs twice. */
  ghost predicate NoDuplicates(ids: seq<string>) {
    forall i, j | 0 <= i < j < |ids| :: ids[i] != ids[j]
  }

  /** `s.splice(i, 1)`: `s` without its element at position `i`. */
  function Splice(s: seq<string>, i: nat): seq<string>
    requires i < |s|
  {
    s[..i] + s[i + 1..]
  }

  /**
   * `_media.post`: the owner is the `phone` of the token named in the header,
   * read directly (no expiry check); the URL's host must resolve; the new
   * record is created, then its id is appended to the owner's `mediaLinks`.
   */
  function MediaPost(s: State, req: Request, env: Env): Outcome {
    var url := NonEmptyText(Field(req.payload, "url"));
    var dis := NonEmptyText(Field(req.payload, "dis"));
    var key := HeaderToken(req.headers);
    if dis.None? || url.None? then Reply(s, 400, ErrorBody)
    else if key !in s.tokens then Reply(s, 403, NoBody)
    else
      var owner := s.tokens[key].phone;
      if owner !in s.users then Reply(s, 403, NoBody)
      else if !env.hostResolves then Reply(s, 400, ErrorBody)
      else
        var record := Media(env.freshId, owner, url.value, dis.value, s.tokens[key].firstName);
        if env.faults.createFails || env.freshId in s.media then Reply(s, 500, ErrorBody)
        else
          var s' := s.(media := s.media[env.freshId := record]);
          var user := s.users[owner].(mediaLinks := Some(Links(s.users[owner]) + [env.freshId]));
          if env.faults.updateFails then Reply(s', 500, ErrorBody)
          else Reply(s'.(users := s.users[owner := user]), 200, MediaBody(record))
  }

  /**
   * `_media.get`: every stored media record, keyed by id, provided there is
   * at least one and every read succeeds.
   */
  function MediaGet(s: State, faults: Faults): Response {
    if |s.media| == 0 then Response(400, ErrorBody)
    else if s.media.Keys * faults.readFails != {} then Response(400, ErrorBody)
    else Response(200, MediaListBody(s.media))
  }

  /** `_media.put`: the owner changes the URL (without a DNS check) and/or the description. */
  function MediaPut(s: State, req: Request, env: Env): Outcome {
    var id := FixedLengthText(Field(req.payload, "id"), 20);
    var url := NonEmptyText(Field(req.payload, "url"));
    var dis := NonEmptyText(Field(req.payload, "dis"));
    if id.None? then Reply(s, 400, ErrorBody)
    else if dis.None? && url.None? then Reply(s, 400, ErrorBody)
    else if id.value !in s.media then Reply(s, 400, ErrorBody)
    else
      var record := s.media[id.value];
      if !VerifyToken(s.tokens, HeaderToken(req.headers), record.userPhone, env.now) then Reply(s, 403, NoBody)
      else if env.faults.updateFails then Reply(s, 500, ErrorBody)
      else
        var updated := record.(dis := if dis.Some? then dis.value else record.dis,
                               url := if url.Some? then url.value else record.url);
        Reply(s.(media := s.media[id.value := updated]), 200, NoBody)
  }

  /**
   * `_media.delete`: the owner deletes the record, then the first occurrence
   * of its id is spliced out of the owner's `mediaLinks`.
   */
  function MediaDelete(s: State, req: Request, env: Env): Outcome {
    var id := FixedLengthText(Field(req.query, "id"), 20);
    if id.None? then Reply(s, 400, ErrorBody)
    else if id.value !in s.media then Reply(s, 400, ErrorBody)
    else
      var owner := s.media[id.value].userPhone;
      if !VerifyToken(s.tokens, HeaderToken(req.headers), owner, env.now) then Reply(s, 403, NoBody)
      else if env.faults.deleteFails then Reply(s, 500, ErrorBody)
      else
        var s' := s.(media := s.media - {id.value});
        if owner !in s.users then Reply(s', 500, ErrorBody)
        else
          var links := Links(s.users[owner]);
          var position := IndexOf(links, id.value);
          if position == -1 then Reply(s', 500, ErrorBody)
          else if env.faults.updateFails then Reply(s', 500, ErrorBody)
          else
            var user := s.users[owner].(mediaLinks := Some(Splice(links, position)));
            Reply(s'.(users := s.users[owner := user]), 200, NoBody)
  }

  // ---------------------------------------------------------------------
  // Dispatch
  // ---------------------------------------------------------------------

  /** The methods the three dispatchers accept. */
  predicate Accepted(verb: string) {
    verb in ["post", "get", "put", "delete"]
  }

  /** `handlers.users`. */
  function Users(s: State, req: Request, env: Env): Outcome {
    if req.verb == "post" then UsersPost(s, req, env)
    else if req.verb == "get" then Outcome(s, UsersGet(s, req, env))
    else if req.verb == "put" then UsersPut(s, req, env)
    else if req.verb == "delete" then UsersDelete(s, req, env)
    else Reply(s, 405, NoBody)
  }

  /** `handlers.tokens`. */
  function Tokens(s: State, req: Request, env: Env): Outcome {
    if req.verb == "post" then TokensPost(s, req, env)
    else if req.verb == "get" then Outcome(s, TokensGet(s, req))
    else if req.verb == "put" then TokensPut(s, req, env)
    else if req.verb == "delete" then TokensDelete(s, req, env)
    else Reply(s, 405, NoBody)
  }

  /** `handlers.media`. */
  function MediaRoute(s: State, req: Request, env: Env): Outcome {
    if req.verb == "post" then MediaPost(s, req, env)
    else if req.verb == "get" then Outcome(s, MediaGet(s, env.faults))
    else if req.verb == "put" then MediaPut(s, req, env)
    else if req.verb == "delete" then MediaDelete(s, req, env)
    else Reply(s, 405, NoBody)
  }
}
