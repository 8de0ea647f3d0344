/**
 * What the token handlers of lib/handlers.js promise: issuing checks the
 * password hash and creates exactly one token valid for an hour, extending
 * works only on an unexpired token and never shortens it, and verification
 * is a pure test of owner and expiry.
 */
module TokenProperties {
  import opened Records
  import opened Validate
  import opened Coercion
  import opened Spec

  /** The request body of a token request with the given phone and password. */
  predicate Credentials(req: Request, phone: string, password: string) {
    && FixedLengthText(Field(req.payload, "phone"), 10) == Some(phone)
    && NonEmptyText(Field(req.payload, "password")) == Some(password)
  }

  /**
   * Issuing: a token is created exactly when the phone and password are
   * well formed, the user exists, the hash of the password equals the stored
   * hash under JavaScript's `==`, and the create succeeds; it is the only change, is keyed by a
   * fresh 20-character id, expires an hour from now and copies the user's
   * phone and first name. Every other outcome leaves the store as it was,
   * with 400 for bad input, an unknown user or a wrong password.
   */
  lemma TokensPostIssuesOneToken(s: State, req: Request, env: Env)
    ensures var o := TokensPost(s, req, env);
      && (o.response.code == 200 <==>
            exists phone, password | Credentials(req, phone, password) ::
              && phone in s.users
              && LooseEquals(env.hash(password), s.users[phone].hashedPassword)
              && !env.faults.createFails && env.freshId !in s.tokens)
      && (o.response.code == 200 ==>
            var phone := Trim(req.payload["phone"].s);
            var token := Token(phone, env.freshId, env.now + TokenLifetime, s.users[phone].firstName);
            && |token.id| == 20
            && env.freshId !in s.tokens
            && o.state == s.(tokens := s.tokens[env.freshId := token])
            && |o.state.tokens| == |s.tokens| + 1
            && o.response.body == TokenBody(token))
      && (o.response.code != 200 ==> o.state == s && o.response.code in {400, 500})
  {
    var o := TokensPost(s, req, env);
    var phone := FixedLengthText(Field(req.payload, "phone"), 10);
    var password := NonEmptyText(Field(req.payload, "password"));
    if phone.Some? && password.Some? {
      assert Credentials(req, phone.value, password.value);
    }
  }

  /** Issuing with a well-formed but wrong password, or for an unknown phone, is a 400 that creates nothing. */
  lemma TokensPostRejectsBadCredentials(s: State, req: Request, env: Env, phone: string, password: string)
    requires Credentials(req, phone, password)
    requires phone !in s.users || !LooseEquals(env.hash(password), s.users[phone].hashedPassword)
    ensures TokensPost(s, req, env) == Reply(s, 400, ErrorBody)
  {
  }

  /**
   * Under `==` a failing hash (`false`) matches a stored hash worth zero,
   * such as the empty string a user update stores when the hash helper
   * returns it: the token is issued although no hash matched.
   */
  lemma FailedHashMatchesZeroHash(s: State, req: Request, env: Env, phone: string, password: string)
    requires Credentials(req, phone, password)
    requires phone in s.users && s.users[phone].hashedPassword.Some?
    requires ToNumberIsZero(s.users[phone].hashedPassword.value)
    requires env.hash(password) == None
    requires !env.faults.createFails && env.freshId !in s.tokens
    ensures TokensPost(s, req, env).response.code == 200
    ensures TokensPost(s, req, env).state.tokens == s.tokens[env.freshId := Token(phone, env.freshId, env.now + TokenLifetime, s.users[phone].firstName)]
  {
  }

  /** A freshly issued token passes verification for its owner at the time of issue. */
  lemma IssuedTokenVerifies(s: State, req: Request, env: Env)
    requires TokensPost(s, req, env).response.code == 200
    ensures VerifyToken(TokensPost(s, req, env).state.tokens, env.freshId, Trim(req.payload["phone"].s), env.now)
  {
  }

  /**
   * The owner check: every handler that acts on one user's data answers 403
   * and changes nothing when the header's token does not verify for that
   * user's phone. For users that phone comes from the request; for media it
   * is the stored record's owner.
   */
  lemma UserHandlersNeedOwnToken(s: State, req: Request, env: Env)
    ensures var key := HeaderToken(req.headers);
      var queried := FixedLengthText(Field(req.query, "phone"), 10);
      (queried.Some? && !VerifyToken(s.tokens, key, queried.value, env.now)) ==>
        && UsersGet(s, req, env) == Response(403, ErrorBody)
        && UsersDelete(s, req, env) == Reply(s, 403, ErrorBody)
        && UsersDeleteCascadingMedia(s, req, env) == Reply(s, 403, ErrorBody)
    ensures var key := HeaderToken(req.headers);
      var phone := FixedLengthText(Field(req.payload, "phone"), 10);
      (phone.Some? && !VerifyToken(s.tokens, key, phone.value, env.now)
       && (NonEmptyText(Field(req.payload, "firstName")).Some? || NonEmptyText(Field(req.payload, "lastName")).Some?
           || NonEmptyText(Field(req.payload, "password")).Some?)) ==>
        UsersPut(s, req, env) == Reply(s, 403, ErrorBody)
  {
  }

  lemma MediaHandlersNeedOwnerToken(s: State, req: Request, env: Env)
    ensures var key := HeaderToken(req.headers);
      var id := FixedLengthText(Field(req.payload, "id"), 20);
      (id.Some? && id.value in s.media && !VerifyToken(s.tokens, key, s.media[id.value].userPhone, env.now)
       && (NonEmptyText(Field(req.payload, "url")).Some? || NonEmptyText(Field(req.payload, "dis")).Some?)) ==>
        MediaPut(s, req, env) == Reply(s, 403, NoBody)
    ensures var key := HeaderToken(req.headers);
      var id := FixedLengthText(Field(req.query, "id"), 20);
      (id.Some? && id.value in s.media && !VerifyToken(s.tokens, key, s.media[id.value].userPhone, env.now)) ==>
        MediaDelete(s, req, env) == Reply(s, 403, NoBody)
  {
  }

  /**
   * The handlers never store a token under an id of another length: issuing
   * adds only the fresh 20-character id, and extending and revoking keep or
   * shrink the set of ids. This is the premise of `MissingHeaderNeverVerifies`.
   */
  lemma TokenIdsKeepLength(s: State, req: Request, env: Env)
    requires forall id | id in s.tokens :: |id| == 20
    ensures forall id | id in Tokens(s, req, env).state.tokens :: |id| == 20
  {
    if req.verb == "post" {
      TokensPostIssuesOneToken(s, req, env);
    } else if req.verb == "put" {
      TokensPutExtendsOnlyLiveTokens(s, req, env);
    } else if req.verb == "delete" {
      TokensDeleteRemovesOnlyThatToken(s, req, env);
    }
  }

  /** A request without a string token header is looked up under the key "false", which no issued token has. */
  lemma MissingHeaderNeverVerifies(s: State, headers: map<string, Value>, phone: string, now: int)
    requires forall id | id in s.tokens :: |id| == 20
    requires !("token" in headers && headers["token"].Str?)
    ensures !VerifyToken(s.tokens, HeaderToken(headers), phone, now)
  {
  }

  /**
   * Extending: happens only when `extend` is the boolean true and the token
   * is unexpired, sets the expiry to an hour from now and changes nothing
   * else; an unknown or expired token gets 400 and keeps the store as it was.
   */
  lemma TokensPutExtendsOnlyLiveTokens(s: State, req: Request, env: Env)
    ensures var o := TokensPut(s, req, env);
      && (o.response.code == 200 <==>
            && IsTrue(Field(req.payload, "extend"))
            && FixedLengthText(Field(req.payload, "id"), 20).Some?
            && var id := FixedLengthText(Field(req.payload, "id"), 20).value;
               id in s.tokens && s.tokens[id].expires > env.now && !env.faults.updateFails)
      && (o.response.code == 200 ==>
            var id := FixedLengthText(Field(req.payload, "id"), 20).value;
            o.state == s.(tokens := s.tokens[id := s.tokens[id].(expires := env.now + TokenLifetime)]))
      && (o.response.code != 200 ==> o.state == s)
      && (IsTrue(Field(req.payload, "extend")) && FixedLengthText(Field(req.payload, "id"), 20).Some? ==>
            var id := FixedLengthText(Field(req.payload, "id"), 20).value;
            (id !in s.tokens || s.tokens[id].expires <= env.now) ==> o == Reply(s, 400, ErrorBody))
  {
  }

  /** Right after a successful extend the token verifies for its owner. */
  lemma ExtendedTokenVerifies(s: State, req: Request, env: Env)
    requires TokensPut(s, req, env).response.code == 200
    ensures var id := Trim(req.payload["id"].s);
      id in s.tokens && VerifyToken(TokensPut(s, req, env).state.tokens, id, s.tokens[id].phone, env.now)
  {
  }

  /** Every stored expiry lies at most an hour after `now`: true of tokens issued or extended at or before `now`. */
  ghost predicate ExpiriesWithinHour(tokens: map<string, Token>, now: int) {
    forall id | id in tokens :: tokens[id].expires <= now + TokenLifetime
  }

  /**
   * Extending never moves an expiry backwards: with the clock not running
   * backwards, every token keeps an expiry at least as late as before, and
   * the bound above is kept.
   */
  lemma TokensPutNeverShortens(s: State, req: Request, env: Env, earlier: int)
    requires earlier <= env.now
    requires ExpiriesWithinHour(s.tokens, earlier)
    ensures var t := TokensPut(s, req, env).state.tokens;
      && t.Keys == s.tokens.Keys
      && (forall id | id in s.tokens :: t[id].expires >= s.tokens[id].expires && t[id].phone == s.tokens[id].phone)
      && ExpiriesWithinHour(t, env.now)
  {
  }

  /** Issuing and revoking also keep every expiry within the hour after the current time. */
  lemma TokenHandlersKeepExpiryBound(s: State, req: Request, env: Env, earlier: int)
    requires earlier <= env.now
    requires ExpiriesWithinHour(s.tokens, earlier)
    ensures ExpiriesWithinHour(TokensPost(s, req, env).state.tokens, env.now)
    ensures ExpiriesWithinHour(TokensDelete(s, req, env).state.tokens, env.now)
  {
    TokensPostIssuesOneToken(s, req, env);
    TokensDeleteRemovesOnlyThatToken(s, req, env);
  }

  /**
   * Reading a token: 200 exactly when the query names a well-formed stored
   * id, with that token as the body; 400 for a malformed id, 404 for an
   * unknown one.
   */
  lemma TokensGetReturnsStoredToken(s: State, req: Request)
    ensures var r := TokensGet(s, req);
      var id := FixedLengthText(Field(req.query, "id"), 20);
      && (r.code == 200 <==> id.Some? && id.value in s.tokens)
      && (r.code == 200 ==> r.body == TokenBody(s.tokens[id.value]))
      && (id.None? ==> r == Response(400, ErrorBody))
      && (id.Some? && id.value !in s.tokens ==> r == Response(404, NoBody))
  {
  }

  /**
   * Revoking: a stored id is revoked with 200 unless the delete fails; the
   * token named in the query is removed and nothing else changes; an id
   * that is not stored is a 400 (reading a token by such an id is a 404).
   */
  lemma TokensDeleteRemovesOnlyThatToken(s: State, req: Request, env: Env)
    ensures var o := TokensDelete(s, req, env);
      && (o.response.code == 200 ==>
            var id := FixedLengthText(Field(req.query, "id"), 20).value;
            id in s.tokens && o.state == s.(tokens := s.tokens - {id}))
      && (o.response.code != 200 ==> o.state == s)
      && (FixedLengthText(Field(req.query, "id"), 20).Some? && FixedLengthText(Field(req.query, "id"), 20).value !in s.tokens ==>
            o.response.code == 400 && TokensGet(s, req).code == 404)
      && ((FixedLengthText(Field(req.query, "id"), 20).Some? && FixedLengthText(Field(req.query, "id"), 20).value in s.tokens
           && !env.faults.deleteFails) ==>
            o == Reply(s.(tokens := s.tokens - {FixedLengthText(Field(req.query, "id"), 20).value}), 200, NoBody))
  {
  }
}
