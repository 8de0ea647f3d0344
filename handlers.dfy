/**
 * The handlers of lib/handlers.js over a store held in memory: one class
 * whose fields are the three collections, one method per handler. Each
 * method takes the steps of the source's callback chain in order (read,
 * check, write) and is proved to leave the store and report the response
 * that the matching function of module Spec describes.
 */
module Handlers {
  import opened Records
  import opened Validate
  import opened Coercion
  import Spec

  /**
   * The cascade loop of `_users.delete`: one delete per id against `coll`,
   * a counter of completed deletes and an error flag; the single report is
   * made when the counter reaches the number of ids.
   */
  method DeleteEach(ids: seq<string>, coll: map<string, Media>, failAt: set<nat>)
    returns (rest: map<string, Media>, code: int, ghost reports: nat)
    requires |ids| > 0
    ensures rest == Spec.CascadeDelete(ids, coll, failAt).rest
    ensures code == (if Spec.CascadeDelete(ids, coll, failAt).failures == 0 then 200 else 500)
    ensures reports == 1
  {
    var toDelete := |ids|;
    var deleted := 0;
    var deletionErrors := false;
    ghost var failures: nat := 0;
    rest, code, reports := coll, 0, 0;
    var i: nat := 0;
    while i < |ids|
      invariant i <= |ids| && deleted == i
      invariant Spec.CascadeDelete(ids[..i], coll, failAt) == Spec.Sweep(rest, failures)
      invariant deletionErrors <==> failures > 0
      invariant reports == (if deleted == toDelete then 1 else 0)
      invariant deleted == toDelete ==> code == (if deletionErrors then 500 else 200)
    {
      assert ids[..i + 1][..i] == ids[..i];
      var mediaId := ids[i];
      // the delete of this id fails on a persistence fault or when nothing is stored under it
      if i !in failAt && mediaId in rest {
        rest := rest - {mediaId};
      } else {
        deletionErrors := true;
        failures := failures + 1;
      }
      deleted := deleted + 1;
      if deleted == toDelete {
        code := if !deletionErrors then 200 else 500;
        reports := reports + 1;
      }
      i := i + 1;
    }
    assert ids[..i] == ids;
  }

  class Server {
    var users: map<string, User>
    var tokens: map<string, Token>
    var media: map<string, Media>

    /** The three collections as one value. */
    function Snapshot(): Spec.State
      reads this
    {
      Spec.State(users, tokens, media)
    }

    constructor ()
      ensures Snapshot() == Spec.State(map[], map[], map[])
    {
      users, tokens, media := map[], map[], map[];
    }

    // -------------------------------------------------------------------
    // Users
    // -------------------------------------------------------------------

    /** `_users.post`, specified by `Spec.UsersPost`. */
    method UsersPost(req: Request, env: Env) returns (r: Response)
      modifies this
      ensures Spec.Outcome(Snapshot(), r) == Spec.UsersPost(old(Snapshot()), req, env)
    {
      var firstName := NonEmptyText(Field(req.payload, "firstName"));
      var lastName := NonEmptyText(Field(req.payload, "lastName"));
      var phone := FixedLengthText(Field(req.payload, "phone"), 10);
      var password := NonEmptyText(Field(req.payload, "password"));
      var tosAgreement := IsTrue(Field(req.payload, "tosAgreement"));
      if !(firstName.Some? && lastName.Some? && phone.Some? && password.Some? && tosAgreement) {
        return Response(400, ErrorBody);
      }
      // make sure the user does not already exist
      if phone.value in users {
        return Response(400, ErrorBody);
      }
      var hashed := env.hash(password.value);
      if hashed.None? || hashed.value == [] {
        return Response(500, ErrorBody);
      }
      if env.faults.createFails {
        return Response(500, ErrorBody);
      }
      users := users[phone.value := User(firstName.value, lastName.value, phone.value, hashed, true, None)];
      r := Response(200, NoBody);
    }

    /** `_users.get`, specified by `Spec.UsersGet`. */
    method UsersGet(req: Request, env: Env) returns (r: Response)
      ensures r == Spec.UsersGet(Snapshot(), req, env)
    {
      var phone := FixedLengthText(Field(req.query, "phone"), 10);
      if phone.None? {
        return Response(400, ErrorBody);
      }
      var token := HeaderToken(req.headers);
      if !Spec.VerifyToken(tokens, token, phone.value, env.now) {
        return Response(403, ErrorBody);
      }
      if phone.value !in users {
        return Response(404, NoBody);
      }
      r := Response(200, UserBody(View(users[phone.value])));
    }

    /** `_users.put`, specified by `Spec.UsersPut`. */
    method UsersPut(req: Request, env: Env) returns (r: Response)
      modifies this
      ensures Spec.Outcome(Snapshot(), r) == Spec.UsersPut(old(Snapshot()), req, env)
    {
      var phone := FixedLengthText(Field(req.payload, "phone"), 10);
      var firstName := NonEmptyText(Field(req.payload, "firstName"));
      var lastName := NonEmptyText(Field(req.payload, "lastName"));
      var password := NonEmptyText(Field(req.payload, "password"));
      if phone.None? {
        return Response(400, ErrorBody);
      }
      if firstName.None? && lastName.None? && password.None? {
        return Response(400, ErrorBody);
      }
      var token := HeaderToken(req.headers);
      if !Spec.VerifyToken(tokens, token, phone.value, env.now) {
        return Response(403, ErrorBody);
      }
      if phone.value !in users {
        return Response(400, ErrorBody);
      }
      var userData := users[phone.value];
      if firstName.Some? {
        userData := userData.(firstName := firstName.value);
      }
      if lastName.Some? {
        userData := userData.(lastName := lastName.value);
      }
      if password.Some? {
        userData := userData.(hashedPassword := env.hash(password.value));
      }
      if env.faults.updateFails {
        return Response(500, ErrorBody);
      }
      users := users[phone.value := userData];
      r := Response(200, NoBody);
    }

    /**
     * `_users.delete` as written: the row goes first, then the cascade runs
     * against the 'mediaLinks' collection, which holds no records. Specified
     * by `Spec.UsersDelete`.
     */
    method UsersDelete(req: Request, env: Env) returns (r: Response)
      modifies this
      ensures Spec.Outcome(Snapshot(), r) == Spec.UsersDelete(old(Snapshot()), req, env)
    {
      var phone := FixedLengthText(Field(req.query, "phone"), 10);
      if phone.None? {
        return Response(400, ErrorBody);
      }
      var token := HeaderToken(req.headers);
      if !Spec.VerifyToken(tokens, token, phone.value, env.now) {
        return Response(403, ErrorBody);
      }
      if phone.value !in users {
        return Response(400, ErrorBody);
      }
      var userData := users[phone.value];
      if env.faults.deleteFails {
        return Response(500, ErrorBody);
      }
      users := users - {phone.value};
      var userMediaLinks := Links(userData);
      if |userMediaLinks| > 0 {
        var _, code, _ := DeleteEach(userMediaLinks, Spec.MediaLinksCollection, env.faults.cascadeFails);
        r := Response(code, if code == 200 then NoBody else ErrorBody);
      } else {
        r := Response(200, NoBody);
      }
    }

    /** `_users.delete` with the cascade deleting the linked records from `media`, specified by `Spec.UsersDeleteCascadingMedia`. */
    method UsersDeleteCascadingMedia(req: Request, env: Env) returns (r: Response)
      modifies this
      ensures Spec.Outcome(Snapshot(), r) == Spec.UsersDeleteCascadingMedia(old(Snapshot()), req, env)
    {
      var phone := FixedLengthText(Field(req.query, "phone"), 10);
      if phone.None? {
        return Response(400, ErrorBody);
      }
      var token := HeaderToken(req.headers);
      if !Spec.VerifyToken(tokens, token, phone.value, env.now) {
        return Response(403, ErrorBody);
      }
      if phone.value !in users {
        return Response(400, ErrorBody);
      }
      var userData := users[phone.value];
      if env.faults.deleteFails {
        return Response(500, ErrorBody);
      }
      users := users - {phone.value};
      var userMediaLinks := Links(userData);
      if |userMediaLinks| > 0 {
        var rest, code, _ := DeleteEach(userMediaLinks, media, env.faults.cascadeFails);
        media := rest;
        r := Response(code, if code == 200 then NoBody else ErrorBody);
      } else {
        r := Response(200, NoBody);
      }
    }

    // -------------------------------------------------------------------
    // Tokens
    // -------------------------------------------------------------------

    /** `_tokens.post`, specified by `Spec.TokensPost`. */
    method TokensPost(req: Request, env: Env) returns (r: Response)
      modifies this
      ensures Spec.Outcome(Snapshot(), r) == Spec.TokensPost(old(Snapshot()), req, env)
    {
      var phone := FixedLengthText(Field(req.payload, "phone"), 10);
      var password := NonEmptyText(Field(req.payload, "password"));
      if phone.None? || password.None? {
        return Response(400, ErrorBody);
      }
      if phone.value !in users {
        return Response(400, ErrorBody);
      }
      var userData := users[phone.value];
      // the source compares with `==`, under which `false` equals a string worth zero
      if !LooseEquals(env.hash(password.value), userData.hashedPassword) {
        return Response(400, ErrorBody);
      }
      var tokenId := env.freshId;
      var tokenObject := Token(phone.value, tokenId, env.now + TokenLifetime, userData.firstName);
      // creating a record fails on a fault and when the key is taken
      if env.faults.createFails || tokenId in tokens {
        return Response(500, ErrorBody);
      }
      tokens := tokens[tokenId := tokenObject];
      r := Response(200, TokenBody(tokenObject));
    }

    /** `_tokens.get`, specified by `Spec.TokensGet`. */
    method TokensGet(req: Request) returns (r: Response)
      ensures r == Spec.TokensGet(Snapshot(), req)
    {
      var id := FixedLengthText(Field(req.query, "id"), 20);
      if id.None? {
        return Response(400, ErrorBody);
      }
      if id.value !in tokens {
        return Response(404, NoBody);
      }
      r := Response(200, TokenBody(tokens[id.value]));
    }

    /** `_tokens.put`, specified by `Spec.TokensPut`. */
    method TokensPut(req: Request, env: Env) returns (r: Response)
      modifies this
      ensures Spec.Outcome(Snapshot(), r) == Spec.TokensPut(old(Snapshot()), req, env)
    {
      var id := FixedLengthText(Field(req.payload, "id"), 20);
      var extend := IsTrue(Field(req.payload, "extend"));
      if !(id.Some? && extend) {
        return Response(400, ErrorBody);
      }
      if id.value !in tokens {
        return Response(400, ErrorBody);
      }
      var tokenData := tokens[id.value];
      if tokenData.expires <= env.now {
        return Response(400, ErrorBody);
      }
      tokenData := tokenData.(expires := env.now + TokenLifetime);
      if env.faults.updateFails {
        return Response(500, ErrorBody);
      }
      tokens := tokens[id.value := tokenData];
      r := Response(200, NoBody);
    }

    /** `_tokens.delete`, specified by `Spec.TokensDelete`. */
    method TokensDelete(req: Request, env: Env) returns (r: Response)
      modifies this
      ensures Spec.Outcome(Snapshot(), r) == Spec.TokensDelete(old(Snapshot()), req, env)
    {
      var id := FixedLengthText(Field(req.query, "id"), 20);
      if id.None? {
        return Response(400, ErrorBody);
      }
      if id.value !in tokens {
        return Response(400, ErrorBody);
      }
      if env.faults.deleteFails {
        return Response(500, ErrorBody);
      }
      tokens := tokens - {id.value};
      r := Response(200, NoBody);
    }

    // -------------------------------------------------------------------
    // Media
    // -------------------------------------------------------------------

    /** `_media.post`, specified by `Spec.MediaPost`. */
    method MediaPost(req: Request, env: Env) returns (r: Response)
      modifies this
      ensures Spec.Outcome(Snapshot(), r) == Spec.MediaPost(old(Snapshot()), req, env)
    {
      var url := NonEmptyText(Field(req.payload, "url"));
      var dis := NonEmptyText(Field(req.payload, "dis"));
      if dis.None? || url.None? {
        return Response(400, ErrorBody);
      }
      var token := HeaderToken(req.headers);
      // the owner is read off the token itself: no verification, no expiry check
      if token !in tokens {
        return Response(403, NoBody);
      }
      var tokenData := tokens[token];
      var userPhone := tokenData.phone;
      if userPhone !in users {
        return Response(403, NoBody);
      }
      var userData := users[userPhone];
      var userMedia := Links(userData);
      if !env.hostResolves {
        return Response(400, ErrorBody);
      }
      var mediaId := env.freshId;
      var mediaObject := Media(mediaId, userPhone, url.value, dis.value, tokenData.firstName);
      if env.faults.createFails || mediaId in media {
        return Response(500, ErrorBody);
      }
      media := media[mediaId := mediaObject];
      userData := userData.(mediaLinks := Some(userMedia + [mediaId]));
      if env.faults.updateFails {
        return Response(500, ErrorBody);
      }
      users := users[userPhone := userData];
      r := Response(200, MediaBody(mediaObject));
    }

    /**
     * `_media.get`: the ids are listed, then each is read into the result;
     * the listing succeeds only when every read does. Specified by
     * `Spec.MediaGet`.
     */
    method MediaGet(faults: Faults) returns (r: Response)
      ensures r == Spec.MediaGet(Snapshot(), faults)
    {
      if |media| == 0 {
        return Response(400, ErrorBody);
      }
      var ids := media.Keys;
      var mediaList: map<string, Media> := map[];
      var readError := false;
      while ids != {}
        invariant ids <= media.Keys
        invariant forall id | id in mediaList :: id in media && id !in ids && mediaList[id] == media[id]
        invariant forall id | id in media && id !in ids && id !in faults.readFails :: id in mediaList
        invariant readError <==> exists id | id in media && id !in ids :: id in faults.readFails
        decreases ids
      {
        var id :| id in ids;
        if id in faults.readFails {
          readError := true;
        } else {
          mediaList := mediaList[id := media[id]];
        }
        ids := ids - {id};
      }
      if readError {
        ghost var bad :| bad in media && bad in faults.readFails;
        assert bad in media.Keys * faults.readFails;
        return Response(400, ErrorBody);
      }
      assert media.Keys * faults.readFails == {};
      assert mediaList.Keys == media.Keys;
      assert mediaList == media;
      r := Response(200, MediaListBody(mediaList));
    }

    /** `_media.put`, specified by `Spec.MediaPut`. */
    method MediaPut(req: Request, env: Env) returns (r: Response)
      modifies this
      ensures Spec.Outcome(Snapshot(), r) == Spec.MediaPut(old(Snapshot()), req, env)
    {
      var id := FixedLengthText(Field(req.payload, "id"), 20);
      var url := NonEmptyText(Field(req.payload, "url"));
      var dis := NonEmptyText(Field(req.payload, "dis"));
      if id.None? {
        return Response(400, ErrorBody);
      }
      if dis.None? && url.None? {
        return Response(400, ErrorBody);
      }
      if id.value !in media {
        return Response(400, ErrorBody);
      }
      var checkData := media[id.value];
      var token := HeaderToken(req.headers);
      if !Spec.VerifyToken(tokens, token, checkData.userPhone, env.now) {
        return Response(403, NoBody);
      }
      if dis.Some? {
        checkData := checkData.(dis := dis.value);
      }
      if url.Some? {
        checkData := checkData.(url := url.value);
      }
      if env.faults.updateFails {
        return Response(500, ErrorBody);
      }
      media := media[id.value := checkData];
      r := Response(200, NoBody);
    }

    /** `_media.delete`, specified by `Spec.MediaDelete`. */
    method MediaDelete(req: Request, env: Env) returns (r: Response)
      modifies this
      ensures Spec.Outcome(Snapshot(), r) == Spec.MediaDelete(old(Snapshot()), req, env)
    {
      var id := FixedLengthText(Field(req.query, "id"), 20);
      if id.None? {
        return Response(400, ErrorBody);
      }
      if id.value !in media {
        return Response(400, ErrorBody);
      }
      var checkData := media[id.value];
      var token := HeaderToken(req.headers);
      if !Spec.VerifyToken(tokens, token, checkData.userPhone, env.now) {
        return Response(403, NoBody);
      }
      if env.faults.deleteFails {
        return Response(500, ErrorBody);
      }
      media := media - {id.value};
      if checkData.userPhone !in users {
        return Response(500, ErrorBody);
      }
      var userData := users[checkData.userPhone];
      var userMediaLinks := Links(userData);
      var checkPosition := Spec.IndexOf(userMediaLinks, id.value);
      if checkPosition < 0 {
        return Response(500, ErrorBody);
      }
      userMediaLinks := Spec.Splice(userMediaLinks, checkPosition);
      userData := userData.(mediaLinks := Some(userMediaLinks));
      if env.faults.updateFails {
        return Response(500, ErrorBody);
      }
      users := users[checkData.userPhone := userData];
      r := Response(200, NoBody);
    }

    // -------------------------------------------------------------------
    // Dispatch: only post/get/put/delete reach a handler, anything else is 405
    // -------------------------------------------------------------------

    /** `handlers.users`, specified by `Spec.Users`. */
    method Users(req: Request, env: Env) returns (r: Response)
      modifies this
      ensures Spec.Outcome(Snapshot(), r) == Spec.Users(old(Snapshot()), req, env)
      ensures !Spec.Accepted(req.verb) ==> r.code == 405 && Snapshot() == old(Snapshot())
    {
      if req.verb == "post" {
        r := UsersPost(req, env);
      } else if req.verb == "get" {
        r := UsersGet(req, env);
      } else if req.verb == "put" {
        r := UsersPut(req, env);
      } else if req.verb == "delete" {
        r := UsersDelete(req, env);
      } else {
        r := Response(405, NoBody);
      }
    }

    /** `handlers.tokens`, specified by `Spec.Tokens`. */
    method Tokens(req: Request, env: Env) returns (r: Response)
      modifies this
      ensures Spec.Outcome(Snapshot(), r) == Spec.Tokens(old(Snapshot()), req, env)
      ensures !Spec.Accepted(req.verb) ==> r.code == 405 && Snapshot() == old(Snapshot())
    {
      if req.verb == "post" {
        r := TokensPost(req, env);
      } else if req.verb == "get" {
        r := TokensGet(req);
      } else if req.verb == "put" {
        r := TokensPut(req, env);
      } else if req.verb == "delete" {
        r := TokensDelete(req, env);
      } else {
        r := Response(405, NoBody);
      }
    }

    /** `handlers.media`, specified by `Spec.MediaRoute`. */
    method MediaRoute(req: Request, env: Env) returns (r: Response)
      modifies this
      ensures Spec.Outcome(Snapshot(), r) == Spec.MediaRoute(old(Snapshot()), req, env)
      ensures !Spec.Accepted(req.verb) ==> r.code == 405 && Snapshot() == old(Snapshot())
    {
      if req.verb == "post" {
        r := MediaPost(req, env);
      } else if req.verb == "get" {
        r := MediaGet(env.faults);
      } else if req.verb == "put" {
        r := MediaPut(req, env);
      } else if req.verb == "delete" {
        r := MediaDelete(req, env);
      } else {
        r := Response(405, NoBody);
      }
    }
  }
}
