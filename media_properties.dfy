/**
 * What the media handlers of lib/handlers.js promise: creation stores a
 * record owned by the token's phone and appends its id to that user's
 * `mediaLinks`; an unresolvable host changes nothing; an update touches
 * only the URL and description; a delete removes the record and then the
 * first occurrence of its id from the owner's list.
 */
module MediaProperties {
  import opened Records
  import opened Validate
  import opened Spec

  /**
   * `splice` at the position `indexOf` finds removes one occurrence of the
   * id, the first, and keeps the other ids in their order; in a list
   * without duplicates the id is then gone and there are still none.
   */
  lemma {:induction false} SpliceFirstOccurrence(links: seq<string>, id: string)
    requires id in links
    ensures var p := IndexOf(links, id);
      var r := Splice(links, p);
      && 0 <= p && links[p] == id && id !in links[..p]
      && r == links[..p] + links[p + 1..]
      && |r| == |links| - 1
      && multiset(r) == multiset(links) - multiset{id}
      && (NoDuplicates(links) ==> id !in r && NoDuplicates(r))
  {
    var p := IndexOf(links, id);
    SpliceCount(links, p);
    if NoDuplicates(links) {
      SpliceKeepsDistinct(links, p);
    }
  }

  lemma SpliceCount(links: seq<string>, p: nat)
    requires p < |links|
    ensures multiset(Splice(links, p)) == multiset(links) - multiset{links[p]}
  {
    assert links == links[..p] + [links[p]] + links[p + 1..];
  }

  lemma SpliceKeepsDistinct(links: seq<string>, p: nat)
    requires p < |links| && NoDuplicates(links)
    ensures links[p] !in Splice(links, p) && NoDuplicates(Splice(links, p))
  {
    var r := Splice(links, p);
    assert forall i | 0 <= i < |r| :: r[i] == links[if i < p then i else i + 1];
  }

  /** The owner named by the token of a media request, if the token is stored. */
  function TokenOwner(s: State, req: Request): Option<string> {
    var key := HeaderToken(req.headers);
    if key in s.tokens then Some(s.tokens[key].phone) else None
  }

  /**
   * Creation: it succeeds exactly when URL and description are non-empty,
   * the header names a stored token whose phone is a stored user, the host
   * resolves, and both writes succeed. The new record is owned by the
   * token's phone, and its id becomes the last element of that user's
   * `mediaLinks`; no other field of that user, no other user and no token
   * changes.
   */
  lemma MediaPostAppendsLink(s: State, req: Request, env: Env)
    ensures var o := MediaPost(s, req, env);
      var url := NonEmptyText(Field(req.payload, "url"));
      var dis := NonEmptyText(Field(req.payload, "dis"));
      var owner := TokenOwner(s, req);
      && (o.response.code == 200 <==>
            && url.Some? && dis.Some? && owner.Some? && owner.value in s.users && env.hostResolves
            && env.freshId !in s.media && !env.faults.createFails && !env.faults.updateFails)
      && (o.response.code == 200 ==>
            var key := HeaderToken(req.headers);
            var record := Media(env.freshId, owner.value, url.value, dis.value, s.tokens[key].firstName);
            && o.response.body == MediaBody(record)
            && o.state.media == s.media[env.freshId := record]
            && o.state.tokens == s.tokens
            && o.state.users.Keys == s.users.Keys
            && Links(o.state.users[owner.value]) == Links(s.users[owner.value]) + [env.freshId]
            && o.state.users[owner.value]
               == s.users[owner.value].(mediaLinks := Some(Links(s.users[owner.value]) + [env.freshId]))
            && (forall p | p in s.users && p != owner.value :: o.state.users[p] == s.users[p]))
  {
  }

  /** A URL whose host does not resolve is a 400: no media record, and the user is not changed. */
  lemma MediaPostUnresolvedHostChangesNothing(s: State, req: Request, env: Env)
    requires !env.hostResolves
    ensures MediaPost(s, req, env).state == s
    ensures NonEmptyText(Field(req.payload, "url")).Some? && NonEmptyText(Field(req.payload, "dis")).Some?
            && TokenOwner(s, req).Some? && TokenOwner(s, req).value in s.users
            ==> MediaPost(s, req, env).response.code == 400
  {
  }

  /**
   * Creation only reads the token: the outcome is the same whatever the
   * token's expiry, so an expired token still creates media. A header that
   * names no token, or a token whose user is gone, is a 403.
   */
  lemma MediaPostIgnoresExpiry(s: State, req: Request, env: Env, expires: int)
    ensures var key := HeaderToken(req.headers);
      key in s.tokens ==>
        MediaPost(s.(tokens := s.tokens[key := s.tokens[key].(expires := expires)]), req, env).response
        == MediaPost(s, req, env).response
    ensures NonEmptyText(Field(req.payload, "url")).Some? && NonEmptyText(Field(req.payload, "dis")).Some?
            && (TokenOwner(s, req).None? || TokenOwner(s, req).value !in s.users)
            ==> MediaPost(s, req, env) == Reply(s, 403, NoBody)
  {
  }

  /**
   * If the user update fails after the record was created, the record stays,
   * unlinked: the answer is 500, the new record is stored under the fresh id
   * with the token's phone and first name, and users, tokens and every other
   * record are as they were.
   */
  lemma MediaPostPartialFailureLeavesRecord(s: State, req: Request, env: Env)
    requires env.faults.updateFails
    ensures var o := MediaPost(s, req, env);
      o.response.code != 200 && o.state.users == s.users && o.state.tokens == s.tokens
      && (o.state.media == s.media || (env.freshId !in s.media && o.state.media.Keys == s.media.Keys + {env.freshId}))
    ensures var url := NonEmptyText(Field(req.payload, "url"));
      var dis := NonEmptyText(Field(req.payload, "dis"));
      var key := HeaderToken(req.headers);
      (&& url.Some? && dis.Some? && key in s.tokens && s.tokens[key].phone in s.users
       && env.hostResolves && !env.faults.createFails && env.freshId !in s.media) ==>
        MediaPost(s, req, env)
        == Reply(s.(media := s.media[env.freshId := Media(env.freshId, s.tokens[key].phone, url.value, dis.value, s.tokens[key].firstName)]),
                 500, ErrorBody)
  {
    var o := MediaPost(s, req, env);
    var key := HeaderToken(req.headers);
    if && NonEmptyText(Field(req.payload, "url")).Some? && NonEmptyText(Field(req.payload, "dis")).Some?
       && key in s.tokens && s.tokens[key].phone in s.users && env.hostResolves
       && !env.faults.createFails && env.freshId !in s.media
    {
      assert o.state == s.(media := o.state.media);
      assert o.state.media.Keys == s.media.Keys + {env.freshId};
    } else {
      assert o.state == s;
    }
  }

  /** Listing returns every record exactly when there is one and every read succeeds; it changes nothing. */
  lemma MediaGetAllOrNothing(s: State, faults: Faults)
    ensures var r := MediaGet(s, faults);
      && (r.code == 200 <==> |s.media| > 0 && forall id | id in s.media :: id !in faults.readFails)
      && (r.code == 200 ==> r.body == MediaListBody(s.media))
      && (r.code != 200 ==> r.code == 400)
  {
    if s.media.Keys * faults.readFails != {} {
      var id :| id in s.media.Keys * faults.readFails;
    } else {
      assert forall id | id in s.media :: id !in s.media.Keys * faults.readFails;
    }
  }

  /**
   * Update: only the owner (a token verified for the record's phone) may
   * change it, and only URL and description change, each only when
   * supplied; the URL is stored without a DNS check.
   */
  lemma MediaPutChangesOnlyUrlAndDescription(s: State, req: Request, env: Env)
    ensures var o := MediaPut(s, req, env);
      var id := FixedLengthText(Field(req.payload, "id"), 20);
      var url := NonEmptyText(Field(req.payload, "url"));
      var dis := NonEmptyText(Field(req.payload, "dis"));
      && (o.response.code == 200 ==>
            && id.Some? && id.value in s.media
            && VerifyToken(s.tokens, HeaderToken(req.headers), s.media[id.value].userPhone, env.now)
            && o.state.users == s.users && o.state.tokens == s.tokens
            && var before := s.media[id.value];
               o.state.media == s.media[id.value := before.(url := if url.Some? then url.value else before.url,
                                                            dis := if dis.Some? then dis.value else before.dis)])
      && (o.response.code != 200 ==> o.state == s)
      && ((id.Some? && (url.Some? || dis.Some?) && id.value in s.media && !env.hostResolves && !env.faults.updateFails
            && VerifyToken(s.tokens, HeaderToken(req.headers), s.media[id.value].userPhone, env.now))
            ==> o.response.code == 200)
  {
  }

  /**
   * Delete: only the owner may delete. On success the record is gone and
   * the owner's `mediaLinks` is the old list with the first occurrence of
   * the id spliced out. If the id is not in that list the answer is 500,
   * but the record has already been deleted. The owner's delete of a listed
   * record succeeds unless one of the two writes fails.
   */
  lemma MediaDeleteUnlinks(s: State, req: Request, env: Env)
    ensures var o := MediaDelete(s, req, env);
      var id := FixedLengthText(Field(req.query, "id"), 20);
      && (o.response.code == 200 ==>
            && id.Some? && id.value in s.media
            && var owner := s.media[id.value].userPhone;
               && VerifyToken(s.tokens, HeaderToken(req.headers), owner, env.now)
               && owner in s.users
               && id.value in Links(s.users[owner])
               && o.state.media == s.media - {id.value}
               && o.state.tokens == s.tokens
               && o.state.users == s.users[owner := s.users[owner].(mediaLinks :=
                    Some(Splice(Links(s.users[owner]), IndexOf(Links(s.users[owner]), id.value))))])
      && ((id.Some? && id.value in s.media
            && VerifyToken(s.tokens, HeaderToken(req.headers), s.media[id.value].userPhone, env.now)
            && !env.faults.deleteFails
            && s.media[id.value].userPhone in s.users
            && id.value !in Links(s.users[s.media[id.value].userPhone]))
            ==> o == Reply(s.(media := s.media - {id.value}), 500, ErrorBody))
      && ((id.Some? && id.value in s.media
            && !VerifyToken(s.tokens, HeaderToken(req.headers), s.media[id.value].userPhone, env.now))
            ==> o == Reply(s, 403, NoBody))
      && ((id.Some? && id.value in s.media
            && VerifyToken(s.tokens, HeaderToken(req.headers), s.media[id.value].userPhone, env.now)
            && !env.faults.deleteFails && !env.faults.updateFails
            && s.media[id.value].userPhone in s.users
            && id.value in Links(s.users[s.media[id.value].userPhone]))
            ==> o.response.code == 200)
  {
  }
}
