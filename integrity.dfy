/**
 * The relation between users and media records: every id in a user's
 * `mediaLinks` names a stored record owned by that user, no id is listed
 * twice, and every stored record's owner exists and lists it. Creating,
 * updating and deleting media keep this when their writes succeed; user
 * delete as written does not, because its cascade deletes from the
 * 'mediaLinks' collection and leaves the records of the deleted user behind.
 */
module Integrity {
  import opened Records
  import opened Validate
  import opened Spec
  import UserProperties
  import MediaProperties

  /** Every listed id names a stored record owned by the listing user; no list repeats an id. */
  ghost predicate LinksResolve(s: State) {
    forall p | p in s.users ::
      && NoDuplicates(Links(s.users[p]))
      && forall id | id in Links(s.users[p]) :: id in s.media && s.media[id].userPhone == p
  }

  /** Every stored record's owner is a stored user that lists it. */
  ghost predicate OwnersList(s: State) {
    forall id | id in s.media ::
      s.media[id].userPhone in s.users && id in Links(s.users[s.media[id].userPhone])
  }

  ghost predicate Consistent(s: State) {
    LinksResolve(s) && OwnersList(s)
  }

  /** The empty store is consistent. */
  lemma EmptyStoreConsistent()
    ensures Consistent(State(map[], map[], map[]))
  {
  }

  /** Registering a user keeps the relation: the new user lists nothing and no record names it. */
  lemma UsersPostKeepsConsistent(s: State, req: Request, env: Env)
    requires Consistent(s)
    ensures Consistent(UsersPost(s, req, env).state)
  {
    var o := UsersPost(s, req, env);
    UserProperties.UsersPostValidatesAndNeverOverwrites(s, req, env);
    if o.response.code == 200 {
      var phone := Trim(req.payload["phone"].s);
      AddingUserKeepsConsistent(s, phone, o.state.users[phone]);
    }
  }

  /** A new user without links, under an unused phone, keeps the relation. */
  lemma AddingUserKeepsConsistent(s: State, phone: string, u: User)
    requires Consistent(s) && phone !in s.users && Links(u) == []
    ensures Consistent(s.(users := s.users[phone := u]))
  {
    var t := s.(users := s.users[phone := u]);
    forall id | id in t.media
      ensures t.media[id].userPhone in t.users
      ensures id in Links(t.users[t.media[id].userPhone])
    {
      assert s.media[id].userPhone in s.users;
    }
  }

  /** Updating a user never touches `mediaLinks`. */
  lemma UsersPutKeepsConsistent(s: State, req: Request, env: Env)
    requires Consistent(s)
    ensures Consistent(UsersPut(s, req, env).state)
  {
    var o := UsersPut(s, req, env);
    var phone := FixedLengthText(Field(req.payload, "phone"), 10);
    if phone.None? {
      assert o.state == s;
    } else {
      UserProperties.UsersPutChangesOnlySuppliedFields(s, req, env, phone.value);
      if o.response.code == 200 {
        SameLinksKeepConsistent(s, o.state);
      }
    }
  }

  /** The relation reads only each user's links, not the other fields. */
  lemma SameLinksKeepConsistent(s: State, t: State)
    requires Consistent(s) && t.media == s.media && t.users.Keys == s.users.Keys
    requires forall p | p in s.users :: Links(t.users[p]) == Links(s.users[p])
    ensures Consistent(t)
  {
  }

  /** The relation reads only users and media. */
  lemma SameUsersAndMedia(s: State, t: State)
    requires Consistent(s) && t.users == s.users && t.media == s.media
    ensures Consistent(t)
  {
  }

  /** The token handlers change neither users nor media. */
  lemma TokenHandlersKeepConsistent(s: State, req: Request, env: Env)
    requires Consistent(s)
    ensures Consistent(Tokens(s, req, env).state)
  {
    TokenHandlersTouchOnlyTokens(s, req, env);
    SameUsersAndMedia(s, Tokens(s, req, env).state);
  }

  lemma TokenHandlersTouchOnlyTokens(s: State, req: Request, env: Env)
    ensures Tokens(s, req, env).state.users == s.users
    ensures Tokens(s, req, env).state.media == s.media
  {
    if req.verb == "post" {
      assert Tokens(s, req, env) == TokensPost(s, req, env);
      TokensPostTouchesOnlyTokens(s, req, env);
    } else if req.verb == "put" {
      assert Tokens(s, req, env) == TokensPut(s, req, env);
      TokensPutTouchesOnlyTokens(s, req, env);
    } else if req.verb == "delete" {
      assert Tokens(s, req, env) == TokensDelete(s, req, env);
      TokensDeleteTouchesOnlyTokens(s, req, env);
    }
  }

  lemma TokensPostTouchesOnlyTokens(s: State, req: Request, env: Env)
    ensures TokensPost(s, req, env).state.users == s.users && TokensPost(s, req, env).state.media == s.media
  {
  }

  lemma TokensPutTouchesOnlyTokens(s: State, req: Request, env: Env)
    ensures TokensPut(s, req, env).state.users == s.users && TokensPut(s, req, env).state.media == s.media
  {
  }

  lemma TokensDeleteTouchesOnlyTokens(s: State, req: Request, env: Env)
    ensures TokensDelete(s, req, env).state.users == s.users && TokensDelete(s, req, env).state.media == s.media
  {
  }

  /**
   * Creating media keeps the relation when the user update after the
   * record's creation succeeds: the new id is not listed anywhere yet, and
   * it is appended to its owner's list.
   */
  lemma MediaPostKeepsConsistent(s: State, req: Request, env: Env)
    requires Consistent(s)
    requires !env.faults.updateFails
    ensures Consistent(MediaPost(s, req, env).state)
  {
    var o := MediaPost(s, req, env);
    MediaPostOutcome(s, req, env);
    if o.response.code == 200 {
      var owner := s.tokens[HeaderToken(req.headers)].phone;
      AppendingLinkKeepsConsistent(s, owner, o.state.media[env.freshId]);
    }
  }

  /** Without an update fault, media create either changes nothing or adds the record and its link. */
  lemma MediaPostOutcome(s: State, req: Request, env: Env)
    requires !env.faults.updateFails
    ensures var o := MediaPost(s, req, env);
      && (o.response.code != 200 ==> o.state == s)
      && (o.response.code == 200 ==>
            var key := HeaderToken(req.headers);
            && key in s.tokens && s.tokens[key].phone in s.users
            && env.freshId !in s.media
            && var owner := s.tokens[key].phone;
               && env.freshId in o.state.media && o.state.media[env.freshId].id == env.freshId
               && o.state.media[env.freshId].userPhone == owner
               && o.state == Linked(s, owner, o.state.media[env.freshId]))
  {
  }

  /** The store after `rec` is stored under its id and that id is appended to the links of `owner`. */
  function Linked(s: State, owner: string, rec: Media): State
    requires owner in s.users
  {
    s.(media := s.media[rec.id := rec],
       users := s.users[owner := s.users[owner].(mediaLinks := Some(Links(s.users[owner]) + [rec.id]))])
  }

  lemma AppendingLinkKeepsConsistent(s: State, owner: string, rec: Media)
    requires Consistent(s) && owner in s.users && rec.id !in s.media && rec.userPhone == owner
    ensures Consistent(Linked(s, owner, rec))
  {
    var t := Linked(s, owner, rec);
    var f := rec.id;
    var before := Links(s.users[owner]);
    var after := Links(t.users[owner]);
    assert after == before + [f];
    assert f !in before;
    forall p | p in t.users
      ensures NoDuplicates(Links(t.users[p]))
      ensures forall id | id in Links(t.users[p]) :: id in t.media && t.media[id].userPhone == p
    {
      if p == owner {
        forall i, j | 0 <= i < j < |after|
          ensures after[i] != after[j]
        {
          if j == |after| - 1 {
            assert after[i] == before[i];
          }
        }
      }
    }
    forall id | id in t.media
      ensures t.media[id].userPhone in t.users
      ensures id in Links(t.users[t.media[id].userPhone])
    {
      if id != f {
        var q := s.media[id].userPhone;
        assert id in Links(s.users[q]);
        if q == owner {
          assert id in after;
        }
      }
    }
  }

  /** Updating media changes only URL and description, never the owner. */
  lemma MediaPutKeepsConsistent(s: State, req: Request, env: Env)
    requires Consistent(s)
    ensures Consistent(MediaPut(s, req, env).state)
  {
    MediaPutKeepsOwners(s, req, env);
    SameOwnersKeepConsistent(s, MediaPut(s, req, env).state);
  }

  lemma MediaPutKeepsOwners(s: State, req: Request, env: Env)
    ensures var t := MediaPut(s, req, env).state;
      && t.users == s.users && t.media.Keys == s.media.Keys
      && forall id | id in s.media :: t.media[id].userPhone == s.media[id].userPhone
  {
    var o := MediaPut(s, req, env);
    if o.response.code == 200 {
      var id := FixedLengthText(Field(req.payload, "id"), 20).value;
      assert o.state == s.(media := s.media[id := o.state.media[id]]);
      assert o.state.media[id].userPhone == s.media[id].userPhone;
    } else {
      assert o.state == s;
    }
  }

  /** The relation reads only who owns each record, not the records' other fields. */
  lemma SameOwnersKeepConsistent(s: State, t: State)
    requires Consistent(s) && t.users == s.users && t.media.Keys == s.media.Keys
    requires forall id | id in s.media :: t.media[id].userPhone == s.media[id].userPhone
    ensures Consistent(t)
  {
  }

  /** What survives a splice: every element other than the one removed. */
  lemma SpliceKeepsOthers(links: seq<string>, p: nat, x: string)
    requires p < |links| && x in links && x != links[p]
    ensures x in Splice(links, p)
  {
    var i :| 0 <= i < |links| && links[i] == x;
    if i < p {
      assert Splice(links, p)[i] == x;
    } else {
      assert Splice(links, p)[i - 1] == x;
    }
  }

  lemma SpliceSubset(links: seq<string>, p: nat, x: string)
    requires p < |links| && x in Splice(links, p)
    ensures x in links
  {
    var r := Splice(links, p);
    var i :| 0 <= i < |r| && r[i] == x;
    assert r[i] == links[if i < p then i else i + 1];
  }

  /**
   * Deleting media keeps the relation when the user update after the
   * record's deletion succeeds: the record goes and so does its one
   * listing.
   */
  lemma MediaDeleteKeepsConsistent(s: State, req: Request, env: Env)
    requires Consistent(s)
    requires !env.faults.updateFails
    ensures Consistent(MediaDelete(s, req, env).state)
  {
    var o := MediaDelete(s, req, env);
    var id := FixedLengthText(Field(req.query, "id"), 20);
    if id.Some? && id.value in s.media && !env.faults.deleteFails
       && VerifyToken(s.tokens, HeaderToken(req.headers), s.media[id.value].userPhone, env.now)
    {
      var x := id.value;
      var owner := s.media[x].userPhone;
      assert owner in s.users && x in Links(s.users[owner]);
      assert o.state == Unlinked(s, x);
      UnlinkingKeepsConsistent(s, x);
    } else {
      assert o.state == s;
    }
  }

  /** The store after record `x` is deleted and the first occurrence of `x` is spliced out of its owner's links. */
  function Unlinked(s: State, x: string): State
    requires x in s.media && s.media[x].userPhone in s.users && x in Links(s.users[s.media[x].userPhone])
  {
    var owner := s.media[x].userPhone;
    var links := Links(s.users[owner]);
    s.(media := s.media - {x},
       users := s.users[owner := s.users[owner].(mediaLinks := Some(Splice(links, IndexOf(links, x))))])
  }

  lemma UnlinkingKeepsConsistent(s: State, x: string)
    requires Consistent(s) && x in s.media
    ensures Consistent(Unlinked(s, x))
  {
    var t := Unlinked(s, x);
    var owner := s.media[x].userPhone;
    var before := Links(s.users[owner]);
    var p := IndexOf(before, x);
    var after := Splice(before, p);
    MediaProperties.SpliceKeepsDistinct(before, p);
    assert Links(t.users[owner]) == after;
    forall q | q in t.users
      ensures NoDuplicates(Links(t.users[q]))
      ensures forall y | y in Links(t.users[q]) :: y in t.media && t.media[y].userPhone == q
    {
      if q == owner {
        forall y | y in after
          ensures y in t.media && t.media[y].userPhone == q
        {
          SpliceSubset(before, p, y);
        }
      }
    }
    forall y | y in t.media
      ensures t.media[y].userPhone in t.users
      ensures y in Links(t.users[t.media[y].userPhone])
    {
      if s.media[y].userPhone == owner {
        SpliceKeepsOthers(before, p, y);
      }
    }
  }

  /**
   * User delete with the cascade aimed at 'media', and no cascade fault,
   * keeps the relation: the user's records go with the user.
   */
  lemma UsersDeleteCascadingMediaKeepsConsistent(s: State, req: Request, env: Env)
    requires Consistent(s)
    requires env.faults.cascadeFails == {}
    ensures Consistent(UsersDeleteCascadingMedia(s, req, env).state)
  {
    var o := UsersDeleteCascadingMedia(s, req, env);
    var phone := FixedLengthText(Field(req.query, "phone"), 10);
    if phone.Some? && VerifyToken(s.tokens, HeaderToken(req.headers), phone.value, env.now)
       && phone.value in s.users && !env.faults.deleteFails
    {
      var p := phone.value;
      var links := Links(s.users[p]);
      var sweep := CascadeDelete(links, s.media, env.faults.cascadeFails);
      if links != [] {
        LinksAreStored(s, p);
        UserProperties.CascadeDeletesExactly(links, s.media, env.faults.cascadeFails);
        assert o.state == State(s.users - {p}, s.tokens, sweep.rest);
      } else {
        assert o.state == State(s.users - {p}, s.tokens, s.media);
        assert (s.media - set id | id in links) == s.media;
      }
      RemovingUserAndRecordsKeepsConsistent(s, p);
    }
  }

  lemma LinksAreStored(s: State, p: string)
    requires Consistent(s) && p in s.users
    ensures NoDuplicates(Links(s.users[p]))
    ensures forall i | 0 <= i < |Links(s.users[p])| :: Links(s.users[p])[i] in s.media
  {
  }

  /** Removing a user together with every record it lists keeps the relation. */
  lemma RemovingUserAndRecordsKeepsConsistent(s: State, p: string)
    requires Consistent(s) && p in s.users
    ensures Consistent(State(s.users - {p}, s.tokens, s.media - set id | id in Links(s.users[p])))
  {
    var links := Links(s.users[p]);
    var t := State(s.users - {p}, s.tokens, s.media - set id | id in links);
    forall q | q in t.users
      ensures NoDuplicates(Links(t.users[q]))
      ensures forall id | id in Links(t.users[q]) :: id in t.media && t.media[id].userPhone == q
    {
      forall id | id in Links(s.users[q])
        ensures id in t.media && t.media[id].userPhone == q
      {
        assert s.media[id].userPhone == q;
      }
    }
    forall id | id in t.media
      ensures t.media[id].userPhone in t.users
      ensures id in Links(t.users[t.media[id].userPhone])
    {
      assert id in s.media && id !in links;
      assert s.media[id].userPhone != p;
    }
  }

  /**
   * On a consistent store, with no fault, user delete with the cascade
   * aimed at 'media' answers 200 and removes exactly the user and the
   * records it lists.
   */
  lemma UsersDeleteCascadingMediaSucceeds(s: State, req: Request, env: Env, phone: string)
    requires Consistent(s)
    requires UserProperties.DeleteReaches(s, req, env, phone)
    requires !env.faults.deleteFails && env.faults.cascadeFails == {}
    ensures UsersDeleteCascadingMedia(s, req, env)
         == Reply(State(s.users - {phone}, s.tokens, s.media - set id | id in Links(s.users[phone])), 200, NoBody)
  {
    var links := Links(s.users[phone]);
    if links != [] {
      LinksAreStored(s, phone);
      UserProperties.CascadeDeletesExactly(links, s.media, env.faults.cascadeFails);
    } else {
      assert (s.media - set id | id in links) == s.media;
    }
  }

  /**
   * Finding: user delete as written breaks the relation. Whenever a user
   * with at least one media record is deleted (and the row delete works),
   * the answer is 500 and the records stay, owned by a user that no longer
   * exists.
   */
  lemma UsersDeleteLeavesOrphans(s: State, req: Request, env: Env, phone: string)
    requires Consistent(s)
    requires UserProperties.DeleteReaches(s, req, env, phone)
    requires !env.faults.deleteFails && Links(s.users[phone]) != []
    ensures UsersDelete(s, req, env).response.code == 500
    ensures UsersDelete(s, req, env).state.media == s.media
    ensures !Consistent(UsersDelete(s, req, env).state)
  {
    UserProperties.UsersDeleteAlwaysFailsWithLinks(s, req, env, phone);
    var id := Links(s.users[phone])[0];
    var o := UsersDelete(s, req, env);
    assert id in o.state.media && o.state.media[id].userPhone !in o.state.users;
  }

  /** A store with one user who owns one media record, and a live token for that user. */
  function Scenario(): State {
    var phone := "1234567890";
    var mediaId := "m0000000000000000000";
    var tokenId := "t0000000000000000000";
    State(
      map[phone := User("A", "B", phone, Some("h"), true, Some([mediaId]))],
      map[tokenId := Token(phone, tokenId, 3600000, "A")],
      map[mediaId := Media(mediaId, phone, "http://example.com", "d", "A")])
  }

  /** The request `DELETE users?phone=1234567890` with the scenario's token in the header. */
  function ScenarioDelete(): Request {
    Request("delete", map[], map["phone" := Str("1234567890")], map["token" := Str("t0000000000000000000")])
  }

  /**
   * The concrete input of the finding: deleting the scenario's user at time
   * 0 with no fault answers 500 and leaves its media record orphaned, while
   * the cascade aimed at 'media' answers 200 and removes both the user and
   * the record.
   */
  lemma ScenarioShowsOrphan(env: Env)
    requires env.now == 0 && env.faults == NoFaults
    ensures Consistent(Scenario())
    ensures UsersDelete(Scenario(), ScenarioDelete(), env).response.code == 500
    ensures !Consistent(UsersDelete(Scenario(), ScenarioDelete(), env).state)
    ensures UsersDeleteCascadingMedia(Scenario(), ScenarioDelete(), env) == Reply(State(map[], Scenario().tokens, map[]), 200, NoBody)
  {
    ScenarioConsistent();
    ScenarioReaches(env);
    assert Links(Scenario().users["1234567890"]) != [];
    UsersDeleteLeavesOrphans(Scenario(), ScenarioDelete(), env, "1234567890");
    ScenarioCorrected(env);
  }

  lemma ScenarioCorrected(env: Env)
    requires env.now == 0 && env.faults == NoFaults
    ensures UsersDeleteCascadingMedia(Scenario(), ScenarioDelete(), env) == Reply(State(map[], Scenario().tokens, map[]), 200, NoBody)
  {
    ScenarioConsistent();
    ScenarioReaches(env);
    UsersDeleteCascadingMediaSucceeds(Scenario(), ScenarioDelete(), env, "1234567890");
    OnlyUserRemoved(Scenario(), "1234567890", "m0000000000000000000");
  }

  /** In a store of one user who lists its one record, removing both leaves no user and no record. */
  lemma OnlyUserRemoved(s: State, p: string, m: string)
    requires s.users.Keys == {p} && Links(s.users[p]) == [m] && s.media.Keys == {m}
    ensures State(s.users - {p}, s.tokens, s.media - set id | id in Links(s.users[p])) == State(map[], s.tokens, map[])
  {
    assert (set id | id in Links(s.users[p])) == {m};
  }

  lemma ScenarioConsistent()
    ensures Consistent(Scenario())
  {
    var s := Scenario();
    assert Links(s.users["1234567890"]) == ["m0000000000000000000"];
  }

  lemma ScenarioReaches(env: Env)
    requires env.now == 0
    ensures UserProperties.DeleteReaches(Scenario(), ScenarioDelete(), env, "1234567890")
  {
    TrimmedIsFixed("1234567890");
    assert FixedLengthText(Field(ScenarioDelete().query, "phone"), 10) == Some("1234567890");
  }
}
