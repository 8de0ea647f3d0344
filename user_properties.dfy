/**
 * What the user handlers of lib/handlers.js promise: registration checks
 * every field and never overwrites, an update touches only the supplied
 * names and password of the caller's own record, and a delete removes the
 * row before the per-link cascade, whose single report is 200 exactly when
 * no deletion failed.
 */
module UserProperties {
  import opened Records
  import opened Validate
  import opened Spec

  /** The five checks that open `_users.post`. */
  predicate ValidRegistration(req: Request) {
    && NonEmptyText(Field(req.payload, "firstName")).Some?
    && NonEmptyText(Field(req.payload, "lastName")).Some?
    && FixedLengthText(Field(req.payload, "phone"), 10).Some?
    && NonEmptyText(Field(req.payload, "password")).Some?
    && IsTrue(Field(req.payload, "tosAgreement"))
  }

  /**
   * Registration succeeds only with all five fields valid (names and
   * password non-empty after trim, phone of exactly 10 characters, terms
   * accepted as the boolean true) and an unused phone; it then stores the
   * trimmed values, the hash of the trimmed password and no `mediaLinks`.
   * Invalid input or a taken phone is a 400 with the store untouched.
   */
  lemma UsersPostValidatesAndNeverOverwrites(s: State, req: Request, env: Env)
    ensures var o := UsersPost(s, req, env);
      && (!ValidRegistration(req) ==> o == Reply(s, 400, ErrorBody))
      && (ValidRegistration(req) && Trim(req.payload["phone"].s) in s.users ==> o == Reply(s, 400, ErrorBody))
      && (o.response.code == 200 <==>
            && ValidRegistration(req)
            && Trim(req.payload["phone"].s) !in s.users
            && (var h := env.hash(Trim(req.payload["password"].s)); h.Some? && h.value != [])
            && !env.faults.createFails)
      && (o.response.code == 200 ==>
            var phone := Trim(req.payload["phone"].s);
            var user := User(Trim(req.payload["firstName"].s), Trim(req.payload["lastName"].s), phone,
                             env.hash(Trim(req.payload["password"].s)), true, None);
            o.state == s.(users := s.users[phone := user]))
      && (o.response.code != 200 ==> o.state == s)
  {
  }

  /**
   * An update with a valid phone changes at most the caller's own record,
   * and in it only the supplied non-empty names and (re-hashed) password:
   * phone, terms flag and `mediaLinks` are kept. Nothing to update is a
   * 400, a token that does not verify a 403, both with the store untouched;
   * a verified update of a stored user succeeds unless the write fails.
   */
  lemma UsersPutChangesOnlySuppliedFields(s: State, req: Request, env: Env, phone: string)
    requires FixedLengthText(Field(req.payload, "phone"), 10) == Some(phone)
    ensures var o := UsersPut(s, req, env);
      var firstName := NonEmptyText(Field(req.payload, "firstName"));
      var lastName := NonEmptyText(Field(req.payload, "lastName"));
      var password := NonEmptyText(Field(req.payload, "password"));
      && (firstName.None? && lastName.None? && password.None? ==> o == Reply(s, 400, ErrorBody))
      && ((!(firstName.None? && lastName.None? && password.None?) && !VerifyToken(s.tokens, HeaderToken(req.headers), phone, env.now))
            ==> o == Reply(s, 403, ErrorBody))
      && (o.response.code == 200 ==>
            && phone in s.users
            && o.state.tokens == s.tokens && o.state.media == s.media
            && o.state.users.Keys == s.users.Keys
            && (forall p | p in s.users && p != phone :: o.state.users[p] == s.users[p])
            && var before, after := s.users[phone], o.state.users[phone];
               && after.phone == before.phone
               && after.tosAgreement == before.tosAgreement
               && after.mediaLinks == before.mediaLinks
               && after.firstName == (if firstName.Some? then firstName.value else before.firstName)
               && after.lastName == (if lastName.Some? then lastName.value else before.lastName)
               && after.hashedPassword == (if password.Some? then env.hash(password.value) else before.hashedPassword))
      && (o.response.code != 200 ==> o.state == s)
      && ((!(firstName.None? && lastName.None? && password.None?)
           && VerifyToken(s.tokens, HeaderToken(req.headers), phone, env.now)
           && phone in s.users && !env.faults.updateFails)
            ==> o.response.code == 200)
  {
  }

  /** Reading a user needs a token verified for that phone and never changes the store; the body has no hash. */
  lemma UsersGetNeedsOwnToken(s: State, req: Request, env: Env, phone: string)
    requires FixedLengthText(Field(req.query, "phone"), 10) == Some(phone)
    ensures var r := UsersGet(s, req, env);
      && (r.code == 200 <==> VerifyToken(s.tokens, HeaderToken(req.headers), phone, env.now) && phone in s.users)
      && (r.code == 200 ==> r.body == UserBody(View(s.users[phone])))
      && (VerifyToken(s.tokens, HeaderToken(req.headers), phone, env.now) && phone !in s.users ==> r.code == 404)
      && Users(s, req.(verb := "get"), env).state == s
  {
  }

  // ---------------------------------------------------------------------
  // The cascade
  // ---------------------------------------------------------------------

  /** Records not named in the list survive the cascade unchanged. */
  lemma {:induction false} CascadeKeepsOthers(ids: seq<string>, coll: map<string, Media>, failAt: set<nat>, k: string)
    requires k in coll && k !in ids
    ensures k in CascadeDelete(ids, coll, failAt).rest
    ensures CascadeDelete(ids, coll, failAt).rest[k] == coll[k]
    decreases |ids|
  {
    if ids != [] {
      CascadeKeepsOthers(ids[..|ids| - 1], coll, failAt, k);
    }
  }

  /** When no deletion is counted as failed, every listed id is gone. */
  lemma {:induction false} CascadeCleanRemovesAll(ids: seq<string>, coll: map<string, Media>, failAt: set<nat>)
    requires CascadeDelete(ids, coll, failAt).failures == 0
    ensures forall id | id in ids :: id !in CascadeDelete(ids, coll, failAt).rest
    decreases |ids|
  {
    if ids != [] {
      var last := |ids| - 1;
      CascadeCleanRemovesAll(ids[..last], coll, failAt);
      forall id | id in ids
        ensures id !in CascadeDelete(ids, coll, failAt).rest
      {
        if id != ids[last] {
          var i :| 0 <= i < |ids| && ids[i] == id;
          assert ids[..last][i] == id;
        }
      }
    }
  }

  /** A fault at any position of the list is reported. */
  lemma {:induction false} CascadeFaultReported(ids: seq<string>, coll: map<string, Media>, failAt: set<nat>, i: nat)
    requires i < |ids| && i in failAt
    ensures CascadeDelete(ids, coll, failAt).failures > 0
    decreases |ids|
  {
    if i < |ids| - 1 {
      CascadeFaultReported(ids[..|ids| - 1], coll, failAt, i);
    }
  }

  /**
   * Without faults, over distinct ids that are all stored, the cascade
   * deletes exactly the listed records and reports no failure.
   */
  lemma {:induction false} CascadeDeletesExactly(ids: seq<string>, coll: map<string, Media>, failAt: set<nat>)
    requires NoDuplicates(ids)
    requires forall i | 0 <= i < |ids| :: ids[i] in coll && i !in failAt
    ensures CascadeDelete(ids, coll, failAt) == Sweep(coll - set id | id in ids, 0)
    decreases |ids|
  {
    if ids != [] {
      var last := |ids| - 1;
      var front := ids[..last];
      assert forall i | 0 <= i < |front| :: front[i] == ids[i];
      CascadeDeletesExactly(front, coll, failAt);
      var prev := CascadeDelete(front, coll, failAt);
      assert ids[last] !in front;
      assert ids[last] in prev.rest;
      assert ids == front + [ids[last]];
      SetOfSnoc(front, ids[last], coll);
    }
  }

  lemma SetOfSnoc(front: seq<string>, x: string, coll: map<string, Media>)
    ensures (set id | id in front + [x]) == (set id | id in front) + {x}
    ensures (coll - set id | id in front + [x]) == (coll - set id | id in front) - {x}
  {
    assert (set id | id in front + [x]) == (set id | id in front) + {x};
  }

  /** Against a collection that holds nothing, every deletion of the cascade fails. */
  lemma {:induction false} CascadeOnEmptyCollection(ids: seq<string>, failAt: set<nat>)
    ensures CascadeDelete(ids, map[], failAt) == Sweep(map[], |ids|)
    decreases |ids|
  {
    if ids != [] {
      CascadeOnEmptyCollection(ids[..|ids| - 1], failAt);
    }
  }

  /** The request of a user delete that gets past validation, token check and lookup. */
  predicate DeleteReaches(s: State, req: Request, env: Env, phone: string) {
    && FixedLengthText(Field(req.query, "phone"), 10) == Some(phone)
    && VerifyToken(s.tokens, HeaderToken(req.headers), phone, env.now)
    && phone in s.users
  }

  /**
   * User delete as written: the row is deleted before the cascade, and a
   * failed row delete is a 500 with nothing changed and no cascade. With no
   * links the answer is 200; otherwise the single report is 200 exactly
   * when the cascade counted no failure. Tokens and media records are never
   * touched.
   */
  lemma UsersDeleteRowFirst(s: State, req: Request, env: Env, phone: string)
    requires DeleteReaches(s, req, env, phone)
    ensures var o := UsersDelete(s, req, env);
      var links := Links(s.users[phone]);
      && (env.faults.deleteFails ==> o == Reply(s, 500, ErrorBody))
      && (!env.faults.deleteFails ==> o.state == s.(users := s.users - {phone}))
      && (!env.faults.deleteFails && links == [] ==> o.response.code == 200)
      && (!env.faults.deleteFails && links != [] ==>
            (o.response.code == 200 <==> CascadeDelete(links, MediaLinksCollection, env.faults.cascadeFails).failures == 0))
  {
  }

  /**
   * Because the cascade of the code as written deletes from 'mediaLinks',
   * where nothing is stored, deleting a user with at least one media link
   * always reports 500 and leaves every linked media record in the store.
   */
  lemma UsersDeleteAlwaysFailsWithLinks(s: State, req: Request, env: Env, phone: string)
    requires DeleteReaches(s, req, env, phone)
    requires !env.faults.deleteFails && Links(s.users[phone]) != []
    ensures UsersDelete(s, req, env) == Reply(s.(users := s.users - {phone}), 500, ErrorBody)
  {
    CascadeOnEmptyCollection(Links(s.users[phone]), env.faults.cascadeFails);
  }

  /**
   * User delete with the cascade aimed at 'media': the row and then the
   * linked records are deleted; a 200 means every linked record is gone,
   * any cascade fault is reported as 500 (after the row is already gone),
   * and records not linked to the user stay as they were.
   */
  lemma UsersDeleteCascadingMediaReports(s: State, req: Request, env: Env, phone: string)
    requires DeleteReaches(s, req, env, phone)
    requires !env.faults.deleteFails
    ensures var o := UsersDeleteCascadingMedia(s, req, env);
      var links := Links(s.users[phone]);
      && o.state.users == s.users - {phone}
      && o.state.tokens == s.tokens
      && (o.response.code == 200 ==> forall id | id in links :: id !in o.state.media)
      && (forall i | 0 <= i < |links| && i in env.faults.cascadeFails :: o.response.code == 500)
      && (forall id | id in s.media && id !in links :: id in o.state.media && o.state.media[id] == s.media[id])
  {
    var links := Links(s.users[phone]);
    var sweep := CascadeDelete(links, s.media, env.faults.cascadeFails);
    if links != [] {
      if sweep.failures == 0 {
        CascadeCleanRemovesAll(links, s.media, env.faults.cascadeFails);
      }
      forall i | 0 <= i < |links| && i in env.faults.cascadeFails
        ensures sweep.failures > 0
      {
        CascadeFaultReported(links, s.media, env.faults.cascadeFails, i);
      }
    }
    forall id | id in s.media && id !in links
      ensures id in sweep.rest && sweep.rest[id] == s.media[id]
    {
      CascadeKeepsOthers(links, s.media, env.faults.cascadeFails, id);
    }
  }
}
