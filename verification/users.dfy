/** The `/users` routes as transitions on the four-table state: create, the
    delete cascade, subscribe, unsubscribe and patch. GET `/:id` is
    `Entities.GetById` on the users table. */
module Users {
  import opened Table
  import opened Lists
  import opened Entities

  /** The user with its subscriber list replaced, every other field kept. */
  function WithSubscribers(x: User, ids: seq<Id>): User {
    x.(data := x.data.(subscribedToUserIds := ids))
  }

  /** `x` after `id` subscribed to it: `id` appended to its list. */
  function Followed(x: User, id: Id): User {
    WithSubscribers(x, x.data.subscribedToUserIds + [id])
  }

  /** `x` with every occurrence of `u` filtered out of its list. */
  function Scrub(x: User, u: Id): User {
    WithSubscribers(x, Strip(x.data.subscribedToUserIds, u))
  }

  function ScrubAll(t: seq<User>, u: Id): seq<User> {
    seq(|t|, i requires 0 <= i < |t| => Scrub(t[i], u))
  }

  /** Scrub only the users whose id is one of `ids`. */
  function ScrubWhere(t: seq<User>, ids: set<Id>, u: Id): seq<User> {
    seq(|t|, i requires 0 <= i < |t| => if t[i].id in ids then Scrub(t[i], u) else t[i])
  }

  /** Both ids a subscription route reads are non-empty uuids. */
  predicate WellFormedPair(isUuid: Id -> bool, id: Id, userId: Id) {
    id != "" && userId != "" && isUuid(id) && isUuid(userId)
  }

  /** POST `/`: a new user under the generated id, with no subscribers yet. */
  function CreateUser(db: Db, newId: Id, email: string, firstName: string, lastName: string): (r: Reply<UserData>)
    ensures r.status == Ok
    ensures r.body == Some(Row(newId, UserData(firstName, lastName, email, [])))
    ensures r.db == db.(users := db.users + [r.body.value])
  {
    var created := Create(db.users, newId, UserData(firstName, lastName, email, []));
    Reply(Ok, created.row, db.(users := created.table))
  }

  /** The merge body the delete cascade hands to `change` for follower `f`:
      f's list as it was read, with `u` filtered out. */
  function FollowerRewrite(f: User, u: Id): UserData -> UserData {
    (d: UserData) => d.(subscribedToUserIds := Strip(f.data.subscribedToUserIds, u))
  }

  /** The cascade's loop over the followers it found, run one change after another. */
  function Unfollow(t: seq<User>, followers: seq<User>, u: Id): (r: seq<User>)
    ensures |r| == |t|
    ensures forall i :: 0 <= i < |t| ==> r[i].id == t[i].id
    ensures forall i :: 0 <= i < |t| && t[i].id !in IdsOf(followers) ==> r[i] == t[i]
    decreases |followers|
  {
    if |followers| == 0 then t
    else
      var f := followers[0];
      var c := Change(t, f.id, FollowerRewrite(f, u)).table;
      ChangeKeepsOthers(t, f.id, FollowerRewrite(f, u));
      IdsOfTail(followers);
      Unfollow(c, followers[1..], u)
  }

  /** DELETE `/:id`. A missing user is not caught: reading the id of the
      absent result throws, before anything else is touched. */
  function DeleteUser(db: Db, isUuid: Id -> bool, id: Id): (r: Reply<UserData>)
    ensures id == "" || !isUuid(id) ==> r == Reply(BadRequest, None, db)
    ensures id != "" && isUuid(id) && !Present(db.users, id) ==> r == Reply(Threw, None, db)
    ensures r.status == Ok <==> id != "" && isUuid(id) && Present(db.users, id)
    ensures forall k :: r.status == Ok && FirstWhere(db.users, IdIs(id), k) ==> r.body == Some(db.users[k])
    ensures r.db.memberTypes == db.memberTypes
  {
    if id == "" || !isUuid(id) then Reply(BadRequest, None, db)
    else
      var removed := Delete(db.users, id);
      match removed.row
      case None => Reply(Threw, None, db)
      case Some(deleted) =>
        var users := removed.table;
        var followers := FindMany(users, FieldHas(SubscribedToUserIds, deleted.id));
        var posts := FindMany(db.posts, FieldIs(PostAuthor, deleted.id));
        var profiles :=
          match FindOne(db.profiles, FieldIs(ProfileOwner, deleted.id))
          case None => db.profiles
          case Some(profile) => Delete(db.profiles, profile.id).table;
        Reply(Ok, Some(deleted), Db(Unfollow(users, followers, deleted.id), DeleteEach(db.posts, posts),
                                     profiles, db.memberTypes))
  }

  /** POST `/:id/subscribeTo` with body `{userId}`: `id` is appended to the
      list of the user `userId`, with no deduplication. */
  function SubscribeTo(db: Db, isUuid: Id -> bool, id: Id, userId: Id): (r: Reply<UserData>)
    ensures !WellFormedPair(isUuid, id, userId) ==> r == Reply(BadRequest, None, db)
    ensures WellFormedPair(isUuid, id, userId) && !Present(db.users, userId) ==> r == Reply(NotFound, None, db)
    ensures forall k :: WellFormedPair(isUuid, id, userId) && FirstWhere(db.users, IdIs(userId), k) ==>
              var target := Followed(db.users[k], id);
              r == Reply(Ok, Some(target), db.(users := db.users[k := target]))
    ensures IdList(r.db.users) == IdList(db.users) && r.db == db.(users := r.db.users)
  {
    if !WellFormedPair(isUuid, id, userId) then Reply(BadRequest, None, db)
    else match FindOne(db.users, IdIs(userId))
      case None => Reply(NotFound, None, db)
      case Some(user) =>
        var pushed := Followed(user, id).data;
        var changed := Change(db.users, userId, (_: UserData) => pushed);
        Reply(Ok, changed.row, db.(users := changed.table))
  }

  /** POST `/:id/unsubscribeFrom` with body `{userId}`: the first occurrence of
      `id` is spliced out of the list of the user `userId`; 400 when `id` is
      not on that list. */
  function UnsubscribeFrom(db: Db, isUuid: Id -> bool, id: Id, userId: Id): (r: Reply<UserData>)
    ensures !WellFormedPair(isUuid, id, userId) ==> r == Reply(BadRequest, None, db)
    ensures WellFormedPair(isUuid, id, userId) && !Present(db.users, userId) ==> r == Reply(NotFound, None, db)
    ensures forall k :: (WellFormedPair(isUuid, id, userId) && FirstWhere(db.users, IdIs(userId), k)
                         && id !in db.users[k].data.subscribedToUserIds) ==> r == Reply(BadRequest, None, db)
    ensures forall k, i :: (WellFormedPair(isUuid, id, userId) && FirstWhere(db.users, IdIs(userId), k)
                            && FirstOccurrence(db.users[k].data.subscribedToUserIds, id, i)) ==>
              var subs := db.users[k].data.subscribedToUserIds;
              var target := WithSubscribers(db.users[k], subs[..i] + subs[i + 1..]);
              r == Reply(Ok, Some(target), db.(users := db.users[k := target]))
    ensures IdList(r.db.users) == IdList(db.users) && r.db == db.(users := r.db.users)
  {
    if !WellFormedPair(isUuid, id, userId) then Reply(BadRequest, None, db)
    else match FindOne(db.users, IdIs(userId))
      case None => Reply(NotFound, None, db)
      case Some(user) =>
        var i := IndexOf(user.data.subscribedToUserIds, id);
        if i == -1 then Reply(BadRequest, None, db)
        else
          FirstOccurrenceUnique(user.data.subscribedToUserIds, id, i);
          var spliced := WithSubscribers(user, RemoveAt(user.data.subscribedToUserIds, i)).data;
          var changed := Change(db.users, userId, (_: UserData) => spliced);
          Reply(Ok, changed.row, db.(users := changed.table))
  }

  /** PATCH `/:id`: shallow merge of the body into the user. A missing body,
      an empty or non-uuid id, and an id no user has all give 400. */
  function PatchUser(db: Db, isUuid: Id -> bool, id: Id, body: Option<UserPatch>): (r: Reply<UserData>)
    ensures body.None? || id == "" || !isUuid(id) ==> r == Reply(BadRequest, None, db)
    ensures !Present(db.users, id) ==> r == Reply(BadRequest, None, db)
    ensures r.status != NotFound
    ensures forall k :: body.Some? && id != "" && isUuid(id) && FirstWhere(db.users, IdIs(id), k) ==>
              var patched := Row(id, MergeUser(db.users[k].data, body.value));
              r == Reply(Ok, Some(patched), db.(users := db.users[k := patched]))
    ensures IdList(r.db.users) == IdList(db.users) && r.db == db.(users := r.db.users)
  {
    if body.None? || id == "" || !isUuid(id) then Reply(BadRequest, None, db)
    else
      var changed := Change(db.users, id, (d: UserData) => MergeUser(d, body.value));
      match changed.row
      case None => Reply(BadRequest, None, db)
      case Some(u) => Reply(Ok, Some(u), db.(users := changed.table))
  }

  // The delete cascade.

  /** One round of the cascade's loop: rewriting follower `f`, a record of the
      table, scrubs exactly that user. */
  lemma UnfollowOne(t: seq<User>, f: User, u: Id)
    requires UniqueIds(t) && f in t
    ensures Change(t, f.id, FollowerRewrite(f, u)).table == ScrubWhere(t, {f.id}, u)
  {
    var t1 := Change(t, f.id, FollowerRewrite(f, u)).table;
    ChangePointwise(t, f.id, FollowerRewrite(f, u));
    var m :| 0 <= m < |t| && t[m] == f;
    forall j | 0 <= j < |t| ensures t1[j] == ScrubWhere(t, {f.id}, u)[j] {
      if t[j].id == f.id {
        assert RowId(t[m]) == RowId(t[j]);
      }
    }
  }

  lemma ScrubWhereKeepsIds(t: seq<User>, ids: set<Id>, u: Id)
    requires UniqueIds(t)
    ensures UniqueIds(ScrubWhere(t, ids, u))
  {
    var t1 := ScrubWhere(t, ids, u);
    forall i, j | 0 <= i < |t1| && 0 <= j < |t1| && RowId(t1[i]) == RowId(t1[j]) ensures i == j {
      assert RowId(t[i]) == RowId(t[j]);
    }
  }

  lemma ScrubWhereTwice(t: seq<User>, a: set<Id>, b: set<Id>, u: Id)
    requires a !! b
    ensures ScrubWhere(ScrubWhere(t, a, u), b, u) == ScrubWhere(t, a + b, u)
  {
  }

  /** Running the cascade's loop over followers drawn from the table scrubs
      exactly those followers. */
  lemma {:induction false} UnfollowScrubs(t: seq<User>, fs: seq<User>, u: Id)
    requires UniqueIds(t) && UniqueIds(fs)
    requires forall i :: 0 <= i < |fs| ==> fs[i] in t
    ensures Unfollow(t, fs, u) == ScrubWhere(t, IdsOf(fs), u)
    decreases |fs|
  {
    if |fs| == 0 {
      assert IdsOf(fs) == {};
      assert ScrubWhere(t, {}, u) == t;
    } else {
      var f := fs[0];
      var t1 := Change(t, f.id, FollowerRewrite(f, u)).table;
      UnfollowOne(t, f, u);
      ScrubWhereKeepsIds(t, {f.id}, u);
      InjectiveTail(fs, RowId);
      forall i | 0 <= i < |fs[1..]| ensures fs[1..][i] in t1 {
        var n :| 0 <= n < |t| && t[n] == fs[i + 1];
        assert RowId(fs[i + 1]) != RowId(fs[0]);
        assert t1[n] == t[n];
      }
      UnfollowScrubs(t1, fs[1..], u);
      IdsOfCons(fs);
      assert f.id !in IdsOf(fs[1..]);
      ScrubWhereTwice(t, {f.id}, IdsOf(fs[1..]), u);
    }
  }

  /** Scrubbing the users who follow `u` scrubs every user: the others do not
      hold `u`, so filtering it out changes nothing for them. */
  lemma ScrubFollowersIsScrubAll(t: seq<User>, u: Id)
    requires UniqueIds(t)
    ensures ScrubWhere(t, IdsOf(FindMany(t, FieldHas(SubscribedToUserIds, u))), u) == ScrubAll(t, u)
  {
    var p := FieldHas(SubscribedToUserIds, u);
    forall i | 0 <= i < |t|
      ensures ScrubWhere(t, IdsOf(FindMany(t, p)), u)[i] == ScrubAll(t, u)[i]
    {
      IdsOfFindMany(t, p, i);
      if u !in t[i].data.subscribedToUserIds {
        StripAbsent(t[i].data.subscribedToUserIds, u);
        assert Scrub(t[i], u) == t[i];
      } else {
        assert u in SubscribedToUserIds(t[i]);
      }
    }
  }

  /** The outcome of a successful user delete, table by table: the user is
      gone and every other user has `id` filtered out of its list, the user's
      posts are gone, the user's profile is gone, the member types are untouched.
      Needs unique ids and at most one profile per user: `delete` and the
      profile lookup act on the first match only. */
  lemma DeleteUserCascade(db: Db, isUuid: Id -> bool, id: Id)
    requires Valid(db)
    requires id != "" && isUuid(id) && Present(db.users, id)
    ensures DeleteUser(db, isUuid, id).status == Ok
    ensures DeleteUser(db, isUuid, id).db == Cascaded(db, id)
  {
    var r := DeleteUser(db, isUuid, id);
    var k := FirstIndex(db.users, IdIs(id)).value;
    var deleted := db.users[k];
    assert deleted.id == id;
    // users
    var users := Delete(db.users, id).table;
    DeleteAsFindMany(db.users, id);
    FindManyInjective(db.users, IdNotIn({id}), RowId);
    var followers := FindMany(users, FieldHas(SubscribedToUserIds, id));
    FindManyInjective(users, FieldHas(SubscribedToUserIds, id), RowId);
    UnfollowScrubs(users, followers, id);
    ScrubFollowersIsScrubAll(users, id);
    // posts
    CascadePosts(db.posts, id);
    // profiles
    CascadeProfile(db.profiles, id);
  }

  lemma CascadePosts(posts: seq<Post>, u: Id)
    requires UniqueIds(posts)
    ensures DeleteEach(posts, FindMany(posts, FieldIs(PostAuthor, u))) == FindMany(posts, FieldIsNot(PostAuthor, u))
  {
    var victims := FindMany(posts, FieldIs(PostAuthor, u));
    DeleteEachAsFindMany(posts, victims);
    forall i | 0 <= i < |posts|
      ensures IdNotIn(IdsOf(victims))(posts[i]) == FieldIsNot(PostAuthor, u)(posts[i])
    {
      IdsOfFindMany(posts, FieldIs(PostAuthor, u), i);
    }
    FindManyCongruent(posts, IdNotIn(IdsOf(victims)), FieldIsNot(PostAuthor, u));
  }

  lemma CascadeProfile(profiles: seq<Profile>, u: Id)
    requires UniqueIds(profiles) && Injective(profiles, ProfileOwner)
    ensures (match FindOne(profiles, FieldIs(ProfileOwner, u))
             case None => profiles
             case Some(profile) => Delete(profiles, profile.id).table)
            == FindMany(profiles, FieldIsNot(ProfileOwner, u))
  {
    var p := FieldIsNot(ProfileOwner, u);
    match FirstIndex(profiles, FieldIs(ProfileOwner, u))
    case None =>
      FindManyAll(profiles, p);
    case Some(m) =>
      var profile := profiles[m];
      DeleteAsFindMany(profiles, profile.id);
      forall i | 0 <= i < |profiles| ensures IdNotIn({profile.id})(profiles[i]) == p(profiles[i]) {
        if profiles[i].id == profile.id {
          assert RowId(profiles[i]) == RowId(profiles[m]);
        }
        if ProfileOwner(profiles[i]) == u {
          assert ProfileOwner(profiles[i]) == ProfileOwner(profiles[m]);
        }
      }
      FindManyCongruent(profiles, IdNotIn({profile.id}), p);
  }

  /** The state the cascade leaves, as `DeleteUserCascade` states it. */
  function Cascaded(db: Db, id: Id): Db {
    Db(ScrubAll(FindMany(db.users, IdNotIn({id})), id),
       FindMany(db.posts, FieldIsNot(PostAuthor, id)),
       FindMany(db.profiles, FieldIsNot(ProfileOwner, id)),
       db.memberTypes)
  }

  /** After a successful user delete nothing refers to the deleted id: no
      user carries it or lists it, and no post or profile is owned by it. */
  lemma DeleteUserLeavesNoTrace(db: Db, isUuid: Id -> bool, id: Id)
    requires Valid(db)
    requires id != "" && isUuid(id) && Present(db.users, id)
    ensures var after := DeleteUser(db, isUuid, id).db;
      && (forall x :: x in after.users ==> x.id != id && id !in x.data.subscribedToUserIds)
      && (forall x :: x in after.posts ==> x.data.userId != id)
      && (forall x :: x in after.profiles ==> x.data.userId != id)
  {
    DeleteUserCascade(db, isUuid, id);
    CascadedHasNoTrace(db, id);
  }

  lemma CascadedHasNoTrace(db: Db, id: Id)
    ensures var after := Cascaded(db, id);
      && (forall x :: x in after.users ==> x.id != id && id !in x.data.subscribedToUserIds)
      && (forall x :: x in after.posts ==> x.data.userId != id)
      && (forall x :: x in after.profiles ==> x.data.userId != id)
  {
    ScrubbedUsers(db.users, id);
    FindManyFieldIsNot(db.posts, PostAuthor, id);
    FindManyFieldIsNot(db.profiles, ProfileOwner, id);
  }

  /** A successful user delete keeps everything not owned by the deleted
      user: every other user (scrubbed, and unchanged when it did not list the
      id), every other post and every other profile. */
  lemma DeleteUserKeepsOthers(db: Db, isUuid: Id -> bool, id: Id)
    requires Valid(db)
    requires id != "" && isUuid(id) && Present(db.users, id)
    ensures var after := DeleteUser(db, isUuid, id).db;
      && (forall x :: x in db.users && x.id != id ==> Scrub(x, id) in after.users)
      && (forall x :: x in db.users && x.id != id && id !in x.data.subscribedToUserIds ==> x in after.users)
      && (forall x :: x in db.posts && x.data.userId != id ==> x in after.posts)
      && (forall x :: x in db.profiles && x.data.userId != id ==> x in after.profiles)
  {
    DeleteUserCascade(db, isUuid, id);
    CascadedKeepsOthers(db, id);
  }

  lemma CascadedKeepsOthers(db: Db, id: Id)
    ensures var after := Cascaded(db, id);
      && (forall x :: x in db.users && x.id != id ==> Scrub(x, id) in after.users)
      && (forall x :: x in db.users && x.id != id && id !in x.data.subscribedToUserIds ==> x in after.users)
      && (forall x :: x in db.posts && x.data.userId != id ==> x in after.posts)
      && (forall x :: x in db.profiles && x.data.userId != id ==> x in after.profiles)
  {
    ScrubbedUsers(db.users, id);
    FindManyFieldIsNot(db.posts, PostAuthor, id);
    FindManyFieldIsNot(db.profiles, ProfileOwner, id);
  }

  /** The users table the cascade leaves, record by record. */
  lemma ScrubbedUsers(users: seq<User>, id: Id)
    ensures var after := ScrubAll(FindMany(users, IdNotIn({id})), id);
      && (forall x :: x in after ==> x.id != id && id !in x.data.subscribedToUserIds)
      && (forall x :: x in users && x.id != id ==> Scrub(x, id) in after)
      && (forall x :: x in users && x.id != id && id !in x.data.subscribedToUserIds ==> x in after)
  {
    var kept := FindMany(users, IdNotIn({id}));
    var after := ScrubAll(kept, id);
    FindManyMembership(users, IdNotIn({id}));
    forall x | x in after ensures x.id != id && id !in x.data.subscribedToUserIds {
      var i :| 0 <= i < |after| && after[i] == x;
      assert kept[i] in kept;
    }
    forall x | x in users && x.id != id ensures Scrub(x, id) in after {
      var j :| 0 <= j < |kept| && kept[j] == x;
      assert after[j] == Scrub(x, id);
    }
    forall x | x in users && x.id != id && id !in x.data.subscribedToUserIds ensures x in after {
      StripAbsent(x.data.subscribedToUserIds, id);
      assert Scrub(x, id) == x;
    }
  }

  // Subscriptions.

  /** Subscribing then unsubscribing the same pair gives the target back the
      subscribers it had, and leaves the whole state as it was when `id` was
      not already subscribed. When it was, the first (older) occurrence is the
      one removed, so only the multiset is restored. */
  lemma SubscribeUnsubscribeRoundTrip(db: Db, isUuid: Id -> bool, id: Id, userId: Id, k: int)
    requires WellFormedPair(isUuid, id, userId) && FirstWhere(db.users, IdIs(userId), k)
    ensures var after := UnsubscribeFrom(SubscribeTo(db, isUuid, id, userId).db, isUuid, id, userId);
      && after.status == Ok
      && |after.db.users| == |db.users|
      && after.db == db.(users := after.db.users)
      && (forall j :: 0 <= j < |db.users| && j != k ==> after.db.users[j] == db.users[j])
      && after.db.users[k] == WithSubscribers(db.users[k], after.db.users[k].data.subscribedToUserIds)
      && multiset(after.db.users[k].data.subscribedToUserIds) == multiset(db.users[k].data.subscribedToUserIds)
      && (id !in db.users[k].data.subscribedToUserIds ==> after.db == db)
  {
    var x := db.users[k];
    var subs := x.data.subscribedToUserIds;
    var mid := SubscribeTo(db, isUuid, id, userId).db;
    assert mid.users == db.users[k := Followed(x, id)];
    assert FirstWhere(mid.users, IdIs(userId), k);
    RemoveFirstAfterAppend(subs, id);
    var i := IndexOf(subs + [id], id);
    var after := UnsubscribeFrom(mid, isUuid, id, userId);
    assert after.db.users == mid.users[k := WithSubscribers(mid.users[k], RemoveAt(subs + [id], i))];
    if id !in subs {
      assert WithSubscribers(mid.users[k], subs) == x;
    }
  }

  /** Subscribing twice appends twice, so one unsubscribe leaves `id` subscribed. */
  lemma SubscribeTwiceUnsubscribeOnce(db: Db, isUuid: Id -> bool, id: Id, userId: Id, k: int)
    requires WellFormedPair(isUuid, id, userId) && FirstWhere(db.users, IdIs(userId), k)
    ensures var once := SubscribeTo(db, isUuid, id, userId).db;
      var twice := SubscribeTo(once, isUuid, id, userId).db;
      var after := UnsubscribeFrom(twice, isUuid, id, userId);
      && after.status == Ok
      && |after.db.users| == |db.users|
      && id in after.db.users[k].data.subscribedToUserIds
  {
    var x := db.users[k];
    var subs := x.data.subscribedToUserIds;
    var once := SubscribeTo(db, isUuid, id, userId).db;
    assert once.users == db.users[k := Followed(x, id)];
    assert FirstWhere(once.users, IdIs(userId), k);
    var twice := SubscribeTo(once, isUuid, id, userId).db;
    assert twice.users == once.users[k := Followed(once.users[k], id)];
    assert FirstWhere(twice.users, IdIs(userId), k);
    assert twice.users[k].data.subscribedToUserIds == subs + [id] + [id];
    RemoveFirstAfterAppendTwice(subs, id);
  }

  // Reads after writes.

  /** A user created under a fresh id is what GET `/:id` then returns. */
  lemma CreateThenGet(db: Db, newId: Id, email: string, firstName: string, lastName: string)
    requires !Present(db.users, newId)
    ensures var r := CreateUser(db, newId, email, firstName, lastName);
      GetById(r.db, r.db.users, newId) == Reply(Ok, r.body, r.db)
  {
    CreateThenFind(db.users, newId, UserData(firstName, lastName, email, []));
  }

  /** A patched user is what GET `/:id` then returns; a patch on a missing id
      answers 400 where GET answers 404. */
  lemma PatchThenGet(db: Db, isUuid: Id -> bool, id: Id, body: Option<UserPatch>)
    ensures var r := PatchUser(db, isUuid, id, body);
      r.status == Ok ==> GetById(r.db, r.db.users, id) == Reply(Ok, r.body, r.db)
    ensures !Present(db.users, id) ==>
      PatchUser(db, isUuid, id, body).status == BadRequest && GetById(db, db.users, id).status == NotFound
  {
    var r := PatchUser(db, isUuid, id, body);
    if r.status == Ok {
      ChangeThenFind(db.users, id, (d: UserData) => MergeUser(d, body.value));
    }
  }
}
