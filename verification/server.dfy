/** The routes of the four plugins as one state machine: a request names a
    route of one plugin with its parameters, and serving it yields a status and
    the next state. */
module Server {
  import opened Table
  import opened Entities
  import Users
  import Posts
  import Profiles
  import MemberTypes
  import Lists

  datatype UserRoute =
    | UserGet(id: Id)
    | UserCreate(email: string, firstName: string, lastName: string)
    | UserDelete(id: Id)
    | UserSubscribe(id: Id, userId: Id)
    | UserUnsubscribe(id: Id, userId: Id)
    | UserChange(id: Id, userPatch: Option<UserPatch>)

  datatype PostRoute =
    | PostGet(id: Id)
    | PostCreate(post: PostData)
    | PostDelete(id: Id)
    | PostChange(id: Id, postPatch: Option<PostPatch>)

  datatype ProfileRoute =
    | ProfileGet(id: Id)
    | ProfileCreate(profile: ProfileData)
    | ProfileDelete(id: Id)
    | ProfileChange(id: Id, profilePatch: Option<ProfilePatch>)

  datatype MemberTypeRoute =
    | MemberTypeGet(id: Id)
    | MemberTypeChange(id: Id, memberTypePatch: MemberTypePatch)

  /** A request to one of the four plugins. The member-type plugin has no
      create and no delete route. */
  datatype Route =
    | ToUsers(userRoute: UserRoute)
    | ToPosts(postRoute: PostRoute)
    | ToProfiles(profileRoute: ProfileRoute)
    | ToMemberTypes(memberTypeRoute: MemberTypeRoute)

  datatype Outcome = Outcome(status: Status, db: Db)

  function OutcomeOf<A>(r: Reply<A>): Outcome {
    Outcome(r.status, r.db)
  }

  /** The user plugin writes the users table only, except that a user delete
      cascades into posts and profiles. */
  function ServeUsers(db: Db, isUuid: Id -> bool, newId: Id, route: UserRoute): (r: Outcome)
    ensures r.status != Ok ==> r.db == db
    ensures !route.UserDelete? ==> r.db == db.(users := r.db.users)
    ensures r.db.memberTypes == db.memberTypes
  {
    match route
    case UserGet(id) => OutcomeOf(GetById(db, db.users, id))
    case UserCreate(email, firstName, lastName) => OutcomeOf(Users.CreateUser(db, newId, email, firstName, lastName))
    case UserDelete(id) => OutcomeOf(Users.DeleteUser(db, isUuid, id))
    case UserSubscribe(id, userId) => OutcomeOf(Users.SubscribeTo(db, isUuid, id, userId))
    case UserUnsubscribe(id, userId) => OutcomeOf(Users.UnsubscribeFrom(db, isUuid, id, userId))
    case UserChange(id, body) => OutcomeOf(Users.PatchUser(db, isUuid, id, body))
  }

  function ServePosts(db: Db, isUuid: Id -> bool, newId: Id, route: PostRoute): (r: Outcome)
    ensures r.status != Ok ==> r.db == db
    ensures r.db == db.(posts := r.db.posts)
  {
    match route
    case PostGet(id) => OutcomeOf(GetById(db, db.posts, id))
    case PostCreate(body) => OutcomeOf(Posts.CreatePost(db, newId, body))
    case PostDelete(id) => OutcomeOf(Posts.DeletePost(db, isUuid, id))
    case PostChange(id, body) => OutcomeOf(Posts.PatchPost(db, isUuid, id, body))
  }

  function ServeProfiles(db: Db, isUuid: Id -> bool, newId: Id, route: ProfileRoute): (r: Outcome)
    ensures r.status != Ok ==> r.db == db
    ensures r.db == db.(profiles := r.db.profiles)
  {
    match route
    case ProfileGet(id) => OutcomeOf(GetById(db, db.profiles, id))
    case ProfileCreate(body) => OutcomeOf(Profiles.CreateProfile(db, isUuid, newId, body))
    case ProfileDelete(id) => OutcomeOf(Profiles.DeleteProfile(db, isUuid, id))
    case ProfileChange(id, body) => OutcomeOf(Profiles.PatchProfile(db, isUuid, id, body))
  }

  /** The member-type plugin rewrites fields of existing member types only. */
  function ServeMemberTypes(db: Db, route: MemberTypeRoute): (r: Outcome)
    ensures r.status != Ok ==> r.db == db
    ensures r.db == db.(memberTypes := r.db.memberTypes)
    ensures IdList(r.db.memberTypes) == IdList(db.memberTypes)
  {
    match route
    case MemberTypeGet(id) => OutcomeOf(GetById(db, db.memberTypes, id))
    case MemberTypeChange(id, body) => OutcomeOf(MemberTypes.PatchMemberType(db, id, body))
  }

  /** Serve one request. `newId` is the id the store generates if the route
      creates a record. A request that fails changes nothing, and no request
      adds, removes or reorders a member type. */
  function Serve(db: Db, isUuid: Id -> bool, newId: Id, route: Route): (r: Outcome)
    ensures r.status != Ok ==> r.db == db
    ensures IdList(r.db.memberTypes) == IdList(db.memberTypes)
  {
    match route
    case ToUsers(u) => ServeUsers(db, isUuid, newId, u)
    case ToPosts(p) => ServePosts(db, isUuid, newId, p)
    case ToProfiles(p) => ServeProfiles(db, isUuid, newId, p)
    case ToMemberTypes(m) => ServeMemberTypes(db, m)
  }

  /** Every request keeps ids unique in each table and every user to at most
      one profile, given that a created record gets an id no table holds. */
  lemma ServePreservesValid(db: Db, isUuid: Id -> bool, newId: Id, route: Route)
    requires Valid(db) && FreshIn(db, newId)
    ensures Valid(Serve(db, isUuid, newId, route).db)
  {
    match route
    case ToUsers(u) => UserRoutesPreserveValid(db, isUuid, newId, u);
    case ToPosts(p) => PostRoutesPreserveValid(db, isUuid, newId, p);
    case ToProfiles(p) => ProfileRoutesPreserveValid(db, isUuid, newId, p);
    case ToMemberTypes(m) =>
      var after := ServeMemberTypes(db, m).db;
      SameIdsKeepUniqueIds(db.memberTypes, after.memberTypes);
  }

  lemma UserRoutesPreserveValid(db: Db, isUuid: Id -> bool, newId: Id, route: UserRoute)
    requires Valid(db) && !Present(db.users, newId)
    ensures Valid(ServeUsers(db, isUuid, newId, route).db)
  {
    var after := ServeUsers(db, isUuid, newId, route).db;
    match route
    case UserCreate(email, firstName, lastName) =>
      CreateKeepsUniqueIds(db.users, newId, UserData(firstName, lastName, email, []));
    case UserDelete(id) =>
      if id != "" && isUuid(id) && Present(db.users, id) {
        Users.DeleteUserCascade(db, isUuid, id);
        CascadedValid(db, id);
      }
    case UserSubscribe(_, _) =>
      SameIdsKeepUniqueIds(db.users, after.users);
    case UserUnsubscribe(_, _) =>
      SameIdsKeepUniqueIds(db.users, after.users);
    case UserChange(_, _) =>
      SameIdsKeepUniqueIds(db.users, after.users);
    case UserGet(_) =>
  }

  lemma PostRoutesPreserveValid(db: Db, isUuid: Id -> bool, newId: Id, route: PostRoute)
    requires Valid(db) && !Present(db.posts, newId)
    ensures Valid(ServePosts(db, isUuid, newId, route).db)
  {
    var after := ServePosts(db, isUuid, newId, route).db;
    match route
    case PostCreate(body) =>
      CreateKeepsUniqueIds(db.posts, newId, body);
    case PostDelete(id) =>
      DeleteRemovesId(db.posts, id);
    case PostChange(_, _) =>
      SameIdsKeepUniqueIds(db.posts, after.posts);
    case PostGet(_) =>
  }

  lemma ProfileRoutesPreserveValid(db: Db, isUuid: Id -> bool, newId: Id, route: ProfileRoute)
    requires Valid(db) && !Present(db.profiles, newId)
    ensures Valid(ServeProfiles(db, isUuid, newId, route).db)
  {
    var after := ServeProfiles(db, isUuid, newId, route).db;
    match route
    case ProfileCreate(body) =>
      CreateKeepsUniqueIds(db.profiles, newId, body);
      Profiles.CreateKeepsOneProfilePerUser(db, isUuid, newId, body);
    case ProfileDelete(id) =>
      DeleteRemovesId(db.profiles, id);
      DeleteAsFindMany(db.profiles, id);
      FindManyInjective(db.profiles, IdNotIn({id}), ProfileOwner);
    case ProfileChange(id, body) =>
      SameIdsKeepUniqueIds(db.profiles, after.profiles);
      Profiles.PatchKeepsOneProfilePerUser(db, isUuid, id, body);
    case ProfileGet(_) =>
  }

  /** The state a user delete cascades to is again valid. */
  lemma CascadedValid(db: Db, id: Id)
    requires Valid(db)
    ensures Valid(Users.Cascaded(db, id))
  {
    var users := FindMany(db.users, IdNotIn({id}));
    FindManyInjective(db.users, IdNotIn({id}), RowId);
    assert IdList(Users.ScrubAll(users, id)) == IdList(users);
    SameIdsKeepUniqueIds(users, Users.ScrubAll(users, id));
    FindManyInjective(db.posts, FieldIsNot(PostAuthor, id), RowId);
    FindManyInjective(db.profiles, FieldIsNot(ProfileOwner, id), RowId);
    FindManyInjective(db.profiles, FieldIsNot(ProfileOwner, id), ProfileOwner);
  }

  /** A request together with the id the store generates while serving it. */
  datatype Call = Call(newId: Id, route: Route)

  /** Serve a sequence of requests, one after another. */
  function Run(db: Db, isUuid: Id -> bool, calls: seq<Call>): (r: Db)
    decreases |calls|
  {
    if |calls| == 0 then db
    else Run(Serve(db, isUuid, calls[0].newId, calls[0].route).db, isUuid, calls[1..])
  }

  /** No sequence of requests creates, deletes or reorders a member type. */
  lemma {:induction false} RunKeepsMemberTypeIds(db: Db, isUuid: Id -> bool, calls: seq<Call>)
    ensures IdList(Run(db, isUuid, calls).memberTypes) == IdList(db.memberTypes)
    decreases |calls|
  {
    if |calls| > 0 {
      RunKeepsMemberTypeIds(Serve(db, isUuid, calls[0].newId, calls[0].route).db, isUuid, calls[1..]);
    }
  }

  /** A run of a non-empty prefix starts with the first request. */
  lemma RunFirst(db: Db, isUuid: Id -> bool, calls: seq<Call>, n: int)
    requires 0 < n <= |calls|
    ensures Run(db, isUuid, calls[..n])
         == Run(Serve(db, isUuid, calls[0].newId, calls[0].route).db, isUuid, calls[1..][..n - 1])
  {
    assert calls[..n][0] == calls[0];
    assert calls[..n][1..] == calls[1..][..n - 1];
  }

  /** A sequence of requests that all fail leaves the state as it was. */
  lemma {:induction false} FailedRunChangesNothing(db: Db, isUuid: Id -> bool, calls: seq<Call>)
    requires forall i :: 0 <= i < |calls| ==> Serve(Run(db, isUuid, calls[..i]), isUuid, calls[i].newId, calls[i].route).status != Ok
    ensures Run(db, isUuid, calls) == db
    decreases |calls|
  {
    if |calls| > 0 {
      assert calls[..0] == [];
      var next := Serve(db, isUuid, calls[0].newId, calls[0].route).db;
      assert next == db;
      forall i | 0 <= i < |calls[1..]|
        ensures Serve(Run(db, isUuid, calls[1..][..i]), isUuid, calls[1..][i].newId, calls[1..][i].route).status != Ok
      {
        RunFirst(db, isUuid, calls, i + 1);
      }
      FailedRunChangesNothing(db, isUuid, calls[1..]);
    }
  }

  /** Two users, a subscription and a post, then the subscriber is deleted:
      the post goes with it and the other user's list is empty again. */
  lemma DeleteUserScenario(isUuid: Id -> bool, memberTypes: seq<MemberType>, a: Id, b: Id, p: Id)
    requires a != b && a != "" && b != "" && isUuid(a) && isUuid(b)
    ensures Run(Db([], [], [], memberTypes), isUuid, Scenario(a, b, p)) == Db([Bob(b)], [], [], memberTypes)
  {
    var db2 := Db([Ann(a), Bob(b)], [], [], memberTypes);
    var db3 := db2.(users := [Ann(a), Users.Followed(Bob(b), a)]);
    var db4 := db3.(posts := [AnnsPost(p, a)]);
    ScenarioCreates(isUuid, memberTypes, a, b, p);
    ScenarioSubscribe(isUuid, db2, a, b, p);
    ScenarioDelete(isUuid, db4, a, b, p);
    var calls := Scenario(a, b, p);
    assert Run(db4, isUuid, calls[4..]) == db2.(users := [Bob(b)]);
    assert Run(db3, isUuid, calls[3..]) == db2.(users := [Bob(b)]);
    assert Run(db2, isUuid, calls[2..]) == db2.(users := [Bob(b)]);
  }

  function Ann(a: Id): User {
    Row(a, UserData("Ann", "One", "a@x.com", []))
  }

  function Bob(b: Id): User {
    Row(b, UserData("Bob", "Two", "b@x.com", []))
  }

  function AnnsPost(p: Id, a: Id): Post {
    Row(p, PostData("Title", "Text", a))
  }

  /** Create users `a` and `b`, subscribe `a` to `b`, let `a` write post `p`,
      delete `a`. */
  function Scenario(a: Id, b: Id, p: Id): seq<Call> {
    [Call(a, ToUsers(UserCreate("a@x.com", "Ann", "One"))),
     Call(b, ToUsers(UserCreate("b@x.com", "Bob", "Two"))),
     Call("", ToUsers(UserSubscribe(a, b))),
     Call(p, ToPosts(PostCreate(PostData("Title", "Text", a)))),
     Call("", ToUsers(UserDelete(a)))]
  }

  lemma ScenarioCreates(isUuid: Id -> bool, memberTypes: seq<MemberType>, a: Id, b: Id, p: Id)
    ensures var db1 := Serve(Db([], [], [], memberTypes), isUuid, a, Scenario(a, b, p)[0].route).db;
      db1 == Db([Ann(a)], [], [], memberTypes) &&
      Serve(db1, isUuid, b, Scenario(a, b, p)[1].route).db == Db([Ann(a), Bob(b)], [], [], memberTypes)
  {
  }

  lemma ScenarioSubscribe(isUuid: Id -> bool, db: Db, a: Id, b: Id, p: Id)
    requires a != b && a != "" && b != "" && isUuid(a) && isUuid(b) && db.users == [Ann(a), Bob(b)]
    ensures var db3 := Serve(db, isUuid, "", Scenario(a, b, p)[2].route).db;
      db3 == db.(users := [Ann(a), Users.Followed(Bob(b), a)]) &&
      Serve(db3, isUuid, p, Scenario(a, b, p)[3].route).db == db3.(posts := db.posts + [AnnsPost(p, a)])
  {
    assert FirstWhere(db.users, IdIs(b), 1);
  }

  lemma ScenarioDelete(isUuid: Id -> bool, db: Db, a: Id, b: Id, p: Id)
    requires a != b && a != "" && isUuid(a)
    requires db.users == [Ann(a), Users.Followed(Bob(b), a)] && db.posts == [AnnsPost(p, a)] && db.profiles == []
    ensures Serve(db, isUuid, "", Scenario(a, b, p)[4].route).db == db.(users := [Bob(b)], posts := [])
  {
    assert Scenario(a, b, p)[4].route == ToUsers(UserDelete(a));
    ScenarioDeleteUser(isUuid, db, a, b, p);
    ServeUserDelete(db, isUuid, "", a);
  }

  lemma ServeUserDelete(db: Db, isUuid: Id -> bool, newId: Id, id: Id)
    ensures Serve(db, isUuid, newId, ToUsers(UserDelete(id))).db == Users.DeleteUser(db, isUuid, id).db
  {
  }

  lemma ScenarioDeleteUser(isUuid: Id -> bool, db: Db, a: Id, b: Id, p: Id)
    requires a != b && a != "" && isUuid(a)
    requires db.users == [Ann(a), Users.Followed(Bob(b), a)] && db.posts == [AnnsPost(p, a)] && db.profiles == []
    ensures Users.DeleteUser(db, isUuid, a).db == db.(users := [Bob(b)], posts := [])
  {
    ScenarioCascade(a, b, p);
    assert FindOne(db.profiles, FieldIs(ProfileOwner, a)) == None;
  }

  /** The steps of the cascade in the scenario's last request, one by one. */
  lemma ScenarioCascade(a: Id, b: Id, p: Id)
    requires a != b
    ensures var bob := Users.Followed(Bob(b), a);
      && Delete([Ann(a), bob], a) == Written(Some(Ann(a)), [bob])
      && FindMany([bob], FieldHas(SubscribedToUserIds, a)) == [bob]
      && Users.Unfollow([bob], [bob], a) == [Bob(b)]
      && FindMany([AnnsPost(p, a)], FieldIs(PostAuthor, a)) == [AnnsPost(p, a)]
      && DeleteEach([AnnsPost(p, a)], [AnnsPost(p, a)]) == []
  {
    var bob := Users.Followed(Bob(b), a);
    CascadeStep1(a, b);
    CascadeStep2(a, b);
    CascadeStep3(a, b);
    CascadeStep4(a, p);
    CascadeStep5(a, p);
  }

  lemma CascadeStep1(a: Id, b: Id)
    ensures Delete([Ann(a), Users.Followed(Bob(b), a)], a) == Written(Some(Ann(a)), [Users.Followed(Bob(b), a)])
  {
    var bob := Users.Followed(Bob(b), a);
    assert FirstWhere([Ann(a), bob], IdIs(a), 0);
    assert [Ann(a), bob][1..] == [bob];
  }

  lemma CascadeStep2(a: Id, b: Id)
    ensures FindMany([Users.Followed(Bob(b), a)], FieldHas(SubscribedToUserIds, a)) == [Users.Followed(Bob(b), a)]
  {
    var bob := Users.Followed(Bob(b), a);
    assert [bob][1..] == [];
    assert bob.data.subscribedToUserIds == [a];
    assert SubscribedToUserIds(bob) == [a];
    assert a in SubscribedToUserIds(bob);
    assert FieldHas(SubscribedToUserIds, a)(bob);
  }

  lemma CascadeStep3(a: Id, b: Id)
    ensures Users.Unfollow([Users.Followed(Bob(b), a)], [Users.Followed(Bob(b), a)], a) == [Bob(b)]
  {
    var bob := Users.Followed(Bob(b), a);
    assert [bob][1..] == [];
    assert FirstWhere([bob], IdIs(b), 0);
    assert bob.data.subscribedToUserIds == [a];
    var stripped := Lists.Strip([a], a);
    assert multiset(stripped) == multiset{};
    assert stripped == [];
    assert Users.FollowerRewrite(bob, a)(bob.data) == Bob(b).data;
    assert Change([bob], b, Users.FollowerRewrite(bob, a)).table == [bob][0 := Bob(b)];
  }

  lemma CascadeStep4(a: Id, p: Id)
    ensures FindMany([AnnsPost(p, a)], FieldIs(PostAuthor, a)) == [AnnsPost(p, a)]
  {
    assert [AnnsPost(p, a)][1..] == [];
    assert FieldIs(PostAuthor, a)(AnnsPost(p, a));
  }

  lemma CascadeStep5(a: Id, p: Id)
    ensures DeleteEach([AnnsPost(p, a)], [AnnsPost(p, a)]) == []
  {
    assert [AnnsPost(p, a)][1..] == [];
    assert FirstWhere([AnnsPost(p, a)], IdIs(p), 0);
  }
}
