/** The four entity kinds, the state the routes share (one table per kind), the
    request bodies a PATCH route merges, and the reply every route produces. */
module Entities {
  import opened Table

  /** `subscribedToUserIds` lives on the user being followed: it lists the ids
      of the users who subscribed to this one, duplicates included. */
  datatype UserData = UserData(firstName: string, lastName: string, email: string, subscribedToUserIds: seq<Id>)

  datatype PostData = PostData(title: string, content: string, userId: Id)

  datatype ProfileData = ProfileData(
    avatar: string, sex: string, birthday: int, country: string, street: string, city: string,
    memberTypeId: Id, userId: Id)

  datatype MemberTypeData = MemberTypeData(discount: int, monthPostsLimit: int)

  type User = Row<UserData>
  type Post = Row<PostData>
  type Profile = Row<ProfileData>
  type MemberType = Row<MemberTypeData>

  // Query keys: the record fields the routes look records up by.

  function SubscribedToUserIds(r: User): seq<Id> {
    r.data.subscribedToUserIds
  }

  function PostAuthor(r: Post): Id {
    r.data.userId
  }

  function ProfileOwner(r: Profile): Id {
    r.data.userId
  }

  // PATCH bodies. A field left out of the body is None; the merge keeps the
  // record's own value for it.

  datatype UserPatch = UserPatch(firstName: Option<string>, lastName: Option<string>, email: Option<string>)

  datatype PostPatch = PostPatch(title: Option<string>, content: Option<string>)

  datatype ProfilePatch = ProfilePatch(
    avatar: Option<string>, sex: Option<string>, birthday: Option<int>, country: Option<string>,
    street: Option<string>, city: Option<string>, memberTypeId: Option<Id>)

  datatype MemberTypePatch = MemberTypePatch(discount: Option<int>, monthPostsLimit: Option<int>)

  /** One field of a shallow merge `{...record, ...body}`. */
  function Pick<T>(given: Option<T>, current: T): T {
    match given
    case Some(v) => v
    case None => current
  }

  /** A merged field holds the body's value when the body carries it, and the
      record's value otherwise. */
  ghost predicate Merged<T>(given: Option<T>, current: T, result: T) {
    (given.Some? ==> result == given.value) && (given.None? ==> result == current)
  }

  /** `{...user, ...body}`: the names and email the body carries; the follower
      list is not in a PATCH body and stays. */
  function MergeUser(d: UserData, p: UserPatch): (r: UserData)
    ensures Merged(p.firstName, d.firstName, r.firstName) && Merged(p.lastName, d.lastName, r.lastName)
    ensures Merged(p.email, d.email, r.email)
    ensures r.subscribedToUserIds == d.subscribedToUserIds
  {
    d.(firstName := Pick(p.firstName, d.firstName), lastName := Pick(p.lastName, d.lastName),
       email := Pick(p.email, d.email))
  }

  /** `{...post, ...body}`: the title and content the body carries; the author stays. */
  function MergePost(d: PostData, p: PostPatch): (r: PostData)
    ensures Merged(p.title, d.title, r.title) && Merged(p.content, d.content, r.content)
    ensures r.userId == d.userId
  {
    d.(title := Pick(p.title, d.title), content := Pick(p.content, d.content))
  }

  /** `{...profile, ...body}`: the attributes the body carries; the owner stays. */
  function MergeProfile(d: ProfileData, p: ProfilePatch): (r: ProfileData)
    ensures Merged(p.avatar, d.avatar, r.avatar) && Merged(p.sex, d.sex, r.sex)
    ensures Merged(p.birthday, d.birthday, r.birthday) && Merged(p.country, d.country, r.country)
    ensures Merged(p.street, d.street, r.street) && Merged(p.city, d.city, r.city)
    ensures Merged(p.memberTypeId, d.memberTypeId, r.memberTypeId)
    ensures r.userId == d.userId
  {
    d.(avatar := Pick(p.avatar, d.avatar), sex := Pick(p.sex, d.sex),
       birthday := Pick(p.birthday, d.birthday), country := Pick(p.country, d.country),
       street := Pick(p.street, d.street), city := Pick(p.city, d.city),
       memberTypeId := Pick(p.memberTypeId, d.memberTypeId))
  }

  /** `{...memberType, ...body}`: the discount and post limit the body carries. */
  function MergeMemberType(d: MemberTypeData, p: MemberTypePatch): (r: MemberTypeData)
    ensures Merged(p.discount, d.discount, r.discount)
    ensures Merged(p.monthPostsLimit, d.monthPostsLimit, r.monthPostsLimit)
  {
    d.(discount := Pick(p.discount, d.discount), monthPostsLimit := Pick(p.monthPostsLimit, d.monthPostsLimit))
  }

  /** The shallow merges are idempotent, and a body with no fields leaves the record as it was. */
  lemma MergesIdempotent(u: UserData, up: UserPatch, po: PostData, pp: PostPatch,
                         pr: ProfileData, prp: ProfilePatch, m: MemberTypeData, mp: MemberTypePatch)
    ensures MergeUser(MergeUser(u, up), up) == MergeUser(u, up)
    ensures MergePost(MergePost(po, pp), pp) == MergePost(po, pp)
    ensures MergeProfile(MergeProfile(pr, prp), prp) == MergeProfile(pr, prp)
    ensures MergeMemberType(MergeMemberType(m, mp), mp) == MergeMemberType(m, mp)
    ensures MergeUser(u, UserPatch(None, None, None)) == u
    ensures MergePost(po, PostPatch(None, None)) == po
    ensures MergeProfile(pr, ProfilePatch(None, None, None, None, None, None, None)) == pr
    ensures MergeMemberType(m, MemberTypePatch(None, None)) == m
  {
  }

  /** The four tables. */
  datatype Db = Db(users: seq<User>, posts: seq<Post>, profiles: seq<Profile>, memberTypes: seq<MemberType>)

  /** `Threw` is a handler that raised instead of replying. */
  datatype Status = Ok | BadRequest | NotFound | Threw

  datatype Reply<A> = Reply(status: Status, body: Option<Row<A>>, db: Db)

  /** Ids are unique within each table and no user has two profiles. Creating
      records under fresh ids and the profile-creation guard keep this true. */
  ghost predicate Valid(db: Db) {
    && UniqueIds(db.users)
    && UniqueIds(db.posts)
    && UniqueIds(db.profiles)
    && UniqueIds(db.memberTypes)
    && Injective(db.profiles, ProfileOwner)
  }

  /** `id` is a fresh id: no user, post or profile carries it. */
  ghost predicate FreshIn(db: Db, id: Id) {
    !Present(db.users, id) && !Present(db.posts, id) && !Present(db.profiles, id)
  }

  /** The GET `/:id` handler every table has: 404 when no record has the id. */
  function GetById<A>(db: Db, t: seq<Row<A>>, id: Id): (r: Reply<A>)
    ensures r.db == db
    ensures r.status == NotFound <==> !Present(t, id)
    ensures r.status == NotFound ==> r.body == None
    ensures r.status != NotFound ==> r.status == Ok
    ensures forall k :: FirstWhere(t, IdIs(id), k) ==> r.body == Some(t[k])
  {
    match FindOne(t, IdIs(id))
    case None => Reply(NotFound, None, db)
    case Some(x) => Reply(Ok, Some(x), db)
  }
}
