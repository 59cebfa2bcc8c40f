/** The `/profiles` routes as transitions on the four-table state: create,
    delete and patch. GET `/:id` is `Entities.GetById` on the profiles table.
    Profile creation is the one place that keeps a user to a single profile. */
module Profiles {
  import opened Table
  import opened Entities

  /** Some profile belongs to user `u`. */
  ghost predicate HasProfile(profiles: seq<Profile>, u: Id) {
    exists i :: 0 <= i < |profiles| && profiles[i].data.userId == u
  }

  /** POST `/`: 400 unless the owner id is a uuid and the member type exists;
      400 when the owner already has a profile; otherwise the body becomes a
      profile under the generated id. */
  function CreateProfile(db: Db, isUuid: Id -> bool, newId: Id, body: ProfileData): (r: Reply<ProfileData>)
    ensures !isUuid(body.userId) || !Present(db.memberTypes, body.memberTypeId) ==> r == Reply(BadRequest, None, db)
    ensures HasProfile(db.profiles, body.userId) ==> r == Reply(BadRequest, None, db)
    ensures isUuid(body.userId) && Present(db.memberTypes, body.memberTypeId) && !HasProfile(db.profiles, body.userId) ==>
              r == Reply(Ok, Some(Row(newId, body)), db.(profiles := db.profiles + [Row(newId, body)]))
  {
    var memberType := FindOne(db.memberTypes, IdIs(body.memberTypeId));
    if !isUuid(body.userId) || memberType.None? then Reply(BadRequest, None, db)
    else if FindOne(db.profiles, FieldIs(ProfileOwner, body.userId)).Some? then
      assert HasProfile(db.profiles, body.userId) by {
        var j :| 0 <= j < |db.profiles| && FieldIs(ProfileOwner, body.userId)(db.profiles[j]);
        assert db.profiles[j].data.userId == body.userId;
      }
      Reply(BadRequest, None, db)
    else
      var created := Create(db.profiles, newId, body);
      Reply(Ok, created.row, db.(profiles := created.table))
  }

  /** DELETE `/:id`: 400 for a non-uuid id, 404 when no profile has it. */
  function DeleteProfile(db: Db, isUuid: Id -> bool, id: Id): (r: Reply<ProfileData>)
    ensures !isUuid(id) ==> r == Reply(BadRequest, None, db)
    ensures isUuid(id) && !Present(db.profiles, id) ==> r == Reply(NotFound, None, db)
    ensures forall k :: isUuid(id) && FirstWhere(db.profiles, IdIs(id), k) ==>
              r == Reply(Ok, Some(db.profiles[k]), db.(profiles := db.profiles[..k] + db.profiles[k + 1..]))
    ensures r.status == Ok ==> r.body.Some? && multiset(r.db.profiles) + multiset{r.body.value} == multiset(db.profiles)
  {
    if !isUuid(id) then Reply(BadRequest, None, db)
    else
      var removed := Delete(db.profiles, id);
      match removed.row
      case None => Reply(NotFound, None, db)
      case Some(p) => Reply(Ok, Some(p), db.(profiles := removed.table))
  }

  /** PATCH `/:id`: 400 for a missing body or an empty or non-uuid id, 404
      when no profile has the id, otherwise the shallow merge. The owner of a
      profile is not among the fields a body can carry. */
  function PatchProfile(db: Db, isUuid: Id -> bool, id: Id, body: Option<ProfilePatch>): (r: Reply<ProfileData>)
    ensures body.None? || id == "" || !isUuid(id) ==> r == Reply(BadRequest, None, db)
    ensures body.Some? && id != "" && isUuid(id) && !Present(db.profiles, id) ==> r == Reply(NotFound, None, db)
    ensures forall k :: body.Some? && id != "" && isUuid(id) && FirstWhere(db.profiles, IdIs(id), k) ==>
              var patched := Row(id, MergeProfile(db.profiles[k].data, body.value));
              r == Reply(Ok, Some(patched), db.(profiles := db.profiles[k := patched]))
    ensures IdList(r.db.profiles) == IdList(db.profiles) && r.db == db.(profiles := r.db.profiles)
  {
    if body.None? || id == "" || !isUuid(id) then Reply(BadRequest, None, db)
    else
      var changed := Change(db.profiles, id, (d: ProfileData) => MergeProfile(d, body.value));
      match changed.row
      case None => Reply(NotFound, None, db)
      case Some(p) => Reply(Ok, Some(p), db.(profiles := changed.table))
  }

  /** Profile creation keeps every user to at most one profile. */
  lemma CreateKeepsOneProfilePerUser(db: Db, isUuid: Id -> bool, newId: Id, body: ProfileData)
    requires Injective(db.profiles, ProfileOwner)
    ensures Injective(CreateProfile(db, isUuid, newId, body).db.profiles, ProfileOwner)
  {
    var r := CreateProfile(db, isUuid, newId, body);
    if r.status == Ok {
      assert !HasProfile(db.profiles, body.userId);
      AppendInjective(db.profiles, Row(newId, body), ProfileOwner);
    }
  }

  /** Patching a profile never moves it to another owner. */
  lemma PatchKeepsOneProfilePerUser(db: Db, isUuid: Id -> bool, id: Id, body: Option<ProfilePatch>)
    requires Injective(db.profiles, ProfileOwner)
    ensures Injective(PatchProfile(db, isUuid, id, body).db.profiles, ProfileOwner)
  {
    if body.Some? && id != "" && isUuid(id) {
      ChangeInjective(db.profiles, id, (d: ProfileData) => MergeProfile(d, body.value), ProfileOwner);
    }
  }

  /** A profile created under a fresh id is what GET `/:id` then returns. */
  lemma CreateThenGet(db: Db, isUuid: Id -> bool, newId: Id, body: ProfileData)
    requires !Present(db.profiles, newId)
    ensures var r := CreateProfile(db, isUuid, newId, body);
      r.status == Ok ==> GetById(r.db, r.db.profiles, newId) == Reply(Ok, Some(Row(newId, body)), r.db)
  {
    CreateThenFind(db.profiles, newId, body);
  }

  /** Deleting the same profile twice: the second delete finds nothing and
      changes nothing. */
  lemma DeleteTwice(db: Db, isUuid: Id -> bool, id: Id)
    requires UniqueIds(db.profiles)
    ensures var once := DeleteProfile(db, isUuid, id);
      var twice := DeleteProfile(once.db, isUuid, id);
      twice == Reply(if !isUuid(id) then BadRequest else NotFound, None, once.db)
  {
    DeleteRemovesId(db.profiles, id);
  }
}
