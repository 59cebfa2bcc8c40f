/** The `/member-types` routes. There is no create and no delete: the only
    transition is PATCH `/:id`, and GET `/:id` is `Entities.GetById` on the
    member-types table. */
module MemberTypes {
  import opened Table
  import opened Entities

  /** PATCH `/:id`: 400 when no member type has the id, otherwise the shallow
      merge. The source follows the merge with a 404 for a change that found
      nothing; that reply is kept here even though the existence check before
      it means it is never produced. */
  function PatchMemberType(db: Db, id: Id, body: MemberTypePatch): (r: Reply<MemberTypeData>)
    ensures !Present(db.memberTypes, id) ==> r == Reply(BadRequest, None, db)
    ensures forall k :: FirstWhere(db.memberTypes, IdIs(id), k) ==>
              var patched := Row(id, MergeMemberType(db.memberTypes[k].data, body));
              r == Reply(Ok, Some(patched), db.(memberTypes := db.memberTypes[k := patched]))
    ensures IdList(r.db.memberTypes) == IdList(db.memberTypes) && r.db == db.(memberTypes := r.db.memberTypes)
  {
    if FindOne(db.memberTypes, IdIs(id)).None? then Reply(BadRequest, None, db)
    else
      var changed := Change(db.memberTypes, id, (d: MemberTypeData) => MergeMemberType(d, body));
      match changed.row
      case None => Reply(NotFound, None, db)
      case Some(m) => Reply(Ok, Some(m), db.(memberTypes := changed.table))
  }

  /** The 404 reply is never produced: the existence check before the change
      already answered 400 for every id the change would not find. */
  lemma PatchNeverNotFound(db: Db, id: Id, body: MemberTypePatch)
    ensures PatchMemberType(db, id, body).status != NotFound
    ensures PatchMemberType(db, id, body).status == Ok <==> Present(db.memberTypes, id)
  {
  }

  /** A patched member type is what GET `/:id` then returns. */
  lemma PatchThenGet(db: Db, id: Id, body: MemberTypePatch)
    ensures var r := PatchMemberType(db, id, body);
      r.status == Ok ==> GetById(r.db, r.db.memberTypes, id) == Reply(Ok, r.body, r.db)
  {
    var r := PatchMemberType(db, id, body);
    if r.status == Ok {
      ChangeThenFind(db.memberTypes, id, (d: MemberTypeData) => MergeMemberType(d, body));
    }
  }
}
