/** The `/posts` routes as transitions on the four-table state: create, delete
    and patch. GET `/:id` is `Entities.GetById` on the posts table. */
module Posts {
  import opened Table
  import opened Entities

  /** POST `/`: the body becomes a post under the generated id. The author's
      existence is not checked. */
  function CreatePost(db: Db, newId: Id, body: PostData): (r: Reply<PostData>)
    ensures r.status == Ok && r.body == Some(Row(newId, body))
    ensures |r.db.posts| == |db.posts| + 1
    ensures r.db.posts[..|db.posts|] == db.posts && r.db.posts[|db.posts|] == Row(newId, body)
    ensures r.db == db.(posts := r.db.posts)
  {
    var created := Create(db.posts, newId, body);
    Reply(Ok, created.row, db.(posts := created.table))
  }

  /** DELETE `/:id`: 400 for an empty or non-uuid id, 404 when no post has it. */
  function DeletePost(db: Db, isUuid: Id -> bool, id: Id): (r: Reply<PostData>)
    ensures id == "" || !isUuid(id) ==> r == Reply(BadRequest, None, db)
    ensures id != "" && isUuid(id) && !Present(db.posts, id) ==> r == Reply(NotFound, None, db)
    ensures forall k :: id != "" && isUuid(id) && FirstWhere(db.posts, IdIs(id), k) ==>
              r == Reply(Ok, Some(db.posts[k]), db.(posts := db.posts[..k] + db.posts[k + 1..]))
    ensures r.status == Ok ==> r.body.Some? && multiset(r.db.posts) + multiset{r.body.value} == multiset(db.posts)
  {
    if id == "" || !isUuid(id) then Reply(BadRequest, None, db)
    else
      var removed := Delete(db.posts, id);
      match removed.row
      case None => Reply(NotFound, None, db)
      case Some(p) => Reply(Ok, Some(p), db.(posts := removed.table))
  }

  /** PATCH `/:id`: shallow merge of the body into the post. A missing body,
      an empty or non-uuid id, and also an id no post has, all give 400. */
  function PatchPost(db: Db, isUuid: Id -> bool, id: Id, body: Option<PostPatch>): (r: Reply<PostData>)
    ensures body.None? || id == "" || !isUuid(id) ==> r == Reply(BadRequest, None, db)
    ensures !Present(db.posts, id) ==> r == Reply(BadRequest, None, db)
    ensures r.status != NotFound
    ensures forall k :: body.Some? && id != "" && isUuid(id) && FirstWhere(db.posts, IdIs(id), k) ==>
              var patched := Row(id, MergePost(db.posts[k].data, body.value));
              r == Reply(Ok, Some(patched), db.(posts := db.posts[k := patched]))
    ensures IdList(r.db.posts) == IdList(db.posts) && r.db == db.(posts := r.db.posts)
  {
    if body.None? || id == "" || !isUuid(id) then Reply(BadRequest, None, db)
    else
      var changed := Change(db.posts, id, (d: PostData) => MergePost(d, body.value));
      match changed.row
      case None => Reply(BadRequest, None, db)
      case Some(p) => Reply(Ok, Some(p), db.(posts := changed.table))
  }

  /** A post created under a fresh id is what GET `/:id` then returns. */
  lemma CreateThenGet(db: Db, newId: Id, body: PostData)
    requires !Present(db.posts, newId)
    ensures var r := CreatePost(db, newId, body);
      GetById(r.db, r.db.posts, newId) == Reply(Ok, Some(Row(newId, body)), r.db)
  {
    CreateThenFind(db.posts, newId, body);
  }

  /** Deleting the same post twice: the second delete finds nothing and
      changes nothing. */
  lemma DeleteTwice(db: Db, isUuid: Id -> bool, id: Id)
    requires UniqueIds(db.posts)
    ensures var once := DeletePost(db, isUuid, id);
      var twice := DeletePost(once.db, isUuid, id);
      twice == Reply(if id == "" || !isUuid(id) then BadRequest else NotFound, None, once.db)
  {
    DeleteRemovesId(db.posts, id);
  }

  /** A patched post is what GET `/:id` then returns. */
  lemma PatchThenGet(db: Db, isUuid: Id -> bool, id: Id, body: Option<PostPatch>)
    ensures var r := PatchPost(db, isUuid, id, body);
      r.status == Ok ==> GetById(r.db, r.db.posts, id) == Reply(Ok, r.body, r.db)
  {
    var r := PatchPost(db, isUuid, id, body);
    if r.status == Ok {
      ChangeThenFind(db.posts, id, (d: PostData) => MergePost(d, body.value));
    }
  }
}
