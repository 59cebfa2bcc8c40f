# node-graphql routes as a state machine in Dafny

This project models the REST route handlers of the node-graphql backend in
Dafny. The backend keeps four in-memory tables: users, posts, profiles and
member types. Each handler reads a request, looks records up, writes some
of them, and answers with a status. The model treats every handler as a
pure transition. It takes the four-table state (`Entities.Db`) and the
request, and returns a status (`Ok`, `BadRequest`, `NotFound`, or `Threw`
for a handler that raises), the record sent back, and the next state.

Layout:

- `table.dfy` (`Table`): the semantics the handlers rely on from a table.
  - `findOne` and `findMany` with the `{key, equals}` query. Equality is used on a scalar field and containment on a list field.
  - `create` appends a record under a generated id.
  - `change` is a shallow merge into the first record with the id.
  - `delete` removes the first record with the id.
  - The lemmas relate these operations to filters and state when ids stay unique.
- `lists.dfy` (`Lists`): the array operations on a follower list: `indexOf`, `splice(i, 1)` and `filter`.
- `entities.dfy` (`Entities`): the entity records, the PATCH bodies and their merges, the state, the reply, the `Valid` invariant, and the GET `/:id` handler every plugin shares.
- `users.dfy`, `posts.dfy`, `profiles.dfy`, `member_types.dfy`: one module per route plugin.
- `server.dfy` (`Server`):
  - the four plugins as one request type and one `Serve` function;
  - runs of many requests;
  - the invariants that hold across all routes;
  - the create–subscribe–post–delete scenario.

Follower lists point in the source's direction. `subscribedToUserIds` is
stored on the user being followed, and it lists the users who subscribed to
it.

## Model

| member | source | states |
|---|---|---|
| Lists.IndexOf | src/routes/users/index.ts:147-150 | -1 exactly when the id is absent from the list, otherwise the position of its first occurrence |
| Lists.RemoveAt | src/routes/users/index.ts:152 | splicing one element out shortens the list by one, removes exactly that element from its multiset, and keeps the elements before it in place and the ones after it, in order, one position earlier |
| Lists.Strip | src/routes/users/index.ts:89-91 | the filtered list holds every element other than the deleted id and nothing else, with the multiplicities of the other elements kept |
| Lists.StripOne | src/routes/users/index.ts:89-91 | on a one-element list the filter keeps the element exactly when it is not the deleted id |
| Lists.StripConcat | src/routes/users/index.ts:89-91 | the filter of a concatenation is the concatenation of the filters; with StripOne this fixes the result completely, so the surviving ids keep their original order |
| Lists.RemoveFirstAfterAppend | src/routes/users/index.ts:120-152 | push then splice-out-first-occurrence restores the elements, and restores the exact list when the id was not already there |
| Lists.RemoveFirstAfterAppendTwice | src/routes/users/index.ts:120-152 | after pushing an id twice, removing its first occurrence leaves it in the list |
| Lists.RemoveFirstAfterAppendMayReorder | src/routes/users/index.ts:120-152 | when the id is already listed earlier, push then remove-first reorders the list: ["a","b"] becomes ["b","a"] |
| Table.FindOne | src/routes/users/index.ts:116-119 | no record is found exactly when no record matches the query, and otherwise the first match is returned |
| Table.FindMany | src/routes/users/index.ts:68-75 | the result holds only matching records of the table and every matching record; `Table.FindManyConcat` adds that they come in table order |
| Table.FindManyConcat | src/routes/users/index.ts:68-75 | the query over two tables joined is the query over the first followed by the query over the second, so the records found keep their table order |
| Table.Create | src/routes/posts/index.ts:42 | the new record carries the generated id and the body, it comes back, and it is appended after the existing records, which are kept in order |
| Table.Change | src/routes/users/index.ts:177-180 | the result is absent exactly when no record has the id; otherwise the first record with the id is replaced by its merge, and ids and their order are kept |
| Table.Delete | src/routes/posts/index.ts:62-65 | the result is absent exactly when no record has the id; otherwise exactly the first record with the id is cut out |
| Table.DeleteAsFindMany | src/routes/profiles/index.ts:76 | under unique ids, deleting by id equals filtering out that id |
| Table.DeleteEach | src/routes/users/index.ts:95 | deleting records one after another never grows the table or adds a record, and keeps every record whose id is not among the victims' ids |
| Table.DeleteEachAsFindMany | src/routes/users/index.ts:95 | under unique ids, deleting a list of records one after another equals filtering out all their ids |
| Table.DeleteRemovesId | src/routes/posts/index.ts:62 | after a delete under unique ids, no record has the id and ids stay unique |
| Table.CreateThenFind | src/routes/posts/index.ts:42 | a record created under a fresh id is what a lookup by that id finds |
| Entities.MergeUser | src/routes/users/index.ts:177 | each name and the email take the body's value when the body carries it and keep the record's value otherwise; the follower list is kept |
| Entities.MergePost | src/routes/posts/index.ts:88 | the title and content take the body's value when the body carries it and keep the record's value otherwise; the author is kept |
| Entities.MergeProfile | src/routes/profiles/index.ts:103 | each attribute takes the body's value when the body carries it and keeps the record's value otherwise; the owner is kept |
| Entities.MergeMemberType | src/routes/member-types/index.ts:51 | the discount and post limit take the body's value when the body carries it and keep the record's value otherwise |
| Entities.MergesIdempotent | src/routes/users/index.ts:177 | merging the same body twice is merging it once, and a body with no fields leaves the record as it was, for all four entities |
| Entities.GetById | src/routes/users/index.ts:25-34 | GET `/:id` answers 404 exactly when no record has the id, otherwise 200 with the first such record, and never writes |
| Users.CreateUser | src/routes/users/index.ts:44-49 | a new user with the given names and email and no subscribers is appended, and nothing else changes |
| Users.CreateThenGet | src/routes/users/index.ts:25-49 | a user created under a fresh id is what GET `/:id` then returns |
| Users.DeleteUser | src/routes/users/index.ts:59-98 | 400 for an empty or non-uuid id, and a raised error with no change for a missing user; it succeeds exactly for a present, valid id and returns the deleted record; member types are untouched |
| Users.DeleteUserCascade | src/routes/users/index.ts:66-95 | under the invariant, a successful delete leaves exactly: the other users with the id filtered out of their lists, the posts of other authors, and the profiles of other owners |
| Users.DeleteUserLeavesNoTrace | src/routes/users/index.ts:66-95 | under the invariant, after a successful delete no user has or lists the id, and no post or profile is owned by it |
| Users.DeleteUserKeepsOthers | src/routes/users/index.ts:68-95 | under the invariant, every other user survives with the id filtered out, users not listing it survive unchanged, and every other post and profile survives |
| Users.Unfollow | src/routes/users/index.ts:86-93 | the loop of changes over the followers keeps the table's length and every user's id in place, and leaves every user that is not among the followers unchanged |
| Users.UnfollowScrubs | src/routes/users/index.ts:86-93 | under unique ids, and with every follower drawn from the table, the loop of changes over the followers found equals filtering the id out of exactly those users' lists |
| Users.ScrubFollowersIsScrubAll | src/routes/users/index.ts:68-93 | scrubbing only the followers the containment query finds is the same as scrubbing every user |
| Users.CascadePosts | src/routes/users/index.ts:72-95 | under unique post ids, deleting each post the author query finds leaves exactly the posts of other authors |
| Users.CascadeProfile | src/routes/users/index.ts:77-84 | under unique profile ids, and when each user has at most one profile, deleting the profile found leaves exactly the profiles of other owners |
| Users.SubscribeTo | src/routes/users/index.ts:109-124 | 400 unless both ids are non-empty uuids, 404 when the target is missing; otherwise the subscriber id is appended to the target's list and nothing else changes |
| Users.UnsubscribeFrom | src/routes/users/index.ts:135-156 | 400 for bad ids, 404 for a missing target, 400 with no change when the id is not on the list; otherwise exactly its first occurrence is removed and nothing else changes |
| Users.SubscribeUnsubscribeRoundTrip | src/routes/users/index.ts:120-153 | subscribe then unsubscribe succeeds, changes only the target's list, restores that list's elements, and restores the whole state when the id was not already subscribed |
| Users.SubscribeTwiceUnsubscribeOnce | src/routes/users/index.ts:120-153 | after two subscribes and one unsubscribe the id is still on the target's list |
| Users.PatchUser | src/routes/users/index.ts:167-183 | 400 for a missing body or a bad id, and also 400, never 404, for a missing user; otherwise the shallow merge with the id kept, and nothing else changes |
| Users.PatchThenGet | src/routes/users/index.ts:25-183 | a patched user is what GET returns; on a missing id the patch answers 400 while GET answers 404 |
| Posts.CreatePost | src/routes/posts/index.ts:41-45 | exactly one post built from the body is appended under the generated id, the existing posts are kept, and other tables are unchanged |
| Posts.DeletePost | src/routes/posts/index.ts:55-68 | 400 for an empty or non-uuid id, 404 with no change for a missing id; otherwise only that post is removed and returned |
| Posts.PatchPost | src/routes/posts/index.ts:79-94 | 400 for a missing body or a bad id, and also 400, not 404, for a missing post; otherwise the shallow merge; ids and other tables are kept |
| Posts.CreateThenGet | src/routes/posts/index.ts:22-45 | a post created under a fresh id is what GET `/:id` then returns |
| Posts.DeleteTwice | src/routes/posts/index.ts:55-68 | under unique ids, a second delete of the same id answers 404 (or 400 for a bad id) and changes nothing |
| Posts.PatchThenGet | src/routes/posts/index.ts:22-94 | a patched post is what GET `/:id` then returns |
| Profiles.CreateProfile | src/routes/profiles/index.ts:42-59 | 400 with no change when the owner is not a uuid, when the member type is missing, or when the owner already has a profile; otherwise exactly the body is appended under the generated id |
| Profiles.CreateKeepsOneProfilePerUser | src/routes/profiles/index.ts:52-57 | profile creation keeps every user to at most one profile |
| Profiles.DeleteProfile | src/routes/profiles/index.ts:69-82 | 400 for a non-uuid id, 404 with no change for a missing one; otherwise only that profile is removed and returned |
| Profiles.PatchProfile | src/routes/profiles/index.ts:93-109 | 400 for a missing body or a bad id, 404 with no change for a missing profile; otherwise the shallow merge; ids and other tables are kept |
| Profiles.PatchKeepsOneProfilePerUser | src/routes/profiles/index.ts:103 | a patch never gives a second profile to a user |
| Profiles.CreateThenGet | src/routes/profiles/index.ts:23-59 | a profile created under a fresh id is what GET `/:id` then returns |
| Profiles.DeleteTwice | src/routes/profiles/index.ts:69-82 | under unique ids, a second delete of the same id answers 404 (or 400 for a non-uuid id) and changes nothing |
| MemberTypes.PatchMemberType | src/routes/member-types/index.ts:42-57 | 400 with no change for an unknown id; otherwise the shallow merge with the id kept; ids, their order and other tables are kept |
| MemberTypes.PatchNeverNotFound | src/routes/member-types/index.ts:46-54 | the 404 branch is never taken: the patch succeeds exactly when the id exists |
| MemberTypes.PatchThenGet | src/routes/member-types/index.ts:22-57 | a patched member type is what GET `/:id` then returns |
| Server.ServeUsers | src/routes/users/index.ts:7-185 | a failed user request changes nothing, only a delete writes outside the users table, and member types are untouched |
| Server.ServePosts | src/routes/posts/index.ts:7-96 | a failed post request changes nothing, and post requests write only the posts table |
| Server.ServeProfiles | src/routes/profiles/index.ts:7-111 | a failed profile request changes nothing, and profile requests write only the profiles table |
| Server.ServeMemberTypes | src/routes/member-types/index.ts:9-58 | member-type requests write only member-type fields: ids and their order are kept |
| Server.Serve | src/routes/users/index.ts:7-185 | any failed request of any of the four route plugins (this one, posts/index.ts:7-96, profiles/index.ts:7-111, member-types/index.ts:9-58) changes nothing, and no request adds, removes or reorders a member type |
| Server.ServePreservesValid | src/routes/profiles/index.ts:52-57 | every request keeps ids unique per table and every user to at most one profile, given fresh generated ids |
| Server.CascadedValid | src/routes/users/index.ts:66-95 | the state a user delete cascades to satisfies the invariant again |
| Server.RunKeepsMemberTypeIds | src/routes/member-types/index.ts:9-58 | no sequence of requests changes the member-type ids |
| Server.FailedRunChangesNothing | src/routes/users/index.ts:7-185 | a sequence of requests to any of the four route plugins (this one, posts/index.ts:7-96, profiles/index.ts:7-111, member-types/index.ts:9-58) that all fail leaves the state as it was |
| Server.DeleteUserScenario | src/routes/users/index.ts:44-124 | create users a and b, subscribe a to b, create a post by a, delete a: what is left is b with an empty list and no posts |

## Left out

- HTTP transport and schemas:
  - The Fastify plugin wiring, request and reply objects and JSON schemas are not modelled.
  - A reply is a status plus an optional record.
  - The record types (`Entities.UserData`, `PostData`, `ProfileData`, `MemberTypeData`) and the patch types list the attributes assumed for each entity. The request bodies are these records and patches.
  - The schema files are not part of this model. In particular, the model assumes that a profile PATCH body cannot carry `userId`.
- The GET `/` handlers are not modelled. They return a table unchanged.
- The `uuid` library's `validate` is a parameter `isUuid` of every route that calls it. Nothing is assumed about it.
- The table's id generator is a parameter `newId` of every create.
  - `Server.ServePreservesValid` requires the generated id to be fresh.
  - `Server.Run` takes the id of each request as part of the request.
- The DB entity classes under `src/utils/DB` are not part of this model. Their operations get the semantics described above: first match for lookups, changes and deletes, a shallow merge for changes, and append for creates.
- No file that declares the entities is part of this model, and the handlers name few fields. The post attributes (title, content, userId), the profile attributes (avatar, sex, birthday, country, street, city, memberTypeId, userId) and the member-type attributes (discount, monthPostsLimit) are assumed. Any other attribute is not modelled.
- The users table's `create` is assumed to start `subscribedToUserIds` empty: the handler passes only the email and the names (src/routes/users/index.ts:46), and `Users.CreateUser` appends a user with an empty list.
- PATCH bodies are assumed to carry no `id`, a user PATCH body no `subscribedToUserIds`, and a post PATCH body no `userId` (`Entities.MergePost`, `Posts.PatchPost`). The source hands the whole body to the shallow merge, so such a body would rewrite the record's id, its follower list or the post's author. The model's patch types have no such fields. The statements that ids and their order are kept (`Table.Change`, the PATCH handlers, `Server.Serve`, `Server.RunKeepsMemberTypeIds`) rest on this assumption.
- The `forEach` callbacks in user delete are `async` and never awaited. They are modelled as one sequential loop that finishes before the reply, so interleavings with other requests are not modelled.
- User delete on a missing id does not answer 404. It reads the id of an absent record and throws. This is modelled as the `Threw` status with the state unchanged, because the throw happens before any write.
- Profile PATCH does not check that a new `memberTypeId` exists. So the invariant `Valid` covers id uniqueness and one profile per user, but not references between tables. The source does not keep those references either: posts may name a missing author.
- Users.SubscribeUnsubscribeRoundTrip: restores the exact state only when the subscriber was not already on the target's list, and otherwise only the list's elements. When the id already occurs earlier, the source removes that older occurrence, so the order changes, as `Lists.RemoveFirstAfterAppendMayReorder` shows.
- Users.DeleteUserCascade: requires `Valid`. The source removes only the first profile found for the user, so with two profiles per user one of them would survive.
- Server.ServePreservesValid: requires the generated id to be fresh in every table. Whether the id generator guarantees this is not modelled.
- Member-type PATCH has no missing-body check in the source. The body is modelled as always present, and an empty body is the identity merge.
