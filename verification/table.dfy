/** The in-memory entity table every route calls into: an ordered sequence of
    records, each carrying the id the table assigned to it. The operations are
    `findOne`, `findMany`, `create`, `change` and `delete`, with the semantics
    the route handlers rely on. A query is a single `{key, equals}` pair: equality
    on a scalar key, containment on a list-valued key. */
module Table {

  type Id = string

  datatype Option<T> = None | Some(value: T)

  /** A stored record: the id the table assigned, and the entity's own attributes. */
  datatype Row<A> = Row(id: Id, data: A)

  /** What a lookup-and-write returns: the record it found (None when the id is
      absent) together with the table as it stands afterwards. */
  datatype Written<A> = Written(row: Option<Row<A>>, table: seq<Row<A>>)

  function RowId<A>(r: Row<A>): Id {
    r.id
  }

  // Queries. Each builds the predicate a `{key, equals}` pair denotes.

  /** `{key: "id", equals: id}` */
  function IdIs<A>(id: Id): Row<A> -> bool {
    (r: Row<A>) => r.id == id
  }

  /** The complement of several `{key: "id"}` queries: the id is none of `ids`. */
  function IdNotIn<A>(ids: set<Id>): Row<A> -> bool {
    (r: Row<A>) => r.id !in ids
  }

  /** `{key, equals: v}` on a scalar key. */
  function FieldIs<A>(key: Row<A> -> Id, v: Id): Row<A> -> bool {
    r => key(r) == v
  }

  function FieldIsNot<A>(key: Row<A> -> Id, v: Id): Row<A> -> bool {
    r => key(r) != v
  }

  /** `{key, equals: [v]}` on a list-valued key: the list contains `v`. */
  function FieldHas<A>(key: Row<A> -> seq<Id>, v: Id): Row<A> -> bool {
    r => v in key(r)
  }

  // Facts about tables.

  /** `k` is the first position of `t` whose record satisfies `p`. */
  ghost predicate FirstWhere<A>(t: seq<Row<A>>, p: Row<A> -> bool, k: int) {
    0 <= k < |t| && p(t[k]) && forall j :: 0 <= j < k ==> !p(t[j])
  }

  ghost predicate Present<A>(t: seq<Row<A>>, id: Id) {
    exists i :: 0 <= i < |t| && t[i].id == id
  }

  /** No two positions of `t` share a value of `key`. */
  ghost predicate Injective<A>(t: seq<Row<A>>, key: Row<A> -> Id) {
    forall i, j :: 0 <= i < |t| && 0 <= j < |t| && key(t[i]) == key(t[j]) ==> i == j
  }

  ghost predicate UniqueIds<A>(t: seq<Row<A>>) {
    Injective(t, RowId)
  }

  /** The ids of the table, in table order. */
  function IdList<A>(t: seq<Row<A>>): seq<Id> {
    seq(|t|, i requires 0 <= i < |t| => t[i].id)
  }

  function IdsOf<A>(t: seq<Row<A>>): set<Id> {
    set i | 0 <= i < |t| :: t[i].id
  }

  // Operations.

  function FirstIndex<A>(t: seq<Row<A>>, p: Row<A> -> bool): (r: Option<nat>)
    ensures r.Some? ==> FirstWhere(t, p, r.value)
    ensures r.None? ==> forall j :: 0 <= j < |t| ==> !p(t[j])
  {
    if |t| == 0 then None
    else if p(t[0]) then Some(0)
    else match FirstIndex(t[1..], p)
      case None => None
      case Some(k) => Some(k + 1)
  }

  /** `findOne`: the first record matching the query. */
  function FindOne<A>(t: seq<Row<A>>, p: Row<A> -> bool): (r: Option<Row<A>>)
    ensures r.None? <==> forall j :: 0 <= j < |t| ==> !p(t[j])
    ensures forall k :: FirstWhere(t, p, k) ==> r == Some(t[k])
  {
    match FirstIndex(t, p)
    case None => None
    case Some(k) => Some(t[k])
  }

  /** `findMany`: every record matching the query, in table order. */
  function FindMany<A>(t: seq<Row<A>>, p: Row<A> -> bool): (r: seq<Row<A>>)
    ensures forall i :: 0 <= i < |r| ==> r[i] in t && p(r[i])
    ensures forall i :: 0 <= i < |t| && p(t[i]) ==> t[i] in r
    ensures |r| <= |t|
  {
    if |t| == 0 then []
    else
      assert t == [t[0]] + t[1..];
      (if p(t[0]) then [t[0]] else []) + FindMany(t[1..], p)
  }

  /** `create`: append a record under the id the generator produced (`newId`). */
  function Create<A>(t: seq<Row<A>>, newId: Id, data: A): (r: Written<A>)
    ensures r.row == Some(Row(newId, data))
    ensures |r.table| == |t| + 1 && r.table[..|t|] == t && r.table[|t|] == r.row.value
  {
    var row := Row(newId, data);
    Written(Some(row), t + [row])
  }

  /** `change`: shallow-merge into the first record with that id; absent when
      no record has it. The id itself never changes. */
  function Change<A>(t: seq<Row<A>>, id: Id, f: A -> A): (r: Written<A>)
    ensures r.row.Some? <==> Present(t, id)
    ensures r.row.None? ==> r.table == t
    ensures forall k :: FirstWhere(t, IdIs(id), k) ==>
              r.table == t[k := Row(id, f(t[k].data))] && r.row == Some(r.table[k])
    ensures IdList(r.table) == IdList(t)
  {
    match FirstIndex(t, IdIs(id))
    case None => Written(None, t)
    case Some(k) =>
      var row := Row(id, f(t[k].data));
      Written(Some(row), t[k := row])
  }

  /** `delete`: remove the first record with that id and return it; absent when
      no record has it. */
  function Delete<A>(t: seq<Row<A>>, id: Id): (r: Written<A>)
    ensures r.row.Some? <==> Present(t, id)
    ensures r.row.None? ==> r.table == t
    ensures forall k :: FirstWhere(t, IdIs(id), k) ==>
              r.row == Some(t[k]) && r.table == t[..k] + t[k + 1..]
    ensures r.row.Some? ==> multiset(r.table) + multiset{r.row.value} == multiset(t)
    ensures forall x :: x in r.table ==> x in t
    ensures forall x :: x in t && x.id != id ==> x in r.table
  {
    match FirstIndex(t, IdIs(id))
    case None => Written(None, t)
    case Some(k) =>
      assert t == t[..k] + [t[k]] + t[k + 1..];
      var u := t[..k] + t[k + 1..];
      assert forall x :: x in t && x != t[k] ==> x in u;
      Written(Some(t[k]), u)
  }

  /** `victims.forEach(v => delete(v.id))`, one delete after another. */
  function DeleteEach<A>(t: seq<Row<A>>, victims: seq<Row<A>>): (r: seq<Row<A>>)
    ensures |r| <= |t|
    ensures forall x :: x in r ==> x in t
    ensures forall x :: x in t && x.id !in IdsOf(victims) ==> x in r
    decreases |victims|
  {
    if |victims| == 0 then t
    else
      var d := Delete(t, victims[0].id);
      var r := DeleteEach(d.table, victims[1..]);
      IdsOfTail(victims);
      r
  }

  // Lemmas.

  /** The ids of a list's tail are ids of the list, and so is the head's. */
  lemma IdsOfTail<A>(t: seq<Row<A>>)
    requires 0 < |t|
    ensures t[0].id in IdsOf(t)
    ensures forall v :: v in IdsOf(t[1..]) ==> v in IdsOf(t)
  {
    forall v | v in IdsOf(t[1..]) ensures v in IdsOf(t) {
      var i :| 0 <= i < |t[1..]| && t[1..][i].id == v;
      assert t[i + 1].id == v;
    }
  }

  /** A change touches no record with another id. */
  lemma ChangeKeepsOthers<A>(t: seq<Row<A>>, id: Id, f: A -> A)
    ensures forall i :: 0 <= i < |t| && t[i].id != id ==> Change(t, id, f).table[i] == t[i]
  {
    if Present(t, id) {
      var k := FirstIndex(t, IdIs(id)).value;
      assert FirstWhere(t, IdIs(id), k);
    }
  }

  /** `findMany` selects exactly the records of the table that match. */
  lemma FindManyMembership<A>(t: seq<Row<A>>, p: Row<A> -> bool)
    ensures forall x :: x in FindMany(t, p) <==> x in t && p(x)
  {
    forall x | x in t && p(x) ensures x in FindMany(t, p) {
      var i :| 0 <= i < |t| && t[i] == x;
    }
  }

  /** The records a `FieldIsNot` query keeps: those whose key differs. */
  lemma FindManyFieldIsNot<A>(t: seq<Row<A>>, key: Row<A> -> Id, v: Id)
    ensures forall x :: x in FindMany(t, FieldIsNot(key, v)) <==> x in t && key(x) != v
  {
    FindManyMembership(t, FieldIsNot(key, v));
  }

  lemma {:induction false} FindManyAll<A>(t: seq<Row<A>>, p: Row<A> -> bool)
    requires forall i :: 0 <= i < |t| ==> p(t[i])
    ensures FindMany(t, p) == t
  {
    if |t| > 0 {
      FindManyAll(t[1..], p);
      assert t == [t[0]] + t[1..];
    }
  }

  lemma {:induction false} FindManyConcat<A>(a: seq<Row<A>>, b: seq<Row<A>>, p: Row<A> -> bool)
    ensures FindMany(a + b, p) == FindMany(a, p) + FindMany(b, p)
  {
    if |a| == 0 {
      assert a + b == b;
    } else {
      assert (a + b)[1..] == a[1..] + b;
      FindManyConcat(a[1..], b, p);
    }
  }

  /** Two queries that agree on every record of the table select the same records. */
  lemma {:induction false} FindManyCongruent<A>(t: seq<Row<A>>, p: Row<A> -> bool, q: Row<A> -> bool)
    requires forall i :: 0 <= i < |t| ==> p(t[i]) == q(t[i])
    ensures FindMany(t, p) == FindMany(t, q)
  {
    if |t| > 0 {
      FindManyCongruent(t[1..], p, q);
    }
  }

  /** Querying a query's result is querying for both at once. */
  lemma {:induction false} FindManyTwice<A>(t: seq<Row<A>>, p: Row<A> -> bool, q: Row<A> -> bool, pq: Row<A> -> bool)
    requires forall i :: 0 <= i < |t| ==> pq(t[i]) == (p(t[i]) && q(t[i]))
    ensures FindMany(FindMany(t, p), q) == FindMany(t, pq)
  {
    if |t| > 0 {
      var head := if p(t[0]) then [t[0]] else [];
      FindManyTwice(t[1..], p, q, pq);
      FindManyConcat(head, FindMany(t[1..], p), q);
      if p(t[0]) {
        assert [t[0]][1..] == [];
      }
    }
  }

  /** A query result keeps any key that was injective on the whole table injective. */
  lemma {:induction false} FindManyInjective<A>(t: seq<Row<A>>, p: Row<A> -> bool, key: Row<A> -> Id)
    requires Injective(t, key)
    ensures Injective(FindMany(t, p), key)
  {
    if |t| > 0 {
      var rest := FindMany(t[1..], p);
      InjectiveTail(t, key);
      FindManyInjective(t[1..], p, key);
      if p(t[0]) {
        var r := FindMany(t, p);
        assert r == [t[0]] + rest;
        forall j | 0 <= j < |rest| ensures key(rest[j]) != key(t[0]) {
          assert rest[j] in t[1..];
          var m :| 0 <= m < |t| - 1 && t[1..][m] == rest[j];
          assert key(t[m + 1]) != key(t[0]);
        }
        forall i, j | 0 <= i < |r| && 0 <= j < |r| && key(r[i]) == key(r[j]) ensures i == j {
          if i > 0 && j > 0 {
            assert key(rest[i - 1]) == key(rest[j - 1]);
          }
        }
      }
    }
  }

  lemma InjectiveTail<A>(t: seq<Row<A>>, key: Row<A> -> Id)
    requires Injective(t, key) && |t| > 0
    ensures Injective(t[1..], key)
  {
    forall i, j | 0 <= i < |t| - 1 && 0 <= j < |t| - 1 && key(t[1..][i]) == key(t[1..][j])
      ensures i == j
    {
      assert key(t[i + 1]) == key(t[j + 1]);
    }
  }

  /** Appending a record whose key no record has keeps the key injective. */
  lemma AppendInjective<A>(t: seq<Row<A>>, x: Row<A>, key: Row<A> -> Id)
    requires Injective(t, key)
    requires forall i :: 0 <= i < |t| ==> key(t[i]) != key(x)
    ensures Injective(t + [x], key)
  {
    var r := t + [x];
    forall i, j | 0 <= i < |r| && 0 <= j < |r| && key(r[i]) == key(r[j]) ensures i == j {
      if i < |t| && j < |t| {
        assert key(t[i]) == key(t[j]);
      }
    }
  }

  /** A change that keeps `key` on the record it rewrites keeps `key` injective. */
  lemma ChangeInjective<A>(t: seq<Row<A>>, id: Id, f: A -> A, key: Row<A> -> Id)
    requires Injective(t, key)
    requires forall i :: 0 <= i < |t| ==> key(Row(t[i].id, f(t[i].data))) == key(t[i])
    ensures Injective(Change(t, id, f).table, key)
  {
    var r := Change(t, id, f);
    if r.row.Some? {
      var k := FirstIndex(t, IdIs(id)).value;
      assert t[k].id == id;
      var u := r.table;
      assert forall i :: 0 <= i < |u| ==> key(u[i]) == key(t[i]);
      forall i, j | 0 <= i < |u| && 0 <= j < |u| && key(u[i]) == key(u[j]) ensures i == j {
        assert key(t[i]) == key(t[j]);
      }
    }
  }

  /** Under unique ids, `change` rewrites exactly the record carrying the id. */
  lemma ChangePointwise<A>(t: seq<Row<A>>, id: Id, f: A -> A)
    requires UniqueIds(t)
    ensures |Change(t, id, f).table| == |t|
    ensures forall j :: 0 <= j < |t| ==>
              Change(t, id, f).table[j] == if t[j].id == id then Row(id, f(t[j].data)) else t[j]
  {
    var r := Change(t, id, f);
    if r.row.Some? {
      var k := FirstIndex(t, IdIs(id)).value;
      forall j | 0 <= j < |t| && t[j].id == id ensures j == k {
        assert RowId(t[j]) == RowId(t[k]);
      }
    }
  }

  /** Under unique ids, `delete` is the query for every other id. */
  lemma DeleteAsFindMany<A>(t: seq<Row<A>>, id: Id)
    requires UniqueIds(t)
    ensures Delete(t, id).table == FindMany(t, IdNotIn({id}))
  {
    var r := Delete(t, id);
    if r.row.None? {
      FindManyAll(t, IdNotIn({id}));
    } else {
      var k := FirstIndex(t, IdIs(id)).value;
      assert r.table == t[..k] + t[k + 1..];
      RemoveAtAsFindMany(t, k);
    }
  }

  /** Under unique ids, cutting off the head keeps every record whose id
      differs from the head's. */
  lemma RemoveHeadAsFindMany<A>(t: seq<Row<A>>)
    requires UniqueIds(t) && 0 < |t|
    ensures t[1..] == FindMany(t, IdNotIn({t[0].id}))
  {
    var p: Row<A> -> bool := IdNotIn({t[0].id});
    forall i | 0 <= i < |t[1..]| ensures p(t[1..][i]) {
      assert RowId(t[i + 1]) != RowId(t[0]);
    }
    FindManyAll(t[1..], p);
  }

  /** Cutting out a position past the head is cutting it out of the tail. */
  lemma SpliceCons<A>(t: seq<A>, k: int)
    requires 0 < k < |t|
    ensures t[..k] + t[k + 1..] == [t[0]] + (t[1..][..k - 1] + t[1..][k..])
  {
    assert t[..k] == [t[0]] + t[1..][..k - 1];
    assert t[k + 1..] == t[1..][k..];
  }

  /** Under unique ids, cutting out position `k` keeps every record whose id
      differs from the one there. */
  lemma {:induction false} RemoveAtAsFindMany<A>(t: seq<Row<A>>, k: int)
    requires UniqueIds(t) && 0 <= k < |t|
    ensures t[..k] + t[k + 1..] == FindMany(t, IdNotIn({t[k].id}))
    decreases k
  {
    var p: Row<A> -> bool := IdNotIn({t[k].id});
    if k == 0 {
      RemoveHeadAsFindMany(t);
      assert t[..k] + t[k + 1..] == t[1..];
    } else {
      var tail := t[1..];
      assert tail[k - 1] == t[k];
      InjectiveTail(t, RowId);
      RemoveAtAsFindMany(tail, k - 1);
      assert RowId(t[0]) != RowId(t[k]);
      assert p(t[0]);
      SpliceCons(t, k);
    }
  }

  /** Under unique ids, deleting a list of records one by one is the query for
      every id not on the list. */
  lemma {:induction false} DeleteEachAsFindMany<A>(t: seq<Row<A>>, victims: seq<Row<A>>)
    requires UniqueIds(t)
    ensures DeleteEach(t, victims) == FindMany(t, IdNotIn(IdsOf(victims)))
    decreases |victims|
  {
    if |victims| == 0 {
      assert IdsOf(victims) == {};
      FindManyAll(t, IdNotIn(IdsOf(victims)));
    } else {
      var v := victims[0];
      var t1 := Delete(t, v.id).table;
      assert UniqueIds(t1) by {
        DeleteAsFindMany(t, v.id);
        FindManyInjective(t, IdNotIn({v.id}), RowId);
      }
      DeleteEachAsFindMany(t1, victims[1..]);
      assert FindMany(t1, IdNotIn(IdsOf(victims[1..]))) == FindMany(t, IdNotIn(IdsOf(victims))) by {
        DeleteAsFindMany(t, v.id);
        IdsOfCons(victims);
        FindManyTwice(t, IdNotIn({v.id}), IdNotIn(IdsOf(victims[1..])), IdNotIn(IdsOf(victims)));
      }
    }
  }

  lemma IdsOfCons<A>(vs: seq<Row<A>>)
    requires |vs| > 0
    ensures IdsOf(vs) == {vs[0].id} + IdsOf(vs[1..])
  {
    forall x | x in IdsOf(vs) ensures x in {vs[0].id} + IdsOf(vs[1..]) {
      var i :| 0 <= i < |vs| && vs[i].id == x;
      if i > 0 {
        assert vs[1..][i - 1] == vs[i];
      }
    }
    forall x | x in IdsOf(vs[1..]) ensures x in IdsOf(vs) {
      var i :| 0 <= i < |vs[1..]| && vs[1..][i].id == x;
      assert vs[i + 1] == vs[1..][i];
    }
  }

  /** Under unique ids, a record's id is among the ids a query returned exactly
      when the record itself matches the query. */
  lemma IdsOfFindMany<A>(t: seq<Row<A>>, p: Row<A> -> bool, i: int)
    requires UniqueIds(t) && 0 <= i < |t|
    ensures t[i].id in IdsOf(FindMany(t, p)) <==> p(t[i])
  {
    if t[i].id in IdsOf(FindMany(t, p)) {
      var v :| v in FindMany(t, p) && v.id == t[i].id;
      var m :| 0 <= m < |t| && t[m] == v;
      assert RowId(t[m]) == RowId(t[i]);
    }
  }

  /** Right after a create under a fresh id, looking the id up finds the new record. */
  lemma CreateThenFind<A>(t: seq<Row<A>>, newId: Id, data: A)
    requires !Present(t, newId)
    ensures FindOne(Create(t, newId, data).table, IdIs(newId)) == Some(Row(newId, data))
  {
    var u := Create(t, newId, data).table;
    assert FirstWhere(u, IdIs(newId), |t|) by {
      forall j | 0 <= j < |t| ensures !IdIs(newId)(u[j]) {
        assert u[j] == t[j];
      }
    }
  }

  /** Right after a change, looking the id up finds the changed record. */
  lemma ChangeThenFind<A>(t: seq<Row<A>>, id: Id, f: A -> A)
    requires Present(t, id)
    ensures FindOne(Change(t, id, f).table, IdIs(id)) == Change(t, id, f).row
  {
    var k := FirstIndex(t, IdIs(id)).value;
    var u := Change(t, id, f).table;
    assert FirstWhere(u, IdIs(id), k) by {
      forall j | 0 <= j < k ensures !IdIs(id)(u[j]) {
        assert u[j] == t[j];
      }
    }
  }

  /** Under unique ids a delete leaves no record with the id, so a second
      delete of the same id finds nothing. */
  lemma DeleteRemovesId<A>(t: seq<Row<A>>, id: Id)
    requires UniqueIds(t)
    ensures !Present(Delete(t, id).table, id)
    ensures UniqueIds(Delete(t, id).table)
  {
    DeleteAsFindMany(t, id);
    FindManyInjective(t, IdNotIn({id}), RowId);
    var u := Delete(t, id).table;
    forall i | 0 <= i < |u| ensures u[i].id != id {
      assert IdNotIn({id})(u[i]);
    }
  }

  /** Creating under an id the table does not hold keeps the ids unique. */
  lemma CreateKeepsUniqueIds<A>(t: seq<Row<A>>, newId: Id, data: A)
    requires UniqueIds(t) && !Present(t, newId)
    ensures UniqueIds(Create(t, newId, data).table)
  {
    AppendInjective(t, Row(newId, data), RowId);
    assert Create(t, newId, data).table == t + [Row(newId, data)];
  }

  /** Uniqueness of ids depends on the ids alone, in order. */
  lemma SameIdsKeepUniqueIds<A>(t: seq<Row<A>>, u: seq<Row<A>>)
    requires UniqueIds(t) && IdList(u) == IdList(t)
    ensures UniqueIds(u)
  {
    forall i, j | 0 <= i < |u| && 0 <= j < |u| && RowId(u[i]) == RowId(u[j]) ensures i == j {
      assert IdList(u)[i] == IdList(t)[i] && IdList(u)[j] == IdList(t)[j];
    }
  }
}
