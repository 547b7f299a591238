/**
 * The demo's in-memory todo store: one module-level array of todos and the
 * five operations of `db.todos`. The array becomes a value of type `Todos`
 * and each mutating operation returns the new value.
 */
module TodoStore {
  import opened Wrappers

  datatype Todo = Todo(id: int, message: string)

  type Todos = seq<Todo>

  /** `r` is `db` with the element at position `k` taken out and the rest kept in order. */
  ghost predicate RemovedAt(db: Todos, r: Todos, k: nat) {
    && k < |db|
    && |r| == |db| - 1
    && (forall j :: 0 <= j < k ==> r[j] == db[j])
    && (forall j :: k <= j < |r| ==> r[j] == db[j + 1])
  }

  /** The store after `create` and the id `create` returned. */
  datatype Inserted = Inserted(todos: Todos, id: int)

  /** `create(message)`: the id is the length before the call; the new todo goes at the end. */
  function Create(db: Todos, message: string): (r: Inserted)
    ensures r.id == |db|
    ensures |r.todos| == |db| + 1
    ensures forall j :: 0 <= j < |db| ==> r.todos[j] == db[j]
    ensures r.todos[|db|] == Todo(r.id, message)
  {
    var id := |db|;
    Inserted(db + [Todo(id, message)], id)
  }

  /** `read(id)`: the todo at position `id`, or `undefined` outside the array. */
  function Read(db: Todos, id: int): (r: Option<Todo>)
    ensures r.Some? <==> 0 <= id < |db|
    ensures r.Some? ==> r.value == db[id]
  {
    if 0 <= id < |db| then Some(db[id]) else None
  }

  /**
   * `update(id, message)`: replaces the message of the todo at position
   * `id`. Outside the array `todos[id]` is undefined and setting its
   * `message` throws a TypeError, modelled as `None`.
   */
  function Update(db: Todos, id: int, message: string): (r: Option<Todos>)
    ensures r.Some? <==> 0 <= id < |db|
    ensures r.Some? ==> |r.value| == |db|
    ensures r.Some? ==> r.value[id] == Todo(db[id].id, message)
    ensures r.Some? ==> forall j :: 0 <= j < |db| && j != id ==> r.value[j] == db[j]
  {
    if 0 <= id < |db| then Some(db[id := db[id].(message := message)]) else None
  }

  /**
   * The actual start of `splice(start, ...)` on an array of length `len`
   * (section 23.1.3.31 of ECMA-262): a negative start counts back from
   * the end, and the result is clamped to `0..len`.
   */
  function SpliceStart(len: nat, start: int): (k: nat)
    ensures k <= len
  {
    if start < 0 then (if len + start < 0 then 0 else len + start)
    else if start < len then start else len
  }

  /** `delete(id)`: `todos.splice(id, 1)`, which removes at most one element. */
  function Delete(db: Todos, id: int): (r: Todos)
    ensures 0 <= id < |db| ==> RemovedAt(db, r, id)
    ensures id >= |db| ==> r == db
    ensures -|db| <= id < 0 ==> RemovedAt(db, r, |db| + id)
    ensures id < -|db| && |db| > 0 ==> RemovedAt(db, r, 0)
    ensures |db| == 0 ==> r == db
  {
    var k := SpliceStart(|db|, id);
    if k < |db| then db[..k] + db[k + 1..] else db
  }

  /** `readAll()`: the whole current array. */
  function ReadAll(db: Todos): (r: Todos)
    ensures |r| == |db|
    ensures forall j :: 0 <= j < |db| ==> Read(db, j) == Some(r[j])
  {
    db
  }

  /** After a create, the new todo is read at the returned id and every other position reads as before. */
  lemma ReadAfterCreate(db: Todos, message: string, j: int)
    ensures var c := Create(db, message);
      Read(c.todos, j) == if j == c.id then Some(Todo(c.id, message)) else Read(db, j)
  {
  }

  /** After an update, only the updated position reads differently, and its id is kept. */
  lemma ReadAfterUpdate(db: Todos, id: int, message: string, j: int)
    requires 0 <= id < |db|
    ensures Read(Update(db, id, message).value, j)
         == if j == id then Some(Todo(db[id].id, message)) else Read(db, j)
  {
  }

  /** A delete that removes something removes exactly one todo: the one at the splice start. */
  lemma DeleteRemovesOne(db: Todos, id: int)
    requires SpliceStart(|db|, id) < |db|
    ensures multiset(Delete(db, id)) + multiset{db[SpliceStart(|db|, id)]} == multiset(db)
  {
    var k := SpliceStart(|db|, id);
    assert db == db[..k] + [db[k]] + db[k + 1..];
  }

  /** Every todo left by a delete was in the store before it. */
  lemma DeleteOnlyRemoves(db: Todos, id: int)
    ensures forall t :: t in Delete(db, id) ==> t in db
  {
    var k := SpliceStart(|db|, id);
    if k < |db| {
      assert db == db[..k] + [db[k]] + db[k + 1..];
    }
  }

  /** Each id is the position of its todo: what a store built only by creates looks like. */
  ghost predicate IdsArePositions(db: Todos) {
    forall j :: 0 <= j < |db| ==> db[j].id == j
  }

  ghost predicate UniqueIds(db: Todos) {
    forall i, j :: 0 <= i < j < |db| ==> db[i].id != db[j].id
  }

  /** Creates alone keep ids equal to positions, hence unique. */
  lemma CreateKeepsIdsPositions(db: Todos, message: string)
    requires IdsArePositions(db)
    ensures IdsArePositions(Create(db, message).todos)
    ensures UniqueIds(Create(db, message).todos)
  {
  }

  /**
   * Ids are not unique in general: create "a", create "b", delete(0),
   * create "c" leaves two todos with id 1.
   */
  lemma DuplicateIdsAfterDelete()
    ensures var s := Create(Delete(Create(Create([], "a").todos, "b").todos, 0), "c").todos;
      && s == [Todo(1, "b"), Todo(1, "c")]
      && !UniqueIds(s)
  {
    var s := Create(Delete(Create(Create([], "a").todos, "b").todos, 0), "c").todos;
    assert s[0].id == s[1].id;
  }

  /** The least id above every id in the store (0 for an empty store). */
  function NextId(db: Todos): (r: int)
    ensures r >= 0
    ensures forall j :: 0 <= j < |db| ==> db[j].id < r
  {
    if db == [] then 0
    else
      var prior := NextId(db[..|db| - 1]);
      var last := db[|db| - 1].id + 1;
      if last > prior then last else prior
  }

  /** `create` with an id no todo in the store has. */
  function CreateFresh(db: Todos, message: string): (r: Inserted)
    ensures |r.todos| == |db| + 1
    ensures forall j :: 0 <= j < |db| ==> r.todos[j] == db[j] && db[j].id != r.id
    ensures r.todos[|db|] == Todo(r.id, message)
  {
    var id := NextId(db);
    Inserted(db + [Todo(id, message)], id)
  }

  lemma CreateFreshKeepsIdsUnique(db: Todos, message: string)
    requires UniqueIds(db)
    ensures UniqueIds(CreateFresh(db, message).todos)
  {
  }

  /** Every todo whose id is not `id`, in order. */
  function DeleteById(db: Todos, id: int): (r: Todos)
    ensures |r| <= |db|
    ensures forall t :: t in r <==> t in db && t.id != id
  {
    if db == [] then []
    else
      var rest := DeleteById(db[1..], id);
      assert forall t :: t in db <==> t == db[0] || t in db[1..];
      if db[0].id == id then rest else [db[0]] + rest
  }

  /** With unique ids, deleting the id of the todo at position `p` removes that todo and nothing else. */
  lemma {:induction false} DeleteByIdRemovesThatTodo(db: Todos, p: nat)
    requires UniqueIds(db)
    requires p < |db|
    ensures DeleteById(db, db[p].id) == db[..p] + db[p + 1..]
  {
    if p == 0 {
      DeleteFirstId(db);
    } else {
      var id := db[p].id;
      var tail := db[1..];
      TailKeepsIdsUnique(db);
      assert tail[p - 1] == db[p];
      DeleteByIdRemovesThatTodo(tail, p - 1);
      DeleteByIdSkipsHead(db, id);
      SplitAround(db, p);
    }
  }

  lemma DeleteFirstId(db: Todos)
    requires UniqueIds(db) && db != []
    ensures DeleteById(db, db[0].id) == db[..0] + db[1..]
  {
    var tail := db[1..];
    forall j | 0 <= j < |tail| ensures tail[j].id != db[0].id {
      assert tail[j] == db[j + 1];
    }
    KeepsAllOtherIds(tail, db[0].id);
    assert db[..0] + db[1..] == tail;
  }

  lemma DeleteByIdSkipsHead(db: Todos, id: int)
    requires db != [] && db[0].id != id
    ensures DeleteById(db, id) == [db[0]] + DeleteById(db[1..], id)
  {
  }

  lemma SplitAround(db: Todos, p: nat)
    requires 0 < p < |db|
    ensures [db[0]] + (db[1..][..p - 1] + db[1..][p..]) == db[..p] + db[p + 1..]
  {
    assert db[1..][..p - 1] == db[1..p];
    assert db[1..][p..] == db[p + 1..];
    assert db[..p] == [db[0]] + db[1..p];
  }

  lemma TailKeepsIdsUnique(db: Todos)
    requires UniqueIds(db) && db != []
    ensures UniqueIds(db[1..])
  {
    var tail := db[1..];
    forall i, j | 0 <= i < j < |tail| ensures tail[i].id != tail[j].id {
      assert tail[i] == db[i + 1] && tail[j] == db[j + 1];
    }
  }

  lemma ConsKeepsIdsUnique(x: Todo, rest: Todos)
    requires UniqueIds(rest)
    requires forall t :: t in rest ==> t.id != x.id
    ensures UniqueIds([x] + rest)
  {
    var r := [x] + rest;
    forall i, j | 0 <= i < j < |r| ensures r[i].id != r[j].id {
      assert r[j] == rest[j - 1];
      if i == 0 {
        assert rest[j - 1] in rest;
      } else {
        assert r[i] == rest[i - 1];
      }
    }
  }

  /** A store none of whose todos has `id` is left as it is. */
  lemma {:induction false} KeepsAllOtherIds(db: Todos, id: int)
    requires forall j :: 0 <= j < |db| ==> db[j].id != id
    ensures DeleteById(db, id) == db
  {
    if db != [] {
      assert forall j :: 0 <= j < |db[1..]| ==> db[1..][j] == db[j + 1];
      KeepsAllOtherIds(db[1..], id);
      assert db == [db[0]] + db[1..];
    }
  }
}
