/**
 * The demo's todo route `action`: classify the posted form as a delete or
 * a create, validate its fields, and perform at most one store operation.
 * A thrown `Response` with status 400 is the reply `BadRequest`.
 */
module TodoAction {
  import opened Wrappers
  import opened IntegerParsing
  import opened TodoStore

  /** A `FormData` entry: a string, or a file (an object, so truthy and not a string). */
  datatype Entry = Text(s: string) | File

  /** `formData.get(key)` returns the first entry under `key`, or null. */
  type Form = map<string, Entry>

  const DeleteIntent: string := "Delete"

  datatype Reply = BadRequest | Deleted | Created(id: int)   // 400 | { error: false } | the new id

  datatype Outcome = Outcome(reply: Reply, todos: Todos)

  /** `!v || typeof v !== 'string'` fails: the entry is there and is a non-empty string. */
  predicate NonEmptyText(form: Form, key: string) {
    key in form && form[key].Text? && form[key].s != ""
  }

  /** `typeof intent === 'string' && intent === 'Delete'`. */
  predicate IsDeleteIntent(form: Form) {
    "intent" in form && form["intent"] == Text(DeleteIntent)
  }

  function Action(form: Form, db: Todos): (r: Outcome)
    // a rejected request leaves the store alone
    ensures r.reply.BadRequest? ==> r.todos == db
    // the delete path
    ensures IsDeleteIntent(form) ==>
      (r.reply.BadRequest? <==> !NonEmptyText(form, "id") || ParseInt(form["id"].s).None?)
    ensures IsDeleteIntent(form) && !r.reply.BadRequest? ==>
      r == Outcome(Deleted, Delete(db, ParseInt(form["id"].s).value))
    // every other intent, or none, is the create path
    ensures !IsDeleteIntent(form) ==> (r.reply.BadRequest? <==> !NonEmptyText(form, "new_todo"))
    ensures !IsDeleteIntent(form) && !r.reply.BadRequest? ==>
      && r.reply == Created(|db|)
      && r.todos == db + [Todo(|db|, form["new_todo"].s)]
  {
    if "intent" in form && form["intent"].Text? && form["intent"].s == DeleteIntent then
      if !("id" in form) || form["id"] == Text("") || !form["id"].Text? then
        Outcome(BadRequest, db)
      else
        var idNumber := ParseInt(form["id"].s);
        if idNumber.None? then Outcome(BadRequest, db)
        else Outcome(Deleted, Delete(db, idNumber.value))
    else
      if !("new_todo" in form) || form["new_todo"] == Text("") || !form["new_todo"].Text? then
        Outcome(BadRequest, db)
      else
        var created := Create(db, form["new_todo"].s);
        Outcome(Created(created.id), created.todos)
  }

  /** Each call performs at most one store operation: nothing, one delete, or one create. */
  lemma AtMostOneStoreOperation(form: Form, db: Todos)
    ensures var r := Action(form, db);
      || (r.reply.BadRequest? && r.todos == db)
      || (r.reply.Deleted? && exists k :: r.todos == Delete(db, k))
      || (exists m :: r.reply == Created(Create(db, m).id) && r.todos == Create(db, m).todos)
  {
    var r := Action(form, db);
    if r.reply.Deleted? {
      var k := ParseInt(form["id"].s).value;
      assert r.todos == Delete(db, k);
    } else if r.reply.Created? {
      var m := form["new_todo"].s;
      assert r.todos == Create(db, m).todos;
    }
  }

  /** The form a todo's Delete button posts: the intent and the todo's id written as a string. */
  function DeleteForm(t: Todo): (form: Form)
    ensures IsDeleteIntent(form)
    ensures NonEmptyText(form, "id")
  {
    map["intent" := Text(DeleteIntent), "id" := Text(Decimal(t.id))]
  }

  /** The id in a Delete form reaches the store unchanged, as a splice start. */
  lemma DeleteFormDeletesAtId(t: Todo, db: Todos)
    ensures Action(DeleteForm(t), db) == Outcome(Deleted, Delete(db, t.id))
  {
    ParseIntOfDecimal(t.id, "");
    assert Decimal(t.id) + "" == Decimal(t.id);
  }

  /**
   * As written, the Delete button of a todo can miss it: after create "a",
   * create "b" and the Delete of "a", the store holds only "b" with id 1,
   * and posting b's Delete form leaves it in place.
   */
  lemma ShownIdDeleteMissesTodo()
    ensures var db := Delete(Create(Create([], "a").todos, "b").todos, 0);
      && db == [Todo(1, "b")]
      && Action(DeleteForm(db[0]), db) == Outcome(Deleted, db)
  {
    var db := Delete(Create(Create([], "a").todos, "b").todos, 0);
    DeleteFormDeletesAtId(db[0], db);
  }

  /**
   * The action with the store's evident intent: a Delete removes the todo
   * whose id was posted, and a create picks an id no todo has.
   */
  function IntendedAction(form: Form, db: Todos): (r: Outcome)
    ensures r.reply.BadRequest? ==> r.todos == db
    ensures IsDeleteIntent(form) ==>
      (r.reply.BadRequest? <==> !NonEmptyText(form, "id") || ParseInt(form["id"].s).None?)
    ensures IsDeleteIntent(form) && !r.reply.BadRequest? ==>
      forall t :: t in r.todos <==> t in db && t.id != ParseInt(form["id"].s).value
    ensures !IsDeleteIntent(form) ==> (r.reply.BadRequest? <==> !NonEmptyText(form, "new_todo"))
    ensures !IsDeleteIntent(form) && !r.reply.BadRequest? ==>
      && r.reply.Created?
      && (forall j :: 0 <= j < |db| ==> db[j].id != r.reply.id)
      && r.todos == db + [Todo(r.reply.id, form["new_todo"].s)]
  {
    if IsDeleteIntent(form) then
      if !NonEmptyText(form, "id") then Outcome(BadRequest, db)
      else
        var idNumber := ParseInt(form["id"].s);
        if idNumber.None? then Outcome(BadRequest, db)
        else Outcome(Deleted, DeleteById(db, idNumber.value))
    else
      if !NonEmptyText(form, "new_todo") then Outcome(BadRequest, db)
      else
        var created := CreateFresh(db, form["new_todo"].s);
        Outcome(Created(created.id), created.todos)
  }

  /** With the intended action, a todo's Delete button removes exactly that todo when ids are unique. */
  lemma IntendedDeleteRemovesShownTodo(db: Todos, p: nat)
    requires UniqueIds(db)
    requires p < |db|
    ensures IntendedAction(DeleteForm(db[p]), db) == Outcome(Deleted, db[..p] + db[p + 1..])
  {
    ParseIntOfDecimal(db[p].id, "");
    assert Decimal(db[p].id) + "" == Decimal(db[p].id);
    DeleteByIdRemovesThatTodo(db, p);
  }

  /** With the intended action, ids stay unique whatever is posted. */
  lemma IntendedActionKeepsIdsUnique(form: Form, db: Todos)
    requires UniqueIds(db)
    ensures UniqueIds(IntendedAction(form, db).todos)
  {
    var r := IntendedAction(form, db);
    if r.reply.Deleted? {
      DeleteByIdKeepsIdsUnique(db, ParseInt(form["id"].s).value);
    } else if r.reply.Created? {
      CreateFreshKeepsIdsUnique(db, form["new_todo"].s);
    }
  }

  lemma {:induction false} DeleteByIdKeepsIdsUnique(db: Todos, id: int)
    requires UniqueIds(db)
    ensures UniqueIds(DeleteById(db, id))
  {
    if db != [] {
      var tail := db[1..];
      TailKeepsIdsUnique(db);
      DeleteByIdKeepsIdsUnique(tail, id);
      var rest := DeleteById(tail, id);
      if db[0].id != id {
        forall t | t in rest ensures t.id != db[0].id {
          var j :| 0 <= j < |tail| && tail[j] == t;
          assert db[j + 1] == t;
        }
        ConsKeepsIdsUnique(db[0], rest);
      }
    }
  }
}
