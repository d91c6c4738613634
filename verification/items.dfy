/** The to-do routes: list, get, create, update and delete over the `todos`
    table. Each handler is a pure function from the table and the request to
    the new table and the response. The table is a map from primary key to
    row, plus the auto-increment counter that picks the next key. */
module Items {
  import opened Js

  /** One row of `todos`; `description` is a nullable TEXT column. */
  datatype Todo = Todo(title: string, description: Option<string>, status: string)

  /** A row as it appears in a response: the key together with the columns. */
  datatype Row = Row(id: nat, todo: Todo)

  /** The `todos` table and its AUTO_INCREMENT counter. */
  datatype Store = Store(todos: map<nat, Todo>, nextId: nat)

  /** The fields `title`, `description` and `status` destructured from `req.body`. */
  datatype TodoFields = TodoFields(title: JsValue, description: JsValue, status: JsValue)

  /** The JSON bodies the routes send. */
  datatype Body =
    | Message(message: string)
    | One(row: Row)
    | Many(rows: seq<Row>)
    | WithTodo(message: string, todo: Row)
    | WithId(message: string, id: nat)

  const PendingStatus: string := "pending"

  const NotFound: Response<Body> := Response(404, Message("Todo not found"))
  const TitleRequired: Response<Body> := Response(400, Message("Title is required"))

  /** An empty table whose counter starts at 1, as AUTO_INCREMENT does. */
  function Empty(): (s: Store)
    ensures Valid(s) && s.todos == map[]
  {
    Store(map[], 1)
  }

  /** The table invariant: every key was handed out by the counter, and every
      row has a non-empty title and status (both are only ever written from
      a truthy value or kept from the previous row). */
  ghost predicate Valid(s: Store)
  {
    && s.nextId >= 1
    && forall id :: id in s.todos ==>
         && 1 <= id < s.nextId
         && s.todos[id].title != ""
         && s.todos[id].status != ""
  }

  /** The rows whose key is below `n`, in ascending key order: the result of
      a primary-key scan of the table. */
  function RowsBelow(todos: map<nat, Todo>, n: nat): (rows: seq<Row>)
    ensures forall i :: 0 <= i < |rows| ==>
              rows[i].id < n && rows[i].id in todos && todos[rows[i].id] == rows[i].todo
    ensures forall i, j :: 0 <= i < j < |rows| ==> rows[i].id < rows[j].id
    ensures forall id :: id in todos && id < n ==> Row(id, todos[id]) in rows
    decreases n
  {
    if n == 0 then []
    else
      var below := RowsBelow(todos, n - 1);
      if n - 1 in todos then below + [Row(n - 1, todos[n - 1])] else below
  }

  /** GET / — `SELECT * FROM todos`, sent as a JSON array. */
  function List(s: Store): (r: Response<Body>)
    ensures r.status == 200 && r.body.Many?
    ensures Valid(s) ==>
              forall row :: row in r.body.rows <==> row.id in s.todos && s.todos[row.id] == row.todo
    ensures forall i, j :: 0 <= i < j < |r.body.rows| ==> r.body.rows[i].id < r.body.rows[j].id
  {
    Response(200, Many(RowsBelow(s.todos, s.nextId)))
  }

  /** GET /:id */
  function Get(s: Store, id: nat): (r: Response<Body>)
    ensures r.status == 200 <==> id in s.todos
    ensures id !in s.todos ==> r == NotFound
    ensures id in s.todos ==> r.body.One? && r.body.row.id == id && r.body.row.todo == s.todos[id]
  {
    if id !in s.todos then NotFound
    else Response(200, One(Row(id, s.todos[id])))
  }

  /** The row POST / inserts: `status || 'pending'`, and an absent or null
      description stored as NULL. */
  function NewTodo(req: TodoFields): Todo
    requires Truthy(req.title)
  {
    Todo(req.title.s, AsColumn(req.description), OrElse(req.status, PendingStatus))
  }

  /** POST / */
  function Create(s: Store, req: TodoFields): (r: (Store, Response<Body>))
    ensures !Truthy(req.title) ==> r == (s, TitleRequired)
    ensures Truthy(req.title) ==>
              var id := s.nextId;
              && r.0.nextId == id + 1
              && r.0.todos.Keys == s.todos.Keys + {id}
              && (forall k :: k in s.todos && k != id ==> r.0.todos[k] == s.todos[k])
              && r.0.todos[id].title == req.title.s
              && r.0.todos[id].description == (if req.description.Str? then Some(req.description.s) else None)
              && r.0.todos[id].status == (if Truthy(req.status) then req.status.s else PendingStatus)
              && r.1 == Response(201, WithTodo("Todo created successfully", Row(id, r.0.todos[id])))
    ensures Valid(s) && Truthy(req.title) ==> s.nextId !in s.todos && |r.0.todos| == |s.todos| + 1
    ensures Valid(s) ==> Valid(r.0)
  {
    if !Truthy(req.title) then (s, TitleRequired)
    else
      var id := s.nextId;
      var row := NewTodo(req);
      (Store(s.todos[id := row], id + 1), Response(201, WithTodo("Todo created successfully", Row(id, row))))
  }

  /** The row PUT /:id writes back: `title || prev.title`,
      `description !== undefined ? description : prev.description`,
      `status || prev.status`. */
  function Merge(prev: Todo, req: TodoFields): Todo
  {
    Todo(
      OrElse(req.title, prev.title),
      if req.description == Undefined then prev.description else AsColumn(req.description),
      OrElse(req.status, prev.status))
  }

  /** PUT /:id */
  function Update(s: Store, id: nat, req: TodoFields): (r: (Store, Response<Body>))
    ensures id !in s.todos ==> r == (s, NotFound)
    ensures id in s.todos ==>
              var prev := s.todos[id];
              && r.0.nextId == s.nextId
              && r.0.todos.Keys == s.todos.Keys
              && (forall k :: k in s.todos && k != id ==> r.0.todos[k] == s.todos[k])
              && r.0.todos[id].title == (if Truthy(req.title) then req.title.s else prev.title)
              && (req.description.Undefined? ==> r.0.todos[id].description == prev.description)
              && (req.description.Null? ==> r.0.todos[id].description == None)
              && (req.description.Str? ==> r.0.todos[id].description == Some(req.description.s))
              && r.0.todos[id].status == (if Truthy(req.status) then req.status.s else prev.status)
              && r.1 == Response(200, WithTodo("Todo updated successfully", Row(id, r.0.todos[id])))
    ensures Valid(s) ==> Valid(r.0)
  {
    if id !in s.todos then (s, NotFound)
    else
      var row := Merge(s.todos[id], req);
      (s.(todos := s.todos[id := row]), Response(200, WithTodo("Todo updated successfully", Row(id, row))))
  }

  /** DELETE /:id — the response echoes the id. */
  function Delete(s: Store, id: nat): (r: (Store, Response<Body>))
    ensures id !in s.todos ==> r == (s, NotFound)
    ensures id in s.todos ==>
              && r.0.nextId == s.nextId
              && r.0.todos.Keys == s.todos.Keys - {id}
              && (forall k :: k in r.0.todos ==> r.0.todos[k] == s.todos[k])
              && r.1 == Response(200, WithId("Todo deleted successfully", id))
    ensures Valid(s) ==> Valid(r.0)
  {
    if id !in s.todos then (s, NotFound)
    else (s.(todos := s.todos - {id}), Response(200, WithId("Todo deleted successfully", id)))
  }

  /** The five routes of the router. */
  datatype Request =
    | ListAll
    | GetOne(id: nat)
    | CreateOne(fields: TodoFields)
    | UpdateOne(id: nat, fields: TodoFields)
    | DeleteOne(id: nat)

  function Handle(s: Store, req: Request): (r: (Store, Response<Body>))
  {
    match req
    case ListAll => (s, List(s))
    case GetOne(id) => (s, Get(s, id))
    case CreateOne(fields) => Create(s, fields)
    case UpdateOne(id, fields) => Update(s, id, fields)
    case DeleteOne(id) => Delete(s, id)
  }

  /** The table after serving `reqs` one after another. */
  function Run(s: Store, reqs: seq<Request>): Store
    decreases |reqs|
  {
    if reqs == [] then s else Run(Handle(s, reqs[0]).0, reqs[1..])
  }

  /** Every route keeps the invariant and never moves the counter backwards,
      so no key is ever handed out twice. */
  lemma {:induction false} RunPreservesValid(s: Store, reqs: seq<Request>)
    requires Valid(s)
    ensures Valid(Run(s, reqs))
    ensures Run(s, reqs).nextId >= s.nextId
    ensures forall id :: id in Run(s, reqs).todos ==> id in s.todos || id >= s.nextId
    decreases |reqs|
  {
    if reqs != [] {
      var next := Handle(s, reqs[0]).0;
      assert Valid(next) && next.nextId >= s.nextId;
      assert forall id :: id in next.todos ==> id in s.todos || id == s.nextId;
      RunPreservesValid(next, reqs[1..]);
    }
  }

  /** Creating a todo and fetching it back returns the title, description
      and status that were sent (with `'pending'` for a missing status). */
  lemma CreateThenGet(s: Store, req: TodoFields)
    requires Truthy(req.title)
    ensures var (s', created) := Create(s, req);
            var got := Get(s', s.nextId);
            && created.status == 201
            && got.status == 200
            && got.body.row == created.body.todo
            && got.body.row.todo.title == req.title.s
            && got.body.row.todo.description == AsColumn(req.description)
            && got.body.row.todo.status == OrElse(req.status, PendingStatus)
  {
  }

  /** An update whose body carries none of the three fields leaves the row
      exactly as it was. */
  lemma UpdateEmptyIsIdempotent(s: Store, id: nat)
    requires id in s.todos
    ensures Update(s, id, TodoFields(Undefined, Undefined, Undefined)).0 == s
  {
  }

  /** After a delete the id is gone and GET reports 404. */
  lemma DeleteThenGet(s: Store, id: nat)
    requires id in s.todos
    ensures Delete(s, id).0.todos.Keys == s.todos.Keys - {id}
    ensures Get(Delete(s, id).0, id) == NotFound
  {
  }
}
