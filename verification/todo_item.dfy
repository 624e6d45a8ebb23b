/**
 * The backend's `TodoItem` document: a task text, an optional due date, a completion flag, the
 * owning user, an AI priority and the two timestamps mongoose maintains. Identifiers (mongo
 * ObjectIds) and dates (milliseconds since the epoch) are integers.
 */
module TodoItemSchema {
  import opened Wrappers

  type Id = nat
  type UserId = nat

  datatype TodoItem = TodoItem(
    id: Id,
    task: string,
    date: Option<int>,
    completed: bool,
    user: UserId,
    aiPriority: Option<int>,
    createdAt: int,
    updatedAt: int)

  /** JavaScript truthiness of a nullable number: null and 0 are falsy. */
  predicate Truthy(n: Option<int>) {
    n.Some? && n.value != 0
  }

  /** `n || d` for a nullable number. */
  function OrElse(n: Option<int>, d: int): (r: int)
    ensures Truthy(n) ==> r == n.value
    ensures !Truthy(n) ==> r == d
  {
    if Truthy(n) then n.value else d
  }

  /** A score the schema accepts: `min: 1, max: 5`, with null as the default. */
  predicate ValidPriority(p: Option<int>) {
    p.None? || 1 <= p.value <= 5
  }

  /** The schema's field rules: `task` is a required (non-empty) string, `aiPriority` is in range. */
  predicate ValidItem(t: TodoItem) {
    |t.task| > 0 && ValidPriority(t.aiPriority)
  }

  /** No two documents share an `_id`. */
  predicate UniqueIds(store: seq<TodoItem>) {
    forall i, j :: 0 <= i < j < |store| ==> store[i].id != store[j].id
  }

  /** The collection: documents in their natural order, each valid, each `_id` unique. */
  predicate ValidStore(store: seq<TodoItem>) {
    && (forall i :: 0 <= i < |store| ==> ValidItem(store[i]))
    && UniqueIds(store)
  }

  predicate HasId(store: seq<TodoItem>, id: Id) {
    exists i :: 0 <= i < |store| && store[i].id == id
  }

  /** A fresh document: `completed` defaults to false, both timestamps are the creation time. */
  function NewItem(id: Id, task: string, date: Option<int>, user: UserId, aiPriority: Option<int>, now: int): (t: TodoItem)
    ensures !t.completed && t.createdAt == t.updatedAt == now
    ensures t.id == id && t.task == task && t.date == date && t.user == user && t.aiPriority == aiPriority
  {
    TodoItem(id, task, date, false, user, aiPriority, now, now)
  }
}
