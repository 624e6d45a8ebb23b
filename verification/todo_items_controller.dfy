/**
 * The backend's task endpoints as transitions of the collection. Every request is made by an
 * authenticated user; each operation returns the new collection and the HTTP response.
 * Failures of the database itself (connection loss, malformed ids) are not modelled.
 */
module TodoItemsController {
  import opened Wrappers
  import opened JsText
  import opened Seqs
  import opened TodoItemSchema
  import opened AiService

  datatype Body =
    | ItemBody(item: TodoItem)
    | ItemsBody(items: seq<TodoItem>)
    | SummaryBody(summary: string)
    | MessageBody(message: string)
    | ErrorBody(error: string)
    | NoContent

  datatype Response = Response(status: int, body: Body)

  datatype Outcome = Outcome(store: seq<TodoItem>, response: Response)

  function OwnedBy(user: UserId): TodoItem -> bool {
    (t: TodoItem) => t.user == user
  }

  // ---------------------------------------------------------------------------------------------
  // createTodoItem

  /**
   * `createTodoItem` with body fields `task` (None when absent) and `date`. The scorer is asked
   * first (an absent task is interpolated as "undefined"); then the document is validated and
   * saved under `newId`, the id mongoose assigns. A missing or empty task, or an id already in
   * use, fails the save and answers 500.
   */
  function Create(store: seq<TodoItem>, user: UserId, newId: Id, now: int,
                  task: Option<string>, date: Option<int>, score: Scorer): (o: Outcome)
    ensures o.response.status == 201 <==> task.Some? && |task.value| > 0 && !HasId(store, newId)
    ensures o.response.status == 201 ==>
      var t := NewItem(newId, task.value, date, user, Some(score(0, task.value, date)), now);
      o.store == store + [t] && o.response.body == ItemBody(t)
    ensures o.response.status != 201 ==> o == Outcome(store, Response(500, ErrorBody("Failed to create task")))
  {
    var priority := score(0, task.GetOr("undefined"), date);
    if task.Some? && |task.value| > 0 && !HasId(store, newId) then
      var t := NewItem(newId, task.value, date, user, Some(priority), now);
      Outcome(store + [t], Response(201, ItemBody(t)))
    else
      Outcome(store, Response(500, ErrorBody("Failed to create task")))
  }

  // ---------------------------------------------------------------------------------------------
  // getTodoItems

  /** `getTodoItems`: the requester's documents, in collection order. */
  function List(store: seq<TodoItem>, user: UserId): (r: Response)
    ensures r.status == 200 && r.body.ItemsBody?
    ensures forall t :: t in r.body.items <==> t in store && t.user == user
  {
    Response(200, ItemsBody(Filter(store, OwnedBy(user))))
  }

  // ---------------------------------------------------------------------------------------------
  // deleteTodoItem

  /** `deleteOne(filter)`: removes the first document matching `matches`, if any. */
  function RemoveFirst(store: seq<TodoItem>, matches: TodoItem -> bool): (r: seq<TodoItem>)
    ensures |r| == |store| || |r| == |store| - 1
    ensures multiset(r) <= multiset(store)
  {
    if |store| == 0 then []
    else if matches(store[0]) then
      assert store == [store[0]] + store[1..];
      store[1..]
    else
      var rest := RemoveFirst(store[1..], matches);
      assert store == [store[0]] + store[1..];
      [store[0]] + rest
  }

  function IsTarget(id: Id, user: UserId): TodoItem -> bool {
    (t: TodoItem) => t.id == id && t.user == user
  }

  /** `deleteTodoItem`: removes the document with that id if the requester owns it; always 204. */
  function Delete(store: seq<TodoItem>, user: UserId, id: Id): (o: Outcome)
    ensures o.response == Response(204, NoContent)
  {
    Outcome(RemoveFirst(store, IsTarget(id, user)), Response(204, NoContent))
  }

  // ---------------------------------------------------------------------------------------------
  // markCompleted

  /** The `completed` field of the request body: a boolean, or anything else (absent included). */
  datatype CompletedField = Flag(value: bool) | NotBoolean

  /** `findOne({_id: id, user})`: the position of the first document matching both. */
  function FindOwned(store: seq<TodoItem>, user: UserId, id: Id): (r: Option<nat>)
    ensures r.Some? ==> r.value < |store| && store[r.value].id == id && store[r.value].user == user
    ensures r.Some? ==> forall j :: 0 <= j < r.value ==> !(store[j].id == id && store[j].user == user)
    ensures r.None? ==> forall j :: 0 <= j < |store| ==> !(store[j].id == id && store[j].user == user)
  {
    if |store| == 0 then None
    else if store[0].id == id && store[0].user == user then Some(0)
    else
      match FindOwned(store[1..], user, id)
      case None => None
      case Some(k) => Some(k + 1)
  }

  /**
   * The saved document: the flag is set to a boolean `completed`, or negated otherwise; `save`
   * bumps `updatedAt` only when the flag actually changed.
   */
  function SetCompleted(t: TodoItem, completed: CompletedField, now: int): (r: TodoItem)
    ensures r.completed == (if completed.Flag? then completed.value else !t.completed)
    ensures r == t.(completed := r.completed, updatedAt := r.updatedAt)
    ensures r.updatedAt == (if r.completed == t.completed then t.updatedAt else now)
  {
    var flag := if completed.Flag? then completed.value else !t.completed;
    if flag == t.completed then t else t.(completed := flag, updatedAt := now)
  }

  /** `markCompleted`: 404 unless the requester owns the id; otherwise the flag rule, answered 200. */
  function MarkCompleted(store: seq<TodoItem>, user: UserId, id: Id, completed: CompletedField, now: int): (o: Outcome)
    ensures FindOwned(store, user, id).None? <==> o.response.status == 404
    ensures o.response.status == 404 ==> o == Outcome(store, Response(404, ErrorBody("Task not found")))
    ensures o.response.status != 404 ==>
      var i := FindOwned(store, user, id).value;
      && o.store == store[i := SetCompleted(store[i], completed, now)]
      && o.response == Response(200, ItemBody(o.store[i]))
  {
    match FindOwned(store, user, id)
    case None => Outcome(store, Response(404, ErrorBody("Task not found")))
    case Some(i) =>
      var t := SetCompleted(store[i], completed, now);
      Outcome(store[i := t], Response(200, ItemBody(t)))
  }

  // ---------------------------------------------------------------------------------------------
  // getDailySummary

  /** `getDailySummary`: the summary of the requester's documents, answered 200. */
  function GetDailySummary(store: seq<TodoItem>, user: UserId, render: int -> string, ask: LanguageModel): (r: Response)
    ensures r.status == 200 && r.body.SummaryBody?
  {
    Response(200, SummaryBody(DailySummary(Some(Filter(store, OwnedBy(user))), render, ask)))
  }

  /** Only the requester's documents matter: stores that agree on them get the same answer. */
  lemma SummaryIsOwnerScoped(store1: seq<TodoItem>, store2: seq<TodoItem>, user: UserId,
                             render: int -> string, ask: LanguageModel)
    requires Filter(store1, OwnedBy(user)) == Filter(store2, OwnedBy(user))
    ensures GetDailySummary(store1, user, render, ask) == GetDailySummary(store2, user, render, ask)
  {
  }

  /** Adding another user's documents never changes the requester's summary. */
  lemma {:induction false} OthersDoNotChangeSummary(store: seq<TodoItem>, others: seq<TodoItem>, user: UserId,
                                                    render: int -> string, ask: LanguageModel)
    requires forall j :: 0 <= j < |others| ==> others[j].user != user
    ensures GetDailySummary(store + others, user, render, ask) == GetDailySummary(store, user, render, ask)
  {
    FilterAppend(store, others, OwnedBy(user));
    FilterNone(others, OwnedBy(user));
    assert Filter(store, OwnedBy(user)) + [] == Filter(store, OwnedBy(user));
    SummaryIsOwnerScoped(store + others, store, user, render, ask);
  }

  /** A user without documents gets the fixed message, whatever the model would say. */
  lemma SummaryWithoutTasks(store: seq<TodoItem>, user: UserId, render: int -> string, ask: LanguageModel)
    requires forall j :: 0 <= j < |store| ==> store[j].user != user
    ensures GetDailySummary(store, user, render, ask).body.summary == NoTasksMessage
  {
    FilterNone(store, OwnedBy(user));
  }

  /** A user whose documents are all completed still gets the model's summary of an empty list. */
  lemma SummaryOfCompletedTasks(store: seq<TodoItem>, user: UserId, render: int -> string, ask: LanguageModel)
    requires exists j :: 0 <= j < |store| && store[j].user == user
    requires forall j :: 0 <= j < |store| && store[j].user == user ==> store[j].completed
    ensures GetDailySummary(store, user, render, ask).body.summary ==
      match ask(0, SummaryPrompt(""))
      case None => SummaryFallback
      case Some(reply) => Trim(reply)
  {
    var items := Filter(store, OwnedBy(user));
    var j :| 0 <= j < |store| && store[j].user == user;
    assert store[j] in items;
    forall k | 0 <= k < |items|
      ensures items[k].completed
    {
      assert items[k] in store;
    }
    AllCompletedStillAsks(items, render, ask);
  }

  // ---------------------------------------------------------------------------------------------
  // updatePriorities

  /** What the write-back loop reads from an entry of `updatedTasks`: `task._id` and `task.aiPriority`. */
  datatype Entry = Entry(id: Option<Id>, aiPriority: Option<int>)

  /** A mongoose document pushed as it is: its `_id` is readable. */
  function DocumentEntry(t: TodoItem): Entry {
    Entry(Some(t.id), t.aiPriority)
  }

  /**
   * `{...task, aiPriority}` on a mongoose document: the spread copies only the document's own
   * properties, while `_id` is a getter on the document's prototype, so the copy has no `_id`.
   */
  function SpreadEntry(t: TodoItem): Entry {
    Entry(None, t.aiPriority)
  }

  /** The loop writes an entry only when its `aiPriority` and `_id` are both truthy. */
  predicate Writes(e: Entry, id: Id) {
    Truthy(e.aiPriority) && e.id == Some(id)
  }

  /** `findByIdAndUpdate(id, {aiPriority: p})`: sets the score and bumps `updatedAt`. */
  function SetPriority(store: seq<TodoItem>, id: Id, p: int, now: int): (r: seq<TodoItem>)
    ensures |r| == |store|
    ensures forall i :: 0 <= i < |store| ==>
      r[i] == if store[i].id == id then store[i].(aiPriority := Some(p), updatedAt := now) else store[i]
  {
    seq(|store|, i requires 0 <= i < |store| =>
      if store[i].id == id then store[i].(aiPriority := Some(p), updatedAt := now) else store[i])
  }

  /** The write-back loop over `updatedTasks`, one update query per written entry, in order. */
  function WriteBack(store: seq<TodoItem>, entries: seq<Entry>, now: int): (r: seq<TodoItem>)
    ensures |r| == |store|
    decreases |entries|
  {
    if |entries| == 0 then store
    else
      var e := entries[0];
      var next := if Truthy(e.aiPriority) && e.id.Some? then SetPriority(store, e.id.value, e.aiPriority.value, now) else store;
      WriteBack(next, entries[1..], now)
  }

  /** The score the last write to `id` stores, if any entry writes it. */
  function LastWrite(entries: seq<Entry>, id: Id): Option<int> {
    if |entries| == 0 then None
    else
      var later := LastWrite(entries[1..], id);
      if later.Some? then later
      else if Writes(entries[0], id) then Some(entries[0].aiPriority.value)
      else None
  }

  /** The entries of `updatedTasks` as the source builds them: spread copies for new scores. */
  function EntriesAsWritten(items: seq<TodoItem>, updated: seq<TodoItem>): (r: seq<Entry>)
    requires |items| == |updated|
    ensures |r| == |items|
  {
    seq(|items|, k requires 0 <= k < |items| =>
      if Truthy(items[k].aiPriority) then DocumentEntry(updated[k]) else SpreadEntry(updated[k]))
  }

  /** The entries when every updated document keeps its `_id`. */
  function EntriesCorrected(updated: seq<TodoItem>): (r: seq<Entry>)
    ensures |r| == |updated|
  {
    seq(|updated|, k requires 0 <= k < |updated| => DocumentEntry(updated[k]))
  }

  const PrioritiesUpdated: string := "Priorities updated successfully"

  /** `updatePriorities` as the source is written. */
  function UpdatePrioritiesAsWritten(store: seq<TodoItem>, user: UserId, score: Scorer, now: int): (o: Outcome)
    ensures |o.store| == |store|
    ensures o.response == Response(200, MessageBody(PrioritiesUpdated))
  {
    var items := Filter(store, OwnedBy(user));
    var updated := BulkUpdate(items, score, 0);
    Outcome(WriteBack(store, EntriesAsWritten(items, updated), now), Response(200, MessageBody(PrioritiesUpdated)))
  }

  /** `updatePriorities` with every updated document's `_id` kept, so new scores are stored. */
  function UpdatePriorities(store: seq<TodoItem>, user: UserId, score: Scorer, now: int): (o: Outcome)
    ensures |o.store| == |store|
    ensures o.response == Response(200, MessageBody(PrioritiesUpdated))
  {
    var items := Filter(store, OwnedBy(user));
    var updated := BulkUpdate(items, score, 0);
    Outcome(WriteBack(store, EntriesCorrected(updated), now), Response(200, MessageBody(PrioritiesUpdated)))
  }

  // ---------------------------------------------------------------------------------------------
  // Properties of the store transitions

  /** Creating a document keeps the collection valid: the scorer's value is always in range. */
  lemma CreateKeepsStoreValid(store: seq<TodoItem>, user: UserId, newId: Id, now: int,
                              task: Option<string>, date: Option<int>, score: Scorer)
    requires ValidStore(store) && ScoresInRange(score)
    ensures ValidStore(Create(store, user, newId, now, task, date, score).store)
  {
    var o := Create(store, user, newId, now, task, date, score);
    if o.response.status == 201 {
      var t := o.store[|store|];
      forall i | 0 <= i < |store|
        ensures store[i].id != t.id
      {
        assert !(store[i].id == newId);
      }
    }
  }

  /** A created document is listed for its owner, after the owner's earlier documents. */
  lemma CreateThenList(store: seq<TodoItem>, user: UserId, newId: Id, now: int,
                       task: Option<string>, date: Option<int>, score: Scorer)
    ensures var o := Create(store, user, newId, now, task, date, score);
      o.response.status == 201 ==>
        List(o.store, user).body.items == List(store, user).body.items + [o.response.body.item]
  {
    var o := Create(store, user, newId, now, task, date, score);
    if o.response.status == 201 {
      FilterAppend(store, [o.response.body.item], OwnedBy(user));
    }
  }

  /** With unique ids, `deleteOne` removes exactly the documents that match. */
  lemma {:induction false} RemoveFirstIsFilter(store: seq<TodoItem>, id: Id, user: UserId)
    requires UniqueIds(store)
    ensures RemoveFirst(store, IsTarget(id, user)) == Filter(store, (t: TodoItem) => !IsTarget(id, user)(t))
    decreases |store|
  {
    var keep := (t: TodoItem) => !IsTarget(id, user)(t);
    if |store| > 0 {
      if IsTarget(id, user)(store[0]) {
        forall k | 0 <= k < |store[1..]|
          ensures keep(store[1..][k])
        {
          assert store[1..][k] == store[k + 1];
        }
        FilterKeepsAll(store[1..], keep);
      } else {
        RemoveFirstIsFilter(store[1..], id, user);
      }
    }
  }

  /**
   * `deleteTodoItem` removes the requester's document with that id and nothing else: every
   * other document stays, in order, and other users' lists are untouched.
   */
  lemma DeleteSpec(store: seq<TodoItem>, user: UserId, id: Id, other: UserId)
    requires UniqueIds(store)
    ensures var r := Delete(store, user, id).store;
      && (forall t :: t in r <==> t in store && !(t.id == id && t.user == user))
      && (other != user ==> List(r, other) == List(store, other))
  {
    var keep := (t: TodoItem) => !IsTarget(id, user)(t);
    RemoveFirstIsFilter(store, id, user);
    if other != user {
      FilterOfFilter(store, keep, OwnedBy(other));
    }
  }

  /** Filtering by a predicate implied by the second filter's predicate changes nothing. */
  lemma {:induction false} FilterOfFilter(s: seq<TodoItem>, p: TodoItem -> bool, q: TodoItem -> bool)
    requires forall t :: q(t) ==> p(t)
    ensures Filter(Filter(s, p), q) == Filter(s, q)
    decreases |s|
  {
    if |s| > 0 {
      FilterOfFilter(s[1..], p, q);
    }
  }

  /** Deleting what was just created gives the collection back. */
  lemma CreateThenDelete(store: seq<TodoItem>, user: UserId, newId: Id, now: int,
                         task: Option<string>, date: Option<int>, score: Scorer)
    requires UniqueIds(store)
    ensures var o := Create(store, user, newId, now, task, date, score);
      o.response.status == 201 ==> Delete(o.store, user, newId).store == store
  {
    var o := Create(store, user, newId, now, task, date, score);
    if o.response.status == 201 {
      var t := o.response.body.item;
      RemoveFirstAppend(store, t, IsTarget(newId, user));
    }
  }

  lemma {:induction false} RemoveFirstAppend(store: seq<TodoItem>, t: TodoItem, matches: TodoItem -> bool)
    requires forall i :: 0 <= i < |store| ==> !matches(store[i])
    requires matches(t)
    ensures RemoveFirst(store + [t], matches) == store
    decreases |store|
  {
    if |store| > 0 {
      assert (store + [t])[1..] == store[1..] + [t];
      RemoveFirstAppend(store[1..], t, matches);
    }
  }

  /** Deleting keeps the collection valid. */
  lemma DeleteKeepsStoreValid(store: seq<TodoItem>, user: UserId, id: Id)
    requires ValidStore(store)
    ensures ValidStore(Delete(store, user, id).store)
  {
    RemoveFirstIsFilter(store, id, user);
    FilterKeepsValid(store, (t: TodoItem) => !IsTarget(id, user)(t));
  }

  lemma {:induction false} FilterKeepsValid(store: seq<TodoItem>, p: TodoItem -> bool)
    requires ValidStore(store)
    ensures ValidStore(Filter(store, p))
    decreases |store|
  {
    if |store| > 0 {
      ValidTail(store);
      FilterKeepsValid(store[1..], p);
      var rest := Filter(store[1..], p);
      if p(store[0]) {
        forall k | 0 <= k < |rest|
          ensures rest[k].id != store[0].id
        {
          assert rest[k] in store[1..];
        }
        ValidCons(store[0], rest);
      }
    }
  }

  lemma ValidTail(store: seq<TodoItem>)
    requires ValidStore(store) && |store| > 0
    ensures ValidStore(store[1..])
    ensures forall k :: 0 <= k < |store| - 1 ==> store[1..][k].id != store[0].id
  {
  }

  lemma ValidCons(x: TodoItem, rest: seq<TodoItem>)
    requires ValidItem(x) && ValidStore(rest)
    requires forall k :: 0 <= k < |rest| ==> rest[k].id != x.id
    ensures ValidStore([x] + rest)
  {
    var s := [x] + rest;
    forall i, j | 0 <= i < j < |s|
      ensures s[i].id != s[j].id
    {
      if i > 0 {
        assert s[i] == rest[i - 1] && s[j] == rest[j - 1];
      }
    }
  }

  /** Setting the flag twice to the same boolean is the same as setting it once. */
  lemma MarkCompletedSetIdempotent(store: seq<TodoItem>, user: UserId, id: Id, b: bool, now1: int, now2: int)
    ensures var once := MarkCompleted(store, user, id, Flag(b), now1);
      MarkCompleted(once.store, user, id, Flag(b), now2) == once
  {
    var once := MarkCompleted(store, user, id, Flag(b), now1);
    if once.response.status != 404 {
      var i := FindOwned(store, user, id).value;
      FindOwnedAfterUpdate(store, user, id, i, once.store[i]);
    }
  }

  /** Updating the found document in place does not change what `findOne` finds. */
  lemma {:induction false} FindOwnedAfterUpdate(store: seq<TodoItem>, user: UserId, id: Id, i: nat, t: TodoItem)
    requires FindOwned(store, user, id) == Some(i)
    requires t.id == id && t.user == user
    ensures FindOwned(store[i := t], user, id) == Some(i)
    decreases i
  {
    if i > 0 {
      assert FindOwned(store[1..], user, id) == Some(i - 1);
      FindOwnedAfterUpdate(store[1..], user, id, i - 1, t);
      assert store[i := t][1..] == store[1..][i - 1 := t];
    }
  }

  /**
   * Toggling twice restores the flag: the document is as before except possibly its
   * `updatedAt`, and every other document is untouched.
   */
  lemma MarkCompletedToggleTwice(store: seq<TodoItem>, user: UserId, id: Id, now1: int, now2: int)
    ensures var once := MarkCompleted(store, user, id, NotBoolean, now1);
      var twice := MarkCompleted(once.store, user, id, NotBoolean, now2);
      && |twice.store| == |store|
      && forall j :: 0 <= j < |store| ==> twice.store[j] == store[j].(updatedAt := twice.store[j].updatedAt)
  {
    var once := MarkCompleted(store, user, id, NotBoolean, now1);
    if once.response.status != 404 {
      var i := FindOwned(store, user, id).value;
      FindOwnedAfterUpdate(store, user, id, i, once.store[i]);
    }
  }

  /** Marking keeps the collection valid: only the flag and `updatedAt` of one document change. */
  lemma MarkCompletedKeepsStoreValid(store: seq<TodoItem>, user: UserId, id: Id, completed: CompletedField, now: int)
    requires ValidStore(store)
    ensures ValidStore(MarkCompleted(store, user, id, completed, now).store)
  {
  }

  // ---------------------------------------------------------------------------------------------
  // Properties of the priority write-back

  /** After the loop, a document carries the score of the last entry written to its id, if any. */
  lemma {:induction false} WriteBackAt(store: seq<TodoItem>, entries: seq<Entry>, now: int, i: nat)
    requires i < |store|
    ensures WriteBack(store, entries, now)[i] ==
      match LastWrite(entries, store[i].id)
      case None => store[i]
      case Some(p) => store[i].(aiPriority := Some(p), updatedAt := now)
    decreases |entries|
  {
    if |entries| > 0 {
      var e := entries[0];
      var next := if Truthy(e.aiPriority) && e.id.Some? then SetPriority(store, e.id.value, e.aiPriority.value, now) else store;
      WriteBackAt(next, entries[1..], now, i);
      assert next[i] == if Writes(e, store[i].id) then store[i].(aiPriority := e.aiPriority, updatedAt := now) else store[i];
    }
  }

  /** Entry `k` is about `items[k]`: it has that document's `_id` or none at all. */
  predicate EntriesFor(items: seq<TodoItem>, entries: seq<Entry>) {
    |entries| == |items| && forall k :: 0 <= k < |items| ==> entries[k].id.None? || entries[k].id == Some(items[k].id)
  }

  lemma {:induction false} LastWriteOfOther(items: seq<TodoItem>, entries: seq<Entry>, id: Id)
    requires EntriesFor(items, entries)
    requires forall k :: 0 <= k < |items| ==> items[k].id != id
    ensures LastWrite(entries, id) == None
    decreases |items|
  {
    if |items| > 0 {
      LastWriteOfOther(items[1..], entries[1..], id);
    }
  }

  lemma {:induction false} LastWriteOfItem(items: seq<TodoItem>, entries: seq<Entry>, k: nat)
    requires UniqueIds(items) && EntriesFor(items, entries) && k < |items|
    ensures LastWrite(entries, items[k].id) ==
      if Writes(entries[k], items[k].id) then Some(entries[k].aiPriority.value) else None
    decreases k
  {
    var id := items[k].id;
    if k == 0 {
      LastWriteOfOther(items[1..], entries[1..], id);
    } else {
      LastWriteOfItem(items[1..], entries[1..], k - 1);
      assert items[0].id != id;
    }
  }

  /** The owned documents' ids are unique, and no other document shares one of them. */
  lemma OwnedIds(store: seq<TodoItem>, user: UserId, i: nat)
    requires ValidStore(store) && i < |store|
    ensures var items := Filter(store, OwnedBy(user));
      && UniqueIds(items)
      && (store[i].user == user ==> exists k :: 0 <= k < |items| && items[k] == store[i])
      && (store[i].user != user ==> forall k :: 0 <= k < |items| ==> items[k].id != store[i].id)
  {
    var items := Filter(store, OwnedBy(user));
    FilterKeepsValid(store, OwnedBy(user));
    if store[i].user == user {
      assert store[i] in items;
    } else {
      forall k | 0 <= k < |items|
        ensures items[k].id != store[i].id
      {
        assert items[k] in store;
        var j :| 0 <= j < |store| && store[j] == items[k];
        assert j != i;
      }
    }
  }

  /**
   * `updatePriorities` with the `_id` kept: each of the requester's documents ends with a score in
   * 1..5, an existing score is kept, only `aiPriority` and `updatedAt` change, and other users'
   * documents are untouched.
   */
  lemma UpdatePrioritiesSpec(store: seq<TodoItem>, user: UserId, score: Scorer, now: int, i: nat)
    requires ValidStore(store) && ScoresInRange(score) && i < |store|
    ensures var r := UpdatePriorities(store, user, score, now).store;
      && (store[i].user != user ==> r[i] == store[i])
      && (store[i].user == user ==>
            && r[i] == store[i].(aiPriority := r[i].aiPriority, updatedAt := now)
            && Truthy(r[i].aiPriority) && ValidPriority(r[i].aiPriority)
            && (Truthy(store[i].aiPriority) ==> r[i].aiPriority == store[i].aiPriority))
  {
    var items := Filter(store, OwnedBy(user));
    var updated := BulkUpdate(items, score, 0);
    var entries := EntriesCorrected(updated);
    OwnedIds(store, user, i);
    forall k | 0 <= k < |items|
      ensures updated[k].id == items[k].id && Truthy(updated[k].aiPriority)
      ensures ValidPriority(items[k].aiPriority) ==> ValidPriority(updated[k].aiPriority)
      ensures Truthy(items[k].aiPriority) ==> updated[k] == items[k]
    {
      BulkUpdateSpec(items, score, 0, k);
      BulkUpdateScoresAll(items, score, 0);
    }
    assert EntriesFor(items, entries);
    WriteBackAt(store, entries, now, i);
    if store[i].user == user {
      var k :| 0 <= k < |items| && items[k] == store[i];
      LastWriteOfItem(items, entries, k);
    } else {
      LastWriteOfOther(items, entries, store[i].id);
    }
  }

  /** Hence the corrected endpoint keeps the collection valid. */
  lemma UpdatePrioritiesKeepsStoreValid(store: seq<TodoItem>, user: UserId, score: Scorer, now: int)
    requires ValidStore(store) && ScoresInRange(score)
    ensures ValidStore(UpdatePriorities(store, user, score, now).store)
  {
    var r := UpdatePriorities(store, user, score, now).store;
    forall i | 0 <= i < |store|
      ensures r[i].id == store[i].id && ValidItem(r[i])
    {
      UpdatePrioritiesSpec(store, user, score, now, i);
    }
  }

  /**
   * `updatePriorities` as written: a document that had no score is left exactly as it was, and one
   * that had a score is rewritten with the same score, which only moves its `updatedAt`.
   */
  lemma UpdatePrioritiesAsWrittenSpec(store: seq<TodoItem>, user: UserId, score: Scorer, now: int, i: nat)
    requires ValidStore(store) && i < |store|
    ensures UpdatePrioritiesAsWritten(store, user, score, now).store[i] ==
      if store[i].user == user && Truthy(store[i].aiPriority) then store[i].(updatedAt := now) else store[i]
  {
    var items := Filter(store, OwnedBy(user));
    var updated := BulkUpdate(items, score, 0);
    var entries := EntriesAsWritten(items, updated);
    OwnedIds(store, user, i);
    AsWrittenEntries(items, score);
    WriteBackAt(store, entries, now, i);
    if store[i].user == user {
      var k :| 0 <= k < |items| && items[k] == store[i];
      LastWriteOfItem(items, entries, k);
    } else {
      LastWriteOfOther(items, entries, store[i].id);
    }
  }

  /** As written, only the entries of already scored documents write, and they write the old score. */
  lemma AsWrittenEntries(items: seq<TodoItem>, score: Scorer)
    ensures var entries := EntriesAsWritten(items, BulkUpdate(items, score, 0));
      && EntriesFor(items, entries)
      && forall k :: 0 <= k < |items| ==>
           && (Writes(entries[k], items[k].id) <==> Truthy(items[k].aiPriority))
           && (Truthy(items[k].aiPriority) ==> entries[k].aiPriority == items[k].aiPriority)
  {
    var updated := BulkUpdate(items, score, 0);
    forall k | 0 <= k < |items|
      ensures updated[k].id == items[k].id
      ensures Truthy(items[k].aiPriority) ==> updated[k] == items[k]
    {
      BulkUpdateSpec(items, score, 0, k);
    }
  }

  /**
   * The discrepancy on one document: a new task without a score is scored by the model, yet the
   * source as written leaves it unscored, while the corrected write-back stores the score.
   */
  lemma AsWrittenLosesNewScores(score: Scorer, now: int)
    requires ScoresInRange(score)
    ensures var store := [NewItem(1, "Pay rent", None, 7, None, 0)];
      && UpdatePrioritiesAsWritten(store, 7, score, now).store == store
      && UpdatePriorities(store, 7, score, now).store[0].aiPriority == Some(score(0, "Pay rent", None))
  {
    var store := [NewItem(1, "Pay rent", None, 7, None, 0)];
    assert ValidStore(store);
    UpdatePrioritiesAsWrittenSpec(store, 7, score, now, 0);
    assert Filter(store, OwnedBy(7)) == store;
    BulkUpdateSpec(store, score, 0, 0);
    assert store[..0] == [];
    UpdatePrioritiesSpec(store, 7, score, now, 0);
    var entries := EntriesCorrected(BulkUpdate(store, score, 0));
    WriteBackAt(store, entries, now, 0);
    LastWriteOfItem(store, entries, 0);
  }
}
