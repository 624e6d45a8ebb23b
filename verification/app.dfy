/**
 * The frontend's top-level task screen: the handlers that change the task list after a call to
 * the items service, the classification of errors that end the session, and the display order.
 */
module App {
  import opened Wrappers
  import opened JsText
  import opened StableSort
  import opened ItemsService

  /** The screen's state: the task list, the error shown (null when none), and the session. */
  datatype AppState = AppState(items: seq<LocalItem>, error: Option<string>, loggedIn: bool)

  /** An error whose message mentions 401 or Unauthorized ends the session. */
  predicate IsAuthError(message: string) {
    Contains(message, "401") || Contains(message, "Unauthorized")
  }

  /** The catch blocks: log out on an authentication error, otherwise show `shown`. */
  function OnFailure(s: AppState, message: string, shown: string): (r: AppState)
    ensures r.items == s.items
    ensures IsAuthError(message) ==> r == s.(loggedIn := false)
    ensures !IsAuthError(message) ==> r == s.(error := Some(shown))
  {
    if IsAuthError(message) then s.(loggedIn := false) else s.(error := Some(shown))
  }

  lemma NatToString401()
    ensures NatToString(401) == "401"
  {
    assert NatToString(4) == "4";
    assert NatToString(40) == NatToString(4) + [DigitChar(0)];
    assert NatToString(401) == NatToString(40) + [DigitChar(1)];
  }

  /** Every error the items service raises for a 401 response is an authentication error. */
  lemma Http401IsAuthError(body: ErrorBody, fallback: string)
    ensures IsAuthError(HttpError(401, body, fallback))
  {
    NatToString401();
    var m := HttpError(401, body, fallback);
    assert m[5..8] == "401";
    ContainsAt(m, "401", 5);
  }

  /** `fetchItems`: without a token only loading ends; otherwise the list is what the service gives. */
  function FetchItems(s: AppState, token: Option<string>, send: (Request, string) -> Exchange<ListBody>): (r: AppState)
    ensures !Present(token) ==> r == s
    ensures Present(token) ==> r == s.(items := GetItems(token, send), error := None)
  {
    if !Present(token) then s
    else s.(items := GetItems(token, send), error := None)
  }

  /**
   * Because the service turns every failure into an empty list, loading never ends the session:
   * a 401 while loading shows an empty list instead of logging out.
   */
  lemma FetchItemsNeverLogsOut(s: AppState, token: Option<string>, send: (Request, string) -> Exchange<ListBody>)
    ensures FetchItems(s, token, send).loggedIn == s.loggedIn
    ensures Present(token) && send(ListRequest, AuthHeader(token.value)).Failed? ==> FetchItems(s, token, send).items == []
  {
  }

  /** `getItemsFromServer` as the load handler expects it: failures are thrown, not swallowed. */
  function GetItemsOrError(token: Option<string>, send: (Request, string) -> Exchange<ListBody>): (r: Result<seq<LocalItem>, string>)
    ensures !Present(token) ==> r == Err(NoTokenMessage)
    ensures Present(token) && send(ListRequest, AuthHeader(token.value)).Failed? ==>
      var x := send(ListRequest, AuthHeader(token.value));
      r == Err(HttpError(x.status, x.errorBody, "Failed to fetch items"))
    ensures Present(token) ==> var x := send(ListRequest, AuthHeader(token.value));
      && (r.Ok? <==> x.Succeeded? && (x.body.NotArray? || forall k :: 0 <= k < |x.body.items| ==> x.body.items[k].Some?))
      && (x.Thrown? ==> r == Err(x.message))
      && (x.Succeeded? && x.body.ArrayBody? && (exists k :: 0 <= k < |x.body.items| && x.body.items[k].None?) ==>
            r == Err(NullItemMessage))
    ensures r.Ok? ==> r.value == GetItems(token, send)
  {
    if !Present(token) then Err(NoTokenMessage)
    else
      match send(ListRequest, AuthHeader(token.value))
      case Thrown(m) => Err(m)
      case Failed(status, body) => Err(HttpError(status, body, "Failed to fetch items"))
      case Succeeded(NotArray) => Ok([])
      case Succeeded(ArrayBody(xs)) =>
        match MapAll(xs)
        case None => Err(NullItemMessage)
        case Some(items) => Ok(items)
  }

  /** `fetchItems` with the service's failures reaching its catch block. */
  function FetchItemsCorrected(s: AppState, token: Option<string>, send: (Request, string) -> Exchange<ListBody>): (r: AppState)
    ensures !Present(token) ==> r == s
    ensures Present(token) && GetItemsOrError(token, send).Ok? ==>
      r == s.(items := GetItemsOrError(token, send).value, error := None)
    ensures Present(token) && GetItemsOrError(token, send).Err? ==>
      r == OnFailure(s.(error := None), GetItemsOrError(token, send).error, "Failed to load tasks. Please try refreshing the page.")
    ensures r.items == s.items || (Present(token) && r.items == GetItems(token, send))
  {
    if !Present(token) then s
    else
      match GetItemsOrError(token, send)
      case Ok(items) => s.(items := items, error := None)
      case Err(m) => OnFailure(s.(error := None), m, "Failed to load tasks. Please try refreshing the page.")
  }

  /** With failures thrown, a 401 while loading ends the session, as the catch block intends. */
  lemma FetchItemsCorrectedLogsOutOn401(s: AppState, token: string, send: (Request, string) -> Exchange<ListBody>)
    requires |token| > 0
    requires send(ListRequest, AuthHeader(token)).Failed? && send(ListRequest, AuthHeader(token)).status == 401
    ensures !FetchItemsCorrected(s, Some(token), send).loggedIn
    ensures !FetchItems(s, Some(token), send).loggedIn <==> !s.loggedIn
  {
    Http401IsAuthError(send(ListRequest, AuthHeader(token)).errorBody, "Failed to fetch items");
  }

  // ---------------------------------------------------------------------------------------------
  // List updates

  /** `handleNewItem(name, dueDate)`: the created item is appended; nothing else moves. */
  function HandleNewItem(s: AppState, token: Option<string>, name: string, dueDate: string,
                         send: (Request, string) -> Exchange<Option<ServerItem>>): (r: AppState)
    ensures !Present(token) ==> r == s.(error := Some("Please log in to add tasks."))
    ensures Present(token) && AddItem(name, dueDate, token, send).Ok? ==>
      r == s.(items := s.items + [AddItem(name, dueDate, token, send).value], error := None)
    ensures Present(token) && AddItem(name, dueDate, token, send).Err? ==> r.items == s.items
  {
    if !Present(token) then s.(error := Some("Please log in to add tasks."))
    else
      match AddItem(name, dueDate, token, send)
      case Ok(item) => s.(items := s.items + [item], error := None)
      case Err(m) => OnFailure(s.(error := None), m, "Failed to add task. Please try again.")
  }

  function WithoutId(items: seq<LocalItem>, id: string): (r: seq<LocalItem>)
    ensures forall x :: x in r <==> x in items && x.id != Some(id)
  {
    if |items| == 0 then []
    else
      assert items == [items[0]] + items[1..];
      (if items[0].id != Some(id) then [items[0]] else []) + WithoutId(items[1..], id)
  }

  /**
   * `handleDeleteItem(id)`: without a token or with a falsy id only the error changes; after a
   * successful delete every item with that id is gone and the rest keep their order.
   */
  function HandleDeleteItem(s: AppState, token: Option<string>, id: Option<string>,
                            send: (Request, string) -> Exchange<()>): (r: AppState)
    ensures !Present(token) ==> r == s.(error := Some("Please log in to delete tasks."))
    ensures Present(token) && !Present(id) ==> r == s.(error := Some("Invalid task ID."))
    ensures Present(token) && Present(id) && DeleteItem(id, token, send).Ok? ==>
      r == s.(items := WithoutId(s.items, id.value), error := None)
    ensures DeleteItem(id, token, send).Err? ==> r.items == s.items
  {
    if !Present(token) then s.(error := Some("Please log in to delete tasks."))
    else if !Present(id) then s.(error := Some("Invalid task ID."))
    else
      match DeleteItem(id, token, send)
      case Ok(_) => s.(items := WithoutId(s.items, id.value), error := None)
      case Err(m) => OnFailure(s.(error := None), m, "Failed to delete task. Please try again.")
  }

  /** Removing by id keeps the other items in their order: it is the items minus those with that id. */
  lemma {:induction false} WithoutIdKeepsOrder(a: seq<LocalItem>, b: seq<LocalItem>, id: string)
    ensures WithoutId(a + b, id) == WithoutId(a, id) + WithoutId(b, id)
    decreases |a|
  {
    if |a| == 0 {
      assert a + b == b;
    } else {
      assert (a + b)[1..] == a[1..] + b;
      WithoutIdKeepsOrder(a[1..], b, id);
    }
  }

  /** `todoItems.find(item => item.id === id)`. */
  function FindById(items: seq<LocalItem>, id: string): (r: Option<LocalItem>)
    ensures r.Some? ==> r.value in items && r.value.id == Some(id)
    ensures r.Some? ==> exists k :: 0 <= k < |items| && items[k] == r.value && forall j :: 0 <= j < k ==> items[j].id != Some(id)
    ensures r.None? ==> forall k :: 0 <= k < |items| ==> items[k].id != Some(id)
  {
    if |items| == 0 then None
    else if items[0].id == Some(id) then Some(items[0])
    else FindById(items[1..], id)
  }

  /** `todoItems.map(item => item.id === id ? updated : item)`. */
  function ReplaceById(items: seq<LocalItem>, id: string, updated: LocalItem): (r: seq<LocalItem>)
    ensures |r| == |items|
    ensures forall k :: 0 <= k < |items| ==> r[k] == if items[k].id == Some(id) then updated else items[k]
  {
    seq(|items|, k requires 0 <= k < |items| => if items[k].id == Some(id) then updated else items[k])
  }

  /**
   * `handleToggleComplete(id)`: an unknown id shows "Task not found." and changes nothing else;
   * otherwise the server is asked for the negated flag and its answer replaces the item.
   */
  function HandleToggleComplete(s: AppState, token: Option<string>, id: Option<string>,
                                send: (Request, string) -> Exchange<Option<ServerItem>>): (r: AppState)
    ensures !Present(token) ==> r == s.(error := Some("Please log in to update tasks."))
    ensures Present(token) && !Present(id) ==> r == s.(error := Some("Invalid task ID."))
    ensures Present(token) && Present(id) && FindById(s.items, id.value).None? ==>
      r == s.(error := Some("Task not found."))
    ensures r.items != s.items ==>
      && Present(token) && Present(id) && FindById(s.items, id.value).Some?
      && var m := MarkItem(id, token, !FindById(s.items, id.value).value.completed, send);
         m.Ok? && r.items == ReplaceById(s.items, id.value, m.value)
    ensures Present(token) && Present(id) && FindById(s.items, id.value).Some? ==>
      var m := MarkItem(id, token, !FindById(s.items, id.value).value.completed, send);
      && (m.Ok? ==> r == s.(items := ReplaceById(s.items, id.value, m.value), error := None))
      && (m.Err? ==> r == OnFailure(s.(error := None), m.error, "Failed to update task. Please try again."))
  {
    if !Present(token) then s.(error := Some("Please log in to update tasks."))
    else if !Present(id) then s.(error := Some("Invalid task ID."))
    else
      match FindById(s.items, id.value)
      case None => s.(error := Some("Task not found."))
      case Some(item) =>
        match MarkItem(id, token, !item.completed, send)
        case Ok(updated) => s.(items := ReplaceById(s.items, id.value, updated), error := None)
        case Err(m) => OnFailure(s.(error := None), m, "Failed to update task. Please try again.")
  }

  /**
   * When the server stores the requested flag and echoes the item back, a toggle flips exactly
   * that item's `completed` flag (and every entry sharing its id) and clears the error.
   */
  lemma ToggleFlipsFlag(s: AppState, token: string, id: string, send: (Request, string) -> Exchange<Option<ServerItem>>)
    requires |token| > 0 && |id| > 0
    requires FindById(s.items, id).Some?
    requires var item := FindById(s.items, id).value;
      send(MarkRequest(id, !item.completed), AuthHeader(token)) == Succeeded(Some(ToServerItem(item.(completed := !item.completed))))
    ensures var item := FindById(s.items, id).value;
      var r := HandleToggleComplete(s, Some(token), Some(id), send);
      && r == s.(items := ReplaceById(s.items, id, item.(completed := !item.completed)), error := None)
      && forall k :: 0 <= k < |r.items| && s.items[k].id == Some(id) ==> r.items[k].completed != item.completed
  {
    var item := FindById(s.items, id).value;
    MapServerItemRoundTrip(item.(completed := !item.completed));
  }

  /** A 401 answer to an add ends the session and leaves the list as it was. */
  lemma AddLogsOutOn401(s: AppState, token: string, name: string, dueDate: string, body: ErrorBody,
                        send: (Request, string) -> Exchange<Option<ServerItem>>)
    requires |token| > 0
    requires send(AddRequest(name, dueDate), AuthHeader(token)) == Failed(401, body)
    ensures HandleNewItem(s, Some(token), name, dueDate, send) == s.(error := None, loggedIn := false)
  {
    Http401IsAuthError(body, "Failed to add item");
  }

  /** A 401 answer to a delete ends the session and leaves the list as it was. */
  lemma DeleteLogsOutOn401(s: AppState, token: string, id: string, body: ErrorBody,
                           send: (Request, string) -> Exchange<()>)
    requires |token| > 0 && |id| > 0
    requires send(DeleteRequest(id), AuthHeader(token)) == Failed(401, body)
    ensures HandleDeleteItem(s, Some(token), Some(id), send) == s.(error := None, loggedIn := false)
  {
    Http401IsAuthError(body, "Failed to delete item");
  }

  /** A 401 answer to a toggle ends the session and leaves the list as it was. */
  lemma ToggleLogsOutOn401(s: AppState, token: string, id: string, body: ErrorBody,
                           send: (Request, string) -> Exchange<Option<ServerItem>>)
    requires |token| > 0 && |id| > 0
    requires FindById(s.items, id).Some?
    requires send(MarkRequest(id, !FindById(s.items, id).value.completed), AuthHeader(token)) == Failed(401, body)
    ensures HandleToggleComplete(s, Some(token), Some(id), send) == s.(error := None, loggedIn := false)
  {
    Http401IsAuthError(body, "Failed to update item");
  }

  // ---------------------------------------------------------------------------------------------
  // sortedItems

  /**
   * The display comparator as "a sorts before b": incomplete before completed, then higher
   * `aiPriority || 0` first (the mapping already turned null into 0, so this is `aiPriority`),
   * then newer `createdAt` first.
   */
  function AppBefore(): (LocalItem, LocalItem) -> bool {
    (a: LocalItem, b: LocalItem) =>
      if a.completed != b.completed then !a.completed
      else if a.aiPriority != b.aiPriority then a.aiPriority > b.aiPriority
      else a.createdAt > b.createdAt
  }

  lemma AppBeforeIsStrictWeakOrder()
    ensures StrictWeakOrder(AppBefore())
  {
  }

  /** `[...todoItems].sort(compare)`: a sorted copy; the state's own list keeps its order. */
  function SortedItems(items: seq<LocalItem>): (r: seq<LocalItem>)
    ensures multiset(r) == multiset(items)
    ensures forall i, j :: 0 <= i < j < |r| ==> !AppBefore()(r[j], r[i])
  {
    AppBeforeIsStrictWeakOrder();
    Sort(items, AppBefore())
  }

  /**
   * The display order item by item: a permutation in which incomplete items come first, then
   * higher priority, then newer creation time.
   */
  lemma SortedItemsOrder(items: seq<LocalItem>)
    ensures var r := SortedItems(items);
      && |r| == |items|
      && (forall i, j :: 0 <= i < j < |r| ==> !(r[i].completed && !r[j].completed))
      && (forall i, j :: 0 <= i < j < |r| && r[i].completed == r[j].completed ==> r[i].aiPriority >= r[j].aiPriority)
      && (forall i, j :: 0 <= i < j < |r| && r[i].completed == r[j].completed && r[i].aiPriority == r[j].aiPriority ==>
            r[i].createdAt >= r[j].createdAt)
  {
    var r := SortedItems(items);
    assert |multiset(r)| == |multiset(items)|;
  }
}
