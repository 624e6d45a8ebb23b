/**
 * The frontend's items service: the four calls to the task API and the mapping of a server
 * document to the record the UI works with. The HTTP exchange is an oracle from the request
 * (and the Authorization header sent with it) to what came back.
 */
module ItemsService {
  import opened Wrappers
  import opened JsText
  import AuthMiddleware

  /** A document as the API sends it; `completed` and `aiPriority` may be null or missing. */
  datatype ServerItem = ServerItem(
    _id: Option<string>,
    task: string,
    date: Option<int>,
    completed: Option<bool>,
    createdAt: int,
    updatedAt: int,
    aiPriority: Option<int>)

  /** The record the UI keeps. */
  datatype LocalItem = LocalItem(
    id: Option<string>,
    name: string,
    dueDate: Option<int>,
    completed: bool,
    createdAt: int,
    updatedAt: int,
    aiPriority: int)

  const NullItemMessage: string := "Server item is null or undefined"
  const NoTokenMessage: string := "No authentication token available"
  const NoIdMessage: string := "Item ID is required"

  /**
   * `mapServerItemToLocalItem`: throws on null or undefined; renames the fields, turns a falsy
   * `completed` into false and a null or missing `aiPriority` into 0.
   */
  function MapServerItem(item: Option<ServerItem>): (r: Result<LocalItem, string>)
    ensures item.None? <==> r == Err(NullItemMessage)
    ensures item.Some? ==> r.Ok?
  {
    match item
    case None => Err(NullItemMessage)
    case Some(s) =>
      Ok(LocalItem(s._id, s.task, s.date, s.completed == Some(true), s.createdAt, s.updatedAt, s.aiPriority.GetOr(0)))
  }

  /** The document the server would send for a local record, with every field present. */
  function ToServerItem(l: LocalItem): ServerItem {
    ServerItem(l.id, l.name, l.dueDate, Some(l.completed), l.createdAt, l.updatedAt, Some(l.aiPriority))
  }

  /** Mapping inverts `ToServerItem`: nothing of a local record is lost on the way. */
  lemma MapServerItemRoundTrip(l: LocalItem)
    ensures MapServerItem(Some(ToServerItem(l))) == Ok(l)
  {
  }

  /**
   * A mapped item is the image of a document that differs from the original only by filling a
   * missing `completed` with false and a missing `aiPriority` with 0; a priority of 0 is kept.
   */
  lemma MapServerItemDefaults(s: ServerItem)
    ensures var l := MapServerItem(Some(s)).value;
      && ToServerItem(l) == s.(completed := Some(s.completed == Some(true)), aiPriority := Some(s.aiPriority.GetOr(0)))
      && (l.completed <==> s.completed == Some(true))
      && (s.aiPriority.None? ==> l.aiPriority == 0)
      && (s.aiPriority.Some? ==> l.aiPriority == s.aiPriority.value)
  {
  }

  // ---------------------------------------------------------------------------------------------
  // The HTTP exchange

  datatype Request =
    | AddRequest(task: string, date: string)
    | ListRequest
    | MarkRequest(id: string, completed: bool)
    | DeleteRequest(id: string)

  /** The body of a failed response: JSON, possibly with an `error` field, or not JSON at all. */
  datatype ErrorBody = ErrorJson(error: Option<string>) | NotJson

  /** What one `fetch` gives back: a thrown error, a non-2xx response, or a 2xx body. */
  datatype Exchange<T> = Thrown(message: string) | Failed(status: int, errorBody: ErrorBody) | Succeeded(body: T)

  /** The body of a successful list request: an array (whose elements may be null), or anything else. */
  datatype ListBody = ArrayBody(items: seq<Option<ServerItem>>) | NotArray

  /** The Authorization header the service sends. */
  function AuthHeader(token: string): string {
    "Bearer " + token
  }

  /** The backend reads back the token the service sent, when the token holds no space. */
  lemma AuthHeaderRoundTrip(token: string)
    requires ' ' !in token
    ensures StartsWith(AuthHeader(token), AuthMiddleware.BearerPrefix)
    ensures AuthMiddleware.Token(AuthHeader(token)) == token
  {
    var h := AuthHeader(token);
    assert h[..7] == "Bearer ";
    AuthMiddleware.TokenIsFirstWord(h);
    assert h[7..] == token;
    BeforeWithoutSeparator(token, ' ');
  }

  lemma {:induction false} BeforeWithoutSeparator(s: string, sep: char)
    requires sep !in s
    ensures Before(s, sep) == s
    decreases |s|
  {
    if |s| > 0 {
      assert sep !in s[1..] by { assert forall c :: c in s[1..] ==> c in s; }
      BeforeWithoutSeparator(s[1..], sep);
    }
  }

  /** JavaScript truthiness of an optional string: null, undefined and "" are falsy. */
  predicate Present(s: Option<string>) {
    s.Some? && |s.value| > 0
  }

  /** `errorData.error || fallback`, where a body that is not JSON reads as `{error: 'Unknown error'}`. */
  function ErrorText(body: ErrorBody, fallback: string): string {
    match body
    case NotJson => "Unknown error"
    case ErrorJson(e) => if Present(e) then e.value else fallback
  }

  /** The message of the error thrown for a non-2xx response. */
  function HttpError(status: int, body: ErrorBody, fallback: string): string {
    "HTTP " + IntToString(status) + ": " + ErrorText(body, fallback)
  }

  /** A thrown error's message, or the mapped item of a 2xx response. */
  function ItemResult(x: Exchange<Option<ServerItem>>, fallback: string): Result<LocalItem, string> {
    match x
    case Thrown(m) => Err(m)
    case Failed(status, body) => Err(HttpError(status, body, fallback))
    case Succeeded(item) => MapServerItem(item)
  }

  /** `addItemToServer(task, date, token)`; `date` is the date field's text, "" when empty. */
  function AddItem(task: string, date: string, token: Option<string>,
                   send: (Request, string) -> Exchange<Option<ServerItem>>): (r: Result<LocalItem, string>)
    ensures !Present(token) ==> r == Err(NoTokenMessage)
    ensures Present(token) ==> var x := send(AddRequest(task, date), AuthHeader(token.value));
      && (r.Ok? <==> x.Succeeded? && x.body.Some?)
      && (x.Thrown? ==> r == Err(x.message))
      && (x.Failed? ==> r == Err(HttpError(x.status, x.errorBody, "Failed to add item")))
      && (x == Succeeded(None) ==> r == Err(NullItemMessage))
      && (r.Ok? ==> MapServerItem(x.body) == r)
  {
    if !Present(token) then Err(NoTokenMessage)
    else ItemResult(send(AddRequest(task, date), AuthHeader(token.value)), "Failed to add item")
  }

  /**
   * `getItemsFromServer(token)`: every failure (no token, a thrown or failed request, a body that
   * is not an array, a null element) gives the empty list; otherwise each element is mapped.
   */
  function GetItems(token: Option<string>, send: (Request, string) -> Exchange<ListBody>): (r: seq<LocalItem>)
    ensures !Present(token) ==> r == []
    ensures Present(token) ==>
      match send(ListRequest, AuthHeader(token.value))
      case Succeeded(ArrayBody(xs)) =>
        if forall k :: 0 <= k < |xs| ==> xs[k].Some? then
          |r| == |xs| && forall k :: 0 <= k < |xs| ==> Ok(r[k]) == MapServerItem(xs[k])
        else r == []
      case _ => r == []
  {
    if !Present(token) then []
    else
      match send(ListRequest, AuthHeader(token.value))
      case Succeeded(ArrayBody(xs)) => MapAll(xs).GetOr([])
      case _ => []
  }

  /** `data.map(mapServerItemToLocalItem)`, None when some element throws. */
  function MapAll(xs: seq<Option<ServerItem>>): (r: Option<seq<LocalItem>>)
    ensures r.Some? <==> forall k :: 0 <= k < |xs| ==> xs[k].Some?
    ensures r.Some? ==> |r.value| == |xs| && forall k :: 0 <= k < |xs| ==> Ok(r.value[k]) == MapServerItem(xs[k])
  {
    if |xs| == 0 then Some([])
    else
      match MapServerItem(xs[0])
      case Err(_) => None
      case Ok(l) =>
        match MapAll(xs[1..])
        case None => None
        case Some(rest) => Some([l] + rest)
  }

  /** `markItemCompletedOnServer(id, token, completed)`: the token is checked before the id. */
  function MarkItem(id: Option<string>, token: Option<string>, completed: bool,
                    send: (Request, string) -> Exchange<Option<ServerItem>>): (r: Result<LocalItem, string>)
    ensures !Present(token) ==> r == Err(NoTokenMessage)
    ensures Present(token) && !Present(id) ==> r == Err(NoIdMessage)
    ensures Present(token) && Present(id) ==> var x := send(MarkRequest(id.value, completed), AuthHeader(token.value));
      && (r.Ok? <==> x.Succeeded? && x.body.Some?)
      && (x.Thrown? ==> r == Err(x.message))
      && (x.Failed? ==> r == Err(HttpError(x.status, x.errorBody, "Failed to update item")))
      && (x == Succeeded(None) ==> r == Err(NullItemMessage))
      && (r.Ok? ==> MapServerItem(x.body) == r)
  {
    if !Present(token) then Err(NoTokenMessage)
    else if !Present(id) then Err(NoIdMessage)
    else ItemResult(send(MarkRequest(id.value, completed), AuthHeader(token.value)), "Failed to update item")
  }

  /** `deleteItemFromServer(id, token)`: resolves to the id it was given. */
  function DeleteItem(id: Option<string>, token: Option<string>,
                      send: (Request, string) -> Exchange<()>): (r: Result<string, string>)
    ensures !Present(token) ==> r == Err(NoTokenMessage)
    ensures Present(token) && !Present(id) ==> r == Err(NoIdMessage)
    ensures r.Ok? ==> Present(id) && r.value == id.value
    ensures Present(token) && Present(id) ==> var x := send(DeleteRequest(id.value), AuthHeader(token.value));
      && (r.Ok? <==> x.Succeeded?)
      && (x.Thrown? ==> r == Err(x.message))
      && (x.Failed? ==> r == Err(HttpError(x.status, x.errorBody, "Failed to delete item")))
  {
    if !Present(token) then Err(NoTokenMessage)
    else if !Present(id) then Err(NoIdMessage)
    else
      match send(DeleteRequest(id.value), AuthHeader(token.value))
      case Thrown(m) => Err(m)
      case Failed(status, body) => Err(HttpError(status, body, "Failed to delete item"))
      case Succeeded(_) => Ok(id.value)
  }

  /** Without a token no call sends a request: the result is the same whatever the network does. */
  lemma NoTokenNoRequest(task: string, date: string, id: Option<string>, completed: bool, token: Option<string>,
                         itemSend1: (Request, string) -> Exchange<Option<ServerItem>>,
                         itemSend2: (Request, string) -> Exchange<Option<ServerItem>>,
                         listSend1: (Request, string) -> Exchange<ListBody>,
                         listSend2: (Request, string) -> Exchange<ListBody>,
                         deleteSend1: (Request, string) -> Exchange<()>,
                         deleteSend2: (Request, string) -> Exchange<()>)
    requires !Present(token)
    ensures AddItem(task, date, token, itemSend1) == AddItem(task, date, token, itemSend2)
    ensures GetItems(token, listSend1) == GetItems(token, listSend2) == []
    ensures MarkItem(id, token, completed, itemSend1) == MarkItem(id, token, completed, itemSend2)
    ensures DeleteItem(id, token, deleteSend1) == DeleteItem(id, token, deleteSend2)
  {
  }

  /** A failed response's message names the status and the server's error, or a fallback. */
  lemma HttpErrorMessage(status: int, error: string, fallback: string)
    requires |error| > 0
    ensures HttpError(status, ErrorJson(Some(error)), fallback) == "HTTP " + IntToString(status) + ": " + error
    ensures HttpError(status, ErrorJson(None), fallback) == "HTTP " + IntToString(status) + ": " + fallback
    ensures HttpError(status, NotJson, fallback) == "HTTP " + IntToString(status) + ": Unknown error"
  {
  }
}
