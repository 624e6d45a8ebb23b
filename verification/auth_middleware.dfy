/**
 * The backend's authentication middleware: it reads a bearer token from the Authorization
 * header, verifies it, looks up the user it names, and either answers 401 or passes the request
 * on with that user. Token verification and the user lookup are oracles.
 */
module AuthMiddleware {
  import opened Wrappers
  import opened JsText

  type UserId = nat

  /** `User.findById(id)`: a user, no user (null), or a thrown error. */
  datatype Lookup = Found(user: UserId) | NotFound | LookupThrew

  /** Exactly one of the two things the middleware can do: answer 401, or call `next()`. */
  datatype Decision = Reject(status: int, error: string) | Proceed(user: UserId)

  const BearerPrefix: string := "Bearer "

  /** `authHeader.split(" ")[1]`, for a header that starts with "Bearer ". */
  function Token(header: string): (token: string)
    requires StartsWith(header, BearerPrefix)
    ensures ' ' !in token
  {
    assert header == "Bearer" + [' '] + header[7..];
    SplitSecond("Bearer", ' ', header[7..]);
    Split(header, ' ')[1]
  }

  /** The token is the text after "Bearer " up to the next space. */
  lemma TokenIsFirstWord(header: string)
    requires StartsWith(header, BearerPrefix)
    ensures Token(header) == Before(header[7..], ' ')
  {
    assert header == "Bearer" + [' '] + header[7..];
    SplitSecond("Bearer", ' ', header[7..]);
  }

  /** Two consequences: only the first word is read, and a doubled space gives an empty token. */
  lemma TokenExamples()
    ensures Token("Bearer a b") == "a"
    ensures Token("Bearer  x") == ""
  {
    TokenIsFirstWord("Bearer a b");
    assert "Bearer a b"[7..] == "a" + [' '] + "b";
    assert Before("a b", ' ') == "a";
    TokenIsFirstWord("Bearer  x");
    assert "Bearer  x"[7..] == " x";
  }

  /**
   * The middleware on the Authorization header (None when absent). `verify` is
   * `jwt.verify(token, secret).id`, None when verification throws; `lookup` is the user query.
   */
  function Authenticate(header: Option<string>, verify: string -> Option<UserId>, lookup: UserId -> Lookup): (d: Decision)
    ensures d.Reject? ==> d.status == 401
    ensures header.None? || !StartsWith(header.value, BearerPrefix) ==> d == Reject(401, "No token provided")
    ensures d.Proceed? <==>
      && header.Some? && StartsWith(header.value, BearerPrefix)
      && verify(Token(header.value)).Some?
      && lookup(verify(Token(header.value)).value).Found?
    ensures d.Proceed? ==> lookup(verify(Token(header.value)).value) == Found(d.user)
  {
    if header.None? || |header.value| == 0 || !StartsWith(header.value, BearerPrefix) then
      Reject(401, "No token provided")
    else
      match verify(Token(header.value))
      case None => Reject(401, "Token verification failed")
      case Some(id) =>
        match lookup(id)
        case LookupThrew => Reject(401, "Token verification failed")
        case NotFound => Reject(401, "Invalid token")
        case Found(user) => Proceed(user)
  }

  /** The three 401 answers after a well-formed header, each tied to the step that failed. */
  lemma AuthenticateFailures(header: string, verify: string -> Option<UserId>, lookup: UserId -> Lookup)
    requires StartsWith(header, BearerPrefix)
    ensures verify(Token(header)).None? ==>
      Authenticate(Some(header), verify, lookup) == Reject(401, "Token verification failed")
    ensures verify(Token(header)).Some? && lookup(verify(Token(header)).value) == LookupThrew ==>
      Authenticate(Some(header), verify, lookup) == Reject(401, "Token verification failed")
    ensures verify(Token(header)).Some? && lookup(verify(Token(header)).value) == NotFound ==>
      Authenticate(Some(header), verify, lookup) == Reject(401, "Invalid token")
  {
  }

  /** The prefix test is exact: another case or a missing space is refused before verification. */
  lemma PrefixIsCaseSensitive(verify: string -> Option<UserId>, lookup: UserId -> Lookup)
    ensures Authenticate(Some("bearer abc"), verify, lookup) == Reject(401, "No token provided")
    ensures Authenticate(Some("Bearer"), verify, lookup) == Reject(401, "No token provided")
  {
    assert "bearer abc"[0] != BearerPrefix[0];
  }
}
