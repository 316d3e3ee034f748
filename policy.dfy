/**
 * Who may do what, and how failures become responses: the bearer-token
 * extraction of the `authenticateToken` middleware, the owner-or-admin rule
 * the mutating handlers apply, the error responses with their status codes and
 * messages, and the classification `errorHandler` applies to thrown errors.
 */
module Policy {
  import opened Wrappers
  import opened Strings
  import opened Records

  datatype Resource = PostResource | CommentResource | UserResource
  datatype Action = EditingPost | DeletingPost | DeletingComment

  /** Every error response the API produces. */
  datatype ApiError =
    | ValidationFailed(messages: seq<string>)  // a schema validator failed
    | DuplicateEmail                           // register: the e-mail is already registered
    | EmailExists                              // the unique index rejected a save (code 11000)
    | InvalidId                                // an id that is not an ObjectId (CastError)
    | InvalidCredentials                       // login: unknown e-mail or wrong password
    | TokenRequired                            // no bearer token
    | TokenRejected                            // the token does not verify
    | Forbidden(action: Action)                // the owner-or-admin rule denied a mutation
    | NotFound(what: Resource)
    | Internal                                 // anything else errorHandler sees

  function Status(e: ApiError): (code: nat)
    ensures code == 400 <==> e.ValidationFailed? || e.DuplicateEmail? || e.EmailExists? || e.InvalidId?
    ensures code == 401 <==> e.InvalidCredentials? || e.TokenRequired?
    ensures code == 403 <==> e.TokenRejected? || e.Forbidden?
    ensures code == 404 <==> e.NotFound?
    ensures code == 500 <==> e.Internal?
  {
    match e
    case ValidationFailed(_) => 400
    case DuplicateEmail => 400
    case EmailExists => 400
    case InvalidId => 400
    case InvalidCredentials => 401
    case TokenRequired => 401
    case TokenRejected => 403
    case Forbidden(_) => 403
    case NotFound(_) => 404
    case Internal => 500
  }

  /** The `message` field of the error body. */
  function Message(e: ApiError): string {
    match e
    case ValidationFailed(_) => "Validation Error"
    case DuplicateEmail => "User with this email already exists"
    case EmailExists => "Email already exists"
    case InvalidId => "Invalid ID format"
    case InvalidCredentials => "Invalid email or password"
    case TokenRequired => "Access token required"
    case TokenRejected => "Invalid or expired token"
    case Forbidden(EditingPost) => "You can only edit your own posts"
    case Forbidden(DeletingPost) => "You can only delete your own posts"
    case Forbidden(DeletingComment) => "You can only delete your own comments"
    case NotFound(PostResource) => "Post not found"
    case NotFound(CommentResource) => "Comment not found"
    case NotFound(UserResource) => "User not found"
    case Internal => "Internal server error"
  }

  /** Distinct errors carry distinct messages, except that every validation failure reads the same. */
  lemma MessagesDistinguishErrors(a: ApiError, b: ApiError)
    requires Message(a) == Message(b)
    ensures a == b || (a.ValidationFailed? && b.ValidationFailed?)
  {
    if a.ValidationFailed? || a.DuplicateEmail? || a.EmailExists? || a.InvalidId? || a.InvalidCredentials? || a.TokenRequired? || a.TokenRejected? {
      AccountMessagesDistinct(a, b);
    } else {
      ResourceMessagesDistinct(a, b);
    }
  }

  /** The messages of the validation, sign-up, identifier and token errors determine the error. */
  lemma AccountMessagesDistinct(a: ApiError, b: ApiError)
    requires a.ValidationFailed? || a.DuplicateEmail? || a.EmailExists? || a.InvalidId? || a.InvalidCredentials? || a.TokenRequired? || a.TokenRejected?
    requires Message(a) == Message(b)
    ensures a == b || (a.ValidationFailed? && b.ValidationFailed?)
  {
  }

  /** The messages of the ownership, not-found and internal errors determine the error. */
  lemma ResourceMessagesDistinct(a: ApiError, b: ApiError)
    requires a.Forbidden? || a.NotFound? || a.Internal?
    requires Message(a) == Message(b)
    ensures a == b
  {
  }

  // ----- Authorization -----

  /** The owner-or-admin rule: the requester wrote the resource, or is an administrator. */
  predicate CanMutate(author: nat, who: Claims) {
    author == who.id || who.role == AdminRole
  }

  /** The handlers deny exactly when the author differs and the role is not 'admin'. */
  lemma DenialRule(author: nat, who: Claims)
    ensures !CanMutate(author, who) <==> author != who.id && who.role != AdminRole
  {
  }

  // ----- Authentication -----

  /** `authHeader && authHeader.split(' ')[1]`, where an empty piece counts as no token. */
  function BearerToken(header: Option<string>): (token: Option<string>)
    ensures header.None? ==> token.None?
    ensures token.Some? ==> token.value != [] && ' ' !in token.value
  {
    match header
    case None => None
    case Some(h) =>
      var pieces := Split(h, ' ');
      if |pieces| >= 2 && pieces[1] != [] then Some(pieces[1]) else None
  }

  /** `Authorization: <scheme> <token>[ <anything>]` yields the token. */
  lemma {:induction false} BearerTokenOfHeader(scheme: string, token: string, rest: string)
    requires ' ' !in scheme && ' ' !in token && token != []
    requires rest == [] || rest[0] == ' '
    ensures BearerToken(Some(scheme + " " + token + rest)) == Some(token)
  {
    var h := scheme + " " + token + rest;
    assert h == scheme + [' '] + (token + rest);
    SplitAtSeparator(scheme, ' ', token + rest);
    if rest == [] {
      assert token + rest == token;
      SplitWithoutSeparator(token, ' ');
    } else {
      assert token + rest == token + [' '] + rest[1..];
      SplitAtSeparator(token, ' ', rest[1..]);
    }
  }

  /** Conversely, a token is only found right after the first space, ending at a space or the end. */
  lemma {:induction false} BearerTokenPosition(h: string, token: string)
    requires BearerToken(Some(h)) == Some(token)
    ensures exists k :: 0 <= k && k + 1 + |token| <= |h| && h[k] == ' ' && ' ' !in h[..k]
                        && h[k + 1..k + 1 + |token|] == token
                        && (k + 1 + |token| == |h| || h[k + 1 + |token|] == ' ')
  {
    var pieces := Split(h, ' ');
    assert |pieces| >= 2 && pieces[1] == token;
    JoinSplit(h, ' ');
    var k := |pieces[0]|;
    var tail := if |pieces| == 2 then [] else [' '] + Join(pieces[2..], [' ']);
    assert h == pieces[0] + [' '] + token + tail by {
      if |pieces| > 2 {
        assert pieces[1..][1..] == pieces[2..];
      }
    }
    assert h[..k] == pieces[0];
    assert h[k] == ' ';
    assert h[k + 1..k + 1 + |token|] == token;
    assert k + 1 + |token| == |h| || h[k + 1 + |token|] == tail[0];
  }

  /**
   * The `authenticateToken` middleware: no token is a 401, a token that does
   * not verify is a 403, otherwise the verified claims identify the requester.
   * `verify` stands for signature and expiry checking with the server secret.
   */
  function Authenticate(header: Option<string>, verify: string -> Option<Claims>): (r: Result<Claims, ApiError>)
    ensures r == Err(TokenRequired) <==> BearerToken(header).None?
    ensures r == Err(TokenRejected) <==> BearerToken(header).Some? && verify(BearerToken(header).value).None?
    ensures r.Ok? <==> BearerToken(header).Some? && verify(BearerToken(header).value).Some?
    ensures r.Ok? ==> r.value == verify(BearerToken(header).value).value
    ensures r.Err? ==> Status(r.error) == (if r.error == TokenRequired then 401 else 403)
  {
    match BearerToken(header)
    case None => Err(TokenRequired)
    case Some(t) =>
      match verify(t)
      case None => Err(TokenRejected)
      case Some(claims) => Ok(claims)
  }

  // ----- errorHandler -----

  /** What a handler throws: the error's `name`, its `code`, and the messages of its field errors. */
  datatype Thrown = Thrown(name: string, code: Option<int>, messages: seq<string>)

  /** `errorHandler`: validation errors, duplicate keys and cast errors are 400s; anything else is a generic 500. */
  function Classify(err: Thrown): (e: ApiError)
    ensures Status(e) == 400 <==> err.name == "ValidationError" || err.code == Some(11000) || err.name == "CastError"
    ensures Status(e) == 500 <==> !(err.name == "ValidationError" || err.code == Some(11000) || err.name == "CastError")
    ensures err.name == "ValidationError" ==> e == ValidationFailed(err.messages)
    ensures err.name != "ValidationError" && err.code == Some(11000) ==> e == EmailExists
    ensures err.name != "ValidationError" && err.code != Some(11000) && err.name == "CastError" ==> e == InvalidId
  {
    if err.name == "ValidationError" then ValidationFailed(err.messages)
    else if err.code == Some(11000) then EmailExists
    else if err.name == "CastError" then InvalidId
    else Internal
  }
}
