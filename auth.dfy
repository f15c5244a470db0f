/** The authentication layer of src/auth/index.ts: the bearer-token
    middleware isAuthorised, the login handler, and the helpers they use.
    The JSON web token library (sign, verify), bcrypt's compare and the user
    query are foreign calls; the model takes each as a function parameter
    whose result either returns or throws. */
module Auth {
  import opened JsValues
  import opened Express

  /** A row of the users table, password hash included (`SELECT *`). */
  datatype User = User(username: string, name: string, avatar_url: string, password: string)

  /** The parts of an Express request these handlers read and write. */
  datatype Request = Request(authorization: Option<string>, body: Row, user: Option<User>)

  /** What isAuthorised does with a request: it answers it, or it attaches the
      user and calls `next` with the updated request. */
  datatype AuthOutcome = Reject(reply: Reply) | Next(req: Request)

  /** What login does: it answers, or an exception escapes the async handler
      and no answer is sent. */
  datatype LoginOutcome = Replied(reply: Reply) | NoReply

  /** `jwt.verify(token, SECRET)`: the decoded payload, or an exception. */
  type Verifier = JsValue -> Thrown<JsValue>
  /** `jwt.sign(payload, SECRET)`: a token, or an exception. */
  type Signer = JsValue -> Thrown<string>
  /** `SELECT * FROM users WHERE username = $1`: the rows, or an exception. */
  type UserQuery = JsValue -> Thrown<seq<User>>
  /** `bcrypt.compare(password, hash)`: whether they match, or an exception. */
  type Comparer = (JsValue, string) -> Thrown<bool>

  // ---------------------------------------------------------------------------
  // String.prototype.split with a one-character separator

  /** `s.split(c)`: the maximal pieces of `s` between occurrences of `c`. */
  function Split(s: string, c: char): (parts: seq<string>)
    ensures |parts| >= 1
    ensures forall i :: 0 <= i < |parts| ==> c !in parts[i]
    ensures c !in s ==> parts == [s]
    ensures c in s ==> |parts| >= 2
    decreases |s|
  {
    if s == [] then [""]
    else
      var rest := Split(s[1..], c);
      assert c !in s ==> c !in s[1..] && [s[0]] + s[1..] == s;
      if s[0] == c then [""] + rest else [[s[0]] + rest[0]] + rest[1..]
  }

  /** `parts.join(c)` */
  function Join(parts: seq<string>, c: char): string
    requires |parts| >= 1
    decreases |parts|
  {
    if |parts| == 1 then parts[0] else parts[0] + [c] + Join(parts[1..], c)
  }

  /** Splitting and joining again gives back the original string. */
  lemma {:induction false} JoinSplit(s: string, c: char)
    ensures Join(Split(s, c), c) == s
    decreases |s|
  {
    if s != [] {
      var rest := Split(s[1..], c);
      JoinSplit(s[1..], c);
      if s[0] == c {
        assert Split(s, c) == [""] + rest;
        assert ([""] + rest)[1..] == rest;
      } else {
        var parts := [[s[0]] + rest[0]] + rest[1..];
        assert Split(s, c) == parts;
        if |rest| == 1 {
          assert Join(parts, c) == [s[0]] + rest[0];
        } else {
          assert parts[1..] == rest[1..];
          assert Join(rest, c) == rest[0] + [c] + Join(rest[1..], c);
        }
      }
    }
  }

  /** Joining pieces that do not contain the separator and splitting again
      gives back the pieces. */
  lemma {:induction false} SplitJoin(parts: seq<string>, c: char)
    requires |parts| >= 1
    requires forall i :: 0 <= i < |parts| ==> c !in parts[i]
    ensures Split(Join(parts, c), c) == parts
    decreases |parts|
  {
    if |parts| > 1 {
      SplitJoin(parts[1..], c);
      SplitPrefix(parts[0], Join(parts[1..], c), c);
      assert [parts[0]] + parts[1..] == parts;
    }
  }

  /** Splitting `p + c + t`, where `p` has no `c`, puts `p` in front of the
      pieces of `t`. */
  lemma {:induction false} SplitPrefix(p: string, t: string, c: char)
    requires c !in p
    ensures Split(p + [c] + t, c) == [p] + Split(t, c)
    decreases |p|
  {
    if p == [] {
      assert p + [c] + t == [c] + t;
      assert ([c] + t)[1..] == t;
    } else {
      assert (p + [c] + t)[1..] == p[1..] + [c] + t;
      SplitPrefix(p[1..], t, c);
      assert [p[0]] + p[1..] == p;
    }
  }

  // ---------------------------------------------------------------------------
  // Helpers of src/auth/index.ts

  /** `authHeader.split(' ')[1]`: the second space-separated piece, or
      undefined when the header has no space. */
  function TokenFromHeader(header: string): (token: JsValue)
    ensures ' ' !in header <==> token == Undefined
    ensures token.Undefined? || token.Str?
  {
    var parts := Split(header, ' ');
    if |parts| > 1 then Str(parts[1]) else Undefined
  }

  /** Whatever the scheme word `p` before the first space, the token is what
      follows that space up to the next one (empty when two spaces follow
      each other). */
  lemma TokenAfterPrefix(p: string, t: string)
    requires ' ' !in p
    ensures TokenFromHeader(p + " " + t) == Str(Split(t, ' ')[0])
  {
    assert p + " " + t == p + [' '] + t;
    SplitPrefix(p, t, ' ');
  }

  /** `Bearer <token>` yields the token, for any token without a space. */
  lemma BearerToken(t: string)
    requires ' ' !in t
    ensures TokenFromHeader("Bearer " + t) == Str(t)
  {
    assert ' ' !in "Bearer";
    assert "Bearer " + t == "Bearer" + " " + t;
    TokenAfterPrefix("Bearer", t);
  }

  /** verifyToken: the decoded payload, and null whenever verification throws. */
  function VerifyToken(verify: Verifier, token: JsValue): (decoded: JsValue)
    ensures verify(token).Threw? ==> decoded == Null
    ensures verify(token).Returned? ==> decoded == verify(token).value
  {
    match verify(token)
    case Returned(payload) => payload
    case Threw => Null
  }

  /** getUserWithPasswordByUsername: `rows[0] || null`, rethrowing a query error. */
  function GetUserWithPasswordByUsername(query: UserQuery, username: JsValue): (r: Thrown<Option<User>>)
    ensures r.Threw? <==> query(username).Threw?
    ensures r.Returned? ==> (r.value.Some? <==> |query(username).value| > 0)
    ensures r.Returned? && r.value.Some? ==> r.value.value == query(username).value[0]
  {
    match query(username)
    case Threw => Threw
    case Returned(rows) => if |rows| > 0 then Returned(Some(rows[0])) else Returned(None)
  }

  /** createToken: the token signs a payload holding the username and nothing else. */
  function TokenPayload(user: User): (payload: JsValue)
    ensures payload.Obj? && payload.props.Keys == {"username"}
    ensures payload.props["username"] == Str(user.username)
  {
    Obj(map["username" := Str(user.username)])
  }

  /** Two users get the same token payload exactly when their usernames agree:
      name, avatar and password hash never enter the token. */
  lemma TokenPayloadOnlyUsername(u1: User, u2: User)
    ensures TokenPayload(u1) == TokenPayload(u2) <==> u1.username == u2.username
  {
    if TokenPayload(u1) == TokenPayload(u2) {
      assert TokenPayload(u1).props["username"] == TokenPayload(u2).props["username"];
    }
  }

  // ---------------------------------------------------------------------------
  // The middleware

  const NoTokenProvided: Reply := Reply(Num(403), MsgBody(Str("No token provided")))
  const FailedToAuthenticate: Reply := Reply(Num(403), Str("Failed to authenticate token"))
  const UserNotFound: Reply := Reply(Num(403), Str("User not found"))
  const ServerError: Reply := Reply(Num(500), Str("Server error"))

  /** `!req.headers.authorization` is false: a non-empty header is present. */
  predicate HasHeader(req: Request) {
    req.authorization.Some? && req.authorization.value != ""
  }

  /** The payload the header's token decodes to (null when it does not). */
  function Decoded(req: Request, verify: Verifier): JsValue
    requires HasHeader(req)
  {
    VerifyToken(verify, TokenFromHeader(req.authorization.value))
  }

  /** `decoded.username`, for a decoded payload (never null or undefined). */
  function UsernameOf(decoded: JsValue): JsValue
    requires Truthy(decoded)
  {
    Prop(decoded, "username").value
  }

  /** isAuthorised, as an early-return chain: no header, a token that does not
      verify, an unknown user, a failing query, or else attach and continue. */
  function IsAuthorised(req: Request, verify: Verifier, query: UserQuery): (r: AuthOutcome)
    ensures !HasHeader(req) ==> r == Reject(NoTokenProvided)
    ensures HasHeader(req) && !Truthy(Decoded(req, verify)) ==> r == Reject(FailedToAuthenticate)
    ensures r.Next? <==>
              HasHeader(req) && Truthy(Decoded(req, verify))
              && query(UsernameOf(Decoded(req, verify))).Returned?
              && |query(UsernameOf(Decoded(req, verify))).value| > 0
    ensures r.Next? ==> r.req == req.(user := Some(query(UsernameOf(Decoded(req, verify))).value[0]))
    ensures r.Reject? && r.reply.status == Num(500) <==>
              HasHeader(req) && Truthy(Decoded(req, verify))
              && query(UsernameOf(Decoded(req, verify))).Threw?
    ensures HasHeader(req) && Truthy(Decoded(req, verify))
            && query(UsernameOf(Decoded(req, verify))) == Returned([])
            ==> r == Reject(UserNotFound)
  {
    if !HasHeader(req) then Reject(NoTokenProvided)
    else
      var token := TokenFromHeader(req.authorization.value);
      var decoded := VerifyToken(verify, token);
      if !Truthy(decoded) then Reject(FailedToAuthenticate)
      else
        match GetUserWithPasswordByUsername(query, UsernameOf(decoded))
        case Threw => Reject(ServerError)
        case Returned(None) => Reject(UserNotFound)
        case Returned(Some(user)) => Next(req.(user := Some(user)))
  }

  /** Without a header neither the verifier nor the query is consulted: the
      outcome is the same whatever they would do. */
  lemma NoHeaderConsultsNothing(req: Request, v1: Verifier, v2: Verifier, q1: UserQuery, q2: UserQuery)
    requires !HasHeader(req)
    ensures IsAuthorised(req, v1, q1) == IsAuthorised(req, v2, q2)
  {
  }

  /** A token that does not verify is rejected without a user lookup. */
  lemma BadTokenConsultsNoQuery(req: Request, verify: Verifier, q1: UserQuery, q2: UserQuery)
    requires HasHeader(req) && !Truthy(Decoded(req, verify))
    ensures IsAuthorised(req, verify, q1) == IsAuthorised(req, verify, q2) == Reject(FailedToAuthenticate)
  {
  }

  /** A header without a space carries no token; the outcome is then what
      the verifier makes of `undefined`. */
  lemma HeaderWithoutSpace(req: Request, verify: Verifier, query: UserQuery)
    requires HasHeader(req) && ' ' !in req.authorization.value
    requires verify(Undefined).Threw?
    ensures IsAuthorised(req, verify, query) == Reject(FailedToAuthenticate)
  {
  }

  /** Every rejection is a 403 or a 500, and only a query failure gives 500. */
  lemma RejectStatuses(req: Request, verify: Verifier, query: UserQuery)
    ensures var r := IsAuthorised(req, verify, query);
            r.Reject? ==> r.reply.status == Num(403) || r.reply == ServerError
  {
  }

  // ---------------------------------------------------------------------------
  // Reading the attached user

  /** userFromRequest: the attached user, or an exception when there is none. */
  function UserFromRequest(req: Request): (r: Thrown<User>)
    ensures r.Threw? <==> req.user.None?
    ensures r.Returned? ==> Some(r.value) == req.user
  {
    match req.user
    case None => Threw
    case Some(user) => Returned(user)
  }

  /** Downstream of a successful isAuthorised, userFromRequest returns exactly
      the user the query found for the token's username. */
  lemma AuthorisedUserIsLookedUp(req: Request, verify: Verifier, query: UserQuery)
    requires IsAuthorised(req, verify, query).Next?
    ensures UserFromRequest(IsAuthorised(req, verify, query).req)
            == Returned(query(UsernameOf(Decoded(req, verify))).value[0])
  {
  }

  // ---------------------------------------------------------------------------
  // Login

  const InvalidCredentials: Reply := Reply(Num(401), Str("Invalid credentials"))

  /** The reply carrying an issued token: `res.send({ token })`. */
  function TokenReply(token: string): Reply {
    Reply(Num(200), Obj(map["token" := Str(token)]))
  }

  /** login: look the user up, compare the password, sign a token. An unknown
      user and a wrong password get the same 401; an exception from any foreign
      call escapes and nothing is sent. */
  function Login(req: Request, query: UserQuery, compare: Comparer, sign: Signer): (r: LoginOutcome)
    ensures var found := GetUserWithPasswordByUsername(query, Get(req.body, "username"));
            r.Replied? && r.reply.status == Num(200) <==>
              found.Returned? && found.value.Some?
              && compare(Get(req.body, "password"), found.value.value.password) == Returned(true)
              && sign(TokenPayload(found.value.value)).Returned?
    ensures var found := GetUserWithPasswordByUsername(query, Get(req.body, "username"));
            r.Replied? && r.reply.status == Num(200) ==>
              r.reply == TokenReply(sign(TokenPayload(found.value.value)).value)
    ensures r.Replied? ==> r.reply == InvalidCredentials || r.reply.status == Num(200)
    ensures var found := GetUserWithPasswordByUsername(query, Get(req.body, "username"));
            found.Returned? && found.value.None? ==> r == Replied(InvalidCredentials)
    ensures var found := GetUserWithPasswordByUsername(query, Get(req.body, "username"));
            found.Returned? && found.value.Some?
            && compare(Get(req.body, "password"), found.value.value.password) == Returned(false)
            ==> r == Replied(InvalidCredentials)
    ensures var found := GetUserWithPasswordByUsername(query, Get(req.body, "username"));
            r.NoReply? <==>
              found.Threw?
              || (found.value.Some? && compare(Get(req.body, "password"), found.value.value.password).Threw?)
              || (found.value.Some? && compare(Get(req.body, "password"), found.value.value.password) == Returned(true)
                  && sign(TokenPayload(found.value.value)).Threw?)
  {
    var username := Get(req.body, "username");
    var password := Get(req.body, "password");
    match GetUserWithPasswordByUsername(query, username)
    case Threw => NoReply
    case Returned(None) => Replied(InvalidCredentials)
    case Returned(Some(user)) =>
      match compare(password, user.password)
      case Threw => NoReply
      case Returned(passwordValid) =>
        if !passwordValid then Replied(InvalidCredentials)
        else
          match sign(TokenPayload(user))
          case Threw => NoReply
          case Returned(token) => Replied(TokenReply(token))
  }

  /** An unknown user and a wrong password are indistinguishable to the client. */
  lemma LoginFailuresAlike(req1: Request, req2: Request, query: UserQuery, compare: Comparer, sign: Signer)
    requires query(Get(req1.body, "username")) == Returned([])
    requires var rows := query(Get(req2.body, "username"));
             rows.Returned? && |rows.value| > 0
             && compare(Get(req2.body, "password"), rows.value[0].password) == Returned(false)
    ensures Login(req1, query, compare, sign) == Login(req2, query, compare, sign) == Replied(InvalidCredentials)
  {
  }

  /** A successful login signs the found user's username and nothing else. */
  lemma LoginSignsUsernameOnly(req: Request, query: UserQuery, compare: Comparer, sign: Signer)
    requires var r := Login(req, query, compare, sign); r.Replied? && r.reply.status == Num(200)
    ensures var user := query(Get(req.body, "username")).value[0];
            Login(req, query, compare, sign) == Replied(TokenReply(sign(TokenPayload(user)).value))
            && TokenPayload(user).props.Keys == {"username"}
  {
  }
}
