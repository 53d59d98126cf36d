/** The authentication handlers: registration, password login, Google sign-in, logout
    and the profile lookup, over the users and sessions tables.
    Token signing (`jwt.sign` with the secret and expiry of the environment) is the
    parameter `sign`, password hashing and comparison (`bcrypt`) the parameters `hash`
    and `compare`, `JWT_EXPIRES_IN` the parameter `minutes` and the clock `now`. */
module AuthController {
  import opened Common
  import opened AuthSchema

  const OK := 200
  const CREATED := 201
  const FOUND := 302
  const BAD_REQUEST := 400
  const UNAUTHORIZED := 401
  const NOT_FOUND := 404
  const CONFLICT := 409
  const SERVER_ERROR := 500

  const VALIDATION_ERROR := "Validation error"
  const USER_EXISTS := "User with this email or username already exists"
  const INVALID_CREDENTIALS := "Invalid email or password"
  const OAUTH_FAILED := "Google OAuth authentication failed"
  const TOKEN_REQUIRED := "Token is required"
  const USER_NOT_FOUND := "User not found"

  datatype User = User(
    id: int, username: string, name: string, email: string, password: string,
    role: string, createdAt: Timestamp)

  datatype Session = Session(
    id: int, userId: int, token: string, expiresAt: Timestamp, isActive: bool,
    updatedAt: Timestamp)

  /** What a token is signed over. */
  datatype Claims = Claims(userId: int, email: string, role: string)

  /** A user as the handlers answer with it: every column except the password. */
  datatype Profile = Profile(
    id: int, username: string, name: string, email: string, role: string, createdAt: Timestamp)

  datatype Cookie = KeepCookie | SetAuthCookie(token: string, maxAge: int) | ClearAuthCookie

  /** The HTTP answer of a handler: the status, the message, the user and token of the
      `data` object, what happens to the `authToken` cookie, and a redirect target. */
  datatype Reply = Reply(
    status: int, message: string, user: Option<Profile>, token: Option<string>,
    cookie: Cookie, location: Option<string>)

  /** The profile of the Google account passport hands over; `None` is an absent list. */
  datatype GoogleProfile = GoogleProfile(
    googleId: string, emails: Option<seq<string>>, displayName: string,
    photos: Option<seq<string>>)

  function Failure(status: int, message: string): Reply
  {
    Reply(status, message, None, None, KeepCookie, None)
  }

  function ProfileOf(u: User): Profile
  {
    Profile(u.id, u.username, u.name, u.email, u.role, u.createdAt)
  }

  // ---------------------------------------------------------------- expiry

  /** The cookie's `maxAge`: `JWT_EXPIRES_IN` minutes in milliseconds. */
  function CookieMaxAge(minutes: int): int
  {
    minutes * 60 * 1000
  }

  /** The `expires_at` of a session opened at `now`. */
  function ExpiresAt(now: Timestamp, minutes: int): (t: Timestamp)
    ensures t - now == CookieMaxAge(minutes)
    ensures t > now <==> minutes > 0
  {
    now + minutes * 60 * 1000
  }

  // ---------------------------------------------------------------- strings

  /** `email.split('@')[0]`: everything before the first `@`. */
  function LocalPart(email: string): (r: string)
    ensures |r| <= |email| && r == email[..|r|]
    ensures '@' !in r
    ensures |r| < |email| ==> email[|r|] == '@'
  {
    if email == [] || email[0] == '@' then []
    else [email[0]] + LocalPart(email[1..])
  }

  /** `s.slice(-n)`: the last `n` characters, or all of `s` when it is shorter. */
  function LastChars(s: string, n: nat): (r: string)
    ensures |r| == if |s| < n then |s| else n
    ensures r == s[|s| - |r|..]
  {
    if |s| < n then s else s[|s| - n..]
  }

  /** The username of an account created on first Google sign-in. */
  function OAuthUsername(email: string, googleId: string): string
  {
    LocalPart(email) + "_" + LastChars(googleId, 4)
  }

  /** The local part of `mailbox@rest` is the mailbox, whatever `rest` holds. */
  lemma {:induction false} LocalPartOf(mailbox: string, rest: string)
    requires '@' !in mailbox
    ensures LocalPart(mailbox + "@" + rest) == mailbox
  {
    if mailbox != [] {
      assert (mailbox + "@" + rest)[1..] == mailbox[1..] + "@" + rest;
      LocalPartOf(mailbox[1..], rest);
    }
  }

  /** The username keeps the mailbox name and the end of the Google id. */
  lemma OAuthUsernameParts(mailbox: string, domain: string, googleId: string)
    requires '@' !in mailbox && |googleId| >= 4
    ensures OAuthUsername(mailbox + "@" + domain, googleId)
      == mailbox + "_" + googleId[|googleId| - 4..]
  {
    LocalPartOf(mailbox, domain);
  }

  /** The `User-Agent` test: a browser is a client naming one of four engines. */
  predicate IsBrowser(userAgent: string)
  {
    Contains(userAgent, "Mozilla") || Contains(userAgent, "Chrome")
      || Contains(userAgent, "Safari") || Contains(userAgent, "Firefox")
  }

  /** `req.headers['user-agent'] || ''`. */
  function UserAgent(header: Option<string>): (ua: string)
    ensures Truthy(header) ==> ua == header.value
    ensures !Truthy(header) ==> ua == ""
  {
    if Truthy(header) then header.value else ""
  }

  /** A text lacking the first character of `sub` does not contain `sub`. */
  lemma FirstCharMissing(s: string, sub: string)
    requires sub != [] && sub[0] !in s
    ensures !Contains(s, sub)
  {
    forall i | 0 <= i <= |s| - |sub| ensures !OccursAt(s, sub, i) {
      assert s[i..i + |sub|][0] == s[i];
    }
  }

  lemma BrowserAgents()
    ensures IsBrowser("Mozilla/5.0 (X11; Linux x86_64)")
    ensures !IsBrowser("curl/8.5.0")
    ensures !IsBrowser(UserAgent(None))
  {
    assert OccursAt("Mozilla/5.0 (X11; Linux x86_64)", "Mozilla", 0);
    var curl := "curl/8.5.0";
    FirstCharMissing(curl, "Mozilla");
    FirstCharMissing(curl, "Chrome");
    FirstCharMissing(curl, "Safari");
    FirstCharMissing(curl, "Firefox");
  }

  /** The index of the first occurrence of `p` in `s` at or after `from`. */
  function FindFrom(s: string, p: string, from: nat): (r: Option<nat>)
    requires from <= |s|
    ensures r.Some? ==> from <= r.value <= |s| - |p| && OccursAt(s, p, r.value)
    ensures r.Some? ==> forall j :: from <= j < r.value ==> !OccursAt(s, p, j)
    ensures r.None? ==> forall j :: from <= j <= |s| - |p| ==> !OccursAt(s, p, j)
    decreases |s| - from
  {
    if |s| - from < |p| then None
    else if OccursAt(s, p, from) then Some(from)
    else if from == |s| then None
    else FindFrom(s, p, from + 1)
  }

  /** `s.replace(p, rep)` with a string pattern: only the first occurrence is replaced. */
  function ReplaceFirst(s: string, p: string, rep: string): (r: string)
    ensures !Contains(s, p) ==> r == s
    ensures StartsWith(s, p) ==> r == rep + s[|p|..]
    ensures Contains(s, p) ==> exists i :: (
      && 0 <= i <= |s| - |p| && OccursAt(s, p, i)
      && (forall j :: 0 <= j < i ==> !OccursAt(s, p, j))
      && r == s[..i] + rep + s[i + |p|..])
  {
    match FindFrom(s, p, 0)
    case None => s
    case Some(i) => s[..i] + rep + s[i + |p|..]
  }

  /** An occurrence that is not at the start is replaced too. */
  lemma ReplaceInside()
    ensures ReplaceFirst("xBearer t", "Bearer ", "") == "xt"
  {
    var h := "xBearer t";
    assert h[0..7][0] == 'x';
    assert h[1..8] == "Bearer ";
    assert h[..1] + "" + h[8..] == "xt";
  }

  /** Stripping the scheme of a well-formed header gives back the token. */
  lemma BearerStripped(token: string)
    ensures ReplaceFirst("Bearer " + token, "Bearer ", "") == token
  {
    var s := "Bearer " + token;
    assert s[..7] == "Bearer ";
    assert s[7..] == token;
  }

  // ---------------------------------------------------------------- tables

  ghost predicate UserIdsAreIndices(users: seq<User>)
  {
    forall i :: 0 <= i < |users| ==> users[i].id == i + 1
  }

  ghost predicate SessionIdsAreIndices(sessions: seq<Session>)
  {
    forall i :: 0 <= i < |sessions| ==> sessions[i].id == i + 1
  }

  /** No two users share an email: registration and Google sign-in both look the email
      up before inserting. */
  ghost predicate UniqueEmails(users: seq<User>)
  {
    forall i, j :: 0 <= i < j < |users| ==> users[i].email != users[j].email
  }

  /** Every session belongs to an existing user. */
  ghost predicate SessionsOfUsers(sessions: seq<Session>, users: seq<User>)
  {
    forall i :: 0 <= i < |sessions| ==> 1 <= sessions[i].userId <= |users|
  }

  /** `SELECT … FROM users WHERE email = $1`, first row. */
  function UserByEmail(users: seq<User>, email: string): (r: Option<nat>)
    ensures r.Some? ==> r.value < |users| && users[r.value].email == email
    ensures r.Some? ==> forall j :: 0 <= j < r.value ==> users[j].email != email
    ensures r.None? <==> forall j :: 0 <= j < |users| ==> users[j].email != email
  {
    if users == [] then None
    else
      var init := users[..|users| - 1];
      var r := UserByEmail(init, email);
      if r.Some? then Some(r.value)
      else if users[|users| - 1].email == email then Some(|users| - 1)
      else None
  }

  /** `WHERE email = $1 OR username = $2` finds a row. */
  predicate Taken(users: seq<User>, email: string, username: string)
  {
    exists i :: 0 <= i < |users| && (users[i].email == email || users[i].username == username)
  }

  /** `UPDATE sessions SET is_active = false … WHERE token = $1 AND is_active = true`. */
  function Invalidated(sessions: seq<Session>, token: string, now: Timestamp): (r: seq<Session>)
    ensures |r| == |sessions|
    ensures forall i :: 0 <= i < |r| ==>
      if sessions[i].token == token && sessions[i].isActive
      then r[i] == sessions[i].(isActive := false, updatedAt := now)
      else r[i] == sessions[i]
  {
    if sessions == [] then []
    else
      var s := sessions[0];
      [if s.token == token && s.isActive then s.(isActive := false, updatedAt := now) else s]
        + Invalidated(sessions[1..], token, now)
  }

  /** After the invalidation no active session carries the token, and every session
      keeps its id, owner, token and expiry. */
  lemma InvalidatedMeaning(sessions: seq<Session>, token: string, now: Timestamp)
    ensures var r := Invalidated(sessions, token, now);
      && (forall i :: 0 <= i < |r| ==> !(r[i].token == token && r[i].isActive))
      && (forall i :: 0 <= i < |r| ==>
            r[i].id == sessions[i].id && r[i].userId == sessions[i].userId
            && r[i].token == sessions[i].token && r[i].expiresAt == sessions[i].expiresAt)
      && (forall i :: 0 <= i < |r| && sessions[i].token != token ==> r[i] == sessions[i])
  {
  }

  /** The token that logout revokes: the Authorization header without its first
      `Bearer `, else `body.token`, else the `authToken` cookie. */
  function LogoutToken(authorization: Option<string>, bodyToken: Option<string>, cookie: Option<string>)
    : (r: Option<string>)
    ensures authorization.Some? && Truthy(Some(ReplaceFirst(authorization.value, "Bearer ", "")))
      ==> r == Some(ReplaceFirst(authorization.value, "Bearer ", ""))
    ensures !(authorization.Some? && Truthy(Some(ReplaceFirst(authorization.value, "Bearer ", ""))))
      ==> r == OrElse(bodyToken, cookie)
  {
    var header := if authorization.Some? then Some(ReplaceFirst(authorization.value, "Bearer ", "")) else None;
    OrElse(OrElse(header, bodyToken), cookie)
  }

  /** A header `Bearer t` wins over the body and the cookie; a header that is only the
      scheme falls through to them. */
  lemma LogoutTokenOrder(token: string, bodyToken: Option<string>, cookie: Option<string>)
    ensures token != "" ==> LogoutToken(Some("Bearer " + token), bodyToken, cookie) == Some(token)
    ensures LogoutToken(Some("Bearer "), bodyToken, cookie) == OrElse(bodyToken, cookie)
    ensures LogoutToken(None, bodyToken, cookie) == OrElse(bodyToken, cookie)
  {
    BearerStripped(token);
    BearerStripped("");
    assert "Bearer " + "" == "Bearer ";
  }

  // ---------------------------------------------------------------- the store

  class AuthStore {
    var users: seq<User>
    var sessions: seq<Session>

    ghost predicate Valid()
      reads this
    {
      && UserIdsAreIndices(users)
      && SessionIdsAreIndices(sessions)
      && UniqueEmails(users)
      && SessionsOfUsers(sessions, users)
    }

    constructor ()
      ensures Valid() && users == [] && sessions == []
    {
      users := [];
      sessions := [];
    }

    /** `createSession`: a new active session expiring `minutes` after `now`. */
    method CreateSession(userId: int, token: string, now: Timestamp, minutes: int)
      returns (id: int)
      requires Valid() && 1 <= userId <= |users|
      modifies this
      ensures Valid()
      ensures users == old(users)
      ensures sessions == old(sessions)
        + [Session(|old(sessions)| + 1, userId, token, ExpiresAt(now, minutes), true, now)]
      ensures id == |sessions|
    {
      id := |sessions| + 1;
      sessions := sessions + [Session(id, userId, token, ExpiresAt(now, minutes), true, now)];
    }

    /** `invalidateSession`: every active session with the token becomes inactive. */
    method InvalidateSession(token: string, now: Timestamp)
      requires Valid()
      modifies this
      ensures Valid()
      ensures users == old(users) && sessions == Invalidated(old(sessions), token, now)
    {
      InvalidatedMeaning(sessions, token, now);
      sessions := Invalidated(sessions, token, now);
    }

    /** Insert a user with the next id. */
    method InsertUser(username: string, name: string, email: string, password: string,
                      role: string, now: Timestamp) returns (u: User)
      requires Valid() && UserByEmail(users, email).None?
      modifies this
      ensures Valid()
      ensures u == User(|old(users)| + 1, username, name, email, password, role, now)
      ensures users == old(users) + [u] && sessions == old(sessions)
    {
      u := User(|users| + 1, username, name, email, password, role, now);
      users := users + [u];
    }

    /** Open a session for user `u` and answer with it, as every successful sign-in does. */
    method SignIn(u: User, status: int, message: string, sign: Claims -> string,
                  now: Timestamp, minutes: int) returns (reply: Reply)
      requires Valid() && 1 <= u.id <= |users|
      modifies this
      ensures Valid() && users == old(users)
      ensures var token := sign(Claims(u.id, u.email, u.role));
        && sessions == old(sessions) + [Session(|old(sessions)| + 1, u.id, token, ExpiresAt(now, minutes), true, now)]
        && reply == Reply(status, message, Some(ProfileOf(u)), Some(token),
                          SetAuthCookie(token, CookieMaxAge(minutes)), None)
    {
      var token := sign(Claims(u.id, u.email, u.role));
      var _ := CreateSession(u.id, token, now, minutes);
      reply := Reply(status, message, Some(ProfileOf(u)), Some(token),
                     SetAuthCookie(token, CookieMaxAge(minutes)), None);
    }

    /** `register`: 400 on a validation error, 409 when the email or the username is
        taken (nothing inserted), otherwise 201, a new USER and a first session. */
    method Register(body: RegisterBody, isEmail: string -> bool, hash: string -> string,
                    sign: Claims -> string, now: Timestamp, minutes: int) returns (reply: Reply)
      requires Valid()
      modifies this
      ensures Valid()
      ensures match ValidateRegister(body, isEmail)
        case None => reply == Failure(BAD_REQUEST, VALIDATION_ERROR) && unchanged(this)
        case Some(v) =>
          if Taken(old(users), v.email, v.username) then
            reply == Failure(CONFLICT, USER_EXISTS) && unchanged(this)
          else
            var u := User(|old(users)| + 1, v.username, v.name, v.email, hash(v.password), USER_ROLE, now);
            var token := sign(Claims(u.id, u.email, USER_ROLE));
            && users == old(users) + [u]
            && sessions == old(sessions) + [Session(|old(sessions)| + 1, u.id, token, ExpiresAt(now, minutes), true, now)]
            && reply == Reply(CREATED, "User registered successfully", Some(ProfileOf(u)), Some(token),
                              SetAuthCookie(token, CookieMaxAge(minutes)), None)
    {
      var v := ValidateRegister(body, isEmail);
      if v.None? {
        return Failure(BAD_REQUEST, VALIDATION_ERROR);
      }
      var value := v.value;
      if Taken(users, value.email, value.username) {
        return Failure(CONFLICT, USER_EXISTS);
      }
      var u := InsertUser(value.username, value.name, value.email, hash(value.password), value.role, now);
      reply := SignIn(u, CREATED, "User registered successfully", sign, now, minutes);
    }

    /** `login`: 400 on a validation error; the same 401 answer whether no user has the
        email or the password does not match; otherwise 200 and a new session. */
    method Login(body: LoginBody, isEmail: string -> bool, compare: (string, string) -> bool,
                 sign: Claims -> string, now: Timestamp, minutes: int) returns (reply: Reply)
      requires Valid()
      modifies this
      ensures Valid() && users == old(users)
      ensures match ValidateLogin(body, isEmail)
        case None => reply == Failure(BAD_REQUEST, VALIDATION_ERROR) && unchanged(this)
        case Some(v) =>
          match UserByEmail(users, v.email)
          case None => reply == Failure(UNAUTHORIZED, INVALID_CREDENTIALS) && unchanged(this)
          case Some(i) =>
            if !compare(v.password, users[i].password) then
              reply == Failure(UNAUTHORIZED, INVALID_CREDENTIALS) && unchanged(this)
            else
              var token := sign(Claims(users[i].id, users[i].email, users[i].role));
              && sessions == old(sessions) + [Session(|old(sessions)| + 1, users[i].id, token, ExpiresAt(now, minutes), true, now)]
              && reply == Reply(OK, "Login successful", Some(ProfileOf(users[i])), Some(token),
                                SetAuthCookie(token, CookieMaxAge(minutes)), None)
    {
      var v := ValidateLogin(body, isEmail);
      if v.None? {
        return Failure(BAD_REQUEST, VALIDATION_ERROR);
      }
      var found := UserByEmail(users, v.value.email);
      if found.None? {
        return Failure(UNAUTHORIZED, INVALID_CREDENTIALS);
      }
      var u := users[found.value];
      if !compare(v.value.password, u.password) {
        return Failure(UNAUTHORIZED, INVALID_CREDENTIALS);
      }
      reply := SignIn(u, OK, "Login successful", sign, now, minutes);
    }

    /** `googleAuth`: 500 when the profile has no email list, no email or no photo list
        (the handler dereferences them); otherwise sign in the user with that email,
        creating a USER named by `OAuthUsername` first when there is none. A browser is
        redirected to `/?token=…`; any other client gets the JSON answer. */
    method GoogleAuth(profile: GoogleProfile, userAgent: Option<string>, hash: string -> string,
                      sign: Claims -> string, now: Timestamp, minutes: int) returns (reply: Reply)
      requires Valid()
      modifies this
      ensures Valid()
      ensures profile.emails.None? || profile.emails.value == [] || profile.photos.None? ==>
        reply == Reply(SERVER_ERROR, OAUTH_FAILED, None, None, KeepCookie, None) && unchanged(this)
      ensures profile.emails.Some? && profile.emails.value != [] && profile.photos.Some? ==>
        var email := profile.emails.value[0];
        var u := match UserByEmail(old(users), email)
          case Some(i) => old(users)[i]
          case None => User(|old(users)| + 1, OAuthUsername(email, profile.googleId),
                            profile.displayName, email, hash(email), USER_ROLE, now);
        var token := sign(Claims(u.id, u.email, u.role));
        && users == (if UserByEmail(old(users), email).Some? then old(users) else old(users) + [u])
        && sessions == old(sessions) + [Session(|old(sessions)| + 1, u.id, token, ExpiresAt(now, minutes), true, now)]
        && reply.cookie == SetAuthCookie(token, CookieMaxAge(minutes))
        && (IsBrowser(UserAgent(userAgent)) ==>
              reply == Reply(FOUND, "", None, None, reply.cookie, Some("/?token=" + token)))
        && (!IsBrowser(UserAgent(userAgent)) ==>
              reply == Reply(OK, "Google OAuth authentication successful", Some(ProfileOf(u)),
                             Some(token), reply.cookie, None))
    {
      if profile.emails.None? || profile.emails.value == [] || profile.photos.None? {
        return Reply(SERVER_ERROR, OAUTH_FAILED, None, None, KeepCookie, None);
      }
      var email := profile.emails.value[0];
      var found := UserByEmail(users, email);
      var u;
      if found.Some? {
        u := users[found.value];
      } else {
        u := InsertUser(OAuthUsername(email, profile.googleId), profile.displayName, email,
                        hash(email), USER_ROLE, now);
      }
      reply := SignIn(u, OK, "Google OAuth authentication successful", sign, now, minutes);
      if IsBrowser(UserAgent(userAgent)) {
        reply := Reply(FOUND, "", None, None, reply.cookie, Some("/?token=" + reply.token.value));
      }
    }

    /** `logout`: 400 without a token; otherwise the token's sessions are revoked, the
        cookie is cleared and the answer is 200, whether or not a session matched. */
    method Logout(authorization: Option<string>, bodyToken: Option<string>, cookie: Option<string>,
                  now: Timestamp) returns (reply: Reply)
      requires Valid()
      modifies this
      ensures Valid() && users == old(users)
      ensures var token := LogoutToken(authorization, bodyToken, cookie);
        && (!Truthy(token) ==> reply == Failure(BAD_REQUEST, TOKEN_REQUIRED) && unchanged(this))
        && (Truthy(token) ==>
              && sessions == Invalidated(old(sessions), token.value, now)
              && reply == Reply(OK, "Logout successful", None, None, ClearAuthCookie, None))
    {
      var token := LogoutToken(authorization, bodyToken, cookie);
      if !Truthy(token) {
        return Failure(BAD_REQUEST, TOKEN_REQUIRED);
      }
      InvalidateSession(token.value, now);
      reply := Reply(OK, "Logout successful", None, None, ClearAuthCookie, None);
    }

    /** `getProfile`: the caller's own row without its password, or 404. */
    method GetProfile(userId: int) returns (reply: Reply)
      requires Valid()
      ensures (reply.status == OK) <==> 1 <= userId <= |users|
      ensures 1 <= userId <= |users| ==>
        reply == Reply(OK, "", Some(ProfileOf(users[userId - 1])), None, KeepCookie, None)
        && users[userId - 1].id == userId
      ensures !(1 <= userId <= |users|) ==>
        reply == Failure(NOT_FOUND, USER_NOT_FOUND) && forall u :: u in users ==> u.id != userId
    {
      if 1 <= userId <= |users| {
        return Reply(OK, "", Some(ProfileOf(users[userId - 1])), None, KeepCookie, None);
      }
      return Failure(NOT_FOUND, USER_NOT_FOUND);
    }
  }

  // ---------------------------------------------------------------- properties

  /** With unique emails, the user a lookup by email finds is the only one with it. */
  lemma UserByEmailUnique(users: seq<User>, email: string, i: nat)
    requires UniqueEmails(users) && i < |users| && users[i].email == email
    ensures UserByEmail(users, email) == Some(i)
  {
  }

  /** Login refuses exactly when no user has both the email and a matching password, so
      its single 401 answer covers the two causes alike. */
  lemma LoginRefusedMeaning(users: seq<User>, v: LoginValue, compare: (string, string) -> bool)
    requires UniqueEmails(users)
    ensures var found := UserByEmail(users, v.email);
      (found.None? || !compare(v.password, users[found.value].password)) <==>
      !(exists i :: 0 <= i < |users| && users[i].email == v.email && compare(v.password, users[i].password))
  {
    var found := UserByEmail(users, v.email);
    forall i | 0 <= i < |users| && users[i].email == v.email
      ensures found == Some(i)
    {
      UserByEmailUnique(users, v.email, i);
    }
  }
}
